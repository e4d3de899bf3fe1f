/** The bounded indexing queue, its workers and its shutdown, as a machine over atomic steps.

    Any number of Enqueue and Shutdown calls interleave with a fixed pool of workers. The
    read-write lock is modelled by who holds it; the history fields accepted, taken and finished
    only record what happened. */
module Worker {
  import opened Wrappers

  type Id = string

  /** An Enqueue call: before its lock, holding it, having read the flag as open, answered, returned. */
  datatype Sender = Offered(id: Id) | Locked(id: Id) | Cleared(id: Id) | Answered(id: Id, ok: bool)
                  | Gone(id: Id, ok: bool)
  {
    predicate Holds() { Locked? || Cleared? || Answered? }
    predicate Said(yes: bool) { (Answered? || Gone?) && ok == yes }
  }

  /** A Shutdown call. A timeout returns false. */
  datatype Closer = Asked | Holding | Marked | Sealing | Waiting | Returned(drained: bool)
  {
    predicate Holds() { Holding? || Marked? || Sealing? }
    predicate PastClose() { Sealing? || Waiting? || Returned? }
  }

  datatype Worker = Receiving | Busy(id: Id) | Leaving | Done

  datatype State = State(
    cap: nat,
    senders: map<nat, Sender>,
    closers: map<nat, Closer>,
    workers: seq<Worker>,
    readers: set<nat>,       // Enqueue calls holding the lock for reading
    writer: Option<nat>,     // the Shutdown call holding it for writing
    closed: bool,            // the flag
    sealed: bool,            // the channel is closed
    jobs: seq<Id>,
    wg: int,
    closes: nat,
    panicked: bool,
    accepted: seq<Id>,
    taken: seq<Id>,
    finished: multiset<Id>)

  function Init(cap: nat, n: nat): State {
    State(cap, map[], map[], seq(n, i => Receiving), {}, None, false, false, [], n, 0, false, [], [], multiset{})
  }

  datatype Action =
    | Call(t: nat, id: Id) | RLock(t: nat) | ReadFlag(t: nat) | Send(t: nat) | RUnlock(t: nat)
    | Ask(s: nat) | Lock(s: nat) | Mark(s: nat) | CloseJobs(s: nat) | Unlock(s: nat) | Return(s: nat) | Expire(s: nat)
    | Take(w: nat) | Finish(w: nat) | EndRange(w: nat) | Leave(w: nat)

  predicate IsWorkerStep(a: Action) {
    a.Take? || a.Finish? || a.EndRange? || a.Leave?
  }

  predicate Enabled(s: State, a: Action) {
    !s.panicked &&
    match a
    case Call(t, _) => t !in s.senders
    case RLock(t) => t in s.senders && s.senders[t].Offered? && s.writer == None
    case ReadFlag(t) => t in s.senders && s.senders[t].Locked?
    case Send(t) => t in s.senders && s.senders[t].Cleared?
    case RUnlock(t) => t in s.senders && s.senders[t].Answered?
    case Ask(c) => c !in s.closers
    case Lock(c) => c in s.closers && s.closers[c].Asked? && s.writer == None && s.readers == {}
    case Mark(c) => c in s.closers && s.closers[c].Holding?
    case CloseJobs(c) => c in s.closers && s.closers[c].Marked?
    case Unlock(c) => c in s.closers && s.closers[c].Sealing?
    case Return(c) => c in s.closers && s.closers[c].Waiting? && s.wg == 0
    case Expire(c) => c in s.closers && s.closers[c].Waiting?
    case Take(w) => w < |s.workers| && s.workers[w].Receiving? && s.jobs != []
    case Finish(w) => w < |s.workers| && s.workers[w].Busy?
    case EndRange(w) => w < |s.workers| && s.workers[w].Receiving? && s.jobs == [] && s.sealed
    case Leave(w) => w < |s.workers| && s.workers[w].Leaving?
  }

  function Apply(s: State, a: Action): State
    requires Enabled(s, a)
  {
    match a
    case Call(t, id) => s.(senders := s.senders[t := Offered(id)])
    case RLock(t) => s.(senders := s.senders[t := Locked(s.senders[t].id)], readers := s.readers + {t})
    case ReadFlag(t) =>
      var id := s.senders[t].id;
      s.(senders := s.senders[t := if s.closed then Answered(id, false) else Cleared(id)])
    case Send(t) =>
      var id := s.senders[t].id;
      if s.sealed then s.(panicked := true)
      else if |s.jobs| < s.cap then
        s.(senders := s.senders[t := Answered(id, true)], jobs := s.jobs + [id], accepted := s.accepted + [id])
      else s.(senders := s.senders[t := Answered(id, false)])
    case RUnlock(t) =>
      s.(senders := s.senders[t := Gone(s.senders[t].id, s.senders[t].ok)], readers := s.readers - {t})
    case Ask(c) => s.(closers := s.closers[c := Asked])
    case Lock(c) => s.(closers := s.closers[c := Holding], writer := Some(c))
    case Mark(c) =>
      if s.closed then s.(closers := s.closers[c := Sealing])
      else s.(closers := s.closers[c := Marked], closed := true)
    case CloseJobs(c) =>
      if s.sealed then s.(panicked := true)
      else s.(closers := s.closers[c := Sealing], sealed := true, closes := s.closes + 1)
    case Unlock(c) => s.(closers := s.closers[c := Waiting], writer := None)
    case Return(c) => s.(closers := s.closers[c := Returned(true)])
    case Expire(c) => s.(closers := s.closers[c := Returned(false)])
    case Take(w) =>
      s.(workers := s.workers[w := Busy(s.jobs[0])], jobs := s.jobs[1..], taken := s.taken + [s.jobs[0]])
    case Finish(w) =>
      s.(workers := s.workers[w := Receiving], finished := s.finished + multiset{s.workers[w].id})
    case EndRange(w) => s.(workers := s.workers[w := Leaving])
    case Leave(w) => s.(workers := s.workers[w := Done], wg := s.wg - 1)
  }

  /** The state after the steps, if each is enabled when its turn comes. */
  function Run(s: State, steps: seq<Action>): Option<State> {
    if steps == [] then Some(s)
    else
      var t := Run(s, steps[..|steps| - 1]);
      if t.Some? && Enabled(t.value, steps[|steps| - 1]) then Some(Apply(t.value, steps[|steps| - 1])) else None
  }

  // ---------------------------------------------------------------------------------------------
  // Sums over the pool
  // ---------------------------------------------------------------------------------------------

  function Held(w: Worker): multiset<Id> {
    if w.Busy? then multiset{w.id} else multiset{}
  }

  function InFlight(ws: seq<Worker>): multiset<Id> {
    if ws == [] then multiset{} else Held(ws[0]) + InFlight(ws[1..])
  }

  function Running(ws: seq<Worker>): nat {
    if ws == [] then 0 else (if ws[0].Done? then 0 else 1) + Running(ws[1..])
  }

  function Weight(ws: seq<Worker>): nat {
    if ws == [] then 0 else Burden(ws[0]) + Weight(ws[1..])
  }

  function Burden(w: Worker): nat {
    match w case Busy(_) => 3 case Receiving => 2 case Leaving => 1 case Done => 0
  }

  lemma {:induction false} InFlightUpdate(ws: seq<Worker>, i: nat, w: Worker)
    requires i < |ws|
    ensures InFlight(ws[i := w]) + Held(ws[i]) == InFlight(ws) + Held(w)
  {
    var us := ws[i := w];
    if i == 0 {
      assert us[1..] == ws[1..];
    } else {
      InFlightUpdate(ws[1..], i - 1, w);
      assert us[1..] == ws[1..][i - 1 := w];
      var h, old', new' := Held(ws[0]), InFlight(ws[1..]), InFlight(us[1..]);
      assert (h + new') + Held(ws[i]) == h + (new' + Held(ws[i]));
      assert (h + old') + Held(w) == h + (old' + Held(w));
    }
  }

  lemma InFlightMove(ws: seq<Worker>, i: nat, w: Worker)
    requires i < |ws|
    ensures Held(ws[i]) == multiset{} ==> InFlight(ws[i := w]) == InFlight(ws) + Held(w)
    ensures Held(w) == multiset{} ==> InFlight(ws) == InFlight(ws[i := w]) + Held(ws[i])
  {
    InFlightUpdate(ws, i, w);
  }

  lemma {:induction false} PoolUpdate(ws: seq<Worker>, i: nat, w: Worker)
    requires i < |ws|
    ensures Running(ws[i := w]) == Running(ws) + (if w.Done? then 0 else 1) - (if ws[i].Done? then 0 else 1)
    ensures Weight(ws[i := w]) == Weight(ws) + Burden(w) - Burden(ws[i])
  {
    if i == 0 {
      assert ws[0 := w][1..] == ws[1..];
    } else {
      PoolUpdate(ws[1..], i - 1, w);
      assert ws[i := w][1..] == ws[1..][i - 1 := w];
    }
  }

  lemma {:induction false} PoolStart(n: nat, ws: seq<Worker>)
    requires ws == seq(n, i => Receiving)
    ensures InFlight(ws) == multiset{} && Running(ws) == n
  {
    if n == 0 {
    } else {
      assert ws[1..] == seq(n - 1, i => Receiving);
      PoolStart(n - 1, ws[1..]);
    }
  }

  lemma {:induction false} NoneRunning(ws: seq<Worker>)
    requires Running(ws) == 0
    ensures InFlight(ws) == multiset{} && forall i | 0 <= i < |ws| :: ws[i].Done?
  {
    if ws == [] {
    } else {
      NoneRunning(ws[1..]);
      assert forall i | 1 <= i < |ws| :: ws[i] == ws[1..][i - 1];
    }
  }

  // ---------------------------------------------------------------------------------------------
  // The invariant
  // ---------------------------------------------------------------------------------------------

  ghost predicate LockInv(s: State) {
    && (forall t :: t in s.readers <==> t in s.senders && s.senders[t].Holds())
    && (forall c :: s.writer == Some(c) <==> c in s.closers && s.closers[c].Holds())
    && (s.readers != {} ==> s.writer == None)
  }

  ghost predicate FlagInv(s: State) {
    && !s.panicked
    && (s.sealed ==> s.closed)
    && (s.closed && !s.sealed ==> s.writer.Some? && s.writer.value in s.closers && s.closers[s.writer.value].Marked?)
    && (forall c | c in s.closers && s.closers[c].Marked? :: s.closed && !s.sealed)
    && (forall c | c in s.closers && s.closers[c].PastClose() :: s.sealed)
    && (forall t | t in s.senders && s.senders[t].Cleared? :: !s.closed)
    && s.closes == (if s.sealed then 1 else 0)
  }

  ghost predicate QueueInv(s: State) {
    && |s.jobs| <= s.cap
    && s.accepted == s.taken + s.jobs
    && multiset(s.taken) == s.finished + InFlight(s.workers)
  }

  /** An Enqueue call that has said yes has handed its id over. */
  ghost predicate AnswerInv(s: State) {
    (forall t | t in s.senders && s.senders[t].Said(true) :: s.senders[t].id in s.accepted)
  }

  ghost predicate PoolInv(s: State) {
    && |s.workers| >= 1
    && s.wg == Running(s.workers)
    && (forall w | 0 <= w < |s.workers| && (s.workers[w].Leaving? || s.workers[w].Done?) :: s.sealed && s.jobs == [])
    && (forall c | c in s.closers && s.closers[c] == Returned(true) :: s.wg == 0)
  }

  ghost predicate Inv(s: State) {
    LockInv(s) && FlagInv(s) && QueueInv(s) && AnswerInv(s) && PoolInv(s)
  }

  predicate IsSenderStep(a: Action) {
    a.Call? || a.RLock? || a.ReadFlag? || a.Send? || a.RUnlock?
  }

  predicate IsCloserStep(a: Action) {
    a.Ask? || a.Lock? || a.Mark? || a.CloseJobs? || a.Unlock? || a.Return? || a.Expire?
  }

  lemma LockSenderStep(s: State, a: Action)
    requires LockInv(s) && Enabled(s, a) && IsSenderStep(a)
    ensures LockInv(Apply(s, a))
  {
  }

  lemma LockCloserStep(s: State, a: Action)
    requires LockInv(s) && Enabled(s, a) && IsCloserStep(a)
    ensures LockInv(Apply(s, a))
  {
  }

  /** Workers touch neither lock nor flags nor calls. */
  lemma WorkerStepKeeps(s: State, a: Action)
    requires Enabled(s, a) && IsWorkerStep(a)
    ensures var t := Apply(s, a);
            && t.senders == s.senders && t.closers == s.closers && t.readers == s.readers && t.writer == s.writer
            && t.closed == s.closed && t.sealed == s.sealed && t.closes == s.closes && t.panicked == s.panicked
            && t.accepted == s.accepted && t.cap == s.cap
  {
  }

  lemma LockStep(s: State, a: Action)
    requires LockInv(s) && Enabled(s, a)
    ensures LockInv(Apply(s, a))
  {
    hide Apply;
    if IsSenderStep(a) {
      LockSenderStep(s, a);
    } else if IsCloserStep(a) {
      LockCloserStep(s, a);
    } else {
      WorkerStepKeeps(s, a);
    }
  }

  lemma FlagStep(s: State, a: Action)
    requires LockInv(s) && FlagInv(s) && Enabled(s, a)
    ensures FlagInv(Apply(s, a))
  {
    if a.CloseJobs? {
      assert s.writer == Some(a.s);
    }
  }

  lemma SendStep(s: State, t: nat)
    requires Inv(s) && Enabled(s, Send(t))
    ensures QueueInv(Apply(s, Send(t)))
  {
    assert s.taken + (s.jobs + [s.senders[t].id]) == (s.taken + s.jobs) + [s.senders[t].id];
  }

  lemma Dequeue(taken: seq<Id>, jobs: seq<Id>)
    requires jobs != []
    ensures taken + jobs == (taken + [jobs[0]]) + jobs[1..]
    ensures multiset(taken + [jobs[0]]) == multiset(taken) + multiset{jobs[0]}
  {
    assert jobs == [jobs[0]] + jobs[1..];
  }

  lemma TakeStep(s: State, w: nat)
    requires Inv(s) && Enabled(s, Take(w))
    ensures QueueInv(Apply(s, Take(w)))
  {
    InFlightMove(s.workers, w, Busy(s.jobs[0]));
    Dequeue(s.taken, s.jobs);
  }

  lemma FinishStep(s: State, w: nat)
    requires Inv(s) && Enabled(s, Finish(w))
    ensures QueueInv(Apply(s, Finish(w)))
  {
    InFlightMove(s.workers, w, Receiving);
  }

  lemma QueueStep(s: State, a: Action)
    requires Inv(s) && Enabled(s, a)
    ensures QueueInv(Apply(s, a))
  {
    match a
    case Send(t) => SendStep(s, t);
    case Take(w) => TakeStep(s, w);
    case Finish(w) => FinishStep(s, w);
    case EndRange(w) => InFlightMove(s.workers, w, Leaving);
    case Leave(w) => InFlightMove(s.workers, w, Done);
    case _ =>
  }

  lemma AnswerStep(s: State, a: Action)
    requires AnswerInv(s) && Enabled(s, a)
    ensures AnswerInv(Apply(s, a))
  {
  }

  lemma PoolWorkerStep(s: State, a: Action)
    requires Inv(s) && Enabled(s, a) && IsWorkerStep(a)
    ensures PoolInv(Apply(s, a))
  {
    PoolUpdate(s.workers, a.w, Apply(s, a).workers[a.w]);
    if s.wg == 0 { NoneRunning(s.workers); }
  }

  lemma PoolStep(s: State, a: Action)
    requires Inv(s) && Enabled(s, a)
    ensures PoolInv(Apply(s, a))
  {
    if IsWorkerStep(a) { PoolWorkerStep(s, a); }
  }

  /** The invariant holds in every state of every run. */
  lemma {:induction false} RunKeepsInv(s: State, steps: seq<Action>)
    requires Inv(s) && Run(s, steps).Some?
    ensures Inv(Run(s, steps).value)
  {
    if steps == [] {
    } else {
      var n := |steps| - 1;
      RunKeepsInv(s, steps[..n]);
      var t := Run(s, steps[..n]).value;
      LockStep(t, steps[n]);
      FlagStep(t, steps[n]);
      QueueStep(t, steps[n]);
      AnswerStep(t, steps[n]);
      PoolStep(t, steps[n]);
    }
  }

  lemma InitInv(cap: nat, n: nat)
    requires n >= 1
    ensures Inv(Init(cap, n))
  {
    PoolStart(n, Init(cap, n).workers);
  }

  // ---------------------------------------------------------------------------------------------
  // What every run promises
  // ---------------------------------------------------------------------------------------------

  /** No send reaches a closed channel and the channel is closed at most once; what was accepted is
      first-in first-out either dequeued or queued, and as a bag queued, in flight or finished. */
  lemma SafeAlways(cap: nat, n: nat, steps: seq<Action>)
    requires n >= 1 && Run(Init(cap, n), steps).Some?
    ensures var s := Run(Init(cap, n), steps).value;
            && !s.panicked && s.closes <= 1 && |s.jobs| <= cap
            && s.accepted == s.taken + s.jobs
            && multiset(s.accepted) == multiset(s.jobs) + InFlight(s.workers) + s.finished
  {
    InitInv(cap, n);
    RunKeepsInv(Init(cap, n), steps);
    SettledRun(Init(cap, n), steps);
  }

  /** What no step undoes: the capacity, a nil return, and, once the channel is closed, the intake. */
  ghost predicate Settled(s: State, t: State) {
    && t.cap == s.cap
    && (s.sealed ==> t.sealed && t.accepted == s.accepted)
    && (forall c | c in s.closers && s.closers[c].Returned? :: c in t.closers && t.closers[c] == s.closers[c])
  }

  lemma SettledStep(s: State, t: State, a: Action)
    requires FlagInv(t) && Settled(s, t) && Enabled(t, a)
    ensures Settled(s, Apply(t, a))
  {
    hide Apply;
    if IsSenderStep(a) {
      SettledSenderStep(s, t, a);
    } else if IsCloserStep(a) {
      SettledCloserStep(s, t, a);
    } else {
      WorkerStepKeeps(t, a);
    }
  }

  lemma SettledSenderStep(s: State, t: State, a: Action)
    requires FlagInv(t) && Settled(s, t) && Enabled(t, a) && IsSenderStep(a)
    ensures Settled(s, Apply(t, a))
  {
  }

  lemma SettledCloserStep(s: State, t: State, a: Action)
    requires FlagInv(t) && Settled(s, t) && Enabled(t, a) && IsCloserStep(a)
    ensures Settled(s, Apply(t, a))
  {
  }

  lemma {:induction false} SettledRun(s: State, steps: seq<Action>)
    requires Inv(s) && Run(s, steps).Some?
    ensures Settled(s, Run(s, steps).value)
  {
    if steps == [] {
    } else {
      var n := |steps| - 1;
      SettledRun(s, steps[..n]);
      RunKeepsInv(s, steps[..n]);
      SettledStep(s, Run(s, steps[..n]).value, steps[n]);
    }
  }

  lemma DrainedState(s: State)
    requires Inv(s) && s.wg == 0
    ensures s.jobs == [] && InFlight(s.workers) == multiset{} && s.finished == multiset(s.accepted)
  {
    NoneRunning(s.workers);
    assert s.workers[0].Done?;
    assert s.accepted == s.taken;
  }

  /** Once any Shutdown call has returned nil, every id ever accepted is finished, every Enqueue call that
      answered yes included, and whatever happens next nothing more is accepted. */
  lemma NilMeansDrained(cap: nat, n: nat, steps: seq<Action>, more: seq<Action>, c: nat)
    requires n >= 1 && Run(Init(cap, n), steps).Some?
    requires var s := Run(Init(cap, n), steps).value; c in s.closers && s.closers[c] == Returned(true)
    requires Run(Run(Init(cap, n), steps).value, more).Some?
    ensures var s := Run(Init(cap, n), steps).value;
            var t := Run(s, more).value;
            t.accepted == s.accepted && t.finished == multiset(s.accepted)
            && t.jobs == [] && InFlight(t.workers) == multiset{}
            && forall x | x in t.senders && t.senders[x].Said(true) :: t.senders[x].id in t.finished
  {
    var s := Run(Init(cap, n), steps).value;
    InitInv(cap, n);
    RunKeepsInv(Init(cap, n), steps);
    SettledRun(s, more);
    RunKeepsInv(s, more);
    DrainedState(Run(s, more).value);
  }

  // ---------------------------------------------------------------------------------------------
  // The drain ends
  // ---------------------------------------------------------------------------------------------

  function WorkLeft(s: State): nat {
    2 * |s.jobs| + Weight(s.workers)
  }

  function WorkerSteps(steps: seq<Action>): nat {
    if steps == [] then 0
    else WorkerSteps(steps[..|steps| - 1]) + (if IsWorkerStep(steps[|steps| - 1]) then 1 else 0)
  }

  /** After the close, each worker step uses up work and no other step adds any. */
  lemma {:induction false} DrainEnds(s: State, steps: seq<Action>)
    requires Inv(s) && s.sealed && Run(s, steps).Some?
    ensures WorkLeft(Run(s, steps).value) + WorkerSteps(steps) <= WorkLeft(s)
  {
    if steps == [] {
    } else {
      var n := |steps| - 1;
      DrainEnds(s, steps[..n]);
      SettledRun(s, steps[..n]);
      RunKeepsInv(s, steps[..n]);
      var t := Run(s, steps[..n]).value;
      DrainStep(t, steps[n]);
    }
  }

  lemma DrainStep(t: State, a: Action)
    requires Inv(t) && t.sealed && Enabled(t, a)
    ensures WorkLeft(Apply(t, a)) + (if IsWorkerStep(a) then 1 else 0) <= WorkLeft(t)
  {
    if IsWorkerStep(a) {
      PoolUpdate(t.workers, a.w, Apply(t, a).workers[a.w]);
    }
  }

  /** Until all workers have left, some worker can move; then a waiting Shutdown can return nil. */
  lemma DrainNeverStuck(s: State)
    requires Inv(s) && s.sealed
    ensures s.wg == 0 || exists a :: IsWorkerStep(a) && Enabled(s, a)
    ensures s.wg == 0 ==> forall c | c in s.closers && s.closers[c].Waiting? ::
              Enabled(s, Return(c)) && Apply(s, Return(c)).closers == s.closers[c := Returned(true)]
  {
    if s.wg != 0 {
      var w := SomeRunning(s.workers);
      var a := match s.workers[w]
        case Receiving => if s.jobs != [] then Take(w) else EndRange(w)
        case Busy(_) => Finish(w)
        case _ => Leave(w);
      assert Enabled(s, a);
    }
  }

  lemma {:induction false} SomeRunning(ws: seq<Worker>) returns (w: nat)
    requires Running(ws) != 0
    ensures w < |ws| && !ws[w].Done?
  {
    if !ws[0].Done? {
      w := 0;
    } else {
      w := SomeRunning(ws[1..]);
      w := w + 1;
    }
  }

  // ---------------------------------------------------------------------------------------------
  // Whole calls
  // ---------------------------------------------------------------------------------------------

  /** The answer of an Enqueue call that nothing interrupts. */
  predicate Admits(cap: nat, closed: bool, jobs: seq<Id>) {
    !closed && |jobs| < cap
  }

  function Offer(cap: nat, closed: bool, jobs: seq<Id>, id: Id): seq<Id> {
    if Admits(cap, closed, jobs) then jobs + [id] else jobs
  }

  class Indexer {
    const cap: nat
    var jobs: seq<Id>
    var closed: bool
    var sealed: bool
    var finished: seq<Id>

    ghost predicate Valid()
      reads this
    {
      |jobs| <= cap && sealed == closed
    }

    constructor (queueSize: nat)
      ensures Valid() && cap == queueSize && jobs == [] && !closed && finished == []
    {
      cap := queueSize;
      jobs, closed, sealed, finished := [], false, false, [];
    }

    method Enqueue(id: Id) returns (ok: bool)
      requires Valid()
      modifies this`jobs
      ensures Valid()
      ensures ok <==> !closed && |old(jobs)| < cap
      ensures jobs == if ok then old(jobs) + [id] else old(jobs)
    {
      if closed {
        return false;
      }
      if |jobs| < cap {
        jobs := jobs + [id];
        return true;
      }
      return false;
    }

    /** The locked part of Shutdown; a second call changes nothing. */
    method Close()
      requires Valid()
      modifies this`closed, this`sealed
      ensures Valid() && closed
    {
      if !closed {
        closed := true;
        sealed := true;
      }
    }

    /** One worker ranging over the channel while nobody sends: it finishes what is queued and then, if the
        channel is closed, its range ends; otherwise it waits for the next send. */
    method Loop() returns (ended: bool)
      requires Valid()
      modifies this`jobs, this`finished
      ensures Valid() && jobs == [] && finished == old(finished) + old(jobs) && ended == sealed
    {
      while jobs != []
        invariant |jobs| <= cap && finished + jobs == old(finished) + old(jobs)
        decreases |jobs|
      {
        var id := jobs[0];
        jobs := jobs[1..];
        finished := finished + [id];
      }
      return sealed;
    }
  }

  /** The step by which an Enqueue call gets its answer. */
  predicate Settles(s: State, a: Action, t: nat)
    requires Enabled(s, a)
  {
    t in s.senders && !s.senders[t].Answered? && !s.senders[t].Gone?
    && t in Apply(s, a).senders && (Apply(s, a).senders[t].Answered? || Apply(s, a).senders[t].Gone?)
  }

  /** That step is where the whole call takes place: it answers and queues as the undisturbed call would. */
  lemma AnsweredAtOnce(s: State, a: Action, t: nat)
    requires Inv(s) && Enabled(s, a) && Settles(s, a, t)
    ensures var s', id, ok := Apply(s, a), s.senders[t].id, Admits(s.cap, s.closed, s.jobs);
            && s'.senders[t] == Answered(id, ok) && s'.jobs == Offer(s.cap, s.closed, s.jobs, id)
            && s'.accepted == if ok then s.accepted + [id] else s.accepted
  {
    if IsWorkerStep(a) { WorkerStepKeeps(s, a); }
  }

  /** No other step puts anything into the queue. */
  lemma OnlyAnswersQueue(s: State, a: Action)
    requires Inv(s) && Enabled(s, a) && Apply(s, a).accepted != s.accepted
    ensures exists t :: Settles(s, a, t) && Apply(s, a).senders[t].ok
  {
    if IsWorkerStep(a) {
      WorkerStepKeeps(s, a);
    } else {
      assert a.Send? && Settles(s, a, a.t);
    }
  }

  /** In every interleaving, each Enqueue call takes effect at one of its steps: there it is answered, and the
      queue changed, as by the whole call in that state, and the queue takes in nothing else. */
  lemma EnqueueLinearises(cap: nat, n: nat, steps: seq<Action>, a: Action)
    requires n >= 1 && Run(Init(cap, n), steps).Some? && Enabled(Run(Init(cap, n), steps).value, a)
    ensures var s, s' := Run(Init(cap, n), steps).value, Apply(Run(Init(cap, n), steps).value, a);
            && (forall t | Settles(s, a, t) ::
                  var ok := !s.closed && |s.jobs| < cap;
                  && s'.senders[t] == Answered(s.senders[t].id, ok)
                  && s'.jobs == if ok then s.jobs + [s.senders[t].id] else s.jobs)
            && (s'.accepted != s.accepted ==> exists t :: Settles(s, a, t) && s'.senders[t].ok)
  {
    var s := Run(Init(cap, n), steps).value;
    InitInv(cap, n);
    RunKeepsInv(Init(cap, n), steps);
    SettledRun(Init(cap, n), steps);
    forall t | Settles(s, a, t)
      ensures Apply(s, a).senders[t] == Answered(s.senders[t].id, Admits(cap, s.closed, s.jobs))
              && Apply(s, a).jobs == Offer(cap, s.closed, s.jobs, s.senders[t].id)
    {
      AnsweredAtOnce(s, a, t);
    }
    if Apply(s, a).accepted != s.accepted { OnlyAnswersQueue(s, a); }
  }

  lemma RunThen(s: State, steps: seq<Action>, a: Action)
    requires Run(s, steps).Some? && Enabled(Run(s, steps).value, a)
    ensures Run(s, steps + [a]) == Some(Apply(Run(s, steps).value, a))
  {
    assert (steps + [a])[..|steps|] == steps;
  }

  lemma RunOne(s: State, a: Action)
    requires Enabled(s, a)
    ensures Run(s, [a]) == Some(Apply(s, a))
  {
    RunThen(s, [], a);
    assert [] + [a] == [a];
  }

  /** What the steps of an Enqueue call do: call, lock, read the flag, send, unlock. */
  lemma SenderDoes(s: State, a: Action)
    requires Enabled(s, a) && (a.Send? ==> !s.sealed)
    ensures a.Call? ==> Apply(s, a) == s.(senders := s.senders[a.t := Offered(a.id)])
    ensures a.RLock? ==> Apply(s, a) == s.(senders := s.senders[a.t := Locked(s.senders[a.t].id)],
                                          readers := s.readers + {a.t})
    ensures a.ReadFlag? ==> var id := s.senders[a.t].id;
              Apply(s, a) == s.(senders := s.senders[a.t := if s.closed then Answered(id, false) else Cleared(id)])
    ensures a.Send? ==> var id, ok := s.senders[a.t].id, |s.jobs| < s.cap;
              Apply(s, a) == s.(senders := s.senders[a.t := Answered(id, ok)],
                                jobs := if ok then s.jobs + [id] else s.jobs,
                                accepted := if ok then s.accepted + [id] else s.accepted)
    ensures a.RUnlock? ==> Apply(s, a) == s.(senders := s.senders[a.t := Gone(s.senders[a.t].id, s.senders[a.t].ok)],
                                            readers := s.readers - {a.t})
  {
  }

  lemma EnqueueLocks(s: State, t: nat, id: Id) returns (steps: seq<Action>)
    requires !s.panicked && t !in s.senders && s.writer == None
    ensures Run(s, steps) == Some(s.(
              senders := s.senders[t := if s.closed then Answered(id, false) else Cleared(id)],
              readers := s.readers + {t}))
  {
    hide Apply, Run;
    RunOne(s, Call(t, id));
    SenderDoes(s, Call(t, id));
    var u := s.(senders := s.senders[t := Offered(id)]);
    RunThen(s, [Call(t, id)], RLock(t));
    SenderDoes(u, RLock(t));
    steps := [Call(t, id)] + [RLock(t)];
    assert s.senders[t := Offered(id)][t := Locked(id)] == s.senders[t := Locked(id)];
    var v := s.(senders := s.senders[t := Locked(id)], readers := s.readers + {t});
    RunThen(s, steps, ReadFlag(t));
    SenderDoes(v, ReadFlag(t));
    steps := steps + [ReadFlag(t)];
    var answer := if s.closed then Answered(id, false) else Cleared(id);
    assert s.senders[t := Locked(id)][t := answer] == s.senders[t := answer];
  }

  lemma EnqueueSends(s: State, t: nat, id: Id) returns (steps: seq<Action>)
    requires !s.panicked && t !in s.senders && s.writer == None && (s.sealed ==> s.closed)
    ensures var ok := Admits(s.cap, s.closed, s.jobs);
            Run(s, steps) == Some(s.(senders := s.senders[t := Answered(id, ok)], readers := s.readers + {t},
                                     jobs := Offer(s.cap, s.closed, s.jobs, id),
                                     accepted := if ok then s.accepted + [id] else s.accepted))
  {
    hide Apply, Run;
    steps := EnqueueLocks(s, t, id);
    if !s.closed {
      var u := Run(s, steps).value;
      RunThen(s, steps, Send(t));
      SenderDoes(u, Send(t));
      steps := steps + [Send(t)];
      var ok := Admits(s.cap, s.closed, s.jobs);
      assert s.senders[t := Cleared(id)][t := Answered(id, ok)] == s.senders[t := Answered(id, ok)];
    }
  }

  /** The steps of an undisturbed Enqueue call do what the whole call does. */
  lemma EnqueueIsAtomic(s: State, t: nat, id: Id) returns (steps: seq<Action>)
    requires Inv(s) && t !in s.senders && s.writer == None
    ensures var ok := !s.closed && |s.jobs| < s.cap;
            Run(s, steps) == Some(s.(senders := s.senders[t := Gone(id, ok)],
                                     jobs := if ok then s.jobs + [id] else s.jobs,
                                     accepted := if ok then s.accepted + [id] else s.accepted))
  {
    assert t !in s.readers;
    hide Apply, Run, LockInv, QueueInv, AnswerInv, PoolInv;
    steps := EnqueueSends(s, t, id);
    var u, ok := Run(s, steps).value, Admits(s.cap, s.closed, s.jobs);
    RunThen(s, steps, RUnlock(t));
    SenderDoes(u, RUnlock(t));
    steps := steps + [RUnlock(t)];
    assert s.senders[t := Answered(id, ok)][t := Gone(id, ok)] == s.senders[t := Gone(id, ok)];
    assert s.readers + {t} - {t} == s.readers;
  }

  /** What the steps of a Shutdown call up to its wait do: ask, lock, close if the flag is not set, unlock. */
  lemma CloserDoes(t: State, a: Action)
    requires Enabled(t, a) && (a.CloseJobs? ==> !t.sealed)
    ensures a.Ask? ==> Apply(t, a) == t.(closers := t.closers[a.s := Asked])
    ensures a.Lock? ==> Apply(t, a) == t.(closers := t.closers[a.s := Holding], writer := Some(a.s))
    ensures a.Mark? ==> Apply(t, a) == if t.closed then t.(closers := t.closers[a.s := Sealing])
                                       else t.(closers := t.closers[a.s := Marked], closed := true)
    ensures a.CloseJobs? ==>
              Apply(t, a) == t.(closers := t.closers[a.s := Sealing], sealed := true, closes := t.closes + 1)
    ensures a.Unlock? ==> Apply(t, a) == t.(closers := t.closers[a.s := Waiting], writer := None)
  {
  }

  lemma CloseLocks(s: State, c: nat) returns (steps: seq<Action>)
    requires !s.panicked && c !in s.closers && s.writer == None && s.readers == {}
    ensures Run(s, steps) == Some(s.(closers := s.closers[c := Holding], writer := Some(c)))
  {
    hide Apply, Run;
    RunOne(s, Ask(c));
    CloserDoes(s, Ask(c));
    var t := s.(closers := s.closers[c := Asked]);
    RunThen(s, [Ask(c)], Lock(c));
    CloserDoes(t, Lock(c));
    steps := [Ask(c)] + [Lock(c)];
    assert s.closers[c := Asked][c := Holding] == s.closers[c := Holding];
  }

  lemma FlagsAtRest(s: State)
    requires FlagInv(s) && s.writer == None
    ensures s.closed == s.sealed && s.closes == if s.sealed then 1 else 0
  {
  }

  lemma CloseMarksAgain(s: State, c: nat) returns (steps: seq<Action>)
    requires !s.panicked && c !in s.closers && s.writer == None && s.readers == {} && s.closed
    ensures Run(s, steps) == Some(s.(closers := s.closers[c := Sealing], writer := Some(c)))
  {
    hide Apply, Run;
    steps := CloseLocks(s, c);
    RunThen(s, steps, Mark(c));
    CloserDoes(Run(s, steps).value, Mark(c));
    steps := steps + [Mark(c)];
    assert s.closers[c := Holding][c := Sealing] == s.closers[c := Sealing];
  }

  lemma CloseMarksFirst(s: State, c: nat) returns (steps: seq<Action>)
    requires !s.panicked && c !in s.closers && s.writer == None && s.readers == {} && !s.closed && !s.sealed
    ensures Run(s, steps) == Some(s.(closers := s.closers[c := Sealing], writer := Some(c), closed := true,
                                     sealed := true, closes := s.closes + 1))
  {
    hide Apply, Run;
    steps := CloseLocks(s, c);
    RunThen(s, steps, Mark(c));
    CloserDoes(Run(s, steps).value, Mark(c));
    steps := steps + [Mark(c)];
    var t := Run(s, steps).value;
    RunThen(s, steps, CloseJobs(c));
    CloserDoes(t, CloseJobs(c));
    steps := steps + [CloseJobs(c)];
    assert s.closers[c := Holding][c := Marked][c := Sealing] == s.closers[c := Sealing];
  }

  /** The steps of an undisturbed Shutdown call, up to its wait, do what Close does: a first call closes flag
      and channel, a later one changes neither. */
  lemma CloseIsAtomic(s: State, c: nat) returns (steps: seq<Action>)
    requires Inv(s) && c !in s.closers && s.writer == None && s.readers == {}
    ensures Run(s, steps) == Some(s.(closers := s.closers[c := Waiting], closed := true, sealed := true, closes := 1))
  {
    hide Apply, Run;
    FlagsAtRest(s);
    if s.closed { steps := CloseMarksAgain(s, c); } else { steps := CloseMarksFirst(s, c); }
    RunThen(s, steps, Unlock(c));
    CloserDoes(Run(s, steps).value, Unlock(c));
    steps := steps + [Unlock(c)];
    assert s.closers[c := Sealing][c := Waiting] == s.closers[c := Waiting];
  }

  lemma {:induction false} RunMore(s: State, steps: seq<Action>, more: seq<Action>)
    requires Run(s, steps).Some? && Run(Run(s, steps).value, more).Some?
    ensures Run(s, steps + more) == Run(Run(s, steps).value, more)
    decreases |more|
  {
    hide Enabled, Apply;
    if more == [] {
      assert steps + more == steps;
    } else {
      var before, a := more[..|more| - 1], more[|more| - 1];
      RunMore(s, steps, before);
      RunThen(s, steps + before, a);
      assert (steps + before) + [a] == steps + more;
    }
  }

  /** One round of a worker: it takes the first id and finishes it. */
  lemma OneRound(s: State, w: nat)
    requires !s.panicked && w < |s.workers| && s.workers[w].Receiving? && s.jobs != []
    ensures Run(s, [Take(w), Finish(w)])
         == Some(s.(jobs := s.jobs[1..], taken := s.taken + [s.jobs[0]], finished := s.finished + multiset{s.jobs[0]}))
  {
    RunThen(s, [], Take(w));
    RunThen(s, [] + [Take(w)], Finish(w));
    assert [] + [Take(w)] + [Finish(w)] == [Take(w), Finish(w)];
    assert s.workers[w := Busy(s.jobs[0])][w := Receiving] == s.workers;
  }

  /** The steps of a worker that nothing disturbs do what Loop does: everything queued is taken in order and
      finished, and the range can end exactly when the channel is closed. */
  lemma {:induction false} LoopIsRun(s: State, w: nat) returns (steps: seq<Action>)
    requires !s.panicked && w < |s.workers| && s.workers[w].Receiving?
    ensures Run(s, steps)
         == Some(s.(jobs := [], taken := s.taken + s.jobs, finished := s.finished + multiset(s.jobs)))
    ensures Enabled(Run(s, steps).value, EndRange(w)) <==> s.sealed
    decreases |s.jobs|
  {
    if s.jobs == [] {
      steps := [];
      assert s.taken + s.jobs == s.taken && s.finished + multiset(s.jobs) == s.finished;
    } else {
      OneRound(s, w);
      var t := Run(s, [Take(w), Finish(w)]).value;
      var rest := LoopIsRun(t, w);
      steps := [Take(w), Finish(w)] + rest;
      RunMore(s, [Take(w), Finish(w)], rest);
      Dequeue(s.taken, s.jobs);
      FinishAll(s.finished, s.jobs);
    }
  }

  lemma FinishAll(finished: multiset<Id>, jobs: seq<Id>)
    requires jobs != []
    ensures finished + multiset(jobs) == (finished + multiset{jobs[0]}) + multiset(jobs[1..])
  {
    assert jobs == [jobs[0]] + jobs[1..];
  }
}
