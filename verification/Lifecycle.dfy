/** One process run: the startup scan, uploads, the workers, edits and the shutdown, interleaved step by step.

    Each document id enters the queue at most once, so its status leaves pending at most once. */
module Lifecycle {
  import opened Wrappers
  import opened Paging
  import opened Requeue
  import opened Documents
  import opened DocumentTable

  /** Startup runs the scan to its end before the server accepts requests. */
  datatype Scan = Scanning(offset: nat) | InPage(offset: nat, rest: seq<Key>, full: bool) | Serving

  /** A worker's document; failing once the attempt to mark it ready has failed. */
  datatype Task = Task(id: string, failing: bool)

  /** A PATCH between its read and its write. */
  datatype Edit = Edit(id: string, seen: Document)

  datatype State = State(
    cap: nat,
    rows: Table,
    used: set<string>,            // every id ever given out
    scan: Scan,
    jobs: seq<string>,
    closed: bool,                 // Shutdown has closed the queue
    workers: map<nat, Task>,      // busy workers
    uploads: map<nat, string>,    // uploads between their insert and their Enqueue
    edits: map<nat, Edit>,
    accepted: set<string>,        // every id the queue has accepted
    twice: bool)                  // whether it accepted one a second time

  function PendingKeys(rows: Table): set<Key> {
    set id | id in rows && rows[id].status == Pending :: Key(rows[id].createdAt, id)
  }

  ghost predicate Init(s: State) {
    && s.rows.Keys <= s.used && s.scan == Scanning(0) && s.jobs == [] && !s.closed && s.workers == map[]
    && s.uploads == map[] && s.edits == map[] && s.accepted == {} && !s.twice
  }

  datatype Action =
    | ListPage | TryNext | EndPage | ListFails
    | Insert(u: nat, doc: Document) | Offer(u: nat)
    | Take(w: nat) | MarkReady(w: nat, now: int) | MarkReadyError(w: nat)
    | MarkFailed(w: nat, now: int) | MarkFailedError(w: nat)
    | ReadForEdit(e: nat, id: string) | Write(e: nat, title: Option<string>, summary: Option<string>, now: int)
    | Remove(id: string)
    | Shutdown

  predicate Enabled(s: State, a: Action) {
    match a
    case ListPage => s.scan.Scanning?
    case TryNext => s.scan.InPage? && s.scan.rest != []
    case EndPage => s.scan.InPage? && s.scan.rest == []
    case ListFails => s.scan.Scanning?
    case Insert(u, d) => s.scan.Serving? && u !in s.uploads && d.id !in s.used && d.status == Pending
    case Offer(u) => u in s.uploads
    case Take(w) => w !in s.workers && s.jobs != []
    case MarkReady(w, _) => w in s.workers && !s.workers[w].failing
    case MarkReadyError(w) => w in s.workers && !s.workers[w].failing
    case MarkFailed(w, _) => w in s.workers && s.workers[w].failing
    case MarkFailedError(w) => w in s.workers && s.workers[w].failing
    case ReadForEdit(e, id) => e !in s.edits && id in s.rows
    case Write(e, _, _, _) => e in s.edits
    case Remove(id) => id in s.rows
    case Shutdown => true
  }

  /** A non-blocking send of id; the queue refuses when it is closed or full. */
  function Sent(s: State, id: string): State {
    if !s.closed && |s.jobs| < s.cap
    then s.(jobs := s.jobs + [id], accepted := s.accepted + {id}, twice := s.twice || id in s.accepted)
    else s
  }

  function Or<T>(o: Option<T>, default: T): T {
    if o.Some? then o.value else default
  }

  ghost function Apply(s: State, a: Action): State
    requires Enabled(s, a)
  {
    match a
    case ListPage =>
      var p := PageOf(PendingKeys(s.rows), s.scan.offset);
      s.(scan := InPage(s.scan.offset, p, |p| == BATCH))
    case TryNext => Sent(s, s.scan.rest[0].id).(scan := s.scan.(rest := s.scan.rest[1..]))
    case EndPage => s.(scan := if s.scan.full then Scanning(s.scan.offset + BATCH) else Serving)
    case ListFails => s.(scan := Serving)
    case Insert(u, d) => s.(rows := Inserted(s.rows, d), used := s.used + {d.id}, uploads := s.uploads[u := d.id])
    case Offer(u) => Sent(s, s.uploads[u]).(uploads := s.uploads - {u})
    case Take(w) => s.(workers := s.workers[w := Task(s.jobs[0], false)], jobs := s.jobs[1..])
    case MarkReady(w, now) =>
      var id := s.workers[w].id;
      if id in s.rows then s.(rows := StatusSet(s.rows, id, Ready, now), workers := s.workers - {w})
      else s.(workers := s.workers[w := Task(id, true)])
    case MarkReadyError(w) => s.(workers := s.workers[w := Task(s.workers[w].id, true)])
    case MarkFailed(w, now) =>
      s.(rows := StatusSet(s.rows, s.workers[w].id, Failed, now), workers := s.workers - {w})
    case MarkFailedError(w) => s.(workers := s.workers - {w})
    case ReadForEdit(e, id) => s.(edits := s.edits[e := Edit(id, s.rows[id])])
    case Write(e, title, summary, now) =>
      var d := s.edits[e];
      var text := d.seen.(id := d.id, title := Or(title, d.seen.title), summary := Or(summary, d.seen.summary),
                          updatedAt := now);
      s.(rows := TextUpdated(s.rows, text), edits := s.edits - {e})
    case Remove(id) => s.(rows := s.rows - {id})
    case Shutdown => s.(closed := true)
  }

  // ---------------------------------------------------------------------------------------------
  // The invariant
  // ---------------------------------------------------------------------------------------------

  /** Not yet processed, as far as its row can tell. */
  ghost predicate Untouched(s: State, id: string) {
    id in s.used && (id in s.rows ==> s.rows[id].status == Pending)
  }

  ghost predicate QueueInv(s: State) {
    && !s.twice && s.accepted <= s.used && s.rows.Keys <= s.used
    && NoDuplicates(s.jobs)
    && (forall id | id in s.jobs :: id in s.accepted && Untouched(s, id))
  }

  ghost predicate WorkerInv(s: State) {
    && (forall w | w in s.workers :: s.workers[w].id in s.accepted && s.workers[w].id !in s.jobs
                                     && Untouched(s, s.workers[w].id))
    && (forall v, w | v in s.workers && w in s.workers && v != w :: s.workers[v].id != s.workers[w].id)
  }

  ghost predicate UploadInv(s: State) {
    && (!s.scan.Serving? ==> s.uploads == map[])
    && (forall u | u in s.uploads :: s.uploads[u] !in s.accepted && Untouched(s, s.uploads[u]))
    && (forall u, v | u in s.uploads && v in s.uploads && u != v :: s.uploads[u] != s.uploads[v])
  }

  /** Accepted documents that are still pending sit before the scan's next offset. */
  ghost predicate Behind(s: State, offset: nat) {
    forall k | k in PendingKeys(s.rows) && k.id in s.accepted :: |Earlier(k, PendingKeys(s.rows))| < offset
  }

  ghost predicate RestInv(s: State, rest: seq<Key>, offset: nat) {
    && (forall i, j | 0 <= i < j < |rest| :: rest[i].id != rest[j].id)
    && (forall k | k in rest :: k.id !in s.accepted && Untouched(s, k.id))
    && (forall k | k in rest && k.id in s.rows :: s.rows[k.id].createdAt == k.createdAt
                                                  && |Earlier(k, PendingKeys(s.rows))| < offset)
  }

  ghost predicate ScanInv(s: State) {
    match s.scan
    case Scanning(offset) => Behind(s, offset)
    case InPage(offset, rest, _) => Behind(s, offset + BATCH) && RestInv(s, rest, offset + BATCH)
    case Serving => true
  }

  ghost predicate Inv(s: State) {
    QueueInv(s) && WorkerInv(s) && UploadInv(s) && ScanInv(s)
  }

  // ---------------------------------------------------------------------------------------------
  // What the steps do to the rows, the queue and the scan
  // ---------------------------------------------------------------------------------------------

  predicate TouchesRows(a: Action) {
    a.Insert? || a.MarkReady? || a.MarkFailed? || a.Write? || a.Remove?
  }

  predicate IsMark(a: Action) {
    a.MarkReady? || a.MarkFailed?
  }

  predicate IsScanStep(a: Action) {
    a.ListPage? || a.TryNext? || a.EndPage? || a.ListFails?
  }

  predicate IsSend(a: Action) {
    a.TryNext? || a.Offer?
  }

  lemma RowsSame(s: State, a: Action)
    requires Enabled(s, a) && !TouchesRows(a)
    ensures Apply(s, a).rows == s.rows
  {
    hide PageOf;
  }

  /** A row is left alone, or a PATCH writes its text, or a worker its status. */
  ghost predicate RowMoves(s: State, a: Action, id: string, r: Document, r': Document) {
    || r' == r
    || (a.Write? && r'.status == r.status && r'.createdAt == r.createdAt)
    || (IsMark(a) && a.w in s.workers && s.workers[a.w].id == id && r'.status != Pending
        && r'.createdAt == r.createdAt && r'.title == r.title && r'.summary == r.summary)
  }

  lemma ReadyRow(s: State, a: Action, id: string)
    requires Enabled(s, a) && a.MarkReady? && id in Apply(s, a).rows
    ensures id in s.rows && RowMoves(s, a, id, s.rows[id], Apply(s, a).rows[id])
    ensures Apply(s, a).rows[id] != s.rows[id] ==> a.w !in Apply(s, a).workers
  {
  }

  lemma FailedRow(s: State, a: Action, id: string)
    requires Enabled(s, a) && a.MarkFailed? && id in Apply(s, a).rows
    ensures id in s.rows && RowMoves(s, a, id, s.rows[id], Apply(s, a).rows[id])
    ensures a.w !in Apply(s, a).workers
  {
  }

  lemma MarkRow(s: State, a: Action, id: string)
    requires Enabled(s, a) && IsMark(a) && id in Apply(s, a).rows
    ensures id in s.rows && RowMoves(s, a, id, s.rows[id], Apply(s, a).rows[id])
    ensures Apply(s, a).rows[id] != s.rows[id] ==> a.w !in Apply(s, a).workers
  {
    hide Apply, RowMoves;
    if a.MarkReady? { ReadyRow(s, a, id); } else { FailedRow(s, a, id); }
  }

  lemma WriteRow(s: State, a: Action, id: string)
    requires Enabled(s, a) && a.Write? && id in Apply(s, a).rows
    ensures id in s.rows && RowMoves(s, a, id, s.rows[id], Apply(s, a).rows[id])
  {
  }

  lemma InsertRow(s: State, a: Action, id: string)
    requires Enabled(s, a) && a.Insert? && id in Apply(s, a).rows
    ensures if id in s.rows then Apply(s, a).rows[id] == s.rows[id]
            else id == a.doc.id && Apply(s, a).rows[id].status == Pending
  {
  }

  lemma RemoveRow(s: State, a: Action, id: string)
    requires Enabled(s, a) && a.Remove? && id in Apply(s, a).rows
    ensures id in s.rows && Apply(s, a).rows[id] == s.rows[id]
  {
  }

  /** Where a row comes from: it was there before, unless it has just been inserted. */
  lemma RowFrom(s: State, a: Action, id: string)
    requires Enabled(s, a) && id in Apply(s, a).rows
    ensures id in s.rows || (a.Insert? && id == a.doc.id && Apply(s, a).rows[id].status == Pending)
    ensures id in s.rows ==> RowMoves(s, a, id, s.rows[id], Apply(s, a).rows[id])
  {
    hide Apply;
    if !TouchesRows(a) {
      RowsSame(s, a);
    } else if IsMark(a) {
      MarkRow(s, a, id);
    } else if a.Write? {
      WriteRow(s, a, id);
    } else if a.Insert? {
      InsertRow(s, a, id);
    } else {
      RemoveRow(s, a, id);
    }
  }

  lemma UsedKept(s: State, a: Action)
    requires Enabled(s, a)
    ensures Apply(s, a).used == if a.Insert? then s.used + {a.doc.id} else s.used
  {
    hide PageOf;
  }

  lemma UsedGrows(s: State, a: Action)
    requires QueueInv(s) && Enabled(s, a)
    ensures s.used <= Apply(s, a).used && s.rows.Keys <= s.used
  {
    hide Apply;
    UsedKept(s, a);
  }

  lemma ScanKept(s: State, a: Action)
    requires Enabled(s, a) && !IsScanStep(a)
    ensures Apply(s, a).scan == s.scan
  {
    hide PageOf;
  }

  lemma AcceptedKept(s: State, a: Action)
    requires Enabled(s, a) && !IsSend(a)
    ensures Apply(s, a).accepted == s.accepted
  {
    hide PageOf;
  }

  lemma SentKeeps(s: State, id: string)
    requires QueueInv(s) && WorkerInv(s) && id !in s.accepted && Untouched(s, id)
    ensures QueueInv(Sent(s, id)) && WorkerInv(Sent(s, id))
  {
  }

  lemma SendStep(s: State, a: Action)
    requires Inv(s) && Enabled(s, a) && (a.TryNext? || a.Offer?)
    ensures QueueInv(Apply(s, a)) && WorkerInv(Apply(s, a))
  {
    if a.TryNext? {
      assert s.scan.rest[0] in s.scan.rest;
      SentKeeps(s, s.scan.rest[0].id);
    } else {
      SentKeeps(s, s.uploads[a.u]);
    }
  }

  lemma TakeStep(s: State, w: nat)
    requires Inv(s) && Enabled(s, Take(w))
    ensures QueueInv(Apply(s, Take(w))) && WorkerInv(Apply(s, Take(w)))
  {
    assert s.jobs[0] in s.jobs;
    assert forall id | id in s.jobs[1..] :: id in s.jobs;
    assert s.jobs[0] !in s.jobs[1..];
  }

  /** The steps that may change rows but accept nothing. */
  lemma RowStep(s: State, a: Action)
    requires QueueInv(s) && WorkerInv(s) && Enabled(s, a) && !a.TryNext? && !a.Offer? && !a.Take?
    ensures QueueInv(Apply(s, a))
  {
    var t := Apply(s, a);
    forall id | id in s.jobs
      ensures Untouched(t, id)
    {
      if IsMark(a) { assert s.workers[a.w].id != id; }
    }
  }

  lemma QueueKept(s: State, a: Action)
    requires Enabled(s, a) && !a.TryNext? && !a.Offer? && !a.Take?
    ensures Apply(s, a).accepted == s.accepted && Apply(s, a).jobs == s.jobs
  {
  }

  lemma WorkersSame(s: State, a: Action)
    requires Enabled(s, a) && !a.Take? && !IsMark(a) && !a.MarkReadyError? && !a.MarkFailedError?
    ensures Apply(s, a).workers == s.workers
  {
    hide PageOf;
  }

  lemma WorkerKept(s: State, a: Action, w: nat)
    requires Enabled(s, a) && !a.Take? && w in Apply(s, a).workers
    ensures w in s.workers && Apply(s, a).workers[w].id == s.workers[w].id
  {
    if !IsMark(a) && !a.MarkReadyError? && !a.MarkFailedError? {
      hide Apply;
      WorkersSame(s, a);
    }
  }

  lemma WorkerUntouched(s: State, a: Action, w: nat)
    requires QueueInv(s) && WorkerInv(s) && Enabled(s, a) && !a.TryNext? && !a.Offer? && !a.Take?
    requires w in s.workers && w in Apply(s, a).workers
    ensures Untouched(Apply(s, a), s.workers[w].id)
  {
    hide Apply;
    var id := s.workers[w].id;
    UsedKept(s, a);
    if id in Apply(s, a).rows {
      RowFrom(s, a, id);
      if IsMark(a) { MarkRow(s, a, id); }
    }
  }

  lemma RowStepWorkers(s: State, a: Action)
    requires QueueInv(s) && WorkerInv(s) && Enabled(s, a) && !a.TryNext? && !a.Offer? && !a.Take?
    ensures WorkerInv(Apply(s, a))
  {
    var t := Apply(s, a);
    QueueKept(s, a);
    forall w | w in t.workers
      ensures w in s.workers && t.workers[w].id == s.workers[w].id && Untouched(t, t.workers[w].id)
    {
      WorkerKept(s, a, w);
      WorkerUntouched(s, a, w);
    }
  }

  /** An upload waiting to offer its document is not disturbed by the other steps. */
  lemma UploadUntouched(s: State, a: Action, id: string)
    requires Enabled(s, a) && WorkerInv(s) && id !in s.accepted && Untouched(s, id)
    ensures Untouched(Apply(s, a), id)
    ensures !a.TryNext? && !a.Offer? ==> id !in Apply(s, a).accepted
  {
    hide Apply;
    UsedKept(s, a);
    if id in Apply(s, a).rows { RowFrom(s, a, id); }
    if !IsSend(a) { AcceptedKept(s, a); }
  }

  lemma OfferStep(s: State, u: nat)
    requires UploadInv(s) && WorkerInv(s) && Enabled(s, Offer(u))
    ensures UploadInv(Apply(s, Offer(u)))
  {
  }

  lemma InsertStep(s: State, a: Action)
    requires s.accepted <= s.used && s.rows.Keys <= s.used && UploadInv(s) && Enabled(s, a) && a.Insert?
    ensures UploadInv(Apply(s, a))
  {
  }

  lemma UploadStep(s: State, a: Action)
    requires s.accepted <= s.used && s.rows.Keys <= s.used && WorkerInv(s) && UploadInv(s) && Enabled(s, a)
    ensures UploadInv(Apply(s, a))
  {
    if a.Offer? {
      OfferStep(s, a.u);
    } else if a.Insert? {
      InsertStep(s, a);
    } else if !a.TryNext? {
      forall u | u in s.uploads
        ensures Untouched(Apply(s, a), s.uploads[u]) && s.uploads[u] !in Apply(s, a).accepted
      {
        UploadUntouched(s, a, s.uploads[u]);
      }
    }
  }

  lemma RowAges(s: State, a: Action, id: string)
    requires WorkerInv(s) && Enabled(s, a) && !a.Insert? && id in Apply(s, a).rows
    ensures var t := Apply(s, a);
            && id in s.rows && t.rows[id].createdAt == s.rows[id].createdAt
            && (t.rows[id].status == Pending ==> s.rows[id].status == Pending)
  {
    hide Apply;
    RowFrom(s, a, id);
  }

  lemma PendingShrinks(s: State, a: Action)
    requires WorkerInv(s) && Enabled(s, a) && !a.Insert?
    ensures PendingKeys(Apply(s, a).rows) <= PendingKeys(s.rows)
  {
    var rows := Apply(s, a).rows;
    forall id | id in rows
      ensures id in s.rows && rows[id].createdAt == s.rows[id].createdAt
              && (rows[id].status == Pending ==> s.rows[id].status == Pending)
    {
      RowAges(s, a, id);
    }
  }

  lemma BehindLater(s: State, t: State, offset: nat)
    requires Behind(s, offset) && t.accepted == s.accepted && PendingKeys(t.rows) <= PendingKeys(s.rows)
    ensures Behind(t, offset)
  {
    forall k | k in PendingKeys(t.rows)
      ensures |Earlier(k, PendingKeys(t.rows))| <= |Earlier(k, PendingKeys(s.rows))|
    {
      RankShrinks(k, PendingKeys(s.rows), PendingKeys(t.rows));
    }
  }

  lemma RestLater(s: State, t: State, rest: seq<Key>, offset: nat)
    requires RestInv(s, rest, offset) && t.accepted == s.accepted && PendingKeys(t.rows) <= PendingKeys(s.rows)
    requires s.used <= t.used && t.rows.Keys <= s.rows.Keys
    requires forall id | id in t.rows :: t.rows[id].createdAt == s.rows[id].createdAt
    requires forall k | k in rest && k.id in t.rows :: t.rows[k.id].status == s.rows[k.id].status
    ensures RestInv(t, rest, offset)
  {
    forall k | k in rest
      ensures |Earlier(k, PendingKeys(t.rows))| <= |Earlier(k, PendingKeys(s.rows))|
    {
      RankShrinks(k, PendingKeys(s.rows), PendingKeys(t.rows));
    }
  }

  /** A fresh page holds nothing accepted before. */
  lemma ListStep(s: State)
    requires ScanInv(s) && QueueInv(s) && s.scan.Scanning?
    ensures ScanInv(Apply(s, ListPage))
  {
    var offset, keys := s.scan.offset, PendingKeys(s.rows);
    var p := PageOf(keys, offset);
    PageDistinct(keys, offset);
    forall i | 0 <= i < |p|
      ensures p[i] in keys && offset <= |Earlier(p[i], keys)| < offset + BATCH
    {
      PageRank(keys, BATCH, offset, i);
    }
    forall i, j | 0 <= i < j < |p|
      ensures p[i].id != p[j].id
    {
      assert p[i] in keys && p[j] in keys;
    }
    assert Behind(Apply(s, ListPage), offset + BATCH);
  }

  lemma TryBehind(s: State, t: State, rest: seq<Key>, offset: nat)
    requires Behind(s, offset) && RestInv(s, rest, offset) && rest != []
    requires t.rows == s.rows && t.accepted <= s.accepted + {rest[0].id}
    ensures Behind(t, offset)
  {
    assert rest[0] in rest;
    forall k | k in PendingKeys(s.rows) && k.id in t.accepted
      ensures |Earlier(k, PendingKeys(s.rows))| < offset
    {
      if k.id == rest[0].id { assert k == rest[0]; }
    }
  }

  lemma TryRest(s: State, t: State, rest: seq<Key>, offset: nat)
    requires RestInv(s, rest, offset) && rest != []
    requires t.rows == s.rows && t.used == s.used && t.accepted <= s.accepted + {rest[0].id}
    ensures RestInv(t, rest[1..], offset)
  {
    forall k | k in rest[1..]
      ensures k in rest && k.id != rest[0].id
    {
      var i :| 1 <= i < |rest| && rest[i] == k;
    }
  }

  lemma TryStep(s: State)
    requires ScanInv(s) && Enabled(s, TryNext)
    ensures ScanInv(Apply(s, TryNext))
  {
    var rest, offset, t := s.scan.rest, s.scan.offset + BATCH, Apply(s, TryNext);
    TryBehind(s, t, rest, offset);
    TryRest(s, t, rest, offset);
  }

  lemma ScanStep(s: State, a: Action)
    requires Inv(s) && Enabled(s, a)
    ensures ScanInv(Apply(s, a))
  {
    match a
    case ListPage => ListStep(s);
    case TryNext => TryStep(s);
    case Insert(_, _) =>
    case Offer(_) =>
    case EndPage =>
    case _ => ScanUndisturbed(s, a);
  }

  /** Steps that leave the scan where it is, and the rows of its page unprocessed. */
  lemma PageUndisturbed(s: State, a: Action, k: Key)
    requires WorkerInv(s) && Enabled(s, a) && k.id !in s.accepted && k.id in Apply(s, a).rows && !a.Insert?
    ensures k.id in s.rows && Apply(s, a).rows[k.id].status == s.rows[k.id].status
  {
    hide Apply;
    RowFrom(s, a, k.id);
  }

  lemma ScanStays(s: State, a: Action)
    requires Enabled(s, a) && !a.Insert? && !a.Offer? && !a.TryNext? && !a.ListPage? && !a.EndPage?
    ensures var t := Apply(s, a);
            && (t.scan == s.scan || t.scan == Serving) && t.accepted == s.accepted && t.used == s.used
            && t.rows.Keys <= s.rows.Keys
  {
    if !a.ListFails? {
      hide Apply;
      ScanKept(s, a);
      AcceptedKept(s, a);
      UsedKept(s, a);
      forall id | id in Apply(s, a).rows
        ensures id in s.rows
      {
        RowFrom(s, a, id);
      }
    }
  }

  lemma ScanUndisturbed(s: State, a: Action)
    requires ScanInv(s) && WorkerInv(s) && Enabled(s, a)
    requires !a.Insert? && !a.Offer? && !a.TryNext? && !a.ListPage? && !a.EndPage?
    ensures ScanInv(Apply(s, a))
  {
    var t := Apply(s, a);
    PendingShrinks(s, a);
    ScanStays(s, a);
    match s.scan
    case Scanning(offset) => BehindLater(s, t, offset);
    case InPage(offset, rest, _) =>
      BehindLater(s, t, offset + BATCH);
      forall id | id in t.rows
        ensures t.rows[id].createdAt == s.rows[id].createdAt
      {
        RowAges(s, a, id);
      }
      forall k | k in rest && k.id in t.rows
        ensures t.rows[k.id].status == s.rows[k.id].status
      {
        PageUndisturbed(s, a, k);
      }
      RestLater(s, t, rest, offset + BATCH);
    case Serving =>
  }

  // ---------------------------------------------------------------------------------------------
  // What every run promises
  // ---------------------------------------------------------------------------------------------

  ghost function Run(s: State, steps: seq<Action>): Option<State> {
    if steps == [] then Some(s)
    else
      var t := Run(s, steps[..|steps| - 1]);
      if t.Some? && Enabled(t.value, steps[|steps| - 1]) then Some(Apply(t.value, steps[|steps| - 1])) else None
  }

  lemma Step(s: State, a: Action)
    requires Inv(s) && Enabled(s, a)
    ensures Inv(Apply(s, a))
  {
    hide Apply, WorkerInv, UploadInv, ScanInv;
    UploadStep(s, a);
    ScanStep(s, a);
    match a
    case TryNext => SendStep(s, a);
    case Offer(_) => SendStep(s, a);
    case Take(w) => TakeStep(s, w);
    case _ => RowStep(s, a); RowStepWorkers(s, a);
  }

  lemma {:induction false} RunKeepsInv(s: State, steps: seq<Action>)
    requires Inv(s) && Run(s, steps).Some?
    ensures Inv(Run(s, steps).value)
  {
    if steps == [] {
    } else {
      var n := |steps| - 1;
      RunKeepsInv(s, steps[..n]);
      Step(Run(s, steps[..n]).value, steps[n]);
    }
  }

  /** The queue accepts no document a second time, even when the scan overlaps the workers. */
  lemma AcceptedOnce(s: State, steps: seq<Action>)
    requires Init(s) && Run(s, steps).Some?
    ensures !Run(s, steps).value.twice
  {
    assert Inv(s);
    RunKeepsInv(s, steps);
  }

  /** A document's status stays, or leaves pending for good. */
  ghost predicate Forward(before: Status, after: Status) {
    after == before || (before == Pending && after != Pending)
  }

  lemma StatusStep(s: State, a: Action)
    requires Inv(s) && Enabled(s, a)
    ensures forall id | id in s.rows && id in Apply(s, a).rows ::
              Forward(s.rows[id].status, Apply(s, a).rows[id].status)
  {
    hide Apply;
    forall id | id in s.rows && id in Apply(s, a).rows
      ensures Forward(s.rows[id].status, Apply(s, a).rows[id].status)
    {
      RowFrom(s, a, id);
    }
  }

  /** PATCHes and status writes touch disjoint columns, apart from updated_at, however stale the copy
      the PATCH writes from. */
  lemma DisjointColumns(s: State, a: Action, id: string)
    requires s.rows.Keys <= s.used && Enabled(s, a) && id in s.rows && id in Apply(s, a).rows
    ensures var r, r' := s.rows[id], Apply(s, a).rows[id];
            && r'.createdAt == r.createdAt
            && (a.Write? ==> r'.status == r.status)
            && (!a.Write? ==> r'.title == r.title && r'.summary == r.summary)
            && (r' != r ==> a.Write? || a.MarkReady? || a.MarkFailed?)
  {
    hide Apply;
    RowFrom(s, a, id);
  }

  lemma RunThen(s: State, steps: seq<Action>, a: Action)
    requires Run(s, steps).Some? && Enabled(Run(s, steps).value, a)
    ensures Run(s, steps + [a]) == Some(Apply(Run(s, steps).value, a))
  {
    assert (steps + [a])[..|steps|] == steps;
  }

  /** How often id's status changes during the run. */
  ghost function Changes(s: State, steps: seq<Action>, id: string): nat
    requires Run(s, steps).Some?
  {
    if steps == [] then 0
    else
      var n := |steps| - 1;
      var t := Run(s, steps[..n]).value;
      var t' := Apply(t, steps[n]);
      Changes(s, steps[..n], id)
      + (if id in t.rows && id in t'.rows && t.rows[id].status != t'.rows[id].status then 1 else 0)
  }

  ghost predicate Settled(s: State, id: string) {
    id in s.used && (id in s.rows ==> s.rows[id].status != Pending)
  }

  lemma SettledStep(s: State, a: Action, id: string)
    requires Inv(s) && Enabled(s, a) && Settled(s, id)
    ensures Settled(Apply(s, a), id)
  {
    hide Apply;
    UsedKept(s, a);
    if id in Apply(s, a).rows { RowFrom(s, a, id); }
  }

  /** Over a whole run a status changes at most once, and then it is final. */
  lemma {:induction false} OneTerminalStatus(s: State, steps: seq<Action>, id: string)
    requires Inv(s) && Run(s, steps).Some?
    ensures Changes(s, steps, id) <= 1
    ensures Changes(s, steps, id) == 1 ==> Settled(Run(s, steps).value, id)
    ensures Settled(s, id) ==> Changes(s, steps, id) == 0 && Settled(Run(s, steps).value, id)
  {
    hide Apply, Enabled, Inv;
    if steps == [] {
    } else {
      var n := |steps| - 1;
      OneTerminalStatus(s, steps[..n], id);
      RunKeepsInv(s, steps[..n]);
      var t := Run(s, steps[..n]).value;
      StatusStep(t, steps[n]);
      UsedGrows(t, steps[n]);
      if Settled(t, id) { SettledStep(t, steps[n], id); }
    }
  }

  /** What a worker's mark writes: Ready or Failed and the time into its document's row, if there is one, and
      nothing else. Without a row the worker goes on to mark it failed, or gives up. */
  lemma MarkExact(s: State, a: Action)
    requires Enabled(s, a) && IsMark(a)
    ensures var id, rows := s.workers[a.w].id, Apply(s, a).rows;
            && (id !in s.rows ==> rows == s.rows)
            && (id in s.rows ==> rows == s.rows[id := s.rows[id].(
                  status := if a.MarkReady? then Ready else Failed,
                  updatedAt := a.now / 1_000_000_000 * 1_000_000_000)])
            && Apply(s, a).workers == if a.MarkReady? && id !in s.rows then s.workers[a.w := Task(id, true)]
                                      else s.workers - {a.w}
  {
  }

  /** What the other steps do to the rows: an upload adds its row, pending, a removal takes one away, a PATCH
      writes text and time of one that is still there, and nothing else touches them. */
  lemma RowsExact(s: State, a: Action)
    requires Enabled(s, a) && !IsMark(a)
    ensures a.Insert? && a.doc.id !in s.rows ==>
              && a.doc.status == Pending
              && Apply(s, a).rows == s.rows[a.doc.id := a.doc.(
                   createdAt := a.doc.createdAt / 1_000_000_000 * 1_000_000_000,
                   updatedAt := a.doc.updatedAt / 1_000_000_000 * 1_000_000_000)]
    ensures a.Remove? ==> Apply(s, a).rows == s.rows - {a.id}
    ensures a.Write? ==>
              var id, seen := s.edits[a.e].id, s.edits[a.e].seen;
              Apply(s, a).rows == if id !in s.rows then s.rows else s.rows[id := s.rows[id].(
                title := if a.title.Some? then a.title.value else seen.title,
                summary := if a.summary.Some? then a.summary.value else seen.summary,
                updatedAt := a.now / 1_000_000_000 * 1_000_000_000)]
    ensures !a.Insert? && !a.Remove? && !a.Write? ==> Apply(s, a).rows == s.rows
  {
    hide PageOf;
  }

  /** A worker takes the queue's first document, tries to mark it ready, after a failure to mark it failed, and
      after a failure of that is free again. */
  lemma WorkExact(s: State, a: Action)
    requires Enabled(s, a)
    ensures a.Take? ==> Apply(s, a).jobs == s.jobs[1..]
                        && Apply(s, a).workers == s.workers[a.w := Task(s.jobs[0], false)]
    ensures a.MarkReadyError? ==> Apply(s, a).workers == s.workers[a.w := Task(s.workers[a.w].id, true)]
    ensures a.MarkFailedError? ==> Apply(s, a).workers == s.workers - {a.w}
    ensures a.Take? || a.MarkReadyError? || a.MarkFailedError? ==> Apply(s, a).rows == s.rows
  {
    hide PageOf;
  }

  /** What is offered to the queue is accepted at its end if it is open and not full, and else dropped. */
  lemma OfferExact(s: State, a: Action)
    requires Enabled(s, a) && IsSend(a)
    ensures var id, t := if a.TryNext? then s.scan.rest[0].id else s.uploads[a.u], Apply(s, a);
            var accepts := !s.closed && |s.jobs| < s.cap;
            && t.jobs == (if accepts then s.jobs + [id] else s.jobs)
            && t.accepted == (if accepts then s.accepted + {id} else s.accepted)
            && (t.twice <==> s.twice || (accepts && id in s.accepted))
  {
  }

  lemma {:induction false} StatusKept(s: State, steps: seq<Action>, id: string, st: Status)
    requires Inv(s) && Run(s, steps).Some? && st != Pending
    requires id in s.used && (id in s.rows ==> s.rows[id].status == st)
    ensures var t := Run(s, steps).value; id in t.used && (id in t.rows ==> t.rows[id].status == st)
  {
    hide Apply, Enabled, Inv;
    if steps == [] {
    } else {
      var n := |steps| - 1;
      var t := Run(s, steps[..n]).value;
      StatusKept(s, steps[..n], id, st);
      RunKeepsInv(s, steps[..n]);
      StatusKeptStep(t, steps[n], id, st);
    }
  }

  lemma StatusKeptStep(s: State, a: Action, id: string, st: Status)
    requires Inv(s) && Enabled(s, a) && st != Pending
    requires id in s.used && (id in s.rows ==> s.rows[id].status == st)
    ensures var t := Apply(s, a); id in t.used && (id in t.rows ==> t.rows[id].status == st)
  {
    hide Apply;
    UsedKept(s, a);
    StatusStep(s, a);
    if id in Apply(s, a).rows { RowFrom(s, a, id); }
  }

  /** From every reachable state: a document marked ready stays ready as long as it exists, and one marked
      failed stays failed, whatever follows. */
  lemma MarkIsFinal(s: State, a: Action, steps: seq<Action>)
    requires Inv(s) && Enabled(s, a) && IsMark(a) && s.workers[a.w].id in s.rows
    requires Run(Apply(s, a), steps).Some?
    ensures var id, t := s.workers[a.w].id, Run(Apply(s, a), steps).value;
            id in t.rows ==> t.rows[id].status == if a.MarkReady? then Ready else Failed
  {
    hide Apply;
    var id := s.workers[a.w].id;
    Step(s, a);
    MarkExact(s, a);
    UsedGrows(s, a);
    StatusKept(Apply(s, a), steps, id, if a.MarkReady? then Ready else Failed);
  }
}
