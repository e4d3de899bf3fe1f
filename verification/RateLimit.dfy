/** The per-IP token bucket: refill, cap, rejection and eviction, over every run.

    Time and tokens are real numbers. A run is the sequence of events in the order in which they took
    the limiter's lock; since the clock is read before the lock is taken, times need not be ordered
    unless a lemma says so. */
module RateLimit {
  import opened Basics
  import opened Wrappers

  datatype Limits = Limits(rps: real, burst: int) {
    /** What the configuration check accepts. */
    predicate Valid() {
      rps > 0.0 && burst >= 1
    }

    function Cap(): real {
      burst as real
    }
  }

  const IDLE_LIMIT: real := 180.0

  /** The contents of one bucket. */
  datatype Fill = Fill(tokens: real, last: real)

  type Visitors = map<string, Fill>

  /** Tokens earned between two clock readings; negative when the later reading is the earlier one. */
  function Gain(c: Limits, from: real, to: real): real {
    (to - from) * c.rps
  }

  lemma GainAdds(c: Limits, a: real, b: real, d: real)
    ensures Gain(c, a, b) + Gain(c, b, d) == Gain(c, a, d)
  {
  }

  lemma GainGrows(c: Limits, a: real, b: real)
    requires c.Valid() && a <= b
    ensures Gain(c, a, b) >= 0.0
  {
  }

  function Refilled(c: Limits, f: Fill, now: real): real {
    var t := f.tokens + Gain(c, f.last, now);
    if t > c.Cap() then c.Cap() else t
  }

  /** The level a request finds; an IP without a bucket finds a full one. */
  function Level(c: Limits, f: Option<Fill>, now: real): real {
    if f.None? then c.Cap() else Refilled(c, f.value, now)
  }

  predicate Verdict(c: Limits, f: Option<Fill>, now: real) {
    f.None? || Level(c, f, now) >= 1.0
  }

  function Charged(c: Limits, f: Option<Fill>, now: real): Fill {
    Fill(Level(c, f, now) - (if Verdict(c, f, now) then 1.0 else 0.0), now)
  }

  function Swept(v: Visitors, cutoff: real): Visitors {
    map ip | ip in v && !(v[ip].last < cutoff) :: v[ip]
  }

  // ---------------------------------------------------------------------------------------------
  // The limiter itself
  // ---------------------------------------------------------------------------------------------

  class Bucket {
    var tokens: real
    var last: real

    constructor (tokens: real, last: real)
      ensures this.tokens == tokens && this.last == last
    {
      this.tokens := tokens;
      this.last := last;
    }
  }

  class Limiter {
    const limits: Limits
    var visitors: map<string, Bucket>

    constructor (limits: Limits)
      ensures this.limits == limits && Valid() && View() == map[]
    {
      this.limits := limits;
      visitors := map[];
    }

    /** No two IPs share a bucket. */
    ghost predicate Valid()
      reads this
    {
      forall a, b | a in visitors && b in visitors && a != b :: visitors[a] != visitors[b]
    }

    ghost function View(): Visitors
      reads this, visitors.Values
    {
      map ip | ip in visitors :: Fill(visitors[ip].tokens, visitors[ip].last)
    }

    /** now is the clock reading taken before the lock. */
    method Allow(ip: string, now: real) returns (ok: bool)
      requires Valid()
      modifies this, visitors.Values
      ensures Valid() && fresh(visitors.Values - old(visitors.Values))
      ensures ok == Verdict(limits, Lookup(old(View()), ip), now)
      ensures View() == old(View())[ip := Charged(limits, Lookup(old(View()), ip), now)]
    {
      ghost var was := View();
      ghost var f := Lookup(was, ip);
      if ip !in visitors {
        var full := new Bucket(limits.burst as real - 1.0, now);
        visitors := visitors[ip := full];
        return true;
      }
      var b := visitors[ip];
      assert was[ip] == Fill(b.tokens, b.last);
      var earned := (now - b.last) * limits.rps;
      assert earned == Gain(limits, was[ip].last, now);
      b.tokens := b.tokens + earned;
      if b.tokens > limits.burst as real {
        b.tokens := limits.burst as real;
      }
      b.last := now;
      assert f == Some(was[ip]) && b.tokens == Refilled(limits, was[ip], now);
      if b.tokens < 1.0 {
        OnlyOneChanged(was, ip, Charged(limits, f, now));
        return false;
      }
      b.tokens := b.tokens - 1.0;
      OnlyOneChanged(was, ip, Charged(limits, f, now));
      return true;
    }

    lemma OnlyOneChanged(was: Visitors, ip: string, now: Fill)
      requires was.Keys == visitors.Keys && ip in visitors && View()[ip] == now
      requires forall other | other in visitors && other != ip :: View()[other] == was[other]
      ensures View() == was[ip := now]
    {
    }

    /** One pass of the cleanup loop at clock reading now. */
    method Cleanup(now: real)
      requires Valid()
      modifies this
      ensures Valid() && visitors.Values <= old(visitors.Values)
      ensures View() == Swept(old(View()), now - IDLE_LIMIT)
      ensures View() == map ip | ip in old(View()) && now - old(View())[ip].last <= 180.0 :: old(View())[ip]
    {
      var cutoff := now - 180.0;
      var todo := visitors.Keys;
      while todo != {}
        invariant todo <= visitors.Keys <= old(visitors.Keys)
        invariant forall ip | ip in visitors :: visitors[ip] == old(visitors)[ip]
        invariant forall ip | ip in old(visitors) && ip !in todo ::
                    ip in visitors <==> !(old(visitors)[ip].last < cutoff)
        decreases todo
      {
        var ip :| ip in todo;
        todo := todo - {ip};
        if visitors[ip].last < cutoff {
          visitors := visitors - {ip};
        }
      }
    }
  }

  // ---------------------------------------------------------------------------------------------
  // Runs
  // ---------------------------------------------------------------------------------------------

  datatype Event = Request(ip: string, at: real) | Sweep(at: real)

  function Next(c: Limits, v: Visitors, e: Event): Visitors {
    match e
    case Request(ip, at) => v[ip := Charged(c, Lookup(v, ip), at)]
    case Sweep(at) => Swept(v, at - IDLE_LIMIT)
  }

  function After(c: Limits, v: Visitors, es: seq<Event>): Visitors {
    if es == [] then v else Next(c, After(c, v, es[..|es| - 1]), es[|es| - 1])
  }

  /** The verdicts given to ip during the run, in order. */
  function Verdicts(c: Limits, v: Visitors, es: seq<Event>, ip: string): seq<bool> {
    if es == [] then []
    else
      var n := |es| - 1;
      var before := Verdicts(c, v, es[..n], ip);
      if es[n].Request? && es[n].ip == ip
      then before + [Verdict(c, Lookup(After(c, v, es[..n]), ip), es[n].at)]
      else before
  }

  /** What one IP's bucket experiences: its own requests, and the sweeps. */
  datatype Tick = Ask(at: real) | Pass(at: real)

  function Own(es: seq<Event>, ip: string): seq<Tick> {
    if es == [] then []
    else
      Own(es[..|es| - 1], ip) + Seen(es[|es| - 1], ip)
  }

  function Seen(e: Event, ip: string): seq<Tick> {
    match e
    case Request(i, at) => if i == ip then [Ask(at)] else []
    case Sweep(at) => [Pass(at)]
  }

  function FillNext(c: Limits, f: Option<Fill>, k: Tick): Option<Fill> {
    match k
    case Ask(at) => Some(Charged(c, f, at))
    case Pass(at) => if f.Some? && f.value.last < at - IDLE_LIMIT then None else f
  }

  function FillAfter(c: Limits, f: Option<Fill>, ks: seq<Tick>): Option<Fill> {
    if ks == [] then f else FillNext(c, FillAfter(c, f, ks[..|ks| - 1]), ks[|ks| - 1])
  }

  function Answers(c: Limits, f: Option<Fill>, ks: seq<Tick>): seq<bool> {
    if ks == [] then []
    else
      var n := |ks| - 1;
      var before := Answers(c, f, ks[..n]);
      if ks[n].Ask? then before + [Verdict(c, FillAfter(c, f, ks[..n]), ks[n].at)] else before
  }

  /** Isolation: an IP's bucket and verdicts are a function of its own requests and the sweeps alone. */
  lemma {:induction false} Isolation(c: Limits, v: Visitors, es: seq<Event>, ip: string)
    ensures Verdicts(c, v, es, ip) == Answers(c, Lookup(v, ip), Own(es, ip))
    ensures Lookup(After(c, v, es), ip) == FillAfter(c, Lookup(v, ip), Own(es, ip))
  {
    if es == [] {
    } else {
      var n := |es| - 1;
      Isolation(c, v, es[..n], ip);
      var own := Own(es[..n], ip);
      if es[n].Sweep? || es[n].ip == ip {
        var k := if es[n].Sweep? then Pass(es[n].at) else Ask(es[n].at);
        assert Own(es, ip) == own + [k] && (own + [k])[..|own|] == own;
      } else {
        assert own + [] == own;
      }
    }
  }

  function Asks(ks: seq<Tick>): seq<Tick> {
    if ks == [] then []
    else if ks[|ks| - 1].Ask? then Asks(ks[..|ks| - 1]) + [ks[|ks| - 1]]
    else Asks(ks[..|ks| - 1])
  }

  /** The times of ip's requests. */
  function Times(es: seq<Event>, ip: string): seq<real> {
    if es == [] then []
    else
      var n := |es| - 1;
      if es[n].Request? && es[n].ip == ip then Times(es[..n], ip) + [es[n].at] else Times(es[..n], ip)
  }

  function Requests(ts: seq<real>): (ks: seq<Tick>)
    ensures |ks| == |ts|
  {
    if ts == [] then [] else Requests(ts[..|ts| - 1]) + [Ask(ts[|ts| - 1])]
  }

  lemma {:induction false} OwnRequests(es: seq<Event>, ip: string)
    ensures Asks(Own(es, ip)) == Requests(Times(es, ip))
  {
    if es == [] {
    } else {
      var n := |es| - 1;
      OwnRequests(es[..n], ip);
      var own := Own(es[..n], ip);
      if es[n].Sweep? || es[n].ip == ip {
        var k := if es[n].Sweep? then Pass(es[n].at) else Ask(es[n].at);
        assert Own(es, ip) == own + [k] && (own + [k])[..|own|] == own;
      } else {
        assert own + [] == own;
      }
    }
  }

  // ---------------------------------------------------------------------------------------------
  // Tokens never exceed the burst
  // ---------------------------------------------------------------------------------------------

  ghost predicate WithinBurst(c: Limits, v: Visitors) {
    forall ip | ip in v :: v[ip].tokens <= c.burst as real
  }

  /** Whatever the clock readings. */
  lemma {:induction false} TokensWithinBurst(c: Limits, v: Visitors, es: seq<Event>)
    requires c.Valid() && WithinBurst(c, v)
    ensures WithinBurst(c, After(c, v, es))
  {
    if es == [] {
    } else {
      TokensWithinBurst(c, v, es[..|es| - 1]);
    }
  }

  // ---------------------------------------------------------------------------------------------
  // The exact rejection rule and the window bound, for requests only and any clock readings
  // ---------------------------------------------------------------------------------------------

  /** How many of vs[i..n] are admissions. */
  function Admitted(vs: seq<bool>, i: nat, n: nat): nat
    requires n <= |vs|
  {
    if i >= n then 0 else Admitted(vs, i, n - 1) + (if vs[n - 1] then 1 else 0)
  }

  /** What the window from request i leaves for request n. */
  function Room(c: Limits, ts: seq<real>, vs: seq<bool>, i: nat, n: nat): real
    requires i <= n < |ts| && n <= |vs|
  {
    c.Cap() + Gain(c, ts[i], ts[n]) - Admitted(vs, i, n) as real
  }

  function LevelAt(c: Limits, f: Option<Fill>, ts: seq<real>, n: nat): real
    requires n < |ts|
  {
    Level(c, FillAfter(c, f, Requests(ts[..n])), ts[n])
  }

  lemma RequestsPrefix(ts: seq<real>, n: nat)
    requires n < |ts|
    ensures Requests(ts[..n + 1]) == Requests(ts[..n]) + [Ask(ts[n])]
    ensures Requests(ts[..n + 1])[..n] == Requests(ts[..n])
  {
    assert ts[..n + 1][..n] == ts[..n];
  }

  lemma {:induction false} AnswersAt(c: Limits, f: Option<Fill>, ts: seq<real>, n: nat)
    requires c.Valid() && n < |ts|
    ensures |Answers(c, f, Requests(ts))| == |ts|
    ensures Answers(c, f, Requests(ts))[n] <==> LevelAt(c, f, ts, n) >= 1.0
  {
    var m := |ts| - 1;
    assert ts[..m] + [ts[m]] == ts;
    LastOfRun(c, f, ts[..m], ts[m]);
    if m == 0 {
    } else {
      AnswersAt(c, f, ts[..m], if n < m then n else 0);
      if n < m { assert ts[..m][..n] == ts[..n]; }
    }
  }

  lemma LevelStep(c: Limits, f: Option<Fill>, ts: seq<real>, n: nat)
    requires c.Valid() && n + 1 < |ts|
    ensures var x := LevelAt(c, f, ts, n) - (if LevelAt(c, f, ts, n) >= 1.0 then 1.0 else 0.0)
                     + Gain(c, ts[n], ts[n + 1]);
            LevelAt(c, f, ts, n + 1) == if x > c.Cap() then c.Cap() else x
  {
    RequestsPrefix(ts, n);
    var g := FillAfter(c, f, Requests(ts[..n]));
    assert FillAfter(c, f, Requests(ts[..n + 1])) == Some(Charged(c, g, ts[n]));
  }

  lemma RoomStep(c: Limits, ts: seq<real>, vs: seq<bool>, i: nat, n: nat)
    requires i < n < |ts| && n <= |vs|
    ensures Room(c, ts, vs, i, n)
         == Room(c, ts, vs, i, n - 1) - (if vs[n - 1] then 1.0 else 0.0) + Gain(c, ts[n - 1], ts[n])
  {
    GainAdds(c, ts[i], ts[n - 1], ts[n]);
  }

  lemma RoomStart(c: Limits, ts: seq<real>, vs: seq<bool>, n: nat)
    requires n < |ts| && n <= |vs|
    ensures Room(c, ts, vs, n, n) == c.Cap()
  {
  }

  lemma LevelWithinCap(c: Limits, f: Option<Fill>, ts: seq<real>, n: nat)
    requires n < |ts|
    ensures LevelAt(c, f, ts, n) <= c.Cap()
  {
  }

  lemma {:induction false} LevelBelowRoom(c: Limits, f: Option<Fill>, ts: seq<real>, i: nat, n: nat)
    requires c.Valid() && i <= n < |ts| && |Answers(c, f, Requests(ts))| == |ts|
    ensures LevelAt(c, f, ts, n) <= Room(c, ts, Answers(c, f, Requests(ts)), i, n)
  {
    var vs := Answers(c, f, Requests(ts));
    if i == n {
      RoomStart(c, ts, vs, n);
      LevelWithinCap(c, f, ts, n);
    } else {
      LevelBelowRoom(c, f, ts, i, n - 1);
      AnswersAt(c, f, ts, n - 1);
      LevelStep(c, f, ts, n - 1);
      RoomStep(c, ts, vs, i, n);
    }
  }

  /** From a fresh bucket some window is exactly as tight as the bucket's level. */
  lemma {:induction false} LevelAttained(c: Limits, ts: seq<real>, n: nat) returns (i: nat)
    requires c.Valid() && n < |ts| && |Answers(c, None, Requests(ts))| == |ts|
    ensures i <= n && LevelAt(c, None, ts, n) == Room(c, ts, Answers(c, None, Requests(ts)), i, n)
    ensures i == n || Answers(c, None, Requests(ts))[i]
  {
    var vs := Answers(c, None, Requests(ts));
    RoomStart(c, ts, vs, n);
    if n == 0 {
      i := 0;
    } else {
      i := LevelAttained(c, ts, n - 1);
      AnswersAt(c, None, ts, n - 1);
      LevelStep(c, None, ts, n - 1);
      RoomStep(c, ts, vs, i, n);
      if LevelAt(c, None, ts, n) == c.Cap() {
        i := n;
      }
    }
  }

  lemma GainExact(c: Limits, from: real, to: real)
    ensures Gain(c, from, to) == (to - from) * c.rps && c.Cap() == c.burst as real
  {
  }

  /** Request i starts a window that one more admission at request n would overfill. */
  predicate Overfull(c: Limits, ts: seq<real>, vs: seq<bool>, i: nat, n: nat)
    requires i < n < |ts| && n <= |vs|
  {
    Admitted(vs, i, n) as real + 1.0 > c.burst as real + (ts[n] - ts[i]) * c.rps
  }

  lemma RejectedOverfills(c: Limits, ts: seq<real>, vs: seq<bool>, n: nat) returns (i: nat)
    requires c.Valid() && n < |ts| && vs == Answers(c, None, Requests(ts)) && |vs| == |ts| && !vs[n]
    ensures i < n && vs[i] && Overfull(c, ts, vs, i, n)
  {
    hide Gain, Answers, Requests, LevelAt, Admitted;
    AnswersAt(c, None, ts, n);
    i := LevelAttained(c, ts, n);
    assert Room(c, ts, vs, i, n) < 1.0;
    GainExact(c, ts[i], ts[n]);
    if i == n { RoomStart(c, ts, vs, n); }
  }

  lemma OverfullRejected(c: Limits, ts: seq<real>, vs: seq<bool>, i: nat, n: nat)
    requires c.Valid() && i < n < |ts| && vs == Answers(c, None, Requests(ts)) && |vs| == |ts|
    requires Overfull(c, ts, vs, i, n)
    ensures !vs[n]
  {
    hide Gain, Answers, Requests, LevelAt, Admitted;
    AnswersAt(c, None, ts, n);
    LevelBelowRoom(c, None, ts, i, n);
    GainExact(c, ts[i], ts[n]);
  }

  /** A request is rejected exactly when an earlier admitted one starts a window it would overfill.
      The times may come in any order. */
  lemma ExactRejection(c: Limits, ts: seq<real>, n: nat)
    requires c.Valid() && n < |ts|
    ensures var vs := Answers(c, None, Requests(ts));
            |vs| == |ts| && (!vs[n] <==> exists i: nat :: i < n && vs[i] && Overfull(c, ts, vs, i, n))
  {
    var vs := Answers(c, None, Requests(ts));
    AnswersAt(c, None, ts, n);
    if !vs[n] {
      var i := RejectedOverfills(c, ts, vs, n);
    }
    forall i: nat | i < n && vs[i] && Overfull(c, ts, vs, i, n)
      ensures !vs[n]
    {
      OverfullRejected(c, ts, vs, i, n);
    }
  }

  // ---------------------------------------------------------------------------------------------
  // Rejected requests leave no trace
  // ---------------------------------------------------------------------------------------------

  function Select<T>(xs: seq<T>, keep: seq<bool>): seq<T>
    requires |xs| == |keep|
  {
    if xs == [] then []
    else
      var n := |xs| - 1;
      Select(xs[..n], keep[..n]) + (if keep[n] then [xs[n]] else [])
  }

  /** Two buckets on the same refill line, which no later request can tell apart. */
  predicate SameLine(c: Limits, f: Option<Fill>, g: Option<Fill>) {
    f == g || (f.Some? && g.Some? && f.value.tokens + Gain(c, f.value.last, g.value.last) == g.value.tokens)
  }

  lemma SameLineStep(c: Limits, f: Option<Fill>, g: Option<Fill>, at: real)
    requires SameLine(c, f, g)
    ensures Verdict(c, f, at) == Verdict(c, g, at) && Charged(c, f, at) == Charged(c, g, at)
  {
    if f != g { GainAdds(c, f.value.last, g.value.last, at); }
  }

  lemma RejectedKeepsLine(c: Limits, f: Option<Fill>, g: Option<Fill>, at: real)
    requires c.Valid() && SameLine(c, f, g) && !Verdict(c, g, at)
    ensures SameLine(c, f, Some(Charged(c, g, at)))
  {
    if f != g { GainAdds(c, f.value.last, g.value.last, at); }
  }

  lemma LastOfRun(c: Limits, f: Option<Fill>, ts: seq<real>, at: real)
    ensures Requests(ts + [at]) == Requests(ts) + [Ask(at)]
    ensures FillAfter(c, f, Requests(ts + [at])) == Some(Charged(c, FillAfter(c, f, Requests(ts)), at))
    ensures Answers(c, f, Requests(ts + [at]))
         == Answers(c, f, Requests(ts)) + [Verdict(c, FillAfter(c, f, Requests(ts)), at)]
  {
    assert (ts + [at])[..|ts|] == ts;
    assert (Requests(ts) + [Ask(at)])[..|ts|] == Requests(ts);
  }

  lemma RejectedLeaveNoTraceStep(c: Limits, f: Option<Fill>, ts: seq<real>, at: real, keep: seq<bool>, k: bool,
                                 v: bool)
    requires c.Valid() && |keep| == |ts| == |Answers(c, f, Requests(ts))|
    requires Answers(c, f, Requests(Select(ts, keep))) == Select(Answers(c, f, Requests(ts)), keep)
    requires SameLine(c, FillAfter(c, f, Requests(Select(ts, keep))), FillAfter(c, f, Requests(ts)))
    requires Answers(c, f, Requests(ts + [at])) == Answers(c, f, Requests(ts)) + [v] && (k || !v)
    ensures Answers(c, f, Requests(Select(ts + [at], keep + [k])))
         == Select(Answers(c, f, Requests(ts + [at])), keep + [k])
    ensures SameLine(c, FillAfter(c, f, Requests(Select(ts + [at], keep + [k]))), FillAfter(c, f, Requests(ts + [at])))
  {
    var less := Select(ts, keep);
    LastOfRun(c, f, ts, at);
    SelectLast(ts, keep, at, k);
    SelectLast(Answers(c, f, Requests(ts)), keep, v, k);
    assert (Answers(c, f, Requests(ts)) + [v])[|ts|] == v;
    if k {
      LastOfRun(c, f, less, at);
      SameLineStep(c, FillAfter(c, f, Requests(less)), FillAfter(c, f, Requests(ts)), at);
    } else {
      assert less + [] == less;
      RejectedKeepsLine(c, FillAfter(c, f, Requests(less)), FillAfter(c, f, Requests(ts)), at);
    }
  }

  /** Deleting any rejected requests from a run changes no other verdict. */
  lemma {:induction false} RejectedLeaveNoTrace(c: Limits, f: Option<Fill>, ts: seq<real>, keep: seq<bool>)
    requires c.Valid() && |keep| == |ts|
    requires forall i | 0 <= i < |ts| && i < |Answers(c, f, Requests(ts))| && !keep[i] ::
               !Answers(c, f, Requests(ts))[i]
    ensures |Answers(c, f, Requests(ts))| == |ts|
    ensures Answers(c, f, Requests(Select(ts, keep))) == Select(Answers(c, f, Requests(ts)), keep)
    ensures SameLine(c, FillAfter(c, f, Requests(Select(ts, keep))), FillAfter(c, f, Requests(ts)))
  {
    if ts == [] {
    } else {
      var before, at, kept, k := ts[..|ts| - 1], ts[|ts| - 1], keep[..|ts| - 1], keep[|ts| - 1];
      assert before + [at] == ts && kept + [k] == keep;
      AnswersLength(c, f, before);
      var v := LastAnswer(c, f, before, at);
      RejectedLeaveNoTrace(c, f, before, kept);
      RejectedLeaveNoTraceStep(c, f, before, at, kept, k, v);
    }
  }

  lemma LastAnswer(c: Limits, f: Option<Fill>, ts: seq<real>, at: real) returns (v: bool)
    ensures Answers(c, f, Requests(ts + [at])) == Answers(c, f, Requests(ts)) + [v]
  {
    LastOfRun(c, f, ts, at);
    v := Verdict(c, FillAfter(c, f, Requests(ts)), at);
  }

  lemma SelectLast<T>(xs: seq<T>, keep: seq<bool>, x: T, k: bool)
    requires |xs| == |keep|
    ensures Select(xs + [x], keep + [k]) == Select(xs, keep) + (if k then [x] else [])
  {
    assert (xs + [x])[..|xs|] == xs && (keep + [k])[..|xs|] == keep;
  }

  lemma {:induction false} AnswersLength(c: Limits, f: Option<Fill>, ts: seq<real>)
    ensures |Answers(c, f, Requests(ts))| == |ts|
  {
    if ts == [] {
    } else {
      var before := ts[..|ts| - 1];
      assert ts == before + [ts[|ts| - 1]];
      AnswersLength(c, f, before);
      LastOfRun(c, f, before, ts[|ts| - 1]);
    }
  }

  // ---------------------------------------------------------------------------------------------
  // The window bound for runs with sweeps and other IPs
  // ---------------------------------------------------------------------------------------------

  /** No sweep of the run evicts this bucket. */
  predicate Kept(c: Limits, f: Option<Fill>, ks: seq<Tick>) {
    ks == [] ||
    var n := |ks| - 1;
    Kept(c, f, ks[..n])
    && (ks[n].Pass? ==> FillNext(c, FillAfter(c, f, ks[..n]), ks[n]) == FillAfter(c, f, ks[..n]))
  }

  lemma {:induction false} KeptIgnoresSweeps(c: Limits, f: Option<Fill>, ks: seq<Tick>)
    requires Kept(c, f, ks)
    ensures Answers(c, f, ks) == Answers(c, f, Asks(ks))
    ensures FillAfter(c, f, ks) == FillAfter(c, f, Asks(ks))
  {
    if ks == [] {
    } else {
      var n := |ks| - 1;
      KeptIgnoresSweeps(c, f, ks[..n]);
      var asks := Asks(ks[..n]);
      assert (asks + [ks[n]])[..|asks|] == asks;
    }
  }

  /** The exact rejection rule for ip inside any run from an empty limiter that never evicts it. */
  lemma ExactRejectionInRun(c: Limits, es: seq<Event>, ip: string, n: nat)
    requires c.Valid() && Kept(c, None, Own(es, ip)) && n < |Times(es, ip)|
    ensures var vs, ts := Verdicts(c, map[], es, ip), Times(es, ip);
            |vs| == |ts| && (!vs[n] <==> exists i: nat :: i < n && vs[i] && Overfull(c, ts, vs, i, n))
  {
    Isolation(c, map[], es, ip);
    KeptIgnoresSweeps(c, None, Own(es, ip));
    OwnRequests(es, ip);
    ExactRejection(c, Times(es, ip), n);
  }

  /** Between two of ip's requests with no eviction in between, at most burst + rps * elapsed admissions,
      even when the clock readings run backwards in lock order. */
  lemma WindowBound(c: Limits, v: Visitors, es: seq<Event>, ip: string, i: nat, j: nat)
    requires c.Valid() && Kept(c, Lookup(v, ip), Own(es, ip))
    requires i <= j < |Times(es, ip)|
    ensures var vs, ts := Verdicts(c, v, es, ip), Times(es, ip);
            |vs| == |ts|
            && (vs[j] ==> Admitted(vs, i, j + 1) as real <= c.burst as real + (ts[j] - ts[i]) * c.rps)
  {
    hide *;
    var ts := Times(es, ip);
    GainExact(c, ts[i], ts[j]);
    Isolation(c, v, es, ip);
    KeptIgnoresSweeps(c, Lookup(v, ip), Own(es, ip));
    OwnRequests(es, ip);
    RequestsBound(c, Lookup(v, ip), ts, i, j);
  }

  lemma RequestsBound(c: Limits, f: Option<Fill>, ts: seq<real>, i: nat, j: nat)
    requires c.Valid() && i <= j < |ts|
    ensures var vs := Answers(c, f, Requests(ts));
            |vs| == |ts| && (vs[j] ==> Admitted(vs, i, j + 1) as real <= c.Cap() + Gain(c, ts[i], ts[j]))
  {
    AnswersAt(c, f, ts, j);
    LevelBelowRoom(c, f, ts, i, j);
  }

  // ---------------------------------------------------------------------------------------------
  // Eviction
  // ---------------------------------------------------------------------------------------------

  predicate Ordered(es: seq<Event>) {
    forall i, j | 0 <= i < j < |es| :: es[i].at <= es[j].at
  }

  function WithoutSweeps(es: seq<Event>): seq<Event> {
    if es == [] then []
    else if es[|es| - 1].Request? then WithoutSweeps(es[..|es| - 1]) + [es[|es| - 1]]
    else WithoutSweeps(es[..|es| - 1])
  }

  /** Sweeping never changes a verdict, on any run in time order from an empty limiter. */
  ghost predicate EvictionInvisible(c: Limits) {
    forall es: seq<Event>, ip: string | Ordered(es) ::
      Verdicts(c, map[], es, ip) == Verdicts(c, map[], WithoutSweeps(es), ip)
  }

  /** Every bucket is nonnegative and none lies in the future. */
  ghost predicate Sound(v: Visitors, now: real) {
    forall ip | ip in v :: v[ip].tokens >= 0.0 && v[ip].last <= now
  }

  /** v is w with some buckets evicted that have been idle too long at time now. */
  ghost predicate Trimmed(v: Visitors, w: Visitors, now: real) {
    forall ip :: (ip in v ==> ip in w && v[ip] == w[ip])
                 && (ip in w && ip !in v ==> w[ip].last < now - 180.0)
  }

  lemma FullAgain(c: Limits, f: Fill, now: real)
    requires c.Valid() && IDLE_LIMIT * c.rps >= c.Cap() && f.tokens >= 0.0 && f.last < now - IDLE_LIMIT
    ensures Refilled(c, f, now) == c.Cap()
  {
    GainAdds(c, f.last, now - IDLE_LIMIT, now);
    GainGrows(c, f.last, now - IDLE_LIMIT);
  }

  lemma TrimmedStep(c: Limits, v: Visitors, w: Visitors, now: real, e: Event)
    requires c.Valid() && IDLE_LIMIT * c.rps >= c.Cap()
    requires Trimmed(v, w, now) && Sound(w, now) && now <= e.at
    ensures var w' := if e.Request? then Next(c, w, e) else w;
            Trimmed(Next(c, v, e), w', e.at) && Sound(w', e.at)
    ensures e.Request? ==> Verdict(c, Lookup(v, e.ip), e.at) == Verdict(c, Lookup(w, e.ip), e.at)
  {
    if e.Request? {
      if e.ip in w {
        GainGrows(c, w[e.ip].last, e.at);
        if e.ip !in v { FullAgain(c, w[e.ip], e.at); }
      }
    }
  }

  lemma {:induction false} TrimmedRun(c: Limits, es: seq<Event>, now: real)
    requires c.Valid() && 180.0 * c.rps >= c.burst as real && Ordered(es)
    requires forall i | 0 <= i < |es| :: es[i].at <= now
    ensures Trimmed(After(c, map[], es), After(c, map[], WithoutSweeps(es)), now)
    ensures Sound(After(c, map[], WithoutSweeps(es)), now)
    ensures forall ip: string :: Verdicts(c, map[], es, ip) == Verdicts(c, map[], WithoutSweeps(es), ip)
  {
    if es == [] {
    } else {
      var n := |es| - 1;
      TrimmedRun(c, es[..n], es[n].at);
      var less := WithoutSweeps(es[..n]);
      TrimmedStep(c, After(c, map[], es[..n]), After(c, map[], less), es[n].at, es[n]);
      assert (less + [es[n]])[..|less|] == less;
    }
  }

  // ---------------------------------------------------------------------------------------------
  // Rejected requests leave no trace in runs with other IPs and sweeps
  // ---------------------------------------------------------------------------------------------

  /** The events left out are rejected requests, of whatever IPs. */
  predicate OnlyRejected(c: Limits, v: Visitors, es: seq<Event>, keep: seq<bool>)
    requires |keep| == |es|
  {
    es == [] ||
    var n := |es| - 1;
    OnlyRejected(c, v, es[..n], keep[..n])
    && (keep[n] || (es[n].Request? && !Verdict(c, Lookup(After(c, v, es[..n]), es[n].ip), es[n].at)))
  }

  /** Which of ip's requests are kept. */
  function Mask(es: seq<Event>, keep: seq<bool>, ip: string): seq<bool>
    requires |keep| == |es|
  {
    if es == [] then []
    else
      var n := |es| - 1;
      Mask(es[..n], keep[..n], ip) + (if es[n].Request? && es[n].ip == ip then [keep[n]] else [])
  }

  lemma LastEvent(c: Limits, v: Visitors, es: seq<Event>, e: Event, ip: string)
    ensures After(c, v, es + [e]) == Next(c, After(c, v, es), e)
    ensures Verdicts(c, v, es + [e], ip)
         == Verdicts(c, v, es, ip)
            + (if e.Request? && e.ip == ip then [Verdict(c, Lookup(After(c, v, es), ip), e.at)] else [])
  {
    assert (es + [e])[..|es|] == es;
  }

  /** One event, kept or left out, when the two runs so far are in line for ip. */
  lemma InLineNext(c: Limits, v: Visitors, less: seq<Event>, es: seq<Event>, e: Event, keep: bool, ip: string)
    requires c.Valid() && SameLine(c, Lookup(After(c, v, less), ip), Lookup(After(c, v, es), ip))
    requires e.Sweep? ==> keep && Lookup(After(c, v, less + [e]), ip) == Lookup(After(c, v, less), ip)
                          && Lookup(After(c, v, es + [e]), ip) == Lookup(After(c, v, es), ip)
    requires keep || !Verdict(c, Lookup(After(c, v, es), e.ip), e.at)
    ensures var less' := less + (if keep then [e] else []);
            var own := e.Request? && e.ip == ip;
            && SameLine(c, Lookup(After(c, v, less'), ip), Lookup(After(c, v, es + [e]), ip))
            && Verdicts(c, v, less', ip)
               == Verdicts(c, v, less, ip)
                  + (if own && keep then [Verdict(c, Lookup(After(c, v, es), ip), e.at)] else [])
  {
    LastEvent(c, v, es, e, ip);
    if keep { LastEvent(c, v, less, e, ip); } else { assert less + [] == less; }
    if e.Request? && e.ip == ip {
      var f, g := Lookup(After(c, v, less), ip), Lookup(After(c, v, es), ip);
      if keep { SameLineStep(c, f, g, e.at); } else { RejectedKeepsLine(c, f, g, e.at); }
    }
  }

  predicate IsOwn(e: Event, ip: string) {
    e.Request? && e.ip == ip
  }

  /** The verdicts of a run and of what is kept of it, one event further; w is the new verdict, if any. */
  lemma SelectOwn(xs: seq<bool>, mask: seq<bool>, w: seq<bool>, own: bool, k: bool)
    requires |xs| == |mask| && |w| == if own then 1 else 0
    ensures |xs + w| == |mask + (if own then [k] else [])|
    ensures Select(xs + w, mask + (if own then [k] else [])) == Select(xs, mask) + (if k then w else [])
  {
    if own {
      assert w == [w[0]];
      SelectLast(xs, mask, w[0], k);
    } else {
      assert xs + w == xs && mask + [] == mask;
    }
  }

  lemma MaskLast(es: seq<Event>, keep: seq<bool>, e: Event, k: bool, ip: string)
    requires |keep| == |es|
    ensures Mask(es + [e], keep + [k], ip) == Mask(es, keep, ip) + (if IsOwn(e, ip) then [k] else [])
  {
    assert (es + [e])[..|es|] == es && (keep + [k])[..|es|] == keep;
  }

  lemma KeptLast(c: Limits, v: Visitors, es: seq<Event>, e: Event, ip: string)
    requires Kept(c, Lookup(v, ip), Own(es + [e], ip))
    ensures Kept(c, Lookup(v, ip), Own(es, ip))
    ensures e.Sweep? ==> Lookup(After(c, v, es + [e]), ip) == Lookup(After(c, v, es), ip)
  {
    OwnLast(es, e, ip);
    Isolation(c, v, es, ip);
    LastEvent(c, v, es, e, ip);
    var own := Own(es, ip);
    if Seen(e, ip) == [] {
      assert own + [] == own;
    } else {
      assert (own + Seen(e, ip))[..|own|] == own;
    }
  }

  /** Both runs are in line for ip, and w is the verdict that the next event adds for ip, if any. */
  lemma NextInRun(c: Limits, v: Visitors, es: seq<Event>, less: seq<Event>, e: Event, keep: bool, ip: string)
    returns (w: seq<bool>)
    requires c.Valid() && SameLine(c, Lookup(After(c, v, less), ip), Lookup(After(c, v, es), ip))
    requires keep || (e.Request? && !Verdict(c, Lookup(After(c, v, es), e.ip), e.at))
    requires Kept(c, Lookup(v, ip), Own(es + [e], ip))
    requires Kept(c, Lookup(v, ip), Own(less + (if keep then [e] else []), ip))
    ensures Kept(c, Lookup(v, ip), Own(es, ip)) && |w| == if IsOwn(e, ip) then 1 else 0
    ensures SameLine(c, Lookup(After(c, v, less + (if keep then [e] else [])), ip), Lookup(After(c, v, es + [e]), ip))
    ensures Verdicts(c, v, es + [e], ip) == Verdicts(c, v, es, ip) + w
    ensures Verdicts(c, v, less + (if keep then [e] else []), ip)
         == Verdicts(c, v, less, ip) + (if keep then w else [])
  {
    KeptLast(c, v, es, e, ip);
    if keep { KeptLast(c, v, less, e, ip); }
    LastEvent(c, v, es, e, ip);
    InLineNext(c, v, less, es, e, keep, ip);
    w := if IsOwn(e, ip) then [Verdict(c, Lookup(After(c, v, es), ip), e.at)] else [];
  }

  lemma KeptSelect(c: Limits, v: Visitors, es: seq<Event>, keep: seq<bool>, e: Event, k: bool, ip: string)
    requires |keep| == |es| && Kept(c, Lookup(v, ip), Own(Select(es + [e], keep + [k]), ip))
    ensures Kept(c, Lookup(v, ip), Own(Select(es, keep), ip))
  {
    SelectLast(es, keep, e, k);
    var less := Select(es, keep);
    if k { KeptLast(c, v, less, e, ip); } else { assert less + [] == less; }
  }

  lemma OnlyRejectedLast(c: Limits, v: Visitors, es: seq<Event>, keep: seq<bool>, e: Event, k: bool)
    requires |keep| == |es| && OnlyRejected(c, v, es + [e], keep + [k])
    ensures OnlyRejected(c, v, es, keep)
    ensures k || (e.Request? && !Verdict(c, Lookup(After(c, v, es), e.ip), e.at))
  {
    assert (es + [e])[..|es|] == es && (keep + [k])[..|es|] == keep;
  }

  lemma InRunStep(c: Limits, v: Visitors, es: seq<Event>, keep: seq<bool>, e: Event, k: bool, ip: string)
    requires c.Valid() && |keep| == |es| && OnlyRejected(c, v, es + [e], keep + [k])
    requires Kept(c, Lookup(v, ip), Own(es + [e], ip))
    requires Kept(c, Lookup(v, ip), Own(Select(es + [e], keep + [k]), ip))
    requires |Mask(es, keep, ip)| == |Verdicts(c, v, es, ip)|
    requires Verdicts(c, v, Select(es, keep), ip) == Select(Verdicts(c, v, es, ip), Mask(es, keep, ip))
    requires SameLine(c, Lookup(After(c, v, Select(es, keep)), ip), Lookup(After(c, v, es), ip))
    ensures |Mask(es + [e], keep + [k], ip)| == |Verdicts(c, v, es + [e], ip)|
    ensures Verdicts(c, v, Select(es + [e], keep + [k]), ip)
         == Select(Verdicts(c, v, es + [e], ip), Mask(es + [e], keep + [k], ip))
    ensures SameLine(c, Lookup(After(c, v, Select(es + [e], keep + [k])), ip), Lookup(After(c, v, es + [e]), ip))
  {
    SelectLast(es, keep, e, k);
    OnlyRejectedLast(c, v, es, keep, e, k);
    var w := NextInRun(c, v, es, Select(es, keep), e, k, ip);
    MaskLast(es, keep, e, k, ip);
    SelectOwn(Verdicts(c, v, es, ip), Mask(es, keep, ip), w, IsOwn(e, ip), k);
  }

  /** In a run with other IPs and with sweeps that evict ip neither with nor without the deletions, deleting
      rejected requests of any IPs changes no other verdict of ip. The times may come in any order. */
  lemma {:induction false} RejectedLeaveNoTraceInRun(c: Limits, v: Visitors, es: seq<Event>, keep: seq<bool>,
                                                     ip: string)
    requires c.Valid() && |keep| == |es| && OnlyRejected(c, v, es, keep)
    requires Kept(c, Lookup(v, ip), Own(es, ip)) && Kept(c, Lookup(v, ip), Own(Select(es, keep), ip))
    ensures |Mask(es, keep, ip)| == |Verdicts(c, v, es, ip)|
    ensures Verdicts(c, v, Select(es, keep), ip) == Select(Verdicts(c, v, es, ip), Mask(es, keep, ip))
    ensures SameLine(c, Lookup(After(c, v, Select(es, keep)), ip), Lookup(After(c, v, es), ip))
  {
    hide Kept, Own;
    if es == [] {
    } else {
      var before, e, kept, k := es[..|es| - 1], es[|es| - 1], keep[..|es| - 1], keep[|es| - 1];
      assert before + [e] == es && kept + [k] == keep;
      OnlyRejectedLast(c, v, before, kept, e, k);
      KeptLast(c, v, before, e, ip);
      KeptSelect(c, v, before, kept, e, k, ip);
      RejectedLeaveNoTraceInRun(c, v, before, kept, ip);
      InRunStep(c, v, before, kept, e, k, ip);
    }
  }

  // With refill fast enough, the sweeps do not matter at all.

  lemma {:induction false} SelectOrdered(es: seq<Event>, keep: seq<bool>)
    requires |keep| == |es| && Ordered(es)
    ensures Ordered(Select(es, keep))
    ensures forall e | e in Select(es, keep) :: e in es
  {
    if es == [] {
    } else {
      var n := |es| - 1;
      SelectOrdered(es[..n], keep[..n]);
      var less := Select(es[..n], keep[..n]);
      forall e | e in less
        ensures e.at <= es[n].at
      {
        var i :| 0 <= i < n && es[..n][i] == e;
        assert es[i].at <= es[n].at;
      }
    }
  }

  /** The verdict on a request next in an ordered run is the one without any sweeps. */
  lemma SweptVerdict(c: Limits, es: seq<Event>, e: Event)
    requires c.Valid() && IDLE_LIMIT * c.rps >= c.Cap() && Ordered(es) && e.Request?
    requires forall d | d in es :: d.at <= e.at
    ensures Verdict(c, Lookup(After(c, map[], es), e.ip), e.at)
         == Verdict(c, Lookup(After(c, map[], WithoutSweeps(es)), e.ip), e.at)
  {
    forall i | 0 <= i < |es|
      ensures es[i].at <= e.at
    {
      assert es[i] in es;
    }
    TrimmedRun(c, es, e.at);
    TrimmedStep(c, After(c, map[], es), After(c, map[], WithoutSweeps(es)), e.at, e);
  }

  /** In an ordered run from an empty limiter, with whatever sweeps, deleting rejected requests of any IPs
      changes no other verdict, if the idle limit is long enough to refill an empty bucket. */
  lemma {:induction false} RejectedLeaveNoTraceSwept(c: Limits, es: seq<Event>, keep: seq<bool>, ip: string)
    requires c.Valid() && 180.0 * c.rps >= c.burst as real
    requires Ordered(es) && |keep| == |es| && OnlyRejected(c, map[], es, keep)
    ensures |Mask(es, keep, ip)| == |Verdicts(c, map[], es, ip)|
    ensures Verdicts(c, map[], Select(es, keep), ip) == Select(Verdicts(c, map[], es, ip), Mask(es, keep, ip))
    ensures SameLine(c, Lookup(After(c, map[], WithoutSweeps(Select(es, keep))), ip),
                     Lookup(After(c, map[], WithoutSweeps(es)), ip))
  {
    if es == [] {
    } else {
      var before, e, kept, k := es[..|es| - 1], es[|es| - 1], keep[..|es| - 1], keep[|es| - 1];
      assert before + [e] == es && kept + [k] == keep;
      OnlyRejectedLast(c, map[], before, kept, e, k);
      OrderedLast(before, e);
      RejectedLeaveNoTraceSwept(c, before, kept, ip);
      SweptStep(c, before, kept, e, k, ip);
    }
  }

  lemma SweptStep(c: Limits, es: seq<Event>, keep: seq<bool>, e: Event, k: bool, ip: string)
    requires c.Valid() && IDLE_LIMIT * c.rps >= c.Cap()
    requires Ordered(es + [e]) && |keep| == |es| && OnlyRejected(c, map[], es + [e], keep + [k])
    requires |Mask(es, keep, ip)| == |Verdicts(c, map[], es, ip)|
    requires Verdicts(c, map[], Select(es, keep), ip) == Select(Verdicts(c, map[], es, ip), Mask(es, keep, ip))
    requires SameLine(c, Lookup(After(c, map[], WithoutSweeps(Select(es, keep))), ip),
                      Lookup(After(c, map[], WithoutSweeps(es)), ip))
    ensures |Mask(es + [e], keep + [k], ip)| == |Verdicts(c, map[], es + [e], ip)|
    ensures Verdicts(c, map[], Select(es + [e], keep + [k]), ip)
         == Select(Verdicts(c, map[], es + [e], ip), Mask(es + [e], keep + [k], ip))
    ensures SameLine(c, Lookup(After(c, map[], WithoutSweeps(Select(es + [e], keep + [k]))), ip),
                     Lookup(After(c, map[], WithoutSweeps(es + [e])), ip))
  {
    OrderedLast(es, e);
    SelectOrdered(es, keep);
    SelectLast(es, keep, e, k);
    OnlyRejectedLast(c, map[], es, keep, e, k);
    var w := SweptNext(c, es, Select(es, keep), e, k, ip);
    MaskLast(es, keep, e, k, ip);
    SelectOwn(Verdicts(c, map[], es, ip), Mask(es, keep, ip), w, IsOwn(e, ip), k);
  }

  lemma OrderedLast(es: seq<Event>, e: Event)
    requires Ordered(es + [e])
    ensures Ordered(es) && forall d | d in es :: d.at <= e.at
  {
    var all := es + [e];
    assert forall i | 0 <= i < |es| :: all[i] == es[i] && all[i].at <= all[|es|].at;
  }

  lemma LastPlain(es: seq<Event>, e: Event)
    ensures WithoutSweeps(es + [e]) == if e.Request? then WithoutSweeps(es) + [e] else WithoutSweeps(es)
  {
    assert (es + [e])[..|es|] == es;
  }

  lemma SweptNext(c: Limits, es: seq<Event>, less: seq<Event>, e: Event, keep: bool, ip: string)
    returns (w: seq<bool>)
    requires c.Valid() && IDLE_LIMIT * c.rps >= c.Cap() && Ordered(es) && Ordered(less)
    requires forall d | d in es || d in less :: d.at <= e.at
    requires keep || (e.Request? && !Verdict(c, Lookup(After(c, map[], es), e.ip), e.at))
    requires SameLine(c, Lookup(After(c, map[], WithoutSweeps(less)), ip),
                      Lookup(After(c, map[], WithoutSweeps(es)), ip))
    ensures |w| == if IsOwn(e, ip) then 1 else 0
    ensures SameLine(c, Lookup(After(c, map[], WithoutSweeps(less + (if keep then [e] else []))), ip),
                     Lookup(After(c, map[], WithoutSweeps(es + [e])), ip))
    ensures Verdicts(c, map[], es + [e], ip) == Verdicts(c, map[], es, ip) + w
    ensures Verdicts(c, map[], less + (if keep then [e] else []), ip)
         == Verdicts(c, map[], less, ip) + (if keep then w else [])
  {
    LastPlain(es, e);
    LastEvent(c, map[], es, e, ip);
    if keep { LastPlain(less, e); LastEvent(c, map[], less, e, ip); } else { assert less + [] == less; }
    w := if IsOwn(e, ip) then [Verdict(c, Lookup(After(c, map[], es), ip), e.at)] else [];
    if e.Request? {
      SweptVerdict(c, es, e);
      InLineNext(c, map[], WithoutSweeps(less), WithoutSweeps(es), e, keep, ip);
      if e.ip == ip && keep {
        SweptVerdict(c, less, e);
        SameLineStep(c, Lookup(After(c, map[], WithoutSweeps(less)), ip),
                     Lookup(After(c, map[], WithoutSweeps(es)), ip), e.at);
      }
      if !keep { assert WithoutSweeps(less) + [] == WithoutSweeps(less); }
    }
  }

  lemma VolleyStep(c: Limits, f: Option<Fill>, at: real)
    requires c.Valid() && Verdict(c, f, at)
    ensures Level(c, Some(Charged(c, f, at)), at) == Level(c, f, at) - 1.0
  {
    assert Gain(c, at, at) == 0.0;
  }

  function Volley(n: nat, at: real): (ts: seq<real>)
    ensures |ts| == n
  {
    if n == 0 then [] else Volley(n - 1, at) + [at]
  }

  predicate AllOf(vs: seq<bool>) {
    forall i | 0 <= i < |vs| :: vs[i]
  }

  lemma AllOfSnoc(vs: seq<bool>, v: bool)
    ensures AllOf(vs + [v]) <==> AllOf(vs) && v
  {
    var all := vs + [v];
    assert all[|vs|] == v && forall i | 0 <= i < |vs| :: all[i] == vs[i];
  }

  lemma VerdictIsLevel(c: Limits, f: Option<Fill>, at: real)
    requires c.Valid()
    ensures Verdict(c, f, at) <==> Level(c, f, at) >= 1.0
  {
  }

  /** n requests at one instant take n tokens, if the level covers them. */
  lemma {:induction false} VolleyDrains(c: Limits, f: Option<Fill>, n: nat, at: real)
    requires c.Valid() && Level(c, f, at) >= n as real
    ensures Level(c, FillAfter(c, f, Requests(Volley(n, at))), at) == Level(c, f, at) - n as real
  {
    if n == 0 {
    } else {
      var g := FillAfter(c, f, Requests(Volley(n - 1, at)));
      VolleyDrains(c, f, n - 1, at);
      LastOfRun(c, f, Volley(n - 1, at), at);
      VerdictIsLevel(c, g, at);
      VolleyStep(c, g, at);
    }
  }

  /** The n-th request of a volley, finding the bucket g. */
  lemma VolleyVerdict(c: Limits, f: Option<Fill>, g: Option<Fill>, n: nat, at: real)
    requires c.Valid() && n >= 1 && (n == 1 ==> g == f)
    requires Level(c, f, at) >= (n - 1) as real ==> Level(c, g, at) == Level(c, f, at) - (n - 1) as real
    ensures (n == 1 || Level(c, f, at) >= (n - 1) as real) && Verdict(c, g, at) <==> Level(c, f, at) >= n as real
  {
    VerdictIsLevel(c, g, at);
  }

  lemma LastOfVolley(c: Limits, f: Option<Fill>, n: nat, at: real) returns (g: Option<Fill>)
    requires c.Valid() && n >= 1
    ensures n == 1 ==> g == f
    ensures Level(c, f, at) >= (n - 1) as real ==> Level(c, g, at) == Level(c, f, at) - (n - 1) as real
    ensures AllOf(Answers(c, f, Requests(Volley(n, at))))
            <==> AllOf(Answers(c, f, Requests(Volley(n - 1, at)))) && Verdict(c, g, at)
  {
    hide Level, Verdict, Answers, Charged;
    var before := Volley(n - 1, at);
    g := FillAfter(c, f, Requests(before));
    LastOfRun(c, f, before, at);
    AllOfSnoc(Answers(c, f, Requests(before)), Verdict(c, g, at));
    if Level(c, f, at) >= (n - 1) as real { VolleyDrains(c, f, n - 1, at); }
  }

  /** They are all admitted exactly when the level covers them. */
  lemma {:induction false} VolleyAdmitted(c: Limits, f: Option<Fill>, n: nat, at: real)
    requires c.Valid() && n >= 1
    ensures AllOf(Answers(c, f, Requests(Volley(n, at)))) <==> Level(c, f, at) >= n as real
    decreases n
  {
    hide Level, Verdict, FillAfter;
    var g := LastOfVolley(c, f, n, at);
    VolleyVerdict(c, f, g, n, at);
    if n == 1 {
      assert Volley(0, at) == [];
    } else {
      VolleyAdmitted(c, f, n - 1, at);
    }
  }

  /** What one more tick adds. */
  lemma OneMoreTick(c: Limits, f: Option<Fill>, ks: seq<Tick>, k: Tick)
    ensures FillAfter(c, f, ks + [k]) == FillNext(c, FillAfter(c, f, ks), k)
    ensures Answers(c, f, ks + [k])
         == Answers(c, f, ks) + if k.Ask? then [Verdict(c, FillAfter(c, f, ks), k.at)] else []
  {
    assert (ks + [k])[..|ks|] == ks;
  }

  lemma ContinueOne(c: Limits, f: Option<Fill>, a: seq<Tick>, b: seq<Tick>, k: Tick)
    requires FillAfter(c, f, a + b) == FillAfter(c, FillAfter(c, f, a), b)
    requires Answers(c, f, a + b) == Answers(c, f, a) + Answers(c, FillAfter(c, f, a), b)
    ensures FillAfter(c, f, a + (b + [k])) == FillAfter(c, FillAfter(c, f, a), b + [k])
    ensures Answers(c, f, a + (b + [k])) == Answers(c, f, a) + Answers(c, FillAfter(c, f, a), b + [k])
  {
    hide FillAfter, Answers, FillNext, Verdict;
    var g := FillAfter(c, f, a);
    ConcatAssociates(a, b, [k]);
    OneMoreTick(c, f, a + b, k);
    OneMoreTick(c, g, b, k);
    ConcatAssociates(Answers(c, f, a), Answers(c, g, b),
                     if k.Ask? then [Verdict(c, FillAfter(c, g, b), k.at)] else []);
  }

  lemma {:induction false} Continue(c: Limits, f: Option<Fill>, a: seq<Tick>, b: seq<Tick>)
    ensures FillAfter(c, f, a + b) == FillAfter(c, FillAfter(c, f, a), b)
    ensures Answers(c, f, a + b) == Answers(c, f, a) + Answers(c, FillAfter(c, f, a), b)
  {
    if b == [] {
      assert a + b == a;
      assert Answers(c, f, a) + [] == Answers(c, f, a);
    } else {
      hide FillAfter, Answers;
      var before, k := b[..|b| - 1], b[|b| - 1];
      assert before + [k] == b;
      Continue(c, f, a, before);
      ContinueOne(c, f, a, before, k);
    }
  }

  lemma OwnLast(es: seq<Event>, e: Event, ip: string)
    ensures Own(es + [e], ip) == Own(es, ip) + Seen(e, ip)
  {
    assert (es + [e])[..|es|] == es;
  }

  lemma JoinOwnStep(a: seq<Event>, b: seq<Event>, e: Event, ip: string)
    requires Own(a + b, ip) == Own(a, ip) + Own(b, ip)
    ensures Own(a + (b + [e]), ip) == Own(a, ip) + Own(b + [e], ip)
  {
    ConcatAssociates(a, b, [e]);
    OwnLast(a + b, e, ip);
    OwnLast(b, e, ip);
    ConcatAssociates(Own(a, ip), Own(b, ip), Seen(e, ip));
  }

  lemma {:induction false} JoinOwn(a: seq<Event>, b: seq<Event>, ip: string)
    ensures Own(a + b, ip) == Own(a, ip) + Own(b, ip)
  {
    if b == [] {
      assert a + b == a && Own(a, ip) + [] == Own(a, ip);
    } else {
      var c, e := b[..|b| - 1], b[|b| - 1];
      assert b == c + [e];
      JoinOwn(a, c, ip);
      JoinOwnStep(a, c, e, ip);
    }
  }

  lemma {:induction false} JoinPlain(a: seq<Event>, b: seq<Event>)
    ensures WithoutSweeps(a + b) == WithoutSweeps(a) + WithoutSweeps(b)
  {
    if b == [] {
      assert a + b == a;
    } else {
      var n := |b| - 1;
      JoinPlain(a, b[..n]);
      assert (a + b)[..|a| + n] == a + b[..n];
    }
  }

  function From(ip: string, ts: seq<real>): (es: seq<Event>)
    ensures |es| == |ts| && forall i | 0 <= i < |ts| :: es[i] == Request(ip, ts[i])
  {
    if ts == [] then [] else From(ip, ts[..|ts| - 1]) + [Request(ip, ts[|ts| - 1])]
  }

  lemma {:induction false} OwnFrom(ip: string, ts: seq<real>)
    ensures Own(From(ip, ts), ip) == Requests(ts) && WithoutSweeps(From(ip, ts)) == From(ip, ts)
  {
    if ts == [] {
    } else {
      OwnFrom(ip, ts[..|ts| - 1]);
      assert From(ip, ts)[..|ts| - 1] == From(ip, ts[..|ts| - 1]);
    }
  }

  lemma {:induction false} VolleyAt(n: nat, at: real)
    ensures forall i | 0 <= i < n :: Volley(n, at)[i] == at
  {
    if n == 0 {
    } else {
      VolleyAt(n - 1, at);
    }
  }

  /** Empty a bucket, wait, sweep, and ask again: slow refill makes the sweep visible. */
  function Exposure(c: Limits, ip: string, wait: real, sweep: seq<Event>): seq<Event>
    requires c.Valid()
  {
    From(ip, Volley(c.burst, 0.0)) + (sweep + From(ip, Volley(c.burst, wait)))
  }

  lemma VolleyEmpties(c: Limits)
    requires c.Valid()
    ensures FillAfter(c, None, Requests(Volley(c.burst, 0.0))) == Some(Fill(0.0, 0.0))
  {
    var n := c.burst - 1;
    VolleyDrains(c, None, n, 0.0);
    LastOfRun(c, None, Volley(n, 0.0), 0.0);
    assert Level(c, FillAfter(c, None, Requests(Volley(n, 0.0))), 0.0) == 1.0;
  }

  lemma OwnExposure(c: Limits, ip: string, wait: real, sweep: seq<Event>)
    requires c.Valid() && sweep in {[], [Sweep(wait)]}
    ensures WithoutSweeps(Exposure(c, ip, wait, sweep)) == Exposure(c, ip, wait, [])
    ensures Own(Exposure(c, ip, wait, sweep), ip)
         == Requests(Volley(c.burst, 0.0)) + (Own(sweep, ip) + Requests(Volley(c.burst, wait)))
    ensures Own(sweep, ip) == if sweep == [] then [] else [Pass(wait)]
  {
    var first, second := Volley(c.burst, 0.0), Volley(c.burst, wait);
    OwnFrom(ip, first);
    OwnFrom(ip, second);
    JoinOwn(From(ip, first), sweep + From(ip, second), ip);
    JoinOwn(sweep, From(ip, second), ip);
    JoinPlain(From(ip, first), sweep + From(ip, second));
    JoinPlain(sweep, From(ip, second));
    assert [] + From(ip, second) == From(ip, second);
    assert Own([Sweep(wait)][..0], ip) == [];
  }

  /** What an optional sweep after the first volley leaves of the emptied bucket. */
  lemma SecondFinds(c: Limits, wait: real, own: seq<Tick>)
    requires c.Valid() && wait > IDLE_LIMIT && own in {[], [Pass(wait)]}
    ensures FillAfter(c, Some(Fill(0.0, 0.0)), own) == if own == [] then Some(Fill(0.0, 0.0)) else None
    ensures Answers(c, Some(Fill(0.0, 0.0)), own) == []
  {
    assert [Pass(wait)][..0] == [];
  }

  /** After the first volley the bucket is empty; the second finds it, or a fresh one after a sweep. */
  lemma ExposureAnswers(c: Limits, ip: string, wait: real, sweep: seq<Event>)
    requires c.Valid() && wait > IDLE_LIMIT && sweep in {[], [Sweep(wait)]}
    ensures Verdicts(c, map[], Exposure(c, ip, wait, sweep), ip)
         == Answers(c, None, Requests(Volley(c.burst, 0.0)))
            + Answers(c, if sweep == [] then Some(Fill(0.0, 0.0)) else None, Requests(Volley(c.burst, wait)))
  {
    Isolation(c, map[], Exposure(c, ip, wait, sweep), ip);
    OwnExposure(c, ip, wait, sweep);
    ContinueVolleys(c, wait, Own(sweep, ip), Requests(Volley(c.burst, 0.0)), Requests(Volley(c.burst, wait)));
  }

  lemma ContinueVolleys(c: Limits, wait: real, own: seq<Tick>, first: seq<Tick>, second: seq<Tick>)
    requires c.Valid() && wait > IDLE_LIMIT && own in {[], [Pass(wait)]}
    requires first == Requests(Volley(c.burst, 0.0))
    ensures Answers(c, None, first + (own + second))
         == Answers(c, None, first) + Answers(c, if own == [] then Some(Fill(0.0, 0.0)) else None, second)
  {
    var f := Some(Fill(0.0, 0.0));
    VolleyEmpties(c);
    Continue(c, None, first, own + second);
    Continue(c, f, own, second);
    SecondFinds(c, wait, own);
    var rest := Answers(c, if own == [] then f else None, second);
    assert [] + rest == rest;
  }

  lemma ExposureOrdered(c: Limits, ip: string, wait: real)
    requires c.Valid() && wait > 0.0
    ensures Ordered(Exposure(c, ip, wait, [Sweep(wait)]))
  {
    VolleyAt(c.burst, 0.0);
    VolleyAt(c.burst, wait);
    var es := Exposure(c, ip, wait, [Sweep(wait)]);
    assert forall i | 0 <= i < |es| :: es[i].at == if i < c.burst then 0.0 else wait;
  }

  lemma SlowWait(c: Limits) returns (wait: real)
    requires c.Valid() && IDLE_LIMIT * c.rps < c.Cap()
    ensures wait > IDLE_LIMIT && Gain(c, 0.0, wait) < c.Cap()
  {
    var full := c.Cap() / c.rps;
    assert full * c.rps == c.Cap();
    if full <= IDLE_LIMIT {
      GainGrows(c, full, IDLE_LIMIT);
      assert false;
    }
    wait := (IDLE_LIMIT + full) / 2.0;
    assert wait < full;
  }

  lemma SecondVolleyTells(c: Limits, wait: real)
    requires c.Valid() && Gain(c, 0.0, wait) < c.Cap()
    ensures var second := Requests(Volley(c.burst, wait));
            Answers(c, None, second) != Answers(c, Some(Fill(0.0, 0.0)), second)
  {
    VolleyAdmitted(c, None, c.burst, wait);
    VolleyAdmitted(c, Some(Fill(0.0, 0.0)), c.burst, wait);
  }

  lemma ExposureTells(c: Limits, wait: real)
    requires c.Valid() && wait > IDLE_LIMIT && Gain(c, 0.0, wait) < c.Cap()
    ensures Verdicts(c, map[], Exposure(c, "ip", wait, [Sweep(wait)]), "ip")
         != Verdicts(c, map[], Exposure(c, "ip", wait, []), "ip")
  {
    ExposureAnswers(c, "ip", wait, [Sweep(wait)]);
    ExposureAnswers(c, "ip", wait, []);
    SecondVolleyTells(c, wait);
    var first, second := Answers(c, None, Requests(Volley(c.burst, 0.0))), Requests(Volley(c.burst, wait));
    assert (first + Answers(c, None, second))[|first|..] == Answers(c, None, second);
    var low := Answers(c, Some(Fill(0.0, 0.0)), second);
    assert (first + low)[|first|..] == low;
  }

  lemma SlowRefillExposesEviction(c: Limits)
    requires c.Valid() && 180.0 * c.rps < c.burst as real
    ensures !EvictionInvisible(c)
  {
    var wait := SlowWait(c);
    ExposureOrdered(c, "ip", wait);
    OwnExposure(c, "ip", wait, [Sweep(wait)]);
    ExposureTells(c, wait);
  }

  /** Exactly when the idle limit is long enough to refill an empty bucket. */
  lemma EvictionInvisibleExactly(c: Limits)
    requires c.Valid()
    ensures EvictionInvisible(c) <==> 180.0 * c.rps >= c.burst as real
  {
    if 180.0 * c.rps >= c.burst as real {
      forall es: seq<Event>, ip: string | Ordered(es)
        ensures Verdicts(c, map[], es, ip) == Verdicts(c, map[], WithoutSweeps(es), ip)
      {
        TrimmedRun(c, es, if es == [] then 0.0 else es[|es| - 1].at);
      }
    } else {
      SlowRefillExposesEviction(c);
    }
  }
}
