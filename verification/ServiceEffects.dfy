/** What each operation does to the documents, over every run of the service with its cache: the answer and the
    table after a call in terms of the table before it. */
module ServiceEffects {
  import opened Wrappers
  import opened Search
  import opened Paging
  import opened Documents
  import opened DocumentTable
  import opened DocumentService
  import opened CacheRefinement

  /** The table before the k-th call of the run. */
  function TableAt(s: State, calls: seq<Call>, k: nat): Table
    requires k <= |calls|
  {
    ServedRun(s, calls[..k]).table
  }

  predicate MayAccess(d: Document, owner: string) {
    owner == "" || d.createdBy == owner
  }

  /** The table after a call, and its answer unless a hit stands in for a failing read. */
  lemma CallEffect(s: State, calls: seq<Call>, k: nat)
    requires Coherent(s) && k < |calls|
    ensures WellFormed(TableAt(s, calls, k))
    ensures TableAt(s, calls, k + 1) == Direct(TableAt(s, calls, k), calls[k], s.maxSize).0
    ensures ServedAnswer(s, calls, k) == Direct(TableAt(s, calls, k), calls[k], s.maxSize).1
            || (calls[k].Get? && !calls[k].up && calls[k].id in TableAt(s, calls, k)
                && ServedAnswer(s, calls, k)
                   == One(Visible(Ok(TableAt(s, calls, k)[calls[k].id]), calls[k].owner)))
  {
    hide Served, Direct;
    assert calls[..k + 1][..k] == calls[..k];
    CacheStaysCoherent(s, calls[..k]);
    CoherentStep(ServedRun(s, calls[..k]), calls[k]);
    AnswerStep(ServedRun(s, calls[..k]), calls[k]);
  }

  /** A Get that can read answers the row, if it is there and the caller's or the system asks; otherwise it is
      not found. If it cannot read it fails, or a hit on a row gives that same answer. It changes no row. */
  lemma GetEffect(s: State, calls: seq<Call>, k: nat)
    requires Coherent(s) && k < |calls| && calls[k].Get?
    ensures TableAt(s, calls, k + 1) == TableAt(s, calls, k)
    ensures var t, c := TableAt(s, calls, k), calls[k];
            var a := if c.id in t && MayAccess(t[c.id], c.owner) then Ok(t[c.id]) else Err(NotFound);
            if c.up then ServedAnswer(s, calls, k) == One(a)
            else ServedAnswer(s, calls, k) == One(Err(Internal)) || (c.id in t && ServedAnswer(s, calls, k) == One(a))
  {
    CallEffect(s, calls, k);
  }

  /** A listing counts all matching documents and gives the page asked for; a limit outside 1 to 100 is 20, a
      negative offset 0. It changes no row. */
  lemma ListEffect(s: State, calls: seq<Call>, k: nat)
    requires Coherent(s) && k < |calls| && calls[k].List?
    ensures TableAt(s, calls, k + 1) == TableAt(s, calls, k)
    ensures ServedAnswer(s, calls, k).Many? && (ServedAnswer(s, calls, k).many.Ok? <==> calls[k].up)
    ensures !calls[k].up ==> ServedAnswer(s, calls, k).many == Err(Internal)
    ensures var t, q, r := TableAt(s, calls, k), calls[k].q, ServedAnswer(s, calls, k).many;
            var f := Filter(q.text, q.owner, q.status, if 1 <= q.limit <= 100 then q.limit else 20,
                            if q.offset >= 0 then q.offset else 0);
            r.Ok? ==>
              && r.value.1 == |set id | id in t && Matches(t[id], f)|
              && exists ids :: IsListing(t, f, ids) && IsPageOf(t, ids, f.limit, f.offset, r.value.0)
  {
    CallEffect(s, calls, k);
    var t, f := TableAt(s, calls, k), Clamped(calls[k].q);
    TotalExact(t, f);
    var ids := ListingExact(t, f);
  }

  /** A Create answered Ok adds one row with these columns, pending, its times in whole seconds; what is refused,
      and why. */
  lemma CreateEffect(s: State, calls: seq<Call>, k: nat)
    requires Coherent(s) && k < |calls| && calls[k].Create?
    ensures var t, t', c := TableAt(s, calls, k), TableAt(s, calls, k + 1), calls[k];
            var d := Document(
              id := c.id, title := Trim(c.u.title), summary := Trim(c.u.summary), fileName := Base(c.u.fileName),
              filePath := c.u.path, mimeType := c.u.mimeType, sizeBytes := c.u.size, checksum := c.u.checksum,
              status := Pending, createdBy := c.u.createdBy, createdAt := c.now, updatedAt := c.now);
            var seconds := c.now / 1_000_000_000 * 1_000_000_000;
            if !(1 <= |Trim(c.u.title)| <= 200 && |c.u.summary| <= 5000 && Trim(c.u.fileName) != "")
            then ServedAnswer(s, calls, k) == One(Err(Invalid)) && t' == t
            else if c.u.size > s.maxSize then ServedAnswer(s, calls, k) == One(Err(TooLarge)) && t' == t
            else if !c.up || c.id in t then ServedAnswer(s, calls, k) == One(Err(Internal)) && t' == t
            else ServedAnswer(s, calls, k) == One(Ok(d))
                 && t' == t[c.id := d.(createdAt := seconds, updatedAt := seconds)]
  {
    CallEffect(s, calls, k);
  }

  /** An Update answered Ok replaces exactly the fields it names by their trimmed values, and the time. */
  lemma UpdateEffect(s: State, calls: seq<Call>, k: nat)
    requires Coherent(s) && k < |calls| && calls[k].Update?
    ensures var t, t', c := TableAt(s, calls, k), TableAt(s, calls, k + 1), calls[k];
            if !c.up then ServedAnswer(s, calls, k) == One(Err(Internal)) && t' == t
            else if !(c.id in t && MayAccess(t[c.id], c.owner))
            then ServedAnswer(s, calls, k) == One(Err(NotFound)) && t' == t
            else
              var d := t[c.id].(title := if c.title.Some? then Trim(c.title.value) else t[c.id].title,
                                summary := if c.summary.Some? then Trim(c.summary.value) else t[c.id].summary,
                                updatedAt := c.now);
              if !(1 <= |Trim(d.title)| <= 200 && |d.summary| <= 5000)
              then ServedAnswer(s, calls, k) == One(Err(Invalid)) && t' == t
              else if !c.upWrite then ServedAnswer(s, calls, k) == One(Err(Internal)) && t' == t
              else ServedAnswer(s, calls, k) == One(Ok(d))
                   && t' == t[c.id := d.(updatedAt := c.now / 1_000_000_000 * 1_000_000_000)]
  {
    CallEffect(s, calls, k);
  }

  /** A Delete answered Ok removes its row and no other. */
  lemma DeleteEffect(s: State, calls: seq<Call>, k: nat)
    requires Coherent(s) && k < |calls| && calls[k].Delete?
    ensures var t, t', c := TableAt(s, calls, k), TableAt(s, calls, k + 1), calls[k];
            if !c.up then ServedAnswer(s, calls, k) == Ack(Err(Internal)) && t' == t
            else if !(c.id in t && MayAccess(t[c.id], c.owner))
            then ServedAnswer(s, calls, k) == Ack(Err(NotFound)) && t' == t
            else if !c.upWrite then ServedAnswer(s, calls, k) == Ack(Err(Internal)) && t' == t
            else ServedAnswer(s, calls, k) == Ack(Ok(())) && t' == t - {c.id}
  {
    CallEffect(s, calls, k);
  }

  /** A MarkStatus answered Ok gives its row that status, and the time. */
  lemma MarkStatusEffect(s: State, calls: seq<Call>, k: nat)
    requires Coherent(s) && k < |calls| && calls[k].MarkStatus?
    ensures var t, t', c := TableAt(s, calls, k), TableAt(s, calls, k + 1), calls[k];
            if !c.up then ServedAnswer(s, calls, k) == Ack(Err(Internal)) && t' == t
            else if c.id !in t then ServedAnswer(s, calls, k) == Ack(Err(NotFound)) && t' == t
            else ServedAnswer(s, calls, k) == Ack(Ok(()))
                 && t' == t[c.id := t[c.id].(status := c.status,
                                             updatedAt := c.now / 1_000_000_000 * 1_000_000_000)]
  {
    CallEffect(s, calls, k);
  }

  predicate Succeeded(a: Answer) {
    (a.One? && a.one.Ok?) || (a.Ack? && a.ack.Ok?)
  }

  /** The j-th call wrote the row of id. */
  predicate Wrote(s: State, calls: seq<Call>, j: nat, id: string)
    requires j < |calls|
  {
    && (calls[j].Create? || calls[j].Update? || calls[j].Delete? || calls[j].MarkStatus?)
    && calls[j].id == id && Succeeded(ServedAnswer(s, calls, j))
  }

  lemma RowUntouched(s: State, calls: seq<Call>, j: nat, id: string)
    requires Coherent(s) && j < |calls| && !Wrote(s, calls, j, id)
    ensures Lookup(TableAt(s, calls, j + 1), id) == Lookup(TableAt(s, calls, j), id)
  {
    hide ServedAnswer, TableAt;
    if calls[j].Create? {
      CreateEffect(s, calls, j);
    } else if calls[j].Update? {
      UpdateEffect(s, calls, j);
    } else if calls[j].Delete? {
      DeleteEffect(s, calls, j);
    } else if calls[j].MarkStatus? {
      MarkStatusEffect(s, calls, j);
    } else {
      CallEffect(s, calls, j);
    }
  }

  /** A row stays as the last successful write of it left it, or absent. */
  lemma {:induction false} RowStands(s: State, calls: seq<Call>, i: nat, k: nat, id: string)
    requires Coherent(s) && i <= k <= |calls| && forall j | i <= j < k :: !Wrote(s, calls, j, id)
    ensures Lookup(TableAt(s, calls, k), id) == Lookup(TableAt(s, calls, i), id)
    decreases k
  {
    if i == k {
    } else {
      RowStands(s, calls, i, k - 1, id);
      RowUntouched(s, calls, k - 1, id);
    }
  }

  /** Over every run, a Get that can read shows what the last successful write of the row left, whatever
      else was called, cached, swept or failed in between. */
  lemma GetShowsLastWrite(s: State, calls: seq<Call>, i: nat, k: nat)
    requires Coherent(s) && i <= k < |calls| && calls[k].Get? && calls[k].up
    requires forall j | i <= j < k :: !Wrote(s, calls, j, calls[k].id)
    ensures var t, c := TableAt(s, calls, i), calls[k];
            ServedAnswer(s, calls, k)
              == One(if c.id in t && MayAccess(t[c.id], c.owner) then Ok(t[c.id]) else Err(NotFound))
  {
    hide ServedAnswer, TableAt;
    RowStands(s, calls, i, k, calls[k].id);
    GetEffect(s, calls, k);
  }

  /** Over every run, after a Delete answered Ok the document is gone until it is created again: it is in no
      later table, and every later Get answers that it is not found, or fails if it cannot read. */
  lemma DeletedIsGone(s: State, calls: seq<Call>, i: nat, k: nat)
    requires Coherent(s) && i < k <= |calls| && calls[i].Delete? && ServedAnswer(s, calls, i) == Ack(Ok(()))
    requires forall j | i < j < k :: !(calls[j].Create? && calls[j].id == calls[i].id)
    ensures calls[i].id !in TableAt(s, calls, k)
    ensures k < |calls| && calls[k].Get? && calls[k].id == calls[i].id ==>
              ServedAnswer(s, calls, k) == One(Err(if calls[k].up then NotFound else Internal))
    decreases k
  {
    hide ServedAnswer, TableAt;
    if k == i + 1 {
      DeleteEffect(s, calls, i);
    } else {
      DeletedIsGone(s, calls, i, k - 1);
      StaysGone(s, calls, k - 1, calls[i].id);
    }
    if k < |calls| && calls[k].Get? { GetEffect(s, calls, k); }
  }

  lemma StaysGone(s: State, calls: seq<Call>, j: nat, id: string)
    requires Coherent(s) && j < |calls| && id !in TableAt(s, calls, j)
    requires !(calls[j].Create? && calls[j].id == id)
    ensures id !in TableAt(s, calls, j + 1)
  {
    hide ServedAnswer, TableAt;
    if calls[j].Update? {
      UpdateEffect(s, calls, j);
    } else if calls[j].Delete? {
      DeleteEffect(s, calls, j);
    } else if calls[j].MarkStatus? {
      MarkStatusEffect(s, calls, j);
    } else if calls[j].Create? {
      CreateEffect(s, calls, j);
    } else {
      CallEffect(s, calls, j);
    }
  }
}
