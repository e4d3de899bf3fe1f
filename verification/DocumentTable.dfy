/** The documents table: column-wise writes, text search and ordered paging. */
module DocumentTable {
  import opened Basics
  import opened Wrappers
  import opened Search
  import opened Documents
  import opened Paging

  type Table = map<string, Document>

  /** An empty query, owner or status restricts nothing. */
  datatype Filter = Filter(query: string, owner: string, status: Option<Status>, limit: nat, offset: nat)

  predicate TextMatches(d: Document, q: string) {
    Like(Pattern(q), d.title) || Like(Pattern(q), d.summary)
  }

  predicate Matches(d: Document, f: Filter) {
    && (Trim(f.query) == "" || TextMatches(d, Trim(f.query)))
    && (f.owner == "" || d.createdBy == f.owner)
    && (f.status.None? || d.status == f.status.value)
  }

  function MatchingKeys(t: Table, f: Filter): set<Key> {
    set id | id in t && Matches(t[id], f) :: Key(t[id].createdAt, id)
  }

  function Rows(t: Table, keys: seq<Key>): (ds: seq<Document>)
    requires forall k | k in keys :: k.id in t
    ensures |ds| == |keys| && forall i | 0 <= i < |ds| :: ds[i] == t[keys[i].id]
  {
    if keys == [] then [] else Rows(t, keys[..|keys| - 1]) + [t[keys[|keys| - 1].id]]
  }

  /** Every matching document, newest first. */
  function AllMatching(t: Table, f: Filter): seq<Document> {
    Rows(t, Ordered(MatchingKeys(t, f)))
  }

  function Listed(t: Table, f: Filter): (seq<Document>, nat) {
    (Page(AllMatching(t, f), f.limit, f.offset), |MatchingKeys(t, f)|)
  }

  /** The filter selects exactly the documents whose title or summary contains the trimmed query, up to ASCII
      case, if there is one, and that have the owner and the status asked for, if any. */
  lemma SearchFindsSubstrings(d: Document, f: Filter)
    ensures Matches(d, f) <==>
              (Trim(f.query) == "" || Occurs(Trim(f.query), d.title) || Occurs(Trim(f.query), d.summary))
              && (f.owner == "" || d.createdBy == f.owner) && (f.status.None? || d.status == f.status.value)
  {
    SearchIsSubstring(Trim(f.query), d.title);
    SearchIsSubstring(Trim(f.query), d.summary);
  }

  /** The ids of the matching documents, each once, newest first with ties broken by descending id. */
  ghost predicate IsListing(t: Table, f: Filter, ids: seq<string>) {
    && (forall id :: id in ids <==> id in t && Matches(t[id], f))
    && (forall i, j | 0 <= i < j < |ids| ::
          && ids[i] != ids[j]
          && (t[ids[i]].createdAt > t[ids[j]].createdAt
              || (t[ids[i]].createdAt == t[ids[j]].createdAt && Less(ids[j], ids[i]))))
  }

  /** These are the rows of a listing from the offset on, at most limit of them. */
  ghost predicate IsPageOf(t: Table, ids: seq<string>, limit: nat, offset: nat, ds: seq<Document>) {
    && |ds| == (if |ids| <= offset then 0 else if |ids| - offset <= limit then |ids| - offset else limit)
    && forall j | 0 <= j < |ds| :: offset + j < |ids| && ids[offset + j] in t && ds[j] == t[ids[offset + j]]
  }

  function Ids(keys: seq<Key>): (ids: seq<string>)
    ensures |ids| == |keys| && forall i | 0 <= i < |ids| :: ids[i] == keys[i].id
  {
    seq(|keys|, i requires 0 <= i < |keys| => keys[i].id)
  }

  lemma {:induction false} KeysCounted(t: Table, s: set<string>)
    requires s <= t.Keys
    ensures |set id | id in s :: Key(t[id].createdAt, id)| == |s|
  {
    if s == {} {
      assert (set id | id in s :: Key(t[id].createdAt, id)) == {};
    } else {
      var x :| x in s;
      var rest := set id | id in s - {x} :: Key(t[id].createdAt, id);
      KeysCounted(t, s - {x});
      assert (set id | id in s :: Key(t[id].createdAt, id)) == rest + {Key(t[x].createdAt, x)};
    }
  }

  /** The total is the number of matching documents, whatever limit and offset are. */
  lemma TotalExact(t: Table, f: Filter)
    ensures Listed(t, f).1 == |set id | id in t && Matches(t[id], f)|
  {
    var s := set id | id in t && Matches(t[id], f);
    KeysCounted(t, s);
    assert MatchingKeys(t, f) == set id | id in s :: Key(t[id].createdAt, id);
  }

  /** There is a listing of every matching document in order, only one, and it is the one pages are taken of. */
  lemma ListingExact(t: Table, f: Filter) returns (ids: seq<string>)
    ensures IsListing(t, f, ids) && |ids| == Listed(t, f).1
    ensures IsPageOf(t, ids, f.limit, f.offset, Listed(t, f).0)
    ensures forall other :: IsListing(t, f, other) ==> other == ids
  {
    ids := Ids(Ordered(MatchingKeys(t, f)));
    KeysListed(t, f, Ordered(MatchingKeys(t, f)));
    RowsPageOf(t, Ordered(MatchingKeys(t, f)), f.limit, f.offset);
    TotalExact(t, f);
    forall other | IsListing(t, f, other)
      ensures other == ids
    {
      ListingUnique(t, f, other);
    }
  }

  lemma RowsPageOf(t: Table, keys: seq<Key>, n: nat, o: nat)
    requires forall k | k in keys :: k.id in t
    ensures IsPageOf(t, Ids(keys), n, o, Page(Rows(t, keys), n, o))
  {
    hide Rows;
    var ds := Page(Rows(t, keys), n, o);
    forall j | 0 <= j < |ds|
      ensures o + j < |keys| && keys[o + j].id in t && ds[j] == t[keys[o + j].id]
    {
      PageAt(Rows(t, keys), n, o, j);
      assert keys[o + j] in keys;
    }
  }

  lemma KeysListed(t: Table, f: Filter, keys: seq<Key>)
    requires keys == Ordered(MatchingKeys(t, f))
    ensures IsListing(t, f, Ids(keys))
  {
    var ids := Ids(keys);
    OrderedInOrder(MatchingKeys(t, f));
    forall k | k in keys
      ensures k.id in t && k == Key(t[k.id].createdAt, k.id) && Matches(t[k.id], f)
    {
      assert k in MatchingKeys(t, f);
    }
    forall id | id in t && Matches(t[id], f)
      ensures id in ids
    {
      assert Key(t[id].createdAt, id) in keys;
      var i :| 0 <= i < |keys| && keys[i] == Key(t[id].createdAt, id);
      assert ids[i] == id;
    }
    IdsInOrder(t, keys);
  }

  lemma IdsInOrder(t: Table, keys: seq<Key>)
    requires InOrder(keys) && forall k | k in keys :: k.id in t && k == Key(t[k.id].createdAt, k.id)
    ensures var ids := Ids(keys);
            forall i, j | 0 <= i < j < |ids| ::
              && ids[i] != ids[j] && ids[i] in t && ids[j] in t
              && (t[ids[i]].createdAt > t[ids[j]].createdAt
                  || (t[ids[i]].createdAt == t[ids[j]].createdAt && Less(ids[j], ids[i])))
  {
    forall i, j | 0 <= i < j < |keys|
      ensures keys[i] in keys && keys[j] in keys && keys[i] != keys[j] && Before(keys[i], keys[j])
    {
      BeforeTotal(keys[i], keys[j]);
    }
  }

  lemma ListingUnique(t: Table, f: Filter, ids: seq<string>)
    requires IsListing(t, f, ids)
    ensures ids == Ids(Ordered(MatchingKeys(t, f)))
  {
    forall i | 0 <= i < |ids|
      ensures ids[i] in t
    {
      assert ids[i] in ids;
    }
    var keys := seq(|ids|, i requires 0 <= i < |ids| => Key(t[ids[i]].createdAt, ids[i]));
    forall i | 0 <= i < |keys|
      ensures keys[i] in MatchingKeys(t, f)
    {
      assert ids[i] in ids;
    }
    forall k
      ensures k in keys <==> k in MatchingKeys(t, f)
    {
      if k in MatchingKeys(t, f) {
        assert k.id in ids;
        var i :| 0 <= i < |ids| && ids[i] == k.id;
        assert keys[i] == k;
      }
    }
    OrderUnique(keys, MatchingKeys(t, f));
  }

  /** Reading page after page of an unchanged table yields the full listing, nothing twice or missing. */
  lemma {:induction false} PagingStable(t: Table, f: Filter, count: nat)
    requires f.limit >= 1
    ensures PagesListed(t, f, count) == AllMatching(t, f)[..Min(f.limit * count, |MatchingKeys(t, f)|)]
  {
    PagesTile(AllMatching(t, f), f.limit, count);
    PagesAreListed(t, f, AllMatching(t, f), count);
  }

  function PagesListed(t: Table, f: Filter, count: nat): seq<Document> {
    if count == 0 then []
    else PagesListed(t, f, count - 1) + Listed(t, f.(offset := Start(f.limit, count - 1))).0
  }

  lemma {:induction false} PagesAreListed(t: Table, f: Filter, r: seq<Document>, count: nat)
    requires r == AllMatching(t, f)
    ensures PagesListed(t, f, count) == Pages(r, f.limit, count)
  {
    if count == 0 {
    } else {
      PagesAreListed(t, f, r, count - 1);
      OffsetOnlyPages(t, f, Start(f.limit, count - 1));
    }
  }

  lemma OffsetOnlyPages(t: Table, f: Filter, o: nat)
    ensures Listed(t, f.(offset := o)).0 == Page(AllMatching(t, f), f.limit, o)
  {
    assert MatchingKeys(t, f.(offset := o)) == MatchingKeys(t, f);
  }

  // ---------------------------------------------------------------------------------------------
  // Writes
  // ---------------------------------------------------------------------------------------------

  function Inserted(t: Table, d: Document): Table {
    if d.id in t then t else t[d.id := Stored(d)]
  }

  function TextUpdated(t: Table, d: Document): Table {
    if d.id in t
    then t[d.id := t[d.id].(title := d.title, summary := d.summary, updatedAt := Seconds(d.updatedAt))]
    else t
  }

  function StatusSet(t: Table, id: string, st: Status, now: int): Table {
    if id in t then t[id := t[id].(status := st, updatedAt := Seconds(now))] else t
  }

  /** A metadata write and a status write of the same row commute, updated_at apart. */
  lemma ColumnsDisjoint(t: Table, d: Document, st: Status, now: int)
    requires d.id in t
    ensures TextUpdated(StatusSet(t, d.id, st, now), d)[d.id].(updatedAt := 0)
         == StatusSet(TextUpdated(t, d), d.id, st, now)[d.id].(updatedAt := 0)
    ensures TextUpdated(StatusSet(t, d.id, st, now), d)[d.id].status == st
  {
  }

  /** One restriction of a WHERE clause. */
  datatype Cond = TextLike(pattern: string) | OwnedBy(owner: string) | HasStatus(status: Status)

  predicate Holds(c: Cond, d: Document) {
    match c
    case TextLike(p) => Like(p, d.title) || Like(p, d.summary)
    case OwnedBy(o) => d.createdBy == o
    case HasStatus(st) => d.status == st
  }

  predicate AllHold(cs: seq<Cond>, d: Document) {
    forall c | c in cs :: Holds(c, d)
  }

  function KeysWhere(t: Table, conds: seq<Cond>): set<Key> {
    set id | id in t && AllHold(conds, t[id]) :: Key(t[id].createdAt, id)
  }

  /** up tells whether the statement reaches the database; a failing statement commits nothing. */
  class DocumentRepo {
    var rows: Table

    constructor (rows: Table)
      ensures this.rows == rows
    {
      this.rows := rows;
    }

    method Create(d: Document, up: bool) returns (r: Result<(), Error>)
      modifies this
      ensures r == if up && d.id !in old(rows) then Ok(()) else Err(Internal)
      ensures rows == if up then Inserted(old(rows), d) else old(rows)
      ensures rows == if r.Ok? then old(rows)[d.id := d.(createdAt := d.createdAt / 1_000_000_000 * 1_000_000_000,
                                                         updatedAt := d.updatedAt / 1_000_000_000 * 1_000_000_000)]
                      else old(rows)
    {
      if !up || d.id in rows {
        return Err(Internal);
      }
      rows := rows[d.id := d.(createdAt := Seconds(d.createdAt), updatedAt := Seconds(d.updatedAt))];
      return Ok(());
    }

    method List(f: Filter, up: bool) returns (r: Result<(seq<Document>, nat), Error>)
      ensures r == if up then Ok(Listed(rows, f)) else Err(Internal)
      ensures up ==> r.value.1 == |set id | id in rows && Matches(rows[id], f)|
      ensures up ==> exists ids :: IsListing(rows, f, ids) && IsPageOf(rows, ids, f.limit, f.offset, r.value.0)
    {
      if !up {
        return Err(Internal);
      }
      var conds: seq<Cond> := [];
      var q := Trim(f.query);
      if q != "" {
        conds := conds + [TextLike("%" + EscapeLike(q) + "%")];
      }
      if f.owner != "" {
        conds := conds + [OwnedBy(f.owner)];
      }
      if f.status.Some? {
        conds := conds + [HasStatus(f.status.value)];
      }
      KeysOfFilter(rows, f, conds);
      var hits := KeysWhere(rows, conds);
      assert hits == MatchingKeys(rows, f);
      var page := Page(Ordered(hits), f.limit, f.offset);
      PageInTable(rows, hits, f);
      var out := ReadRows(page);
      PageOfRows(rows, f, out);
      TotalExact(rows, f);
      ghost var ids := ListingExact(rows, f);
      return Ok((out, |hits|));
    }

    /** The loop over the rows of a page. */
    method ReadRows(page: seq<Key>) returns (out: seq<Document>)
      requires forall j | 0 <= j < |page| :: page[j].id in rows
      ensures |out| == |page| && forall j | 0 <= j < |page| :: out[j] == rows[page[j].id]
    {
      out := [];
      for i := 0 to |page|
        invariant |out| == i && forall j | 0 <= j < i :: out[j] == rows[page[j].id]
      {
        out := out + [rows[page[i].id]];
      }
    }

    method Update(d: Document, up: bool) returns (r: Result<(), Error>)
      modifies this
      ensures r == if !up then Err(Internal) else if d.id in old(rows) then Ok(()) else Err(NotFound)
      ensures rows == if up then TextUpdated(old(rows), d) else old(rows)
      ensures rows == if r.Ok? then old(rows)[d.id := old(rows)[d.id].(
                                      title := d.title, summary := d.summary,
                                      updatedAt := d.updatedAt / 1_000_000_000 * 1_000_000_000)]
                      else old(rows)
    {
      if !up {
        return Err(Internal);
      }
      if d.id !in rows {
        return Err(NotFound);
      }
      rows := rows[d.id := rows[d.id].(title := d.title, summary := d.summary, updatedAt := Seconds(d.updatedAt))];
      return Ok(());
    }

    method SetStatus(id: string, st: Status, now: int, up: bool) returns (r: Result<(), Error>)
      modifies this
      ensures r == if !up then Err(Internal) else if id in old(rows) then Ok(()) else Err(NotFound)
      ensures rows == if up then StatusSet(old(rows), id, st, now) else old(rows)
      ensures rows == if r.Ok? then old(rows)[id := old(rows)[id].(
                                      status := st, updatedAt := now / 1_000_000_000 * 1_000_000_000)]
                      else old(rows)
    {
      if !up {
        return Err(Internal);
      }
      if id !in rows {
        return Err(NotFound);
      }
      rows := rows[id := rows[id].(status := st, updatedAt := Seconds(now))];
      return Ok(());
    }

    method Delete(id: string, up: bool) returns (r: Result<(), Error>)
      modifies this
      ensures r == if !up then Err(Internal) else if id in old(rows) then Ok(()) else Err(NotFound)
      ensures rows == if up then old(rows) - {id} else old(rows)
    {
      if !up {
        return Err(Internal);
      }
      if id !in rows {
        return Err(NotFound);
      }
      rows := rows - {id};
      return Ok(());
    }
  }

  lemma CondsAreFilter(f: Filter, conds: seq<Cond>)
    requires conds == (if Trim(f.query) != "" then [TextLike(Pattern(Trim(f.query)))] else [])
                      + (if f.owner != "" then [OwnedBy(f.owner)] else [])
                      + (if f.status.Some? then [HasStatus(f.status.value)] else [])
    ensures forall d :: AllHold(conds, d) <==> Matches(d, f)
  {
    forall d
      ensures AllHold(conds, d) <==> Matches(d, f)
    {
      if Trim(f.query) != "" { assert TextLike(Pattern(Trim(f.query))) in conds; }
      if f.owner != "" { assert OwnedBy(f.owner) in conds; }
      if f.status.Some? { assert HasStatus(f.status.value) in conds; }
    }
  }

  /** The count and the listing are those of the filter. */
  lemma KeysOfFilter(t: Table, f: Filter, conds: seq<Cond>)
    requires conds == (if Trim(f.query) != "" then [TextLike(Pattern(Trim(f.query)))] else [])
                      + (if f.owner != "" then [OwnedBy(f.owner)] else [])
                      + (if f.status.Some? then [HasStatus(f.status.value)] else [])
    ensures KeysWhere(t, conds) == MatchingKeys(t, f)
  {
    CondsAreFilter(f, conds);
  }

  lemma PageInTable(t: Table, hits: set<Key>, f: Filter)
    requires hits == MatchingKeys(t, f)
    ensures forall j | 0 <= j < |Page(Ordered(hits), f.limit, f.offset)| ::
              Page(Ordered(hits), f.limit, f.offset)[j].id in t
  {
    RowsPaged(t, Ordered(hits), f.limit, f.offset);
  }

  lemma RowsPaged(t: Table, keys: seq<Key>, n: nat, o: nat)
    requires forall k | k in keys :: k.id in t
    ensures |Page(Rows(t, keys), n, o)| == |Page(keys, n, o)|
    ensures forall j | 0 <= j < |Page(keys, n, o)| ::
              Page(keys, n, o)[j] in keys && Page(Rows(t, keys), n, o)[j] == t[Page(keys, n, o)[j].id]
  {
    forall j | 0 <= j < |Page(keys, n, o)|
      ensures Page(keys, n, o)[j] in keys && Page(Rows(t, keys), n, o)[j] == t[Page(keys, n, o)[j].id]
    {
      PageAt(keys, n, o, j);
      PageAt(Rows(t, keys), n, o, j);
    }
  }

  lemma PageOfRows(t: Table, f: Filter, out: seq<Document>)
    requires var page := Page(Ordered(MatchingKeys(t, f)), f.limit, f.offset);
             |out| == |page| && forall j | 0 <= j < |page| :: page[j].id in t && out[j] == t[page[j].id]
    ensures out == Listed(t, f).0
  {
    RowsPaged(t, Ordered(MatchingKeys(t, f)), f.limit, f.offset);
  }
}
