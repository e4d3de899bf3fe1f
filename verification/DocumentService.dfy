/** The document service: cache-aside reads, invalidation on write, ownership.

    Direct is the service without a cache, Served the service with one; the class carries out Served.
    A call names its own clock readings and whether each of its statements reaches the database (up);
    a failing statement commits nothing. */
module DocumentService {
  import opened Wrappers
  import opened Search
  import opened Documents
  import opened DocumentTable
  import opened TtlCache

  /** The listing parameters as they arrive. */
  datatype Query = Query(text: string, owner: string, status: Option<Status>, limit: int, offset: int)

  function Clamped(q: Query): Filter {
    Filter(q.text, q.owner, q.status,
           if q.limit <= 0 || q.limit > 100 then 20 else q.limit,
           if q.offset < 0 then 0 else q.offset)
  }

  /** An upload whose bytes are already stored. */
  datatype Upload = Upload(title: string, summary: string, fileName: string, mimeType: string, createdBy: string,
                           path: string, size: nat, checksum: string)

  function NewDocument(u: Upload, id: string, now: int): Document {
    Document(id, Trim(u.title), Trim(u.summary), Base(u.fileName), u.path, u.mimeType, u.size, u.checksum, Pending,
             u.createdBy, now, now)
  }

  datatype Call =
    | Get(id: string, owner: string, now: int, setAt: int, up: bool)
    | List(q: Query, up: bool)
    | Create(u: Upload, id: string, now: int, up: bool)
    | Update(id: string, owner: string, title: Option<string>, summary: Option<string>, now: int,
             up: bool, upWrite: bool)
    | Delete(id: string, owner: string, up: bool, upWrite: bool)
    | MarkStatus(id: string, status: Status, now: int, up: bool)
    | Janitor(now: int)

  datatype Answer = One(one: Result<Document, Error>) | Many(many: Result<(seq<Document>, nat), Error>)
                  | Ack(ack: Result<(), Error>)

  function Fetch(t: Table, id: string, up: bool): Result<Document, Error> {
    if !up then Err(Internal) else if id !in t then Err(NotFound) else Ok(t[id])
  }

  /** Somebody else's document looks like a missing one. */
  function Visible(r: Result<Document, Error>, owner: string): Result<Document, Error> {
    if r.Ok? && !Owns(r.value, owner) then Err(NotFound) else r
  }

  function Edited(d: Document, title: Option<string>, summary: Option<string>, now: int): Document {
    d.(title := if title.Some? then Trim(title.value) else d.title,
       summary := if summary.Some? then Trim(summary.value) else d.summary,
       updatedAt := now)
  }

  function DirectCreate(t: Table, c: Call, maxSize: int): (Table, Answer)
    requires c.Create?
  {
    if !ValidMeta(c.u.title, c.u.summary) || Trim(c.u.fileName) == "" then (t, One(Err(Invalid)))
    else if c.u.size > maxSize then (t, One(Err(TooLarge)))
    else if !c.up || c.id in t then (t, One(Err(Internal)))
    else (Inserted(t, NewDocument(c.u, c.id, c.now)), One(Ok(NewDocument(c.u, c.id, c.now))))
  }

  /** What a PATCH is about to write. */
  function Drafted(t: Table, id: string, owner: string, title: Option<string>, summary: Option<string>, now: int,
                   up: bool): Result<Document, Error>
  {
    var r := Visible(Fetch(t, id, up), owner);
    if r.Err? then r
    else
      var d := Edited(r.value, title, summary, now);
      if ValidMeta(d.title, d.summary) then Ok(d) else Err(Invalid)
  }

  function DirectUpdate(t: Table, c: Call): (Table, Answer)
    requires c.Update?
  {
    var r := Drafted(t, c.id, c.owner, c.title, c.summary, c.now, c.up);
    if r.Err? then (t, One(r))
    else if !c.upWrite then (t, One(Err(Internal)))
    else if r.value.id !in t then (t, One(Err(NotFound)))
    else (TextUpdated(t, r.value), One(r))
  }

  function DirectDelete(t: Table, c: Call): (Table, Answer)
    requires c.Delete?
  {
    var r := Visible(Fetch(t, c.id, c.up), c.owner);
    if r.Err? then (t, Ack(Err(r.error)))
    else if !c.upWrite then (t, Ack(Err(Internal)))
    else (t - {c.id}, Ack(Ok(())))
  }

  /** The service without a cache. */
  function Direct(t: Table, c: Call, maxSize: int): (Table, Answer) {
    match c
    case Get(id, owner, _, _, up) => (t, One(Visible(Fetch(t, id, up), owner)))
    case List(q, up) => (t, Many(if up then Ok(Listed(t, Clamped(q))) else Err(Internal)))
    case Create(_, _, _, _) => DirectCreate(t, c, maxSize)
    case Update(_, _, _, _, _, _, _) => DirectUpdate(t, c)
    case Delete(_, _, _, _) => DirectDelete(t, c)
    case MarkStatus(id, st, now, up) =>
      if !up then (t, Ack(Err(Internal)))
      else if id !in t then (t, Ack(Err(NotFound)))
      else (StatusSet(t, id, st, now), Ack(Ok(())))
    case Janitor(_) => (t, Ack(Ok(())))
  }

  type Items = map<string, Entry<Document>>

  datatype State = State(table: Table, items: Items, ttl: int, maxSize: int)

  /** Whether the call committed a change of an existing row. */
  predicate Invalidates(c: Call, a: Answer) {
    match c
    case Update(_, _, _, _, _, _, _) => a.One? && a.one.Ok?
    case Delete(_, _, _, _) => a.Ack? && a.ack.Ok?
    case MarkStatus(_, _, _, _) => a.Ack? && a.ack.Ok?
    case _ => false
  }

  function ServedGet(s: State, c: Call): (State, Answer)
    requires c.Get?
  {
    var hit := Peek(s.items, c.id, c.now);
    if hit.Some? then (s, One(Visible(Ok(hit.value), c.owner)))
    else
      var r := Fetch(s.table, c.id, c.up);
      (if r.Ok? then s.(items := s.items[c.id := Entry(r.value, c.setAt + s.ttl)]) else s, One(Visible(r, c.owner)))
  }

  /** The service with its cache. */
  function Served(s: State, c: Call): (State, Answer) {
    if c.Get? then ServedGet(s, c)
    else if c.Janitor? then (s.(items := Swept(s.items, c.now)), Ack(Ok(())))
    else
      var (t, a) := Direct(s.table, c, s.maxSize);
      if Invalidates(c, a) then (s.(table := t, items := s.items - {c.id}), a) else (s.(table := t), a)
  }

  // ---------------------------------------------------------------------------------------------
  // The service object
  // ---------------------------------------------------------------------------------------------

  /** A document in memory; the cache and its callers share references to these. */
  class DocumentRef {
    var v: Document

    constructor (v: Document)
      ensures this.v == v
    {
      this.v := v;
    }
  }

  /** No method may modify a DocumentRef that existed before the call: cached documents never change. */
  class Service {
    const repo: DocumentRepo
    const cache: TTL<string, DocumentRef>
    const maxSize: int

    constructor (repo: DocumentRepo, cache: TTL<string, DocumentRef>, maxSize: int)
      ensures this.repo == repo && this.cache == cache && this.maxSize == maxSize
    {
      this.repo := repo;
      this.cache := cache;
      this.maxSize := maxSize;
    }

    ghost function Refs(): set<DocumentRef>
      reads cache
    {
      set k | k in cache.items :: cache.items[k].val
    }

    ghost function View(): State
      reads repo, cache, Refs()
    {
      State(repo.rows, map k | k in cache.items :: Entry(cache.items[k].val.v, cache.items[k].expiresAt),
            cache.ttl, maxSize)
    }

    method FetchRow(id: string, up: bool) returns (r: Result<DocumentRef, Error>)
      ensures r.Ok? <==> Fetch(repo.rows, id, up).Ok?
      ensures r.Ok? ==> fresh(r.value) && Ok(r.value.v) == Fetch(repo.rows, id, up)
      ensures r.Err? ==> Err(r.error) == Fetch(repo.rows, id, up)
    {
      if !up {
        return Err(Internal);
      }
      if id !in repo.rows {
        return Err(NotFound);
      }
      var d := new DocumentRef(repo.rows[id]);
      return Ok(d);
    }

    method Get(id: string, owner: string, now: int, setAt: int, up: bool) returns (r: Result<DocumentRef, Error>)
      modifies cache
      ensures var (s, a) := Served(old(View()), Call.Get(id, owner, now, setAt, up));
              View() == s && a == One(if r.Ok? then Ok(r.value.v) else Err(r.error))
    {
      hide Owns;
      ghost var was := View();
      var hit := cache.Get(id, now);
      var d: DocumentRef;
      if hit.Some? {
        d := hit.value;
        assert View() == was && Peek(was.items, id, now) == Some(d.v);
      } else {
        var found := FetchRow(id, up);
        if found.Err? {
          return Err(found.error);
        }
        d := found.value;
        cache.Set(id, d, setAt);
        assert View() == was.(items := was.items[id := Entry(d.v, setAt + cache.ttl)]);
      }
      if !Owns(d.v, owner) {
        return Err(NotFound);
      }
      return Ok(d);
    }

    method List(q: Query, up: bool) returns (r: Result<(seq<Document>, nat), Error>)
      ensures (View(), Many(r)) == Served(View(), Call.List(q, up))
      ensures r.Ok? <==> up
      ensures r.Ok? ==>
                var f := Filter(q.text, q.owner, q.status, if 1 <= q.limit <= 100 then q.limit else 20,
                                if q.offset >= 0 then q.offset else 0);
                && r.value.1 == |set id | id in repo.rows && Matches(repo.rows[id], f)|
                && exists ids :: IsListing(repo.rows, f, ids) && IsPageOf(repo.rows, ids, f.limit, f.offset, r.value.0)
    {
      var limit, offset := q.limit, q.offset;
      if limit <= 0 || limit > 100 {
        limit := 20;
      }
      if offset < 0 {
        offset := 0;
      }
      r := repo.List(Filter(q.text, q.owner, q.status, limit, offset), up);
    }

    method Create(u: Upload, id: string, now: int, up: bool) returns (r: Result<DocumentRef, Error>)
      modifies repo
      ensures var (s, a) := Served(old(View()), Call.Create(u, id, now, up));
              View() == s && a == One(if r.Ok? then Ok(r.value.v) else Err(r.error))
      ensures r.Ok? <==> 1 <= |Trim(u.title)| <= 200 && |u.summary| <= 5000 && Trim(u.fileName) != ""
                         && u.size <= maxSize && up && id !in old(repo.rows)
      ensures r.Ok? ==> r.value.v == Document(
                id := id, title := Trim(u.title), summary := Trim(u.summary), fileName := Base(u.fileName),
                filePath := u.path, mimeType := u.mimeType, sizeBytes := u.size, checksum := u.checksum,
                status := Pending, createdBy := u.createdBy, createdAt := now, updatedAt := now)
      ensures repo.rows == if r.Ok?
                           then old(repo.rows)[id := r.value.v.(createdAt := now / 1_000_000_000 * 1_000_000_000,
                                                                updatedAt := now / 1_000_000_000 * 1_000_000_000)]
                           else old(repo.rows)
    {
      if !ValidMeta(u.title, u.summary) || Trim(u.fileName) == "" {
        return Err(Invalid);
      }
      if u.size > maxSize {
        return Err(TooLarge);
      }
      var d := new DocumentRef(NewDocument(u, id, now));
      var inserted := repo.Create(d.v, up);
      assert View() == old(View()).(table := repo.rows);
      if inserted.Err? {
        return Err(inserted.error);
      }
      return Ok(d);
    }

    /** The fields a PATCH names, on a private copy. */
    method EditFields(d: DocumentRef, title: Option<string>, summary: Option<string>)
      modifies d
      ensures d.v.(updatedAt := 0) == Edited(old(d.v), title, summary, 0) && d.v.updatedAt == old(d.v.updatedAt)
      ensures d.v == old(d.v).(title := if title.Some? then Trim(title.value) else old(d.v).title,
                               summary := if summary.Some? then Trim(summary.value) else old(d.v).summary)
    {
      if title.Some? {
        d.v := d.v.(title := Trim(title.value));
      }
      if summary.Some? {
        d.v := d.v.(summary := Trim(summary.value));
      }
    }

    /** The part of a PATCH that comes before its write. */
    method Draft(id: string, owner: string, title: Option<string>, summary: Option<string>, now: int, up: bool)
      returns (r: Result<DocumentRef, Error>)
      ensures r.Ok? ==> fresh(r.value)
      ensures Drafted(repo.rows, id, owner, title, summary, now, up) == if r.Ok? then Ok(r.value.v) else Err(r.error)
    {
      r := FetchRow(id, up);
      if r.Err? {
        return;
      }
      if !Owns(r.value.v, owner) {
        return Err(NotFound);
      }
      EditFields(r.value, title, summary);
      if !ValidMeta(r.value.v.title, r.value.v.summary) {
        return Err(Invalid);
      }
      r.value.v := r.value.v.(updatedAt := now);
    }

    method Update(id: string, owner: string, title: Option<string>, summary: Option<string>, now: int,
                  up: bool, upWrite: bool)
      returns (r: Result<DocumentRef, Error>)
      modifies repo, cache
      ensures var (s, a) := Served(old(View()), Call.Update(id, owner, title, summary, now, up, upWrite));
              View() == s && a == One(if r.Ok? then Ok(r.value.v) else Err(r.error))
      ensures r.Ok? ==> id in old(repo.rows) && r.value.v == old(repo.rows)[id].(
                title := if title.Some? then Trim(title.value) else old(repo.rows)[id].title,
                summary := if summary.Some? then Trim(summary.value) else old(repo.rows)[id].summary,
                updatedAt := now)
      ensures r.Err? ==> repo.rows == old(repo.rows)
    {
      r := Draft(id, owner, title, summary, now, up);
      if r.Err? {
        return;
      }
      var written := repo.Update(r.value.v, upWrite);
      assert View() == old(View()).(table := repo.rows);
      if written.Err? {
        return Err(written.error);
      }
      cache.Delete(id);
      assert View() == old(View()).(table := repo.rows, items := old(View()).items - {id});
    }

    method Delete(id: string, owner: string, up: bool, upWrite: bool) returns (r: Result<(), Error>)
      modifies repo, cache
      ensures var (s, a) := Served(old(View()), Call.Delete(id, owner, up, upWrite));
              View() == s && a == Ack(r)
      ensures r.Ok? <==> up && upWrite && id in old(repo.rows)
                         && (owner == "" || old(repo.rows)[id].createdBy == owner)
      ensures repo.rows == if r.Ok? then old(repo.rows) - {id} else old(repo.rows)
      ensures r.Ok? ==> id !in cache.items
    {
      var found := FetchRow(id, up);
      if found.Err? {
        return Err(found.error);
      }
      if !Owns(found.value.v, owner) {
        return Err(NotFound);
      }
      r := repo.Delete(id, upWrite);
      if r.Err? {
        return;
      }
      cache.Delete(id);
    }

    method MarkStatus(id: string, st: Status, now: int, up: bool) returns (r: Result<(), Error>)
      modifies repo, cache
      ensures var (s, a) := Served(old(View()), Call.MarkStatus(id, st, now, up));
              View() == s && a == Ack(r)
      ensures r.Ok? <==> up && id in old(repo.rows)
      ensures repo.rows == if r.Ok?
                           then old(repo.rows)[id := old(repo.rows)[id].(
                                  status := st, updatedAt := now / 1_000_000_000 * 1_000_000_000)]
                           else old(repo.rows)
      ensures r.Ok? ==> id !in cache.items
    {
      r := repo.SetStatus(id, st, now, up);
      if r.Err? {
        return;
      }
      cache.Delete(id);
    }

    method Sweep(now: int)
      modifies cache
      ensures View() == Served(old(View()), Call.Janitor(now)).0
    {
      cache.Sweep(now);
    }
  }
}
