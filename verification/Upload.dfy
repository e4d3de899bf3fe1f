/** The bytes of an upload: sniffed prefix, size limit, streaming to disk and to the digest at once. */
module Upload {
  import opened Basics
  import opened Wrappers
  import opened Paths

  type Bytes = seq<bv8>

  const SNIFF: nat := 512

  /** How many bytes after the sniffed prefix may be read. */
  function Remain(maxSize: int, prefix: nat): int {
    Max(1, maxSize - prefix + 1)
  }

  /** The bytes that reach the disk. */
  function Taken(input: Bytes, maxSize: int): Bytes {
    var n := Min(SNIFF, |input|);
    input[..n] + input[n..][..Min(Remain(maxSize, n), |input| - n)]
  }

  /** For every length and limit: an overlong input is noticed, any other is taken whole, and little more
      than the limit is ever written. */
  lemma UploadExact(input: Bytes, maxSize: int)
    ensures |Taken(input, maxSize)| > maxSize <==> |input| > maxSize
    ensures |input| <= maxSize ==> Taken(input, maxSize) == input
    ensures Taken(input, maxSize) == input[..Min(|input|, Max(maxSize + 1, SNIFF + 1))]
    ensures |Taken(input, maxSize)| <= Max(maxSize + 1, SNIFF + 1)
  {
    var n := Min(SNIFF, |input|);
    if Remain(maxSize, n) >= |input| - n {
      assert input[..n] + input[n..] == input;
    }
  }

  /** A digest: a state that absorbs one byte at a time. */
  datatype Hash<!H> = Hash(init: H, absorb: (H, bv8) -> H)

  function Absorbed<H>(h: Hash<H>, state: H, b: Bytes): H {
    if b == [] then state else h.absorb(Absorbed(h, state, b[..|b| - 1]), b[|b| - 1])
  }

  function Digest<H>(h: Hash<H>, b: Bytes): H {
    Absorbed(h, h.init, b)
  }

  lemma AbsorbNothing<H>(h: Hash<H>, state: H)
    ensures Absorbed(h, state, []) == state
  {
  }

  lemma AbsorbByte<H>(h: Hash<H>, state: H, x: bv8)
    ensures Absorbed(h, state, [x]) == h.absorb(state, x)
  {
    assert [x][..0] == [];
  }

  /** Absorbing chunk by chunk is absorbing the whole. */
  lemma {:induction false} AbsorbChunks<H>(h: Hash<H>, state: H, a: Bytes, b: Bytes)
    ensures Absorbed(h, Absorbed(h, state, a), b) == Absorbed(h, state, a + b)
  {
    if b == [] {
      assert a + b == a;
    } else {
      var n := |b| - 1;
      AbsorbChunks(h, state, a, b[..n]);
      assert (a + b)[..|a| + n] == a + b[..n];
    }
  }

  /** Whether a source that breaks after failAt bytes breaks within the n bytes after position from. */
  predicate Breaks(failAt: Option<nat>, from: nat, n: nat) {
    failAt.Some? && failAt.value < from + n
  }

  /** A stream that hands out its data in pieces of its own choosing, and may break on the way. */
  class Reader {
    const data: Bytes
    const pace: nat -> nat
    const failAt: Option<nat>   // how many bytes can be read before reading fails
    var pos: nat

    constructor (data: Bytes, pace: nat -> nat, failAt: Option<nat>)
      requires failAt.Some? ==> failAt.value <= |data|
      ensures this.data == data && this.failAt == failAt && pos == 0 && Valid()
    {
      this.data := data;
      this.pace := pace;
      this.failAt := failAt;
      pos := 0;
    }

    ghost predicate Valid()
      reads this
    {
      pos <= |data| && (failAt.Some? ==> pos <= failAt.value <= |data|)
    }

    ghost function Rest(): Bytes
      requires Valid()
      reads this
    {
      data[pos..]
    }

    /** At most max bytes; none only at the end, or where reading fails. */
    method Read(max: nat) returns (chunk: Bytes, ok: bool)
      requires Valid() && max > 0
      modifies this
      ensures Valid() && |chunk| <= max && old(Rest()) == chunk + Rest() && pos == old(pos) + |chunk|
      ensures ok <==> failAt != Some(old(pos))
      ensures chunk == [] <==> !ok || old(Rest()) == []
    {
      if failAt == Some(pos) {
        return [], false;
      }
      var last := if failAt.Some? then failAt.value else |data|;
      var k := Min(Max(1, pace(pos)), Min(max, last - pos));
      chunk := data[pos..pos + k];
      pos := pos + k;
      ok := true;
    }
  }

  /** io.ReadFull: n bytes, or all there are, unless reading fails before that. */
  method ReadFull(r: Reader, n: nat) returns (head: Bytes, ok: bool)
    requires r.Valid()
    modifies r
    ensures r.Valid() && old(r.Rest()) == head + r.Rest() && r.pos == old(r.pos) + |head|
    ensures ok <==> !Breaks(r.failAt, old(r.pos), n)
    ensures ok ==> |head| == Min(n, |old(r.Rest())|)
  {
    head, ok := [], true;
    while |head| < n
      invariant r.Valid() && |head| <= n && old(r.Rest()) == head + r.Rest() && r.pos == old(r.pos) + |head| && ok
      decreases n - |head|
    {
      var chunk;
      chunk, ok := r.Read(n - |head|);
      if !ok {
        return;
      }
      if chunk == [] {
        break;
      }
      assert head + (chunk + r.Rest()) == (head + chunk) + r.Rest();
      head := head + chunk;
    }
  }

  datatype StoredBlob<H> = StoredBlob(path: string, size: nat, checksum: H)

  datatype Error = ReadFailed | UnsupportedType | SaveFailed | TooLarge | NotRemoved

  /** What goes wrong while a file is saved: nothing, or the given step; a full disk takes only room bytes. */
  datatype Fault = NoFault | Cancelled | NoDirectory | NoTemp | Full(room: nat) | NoSync | NoClose | NoRename

  /** Whether all of the size bytes can be written and put into place. */
  predicate Writable(fault: Fault, size: nat) {
    fault.NoFault? || (fault.Full? && size <= fault.room)
  }

  /** The directory of a day below the root. */
  datatype Day = Day(year: string, month: string, day: string) {
    predicate Valid() {
      Plain(year) && Plain(month) && Plain(day)
    }

    function File(root: string, name: string): string {
      Final(root, year, month, day, name)
    }

    /** The path that is reported for it, relative to the root. */
    function Relative(root: string, name: string): string {
      var p := Rel(root, File(root, name));
      if p.Some? then p.value else ""
    }

    lemma RelativeResolves(root: string, name: string)
      requires Valid() && Plain(name)
      ensures Rel(root, File(root, name)) == Some(Relative(root, name))
      ensures Resolve(root, Relative(root, name)) ==
              (if Cleaned(root).names != [] then Ok(File(root, name)) else Err(EscapesRoot))
    {
      SavedResolvesExactly(root, year, month, day, name);
    }

    lemma RelativeExact(root: string, name: string)
      requires Valid() && Plain(name)
      ensures Relative(root, name) == year + "/" + month + "/" + day + "/" + name
    {
      SavedResolvesExactly(root, year, month, day, name);
    }
  }

  /** The bytes a save is given: a prefix, and at most limit bytes of a stream. */
  function Body(head: Bytes, rest: Bytes, limit: nat): Bytes {
    head + rest[..Min(limit, |rest|)]
  }

  class Local<!H> {
    const hash: Hash<H>
    const root: string
    var files: map<string, Bytes>   // by their full paths
    ghost var written: nat          // how many bytes were ever written

    constructor (hash: Hash<H>, root: string)
      ensures this.hash == hash && this.root == root && files == map[] && written == 0
    {
      this.hash := hash;
      this.root := root;
      files := map[];
      written := 0;
    }

    static lemma Grow(start: Bytes, taken: Bytes, chunk: Bytes, rest: Bytes)
      ensures taken + (chunk + rest) == (taken + chunk) + rest
      ensures (start + taken) + chunk == start + (taken + chunk)
    {
    }

    /** Appends to a file, if there is room for all of it. */
    method Write(name: string, chunk: Bytes, fault: Fault) returns (ok: bool)
      requires name in files
      modifies this`files, this`written
      ensures ok <==> (fault.Full? ==> |old(files)[name]| + |chunk| <= fault.room)
      ensures files == if ok then old(files)[name := old(files)[name] + chunk] else old(files)
      ensures written == old(written) + if ok then |chunk| else 0
    {
      if fault.Full? && |files[name]| + |chunk| > fault.room {
        return false;
      }
      files := files[name := files[name] + chunk];
      written := written + |chunk|;
      return true;
    }

    /** Streams at most limit bytes of r onto the end of a file and into the digest. It fails when the stream
        breaks before that, or the disk has no room for all of them. */
    method Stream(r: Reader, limit: nat, name: string, state: H, fault: Fault)
      returns (size: nat, h: H, ok: bool)
      requires r.Valid() && name in files
      modifies this`files, this`written, r
      ensures var taken := old(r.Rest())[..Min(limit, |old(r.Rest())|)];
              && (ok <==> !Breaks(r.failAt, old(r.pos), limit)
                          && (fault.Full? ==> |old(files)[name]| + |taken| <= Max(fault.room, |old(files)[name]|)))
              && (ok ==> files == old(files)[name := old(files)[name] + taken]
                         && size == |taken| && h == Absorbed(hash, state, taken))
              && name in files && files - {name} == old(files) - {name}
              && written == old(written) + size && size <= limit
    {
      hide Absorbed;
      AbsorbNothing(hash, state);
      ghost var rest, start := r.Rest(), files[name];
      ghost var taken: Bytes := [];
      h, size, ok := state, 0, true;
      var left := limit;
      assert start + taken == start && taken + r.Rest() == rest;
      assert files == old(files)[name := start];
      while left > 0
        invariant r.Valid() && rest == taken + r.Rest() && left >= 0 && |taken| + left == limit
        invariant r.pos == old(r.pos) + |taken| && ok
        invariant name in files && files == old(files)[name := start + taken]
        invariant size == |taken| && h == Absorbed(hash, state, taken) && written == old(written) + size
        invariant fault.Full? ==> |start| + |taken| <= Max(fault.room, |start|)
        decreases left
      {
        var chunk;
        chunk, ok := r.Read(left);
        if !ok {
          return;
        }
        if chunk == [] {
          assert rest == taken;
          break;
        }
        Grow(start, taken, chunk, r.Rest());
        ok := Write(name, chunk, fault);
        if !ok {
          assert |rest| >= |taken| + |chunk|;
          return;
        }
        AbsorbChunks(hash, state, taken, chunk);
        h := Absorbed(hash, h, chunk);
        size := size + |chunk|;
        left := left - |chunk|;
        taken := taken + chunk;
      }
      assert |taken| == Min(limit, |rest|) && taken == rest[..|taken|];
    }

    /** Copies head and then at most limit bytes of r to a new staging file and into the digest. */
    method Stage(head: Bytes, r: Reader, limit: nat, tmp: string, fault: Fault) returns (size: nat, h: H, ok: bool)
      requires r.Valid() && tmp !in files
      modifies this`files, this`written, r
      ensures var body := Body(head, old(r.Rest()), limit);
              && (ok <==> !Breaks(r.failAt, old(r.pos), limit) && (fault.Full? ==> |body| <= fault.room))
              && (ok ==> files == old(files)[tmp := body] && size == |body| && h == Digest(hash, body)
                         && written == old(written) + |body|)
              && tmp in files && files - {tmp} == old(files) && written <= old(written) + |head| + limit
    {
      ghost var taken := r.Rest()[..Min(limit, |r.Rest()|)];
      files := files[tmp := []];
      if fault.Full? && |head| > fault.room {
        return 0, hash.init, false;
      }
      files := files[tmp := head];
      written := written + |head|;
      size, h, ok := Stream(r, limit, tmp, Absorbed(hash, hash.init, head), fault);
      size := |head| + size;
      AbsorbChunks(hash, hash.init, head, taken);
    }

    /** Writes head and then at most limit bytes of r to a staging file and into the digest, and renames the
        file into place. tmp and name are generated; on any failure the staging file is removed again, where
        removed tells whether that works. */
    method Save(head: Bytes, r: Reader, limit: nat, tmp: string, day: Day, name: string, fault: Fault, removed: bool)
      returns (res: Result<StoredBlob<H>, Error>)
      requires r.Valid() && day.Valid() && Plain(name)
      requires tmp !in files && day.File(root, name) !in files && tmp != day.File(root, name)
      modifies this`files, this`written, r
      ensures var body := Body(head, old(r.Rest()), limit);
              && res == (if !Breaks(r.failAt, old(r.pos), limit) && Writable(fault, |body|)
                         then Ok(StoredBlob(day.Relative(root, name), |body|, Digest(hash, body)))
                         else Err(SaveFailed))
              && (res.Ok? ==> files == old(files)[day.File(root, name) := body] && written == old(written) + |body|)
              && (res.Err? ==> files - {tmp} == old(files) && (removed ==> files == old(files)))
              && written <= old(written) + |head| + limit
    {
      hide Final, Rel, Cleaned, Resolve, Body, Digest, Day.File, Day.Relative;
      var final := day.File(root, name);
      if fault.Cancelled? || fault.NoDirectory? || fault.NoTemp? {
        return Err(SaveFailed);
      }
      var size, h, ok := Stage(head, r, limit, tmp, fault);
      if !ok || fault.NoSync? || fault.NoClose? || fault.NoRename? {
        Discard(tmp, removed);
        return Err(SaveFailed);
      }
      files := files[final := files[tmp]] - {tmp};
      var rel := Rel(root, final);
      day.RelativeResolves(root, name);
      if rel.None? {
        assert false;
      }
      return Ok(StoredBlob(rel.value, size, h));
    }

    /** The deferred removal of a staging file, whose own failure is ignored. */
    method Discard(tmp: string, removed: bool)
      modifies this`files
      ensures files == if removed then old(files) - {tmp} else old(files)
    {
      if removed {
        files := files - {tmp};
      }
    }

    /** Resolves the relative path, refusing one that escapes; a missing file is no error. up tells whether
        the removal itself works. */
    method Delete(path: string, up: bool) returns (res: Result<(), Error>)
      modifies this`files
      ensures res == if Resolve(root, path).Ok? && up then Ok(()) else Err(NotRemoved)
      ensures files == if res.Ok? then old(files) - {Resolve(root, path).value} else old(files)
    {
      var full := Resolve(root, path);
      if full.Err? || !up {
        return Err(NotRemoved);
      }
      files := files - {full.value};
      return Ok(());
    }

    /** Uploading: sniff, save, and undo what turns out too large. sniff gives the extension for an accepted
        type; undone tells whether the removal of an overlong upload's file works. */
    method Receive(r: Reader, maxSize: int, sniff: Bytes -> Option<string>, id: string, tmp: string, day: Day,
                   fault: Fault, removed: bool, undone: bool)
      returns (res: Result<StoredBlob<H>, Error>)
      requires r.Valid() && r.pos == 0 && day.Valid() && IsId(id) && forall b :: Extension(sniff(b))
      requires tmp !in files && tmp != Target(r.data, sniff, id, day, root)
      requires Target(r.data, sniff, id, day, root) !in files
      modifies this`files, this`written, r
      ensures res == Received(hash, r.data, r.failAt, maxSize, sniff, id, day, root, fault)
      ensures var input := r.data;
              var ext := sniff(if |input| < 512 then input else input[..512]);
              && (res.Ok? <==> IntactTo(r.failAt, WantedBytes(maxSize)) && ext.Some?
                               && SavesAll(fault, |input|, WantedBytes(maxSize)) && |input| <= maxSize)
              && (res == Err(UnsupportedType) <==> IntactTo(r.failAt, 512) && ext.None?)
      ensures var final := Target(r.data, sniff, id, day, root);
              match res
              case Ok(_) => files == old(files)[final := r.data]
              case Err(TooLarge) =>
                files == if undone && Cleaned(root).names != [] then old(files)
                         else old(files)[final := Taken(r.data, maxSize)]
              case Err(SaveFailed) => files - {tmp} == old(files) && (removed ==> files == old(files))
              case _ => files == old(files)
      ensures written - old(written) <= Max(maxSize + 1, SNIFF + 1)
      ensures res.Ok? || res.error == TooLarge ==> written - old(written) == |Taken(r.data, maxSize)|
    {
      hide Final, Rel, Cleaned, Resolve;
      ghost var input := r.data;
      ReceivedExactly(hash, input, r.failAt, maxSize, sniff, id, day, root, fault);
      var head, ok := ReadFull(r, 512);
      if !ok {
        return Err(ReadFailed);
      }
      assert head == Head(input) && r.Rest() == input[|head|..];
      var ext := sniff(head);
      if ext.None? {
        return Err(UnsupportedType);
      }
      var remain := maxSize - |head| + 1;
      if remain < 1 {
        remain := 1;
      }
      UploadExact(input, maxSize);
      NamePlain(id, ext.value);
      assert Body(head, r.Rest(), remain) == Taken(input, maxSize);
      assert Extension(sniff(head));
      var saved := Save(head, r, remain, tmp, day, id + ext.value, fault, removed);
      if saved.Err? {
        return Err(SaveFailed);
      }
      if saved.value.size > maxSize {
        day.RelativeResolves(root, id + ext.value);
        var gone := Delete(saved.value.path, undone);
        return Err(TooLarge);
      }
      return saved;
    }
  }

  /** The prefix that is sniffed. */
  function Head(input: Bytes): Bytes {
    input[..Min(SNIFF, |input|)]
  }

  /** A generated id: hexadecimal digits. */
  predicate IsId(id: string) {
    id != "" && '.' !in id && '/' !in id
  }

  /** No file, or an extension from the table of accepted types. */
  predicate Extension(ext: Option<string>) {
    ext.Some? ==> '/' !in ext.value
  }

  lemma NamePlain(id: string, ext: string)
    requires IsId(id) && '/' !in ext
    ensures Plain(id + ext)
  {
    assert id[0] in id && (id + ext)[0] == id[0];
  }

  /** Where the upload's file belongs. */
  function Target(input: Bytes, sniff: Bytes -> Option<string>, id: string, day: Day, root: string): string {
    var ext := sniff(Head(input));
    day.File(root, id + (if ext.Some? then ext.value else ""))
  }

  /** The outcome of an upload, in the order of its checks. */
  function Received<H>(hash: Hash<H>, input: Bytes, failAt: Option<nat>, maxSize: int,
                       sniff: Bytes -> Option<string>, id: string, day: Day, root: string, fault: Fault)
    : Result<StoredBlob<H>, Error>
  {
    var n := |Head(input)|;
    if Breaks(failAt, 0, SNIFF) then Err(ReadFailed)
    else if sniff(Head(input)).None? then Err(UnsupportedType)
    else if Breaks(failAt, n, Remain(maxSize, n)) || !Writable(fault, |Taken(input, maxSize)|) then Err(SaveFailed)
    else if |input| > maxSize then Err(TooLarge)
    else Ok(StoredBlob(day.Relative(root, id + sniff(Head(input)).value), |input|, Digest(hash, input)))
  }

  /** The stream does not break before its first n bytes are read. */
  predicate IntactTo(failAt: Option<nat>, n: int) {
    failAt.None? || failAt.value >= n
  }

  /** How many bytes an upload reads, if there are as many: the prefix and a byte more, or the limit and a
      byte more. */
  function WantedBytes(maxSize: int): int {
    if maxSize < 512 then 513 else maxSize + 1
  }

  /** Nothing goes wrong while size bytes, or the wanted ones, are saved; a full disk has room for them. */
  predicate SavesAll(fault: Fault, size: nat, wanted: int) {
    fault.NoFault? || (fault.Full? && (size <= fault.room || wanted <= fault.room))
  }

  /** For every input, limit and failure: exactly when an upload is received, and what is told; exactly when
      each error is answered. */
  lemma ReceivedExactly<H>(hash: Hash<H>, input: Bytes, failAt: Option<nat>, maxSize: int,
                           sniff: Bytes -> Option<string>, id: string, day: Day, root: string, fault: Fault)
    requires (failAt.Some? ==> failAt.value <= |input|) && day.Valid() && IsId(id) && forall b :: Extension(sniff(b))
    ensures var res := Received(hash, input, failAt, maxSize, sniff, id, day, root, fault);
            var ext := sniff(if |input| < 512 then input else input[..512]);
            var wanted := WantedBytes(maxSize);
            && (res.Ok? <==> IntactTo(failAt, wanted) && ext.Some? && SavesAll(fault, |input|, wanted)
                             && |input| <= maxSize)
            && (res.Ok? ==> res.value == StoredBlob(
                  day.year + "/" + day.month + "/" + day.day + "/" + id + ext.value, |input|, Digest(hash, input)))
            && (res == Err(ReadFailed) <==> !IntactTo(failAt, 512))
            && (res == Err(UnsupportedType) <==> IntactTo(failAt, 512) && ext.None?)
            && (res == Err(SaveFailed) <==> IntactTo(failAt, 512) && ext.Some?
                                            && !(IntactTo(failAt, wanted) && SavesAll(fault, |input|, wanted)))
            && (res == Err(TooLarge) <==> IntactTo(failAt, wanted) && ext.Some? && SavesAll(fault, |input|, wanted)
                                          && |input| > maxSize)
  {
    hide Taken, Head, Digest, Day.Relative;
    BytesTouched(input, maxSize);
    var ext := sniff(Head(input));
    if ext.Some? { PathReported(sniff, Head(input), id, day, root); }
  }

  /** The prefix that is sniffed, how far an upload reads, and how much it stores. */
  lemma BytesTouched(input: Bytes, maxSize: int)
    ensures Head(input) == if |input| < 512 then input else input[..512]
    ensures |input| >= 512 ==> |Head(input)| + Remain(maxSize, |Head(input)|) == WantedBytes(maxSize)
    ensures |Taken(input, maxSize)| == if |input| < WantedBytes(maxSize) then |input| else WantedBytes(maxSize)
  {
  }

  lemma PathReported(sniff: Bytes -> Option<string>, head: Bytes, id: string, day: Day, root: string)
    requires day.Valid() && IsId(id) && (forall b :: Extension(sniff(b))) && sniff(head).Some?
    ensures day.Relative(root, id + sniff(head).value)
         == day.year + "/" + day.month + "/" + day.day + "/" + id + sniff(head).value
  {
    hide Day.Relative;
    var ext := sniff(head);
    assert Extension(ext);
    NamePlain(id, ext.value);
    day.RelativeExact(root, id + ext.value);
    var before := day.year + "/" + day.month + "/" + day.day + "/";
    assert before + (id + ext.value) == before + id + ext.value;
  }
}
