/** What the files of a crash-prone run contain: the size and checksum recorded with a row are those of the
    bytes its path names.

    The machine of CrashSafety is run with contents. An upload writes its bytes chunk by chunk, to the staging
    file and into the digest at once; a power cut may leave anything in a file not yet synced. */
module StoredContents {
  import opened Basics
  import opened Wrappers
  import opened Upload
  import opened CrashSafety

  /** What an upload has counted and digested so far, and later records with its row. */
  datatype Meta<H> = Meta(size: nat, sum: H)

  datatype Disk<H> = Disk(
    base: State,
    contents: map<string, Bytes>,      // by file name
    counted: map<nat, Meta<H>>,        // by upload
    records: map<string, Meta<H>>)     // by document id

  datatype Event = Step(a: Action) | Write(o: nat, chunk: Bytes) | PowerCut(left: map<string, Bytes>)

  datatype Rules<!H> = Rules(hash: Hash<H>, maxSize: int)

  function Content<H>(d: Disk<H>, name: string): Bytes {
    if name in d.contents then d.contents[name] else []
  }

  predicate Uploading(op: Op) {
    op.Staging? || op.Synced? || op.Stored?
  }

  predicate Possible<H>(r: Rules<H>, d: Disk<H>, e: Event) {
    match e
    case Step(a) =>
      && !a.Crash? && Enabled(d.base, a)
      && (a.Rename? ==> a.o in d.counted && (a.big <==> d.counted[a.o].size > r.maxSize))
      && (a.Insert? ==> a.o in d.counted)
    case Write(o, _) => o in d.base.ops && d.base.ops[o].Staging? && o in d.counted
    case PowerCut(_) => true
  }

  /** The contents after a step of an operation. */
  function StepContents<H>(d: Disk<H>, a: Action): map<string, Bytes>
    requires Enabled(d.base, a)
  {
    match a
    case Begin(_, name) => d.contents[name := []]
    case Rename(o, path, _) =>
      var name := d.base.ops[o].name;
      d.contents[path := Content(d, name)] - {name}
    case SaveFails(o, removed) => if removed then d.contents - {d.base.ops[o].name} else d.contents
    case Remove(o, removed) => if removed then d.contents - {d.base.ops[o].name} else d.contents
    case _ => d.contents
  }

  function StepRecords<H>(d: Disk<H>, a: Action): map<string, Meta<H>>
    requires Enabled(d.base, a) && (a.Insert? ==> a.o in d.counted)
  {
    match a
    case Insert(o, id) => d.records[id := d.counted[o]]
    case DropRow(o) => d.records - {d.base.ops[o].id}
    case _ => d.records
  }

  function After<H>(r: Rules<H>, d: Disk<H>, e: Event): Disk<H>
    requires Possible(r, d, e)
  {
    match e
    case Step(a) =>
      Disk(Apply(d.base, a), StepContents(d, a),
           if a.Begin? then d.counted[a.o := Meta(0, r.hash.init)] else d.counted, StepRecords(d, a))
    case Write(o, chunk) =>
      var name, m := d.base.ops[o].name, d.counted[o];
      d.(contents := d.contents[name := Content(d, name) + chunk],
         counted := d.counted[o := Meta(m.size + |chunk|, Absorbed(r.hash, m.sum, chunk))])
    case PowerCut(left) =>
      Disk(Apply(d.base, Crash),
           map f | f in d.base.files ::
             if d.base.files[f] then Content(d, f) else if f in left then left[f] else [],
           map[], d.records)
  }

  ghost function RunDisk<H>(r: Rules<H>, d: Disk<H>, es: seq<Event>): Option<Disk<H>> {
    if es == [] then Some(d)
    else
      var t := RunDisk(r, d, es[..|es| - 1]);
      if t.Some? && Possible(r, t.value, es[|es| - 1]) then Some(After(r, t.value, es[|es| - 1])) else None
  }

  // ---------------------------------------------------------------------------------------------
  // The invariant
  // ---------------------------------------------------------------------------------------------

  /** Size and digest are those of the bytes. */
  ghost predicate Describes<H>(hash: Hash<H>, m: Meta<H>, b: Bytes) {
    m.size == |b| && m.sum == Digest(hash, b)
  }

  ghost predicate UploadCounted<H>(r: Rules<H>, d: Disk<H>, o: nat)
    requires o in d.base.ops && Uploading(d.base.ops[o])
  {
    var op := d.base.ops[o];
    && o in d.counted && Describes(r.hash, d.counted[o], Content(d, op.name))
    && (op.Stored? && !op.big ==> d.counted[o].size <= r.maxSize)
  }

  ghost predicate RowRecorded<H>(r: Rules<H>, d: Disk<H>, id: string)
    requires id in d.base.rows
  {
    id in d.records && Describes(r.hash, d.records[id], Content(d, d.base.rows[id])) && d.records[id].size <= r.maxSize
  }

  ghost predicate DiskInv<H>(r: Rules<H>, d: Disk<H>) {
    && CrashSafety.Inv(d.base)
    && (forall o | o in d.base.ops && Uploading(d.base.ops[o]) :: UploadCounted(r, d, o))
    && (forall id | id in d.base.rows :: RowRecorded(r, d, id))
  }

  /** The uploads' counts are always known, so they hold up no step. */
  lemma StepsPossible<H>(r: Rules<H>, d: Disk<H>, a: Action)
    requires DiskInv(r, d) && Enabled(d.base, a) && !a.Crash?
    ensures a.Rename? || a.Insert? ==> a.o in d.counted
    ensures !a.Rename? ==> Possible(r, d, Step(a))
  {
    if a.Rename? || a.Insert? { assert UploadCounted(r, d, a.o); }
  }

  lemma WriteDescribes<H>(hash: Hash<H>, m: Meta<H>, b: Bytes, chunk: Bytes)
    requires Describes(hash, m, b)
    ensures Describes(hash, Meta(m.size + |chunk|, Absorbed(hash, m.sum, chunk)), b + chunk)
  {
    AbsorbChunks(hash, hash.init, b, chunk);
  }

  /** A step leaves alone the bytes of every file that it neither creates, moves nor removes. */
  lemma ContentKept<H>(d: Disk<H>, a: Action, f: string)
    requires Enabled(d.base, a)
    requires a.Begin? ==> a.name != f
    requires a.Rename? ==> a.path != f && d.base.ops[a.o].name != f
    requires a.SaveFails? || a.Remove? ==> d.base.ops[a.o].name != f
    ensures (if f in StepContents(d, a) then StepContents(d, a)[f] else []) == Content(d, f)
  {
  }

  lemma OpStays(s: State, a: Action, o: nat)
    requires Enabled(s, a) && !a.Crash? && a.o != o
    ensures (o in Apply(s, a).ops <==> o in s.ops) && (o in s.ops ==> Apply(s, a).ops[o] == s.ops[o])
  {
  }

  /** An upload other than the one that moves. */
  lemma OtherUpload<H>(r: Rules<H>, d: Disk<H>, a: Action, o: nat)
    requires DiskInv(r, d) && Possible(r, d, Step(a)) && a.o != o
    requires o in d.base.ops && Uploading(d.base.ops[o])
    ensures var d' := After(r, d, Step(a));
            o in d'.base.ops && d'.base.ops[o] == d.base.ops[o] && UploadCounted(r, d', o)
  {
    OpStays(d.base, a, o);
    assert UploadCounted(r, d, o);
    ContentKept(d, a, d.base.ops[o].name);
  }

  /** The upload that moves. */
  lemma OwnUpload<H>(r: Rules<H>, d: Disk<H>, a: Action)
    requires DiskInv(r, d) && Possible(r, d, Step(a))
    requires var ops := Apply(d.base, a).ops; a.o in ops && Uploading(ops[a.o])
    ensures UploadCounted(r, After(r, d, Step(a)), a.o)
  {
    if a.o in d.base.ops {
      assert UploadCounted(r, d, a.o);
    }
  }

  lemma RowStays(s: State, a: Action, id: string)
    requires CrashSafety.Inv(s) && Enabled(s, a) && id in Apply(s, a).rows
    ensures id in s.rows ==> Apply(s, a).rows[id] == s.rows[id]
    ensures id !in s.rows ==> a.Insert? && a.id == id && Apply(s, a).rows[id] == s.ops[a.o].name
  {
  }

  lemma RecordStep<H>(r: Rules<H>, d: Disk<H>, a: Action, id: string)
    requires DiskInv(r, d) && Possible(r, d, Step(a)) && id in Apply(d.base, a).rows
    ensures RowRecorded(r, After(r, d, Step(a)), id)
  {
    RowStays(d.base, a, id);
    if id in d.base.rows {
      assert RowRecorded(r, d, id);
      ContentKept(d, a, d.base.rows[id]);
    } else {
      assert UploadCounted(r, d, a.o);
    }
  }

  lemma StepKeeps<H>(r: Rules<H>, d: Disk<H>, a: Action)
    requires DiskInv(r, d) && Possible(r, d, Step(a))
    ensures DiskInv(r, After(r, d, Step(a)))
  {
    hide UploadCounted, RowRecorded;
    var d' := After(r, d, Step(a));
    StepInv(d.base, a);
    forall o | o in d'.base.ops && Uploading(d'.base.ops[o])
      ensures UploadCounted(r, d', o)
    {
      if a.o == o {
        OwnUpload(r, d, a);
      } else {
        OpStays(d.base, a, o);
        OtherUpload(r, d, a, o);
      }
    }
    forall id | id in d'.base.rows
      ensures RowRecorded(r, d', id)
    {
      RecordStep(r, d, a, id);
    }
  }

  lemma WriteKeeps<H>(r: Rules<H>, d: Disk<H>, o: nat, chunk: Bytes)
    requires DiskInv(r, d) && Possible(r, d, Write(o, chunk))
    ensures DiskInv(r, After(r, d, Write(o, chunk)))
  {
    var d', name := After(r, d, Write(o, chunk)), d.base.ops[o].name;
    assert UploadCounted(r, d, o);
    WriteDescribes(r.hash, d.counted[o], Content(d, name), chunk);
    forall p | p in d.base.ops && Uploading(d.base.ops[p])
      ensures UploadCounted(r, d', p)
    {
      assert UploadCounted(r, d, p);
      if p != o { assert d.base.ops[p].name != name; }
    }
    forall id | id in d.base.rows
      ensures RowRecorded(r, d', id)
    {
      assert RowRecorded(r, d, id) && d.base.rows[id] != name;
    }
  }

  /** A power cut takes every operation; the files of rows were synced. */
  lemma PowerCutKeeps<H>(r: Rules<H>, d: Disk<H>, left: map<string, Bytes>)
    requires DiskInv(r, d)
    ensures DiskInv(r, After(r, d, PowerCut(left)))
  {
    var d' := After(r, d, PowerCut(left));
    StepInv(d.base, Crash);
    forall id | id in d'.base.rows
      ensures RowRecorded(r, d', id)
    {
      assert RowRecorded(r, d, id) && d.base.files[d.base.rows[id]];
    }
  }

  lemma {:induction false} RunKeepsDisk<H>(r: Rules<H>, d: Disk<H>, es: seq<Event>)
    requires DiskInv(r, d) && RunDisk(r, d, es).Some?
    ensures DiskInv(r, RunDisk(r, d, es).value)
  {
    hide DiskInv, Possible, After;
    if es == [] {
    } else {
      var n := |es| - 1;
      RunKeepsDisk(r, d, es[..n]);
      EventKeeps(r, RunDisk(r, d, es[..n]).value, es[n]);
    }
  }

  lemma EventKeeps<H>(r: Rules<H>, d: Disk<H>, e: Event)
    requires DiskInv(r, d) && Possible(r, d, e)
    ensures DiskInv(r, After(r, d, e))
  {
    hide DiskInv, After;
    match e
    case Step(a) => StepKeeps(r, d, a);
    case Write(o, chunk) => WriteKeeps(r, d, o, chunk);
    case PowerCut(left) => PowerCutKeeps(r, d, left);
  }

  /** In every interleaving of uploads and deletions, with failures and power cuts at any moment: the size and
      the checksum recorded with a row are those of the bytes its path names, which are stored whole, and the
      size is within the limit. */
  lemma RowsDescribeFiles<H>(r: Rules<H>, es: seq<Event>, id: string)
    requires RunDisk(r, Disk(EMPTY, map[], map[], map[]), es).Some?
    requires id in RunDisk(r, Disk(EMPTY, map[], map[], map[]), es).value.base.rows
    ensures var d := RunDisk(r, Disk(EMPTY, map[], map[], map[]), es).value;
            var path := d.base.rows[id];
            && path in d.base.files && d.base.files[path] && id in d.records
            && d.records[id].size == |Content(d, path)| <= r.maxSize
            && d.records[id].sum == Digest(r.hash, Content(d, path))
  {
    var d0: Disk<H> := Disk(EMPTY, map[], map[], map[]);
    RunKeepsDisk(r, d0, es);
    assert RowRecorded(r, RunDisk(r, d0, es).value, id);
  }

  lemma RunDiskThen<H>(r: Rules<H>, d: Disk<H>, es: seq<Event>, e: Event)
    requires RunDisk(r, d, es).Some? && Possible(r, RunDisk(r, d, es).value, e)
    ensures RunDisk(r, d, es + [e]) == Some(After(r, RunDisk(r, d, es).value, e))
  {
    assert (es + [e])[..|es|] == es;
  }

  lemma NoEvents<H>(r: Rules<H>, d: Disk<H>)
    ensures RunDisk(r, d, []) == Some(d)
  {
  }

  /** What the events of an upload that nothing disturbs do. */
  lemma EventDoes<H>(r: Rules<H>, d: Disk<H>, e: Event)
    requires Possible(r, d, e) && (e.Step? ==> e.a.Begin? || e.a.Sync? || e.a.Rename? || e.a.Insert?)
    ensures e.Step? ==> After(r, d, e).base == Apply(d.base, e.a)
    ensures e.Step? && e.a.Begin? ==>
              After(r, d, e).contents == d.contents[e.a.name := []] && After(r, d, e).records == d.records
              && After(r, d, e).counted == d.counted[e.a.o := Meta(0, r.hash.init)]
    ensures e.Step? && !e.a.Begin? ==> After(r, d, e).counted == d.counted
    ensures e.Step? && e.a.Sync? ==> After(r, d, e).contents == d.contents && After(r, d, e).records == d.records
    ensures e.Step? && e.a.Rename? ==> var name := d.base.ops[e.a.o].name;
              After(r, d, e).contents == d.contents[e.a.path := Content(d, name)] - {name}
              && After(r, d, e).records == d.records
    ensures e.Step? && e.a.Insert? ==>
              After(r, d, e).contents == d.contents
              && After(r, d, e).records == d.records[e.a.id := d.counted[e.a.o]]
    ensures e.Write? ==> var name, m := d.base.ops[e.o].name, d.counted[e.o];
              After(r, d, e) == d.(contents := d.contents[name := Content(d, name) + e.chunk],
                                   counted := d.counted[e.o := Meta(m.size + |e.chunk|,
                                                                    Absorbed(r.hash, m.sum, e.chunk))])
  {
    hide Apply, Absorbed;
  }

  /** The state of an upload whose bytes are written in one piece, and synced or not. */
  ghost predicate Written<H>(r: Rules<H>, d: Disk<H>, t: Disk<H>, o: nat, name: string, b: Bytes, synced: bool) {
    && t.base == d.base.(files := d.base.files[name := synced], names := d.base.names + {name},
                         ops := d.base.ops[o := if synced then Synced(name) else Staging(name)])
    && t.contents == d.contents[name := b] && t.records == d.records
    && t.counted == d.counted[o := Meta(|b|, Digest(r.hash, b))]
  }

  lemma UploadStarted<H>(r: Rules<H>, d: Disk<H>, o: nat, name: string, b: Bytes) returns (es: seq<Event>)
    requires o !in d.base.ops && name !in d.base.names
    ensures es == [Step(Begin(o, name)), Write(o, b)]
    ensures RunDisk(r, d, es).Some? && Written(r, d, RunDisk(r, d, es).value, o, name, b, false)
  {
    hide RunDisk, After, Absorbed, Apply;
    NoEvents(r, d);
    RunDiskThen(r, d, [], Step(Begin(o, name)));
    EventDoes(r, d, Step(Begin(o, name)));
    StepDoes(d.base, Begin(o, name));
    es := [] + [Step(Begin(o, name))];
    assert [] + b == b;
    RunDiskThen(r, d, es, Write(o, b));
    EventDoes(r, RunDisk(r, d, es).value, Write(o, b));
    es := es + [Write(o, b)];
  }

  lemma UploadWritten<H>(r: Rules<H>, d: Disk<H>, o: nat, name: string, b: Bytes) returns (es: seq<Event>)
    requires o !in d.base.ops && name !in d.base.names
    ensures es == [Step(Begin(o, name)), Write(o, b), Step(Sync(o))]
    ensures RunDisk(r, d, es).Some? && Written(r, d, RunDisk(r, d, es).value, o, name, b, true)
  {
    hide RunDisk, After, Digest, Apply;
    es := UploadStarted(r, d, o, name, b);
    var t := RunDisk(r, d, es).value;
    RunDiskThen(r, d, es, Step(Sync(o)));
    EventDoes(r, t, Step(Sync(o)));
    StepDoes(t.base, Sync(o));
    assert d.base.ops[o := Staging(name)][o := Synced(name)] == d.base.ops[o := Synced(name)];
    assert d.base.files[name := false][name := true] == d.base.files[name := true];
    es := es + [Step(Sync(o))];
  }

  lemma UploadPlaced<H>(r: Rules<H>, d: Disk<H>, t: Disk<H>, o: nat, name: string, path: string, id: string,
                        b: Bytes)
    requires DiskInv(r, d) && o !in d.base.ops && name !in d.base.names && Written(r, d, t, o, name, b, true)
    requires path !in d.base.names && path != name && id !in d.base.ids && |b| <= r.maxSize
    ensures var end := RunDisk(r, t, [Step(Rename(o, path, false)), Step(Insert(o, id))]);
            && end.Some? && end.value.base.rows == d.base.rows[id := path]
            && path in end.value.base.files && end.value.base.files[path]
            && Content(end.value, path) == b
            && end.value.records == d.records[id := Meta(|b|, Digest(r.hash, b))]
  {
    hide RunDisk, After, Absorbed, Digest, Apply;
    NoEvents(r, t);
    RunDiskThen(r, t, [], Step(Rename(o, path, false)));
    EventDoes(r, t, Step(Rename(o, path, false)));
    StepDoes(t.base, Rename(o, path, false));
    var d1 := After(r, t, Step(Rename(o, path, false)));
    RunDiskThen(r, t, [] + [Step(Rename(o, path, false))], Step(Insert(o, id)));
    EventDoes(r, d1, Step(Insert(o, id)));
    StepDoes(d1.base, Insert(o, id));
    assert [] + [Step(Rename(o, path, false))] + [Step(Insert(o, id))]
        == [Step(Rename(o, path, false)), Step(Insert(o, id))];
  }

  lemma {:induction false} RunDiskMore<H>(r: Rules<H>, d: Disk<H>, es: seq<Event>, more: seq<Event>)
    requires RunDisk(r, d, es).Some? && RunDisk(r, RunDisk(r, d, es).value, more).Some?
    ensures RunDisk(r, d, es + more) == RunDisk(r, RunDisk(r, d, es).value, more)
    decreases |more|
  {
    hide Possible, After;
    if more == [] {
      assert es + more == es;
    } else {
      var before, e := more[..|more| - 1], more[|more| - 1];
      RunDiskMore(r, d, es, before);
      RunDiskThen(r, d, es + before, e);
      assert (es + before) + [e] == es + more;
    }
  }

  /** From every reachable state: an undisturbed upload within the limit ends with its row, its bytes under the
      row's path, and their size and checksum recorded. */
  lemma UploadRecorded<H>(r: Rules<H>, d: Disk<H>, o: nat, name: string, path: string, id: string, b: Bytes)
    requires DiskInv(r, d) && o !in d.base.ops && name !in d.base.names
    requires path !in d.base.names && path != name && id !in d.base.ids && |b| <= r.maxSize
    ensures var end := RunDisk(r, d, [Step(Begin(o, name)), Write(o, b), Step(Sync(o)),
                                      Step(Rename(o, path, false)), Step(Insert(o, id))]);
            && end.Some? && end.value.base.rows == d.base.rows[id := path]
            && path in end.value.base.files && end.value.base.files[path]
            && Content(end.value, path) == b
            && end.value.records == d.records[id := Meta(|b|, Digest(r.hash, b))]
  {
    hide RunDisk, DiskInv, Digest;
    var es := UploadWritten(r, d, o, name, b);
    UploadPlaced(r, d, RunDisk(r, d, es).value, o, name, path, id, b);
    RunDiskMore(r, d, es, [Step(Rename(o, path, false)), Step(Insert(o, id))]);
    assert es + [Step(Rename(o, path, false)), Step(Insert(o, id))]
        == [Step(Begin(o, name)), Write(o, b), Step(Sync(o)), Step(Rename(o, path, false)), Step(Insert(o, id))];
  }
}
