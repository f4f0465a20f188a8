/** Cache directories stacked as local and remote layers, and the storage front end on top,
    without faults. A stack behaves like one overlay map. */
module CacheLayers {
  import opened Decimal
  import opened Wrappers
  import opened ActionRecord
  import opened CacheDisk

  /** Which layers a stack writes: none, the local one, or both. */
  datatype Mode = ReadOnly | ReadThrough | WriteThrough

  datatype Store = Disk(files: Files) | Layered(local: Store, remote: Store, mode: Mode)

  /** A stack with a layer of its own to write to. */
  predicate Writes(s: Store) {
    s.Disk? || s.mode != ReadOnly
  }

  /** The layers a stack writes to accept writes themselves. */
  predicate WellLayered(s: Store) {
    match s
    case Disk(_) => true
    case Layered(l, r, mode) =>
      && WellLayered(l) && WellLayered(r)
      && (mode != ReadOnly ==> Writes(l)) && (mode == WriteThrough ==> Writes(r))
  }

  predicate Writable(s: Store) {
    WellLayered(s) && Writes(s)
  }

  // ----- the operations -----

  datatype Side = Local | Remote

  /** A file of one directory of a stack. */
  datatype Path = Path(route: seq<Side>, name: Bytes)

  function Below(side: Side, p: Path): Path {
    p.(route := [side] + p.route)
  }

  function FileAt(s: Store, p: Path): Option<File>
    decreases s
  {
    match s
    case Disk(files) => if p.route == [] && p.name in files then Some(files[p.name]) else None
    case Layered(l, r, _) =>
      if p.route == [] then None
      else FileAt(if p.route[0] == Local then l else r, p.(route := p.route[1..]))
  }

  /** `Unusable` is an output that exists where it cannot be handed out from. */
  datatype Checked = Found(path: Path) | Unusable | Missing

  function WriteAction(s: Store, e: Entry, now: int): (w: (Store, bool))
    requires Writable(s)
    ensures Writable(w.0)
  {
    match s
    case Disk(files) => var (f, ok) := WriteEntry(files, e, now); (Disk(f), ok)
    case Layered(l, r, mode) =>
      var (l1, ok1) := WriteAction(l, e, now);
      if mode == WriteThrough then
        var (r1, ok2) := WriteAction(r, e, now);
        (Layered(l1, r1, mode), ok1 && ok2)
      else (Layered(l1, r, mode), ok1)
  }

  function ReadAction(s: Store, id: Id, now: int): (w: (Store, ReadResult))
    requires WellLayered(s)
    ensures WellLayered(w.0) && (Writable(s) ==> Writable(w.0)) && (w.1.Hit? ==> w.1.entry.id == id)
  {
    match s
    case Disk(files) => (s, ReadEntry(files, id))
    case Layered(l, r, mode) =>
      var (l1, local) := ReadAction(l, id, now);
      if local.Hit? then (Layered(l1, r, mode), local)
      else
        var (r1, remote) := ReadAction(r, id, now);
        if remote.Hit? then
          if mode == ReadOnly then (Layered(l1, r1, mode), remote)
          else
            var (l2, ok) := WriteAction(l1, remote.entry, now);
            (Layered(l2, r1, mode), if ok then remote else Bad)
        else (Layered(l1, r1, mode), local)
  }

  function OpenOutput(s: Store, a: Entry): Option<Bytes>
  {
    match s
    case Disk(files) => OutputData(files, a)
    case Layered(l, r, _) => if OpenOutput(l, a).Some? then OpenOutput(l, a) else OpenOutput(r, a)
  }

  /** The path is the local one; the write succeeds if every layer's write does. */
  function WriteBody(s: Store, a: Entry, body: Bytes, now: int): (w: (Store, Option<Path>))
    requires Writable(s)
    ensures Writable(w.0)
  {
    match s
    case Disk(files) =>
      var (f, ok) := WriteOutput(files, a, body, now);
      (Disk(f), if ok then Some(Path([], Name(a.outputId, Output))) else None)
    case Layered(l, r, mode) =>
      var (l1, p1) := WriteBody(l, a, body, now);
      var path := if p1.Some? then Some(Below(Local, p1.value)) else None;
      if mode == WriteThrough then
        var (r1, p2) := WriteBody(r, a, body, now);
        (Layered(l1, r1, mode), if p2.Some? then path else None)
      else (Layered(l1, r, mode), path)
  }

  function CheckBody(s: Store, a: Entry, now: int): (w: (Store, Checked))
    requires WellLayered(s)
    ensures WellLayered(w.0) && (Writable(s) ==> Writable(w.0))
  {
    match s
    case Disk(files) =>
      (s, if CheckOutput(files, a) == Present then Found(Path([], Name(a.outputId, Output))) else Missing)
    case Layered(l, r, mode) =>
      var (l1, local) := CheckBody(l, a, now);
      match local
      case Found(p) => (Layered(l1, r, mode), Found(Below(Local, p)))
      case Unusable => (Layered(l1, r, mode), Unusable)
      case Missing =>
        var (r1, remote) := CheckBody(r, a, now);
        if remote == Missing then (Layered(l1, r1, mode), Missing)
        else if mode == ReadOnly then (Layered(l1, r1, mode), Unusable)
        else
          match OpenOutput(r1, a)
          case None => (Layered(l1, r1, mode), Missing)
          case Some(body) =>
            var (l2, p) := WriteBody(l1, a, body, now);
            (Layered(l2, r1, mode), if p.Some? then Found(Below(Local, p.value)) else Missing)
  }

  // ----- the overlay -----

  /** What a stack holds for an id: the entry of the most local layer that has one. */
  function Overlay(s: Store, id: Id): ReadResult
  {
    match s
    case Disk(files) => ReadEntry(files, id)
    case Layered(l, r, _) => if !Overlay(l, id).Hit? && Overlay(r, id).Hit? then Overlay(r, id) else Overlay(l, id)
  }

  predicate Has(s: Store, outputId: Id)
  {
    match s
    case Disk(files) => Name(outputId, Output) in files
    case Layered(l, r, _) => Has(l, outputId) || Has(r, outputId)
  }

  /** The directory that answers for a writable stack: its local layer's, all the way. */
  predicate HomeHas(s: Store, outputId: Id)
  {
    match s
    case Disk(files) => Name(outputId, Output) in files
    case Layered(l, _, _) => HomeHas(l, outputId)
  }

  /** An entry as Go's cache makes them: hashes for ids, 64-bit size and time. */
  predicate HashEntry(e: Entry) {
    Storable(e) && |e.id| == HASH_SIZE && |e.outputId| == HASH_SIZE
  }

  predicate EntryIsHash(files: Files, id: Id)
  {
    ReadEntry(files, id).Hit? ==> HashEntry(ReadEntry(files, id).entry)
  }

  predicate OutputIsContent(files: Files, id: Id, content: Id -> Bytes)
  {
    Name(id, Output) in files ==> files[Name(id, Output)].data == content(id)
  }

  /** Output ids determine contents: every output file holds what `content` says. */
  ghost predicate Sound(s: Store, content: Id -> Bytes) {
    match s
    case Disk(files) =>
      && (forall id: Id :: |id| == HASH_SIZE ==> EntryIsHash(files, id))
      && (forall id: Id :: OutputIsContent(files, id, content))
    case Layered(l, r, _) => Sound(l, content) && Sound(r, content)
  }

  lemma SoundLayers(l: Store, r: Store, mode: Mode, content: Id -> Bytes)
    ensures Sound(Layered(l, r, mode), content) <==> Sound(l, content) && Sound(r, content)
  {
  }

  /** The same entries under every hash. */
  ghost predicate SameEntries(s: Store, s': Store) {
    forall id: Id :: |id| == HASH_SIZE ==> Overlay(s', id) == Overlay(s, id)
  }

  /** No output is lost, in the stack or at its home. */
  ghost predicate KeepsOutputs(s: Store, s': Store) {
    forall id: Id :: (Has(s, id) ==> Has(s', id)) && (HomeHas(s, id) ==> HomeHas(s', id))
  }

  lemma LayersKeepOutputs(l: Store, l1: Store, r: Store, r1: Store, mode: Mode)
    requires KeepsOutputs(l, l1) && KeepsOutputs(r, r1)
    ensures KeepsOutputs(Layered(l, r, mode), Layered(l1, r1, mode))
  {
  }

  lemma LayersKeepEntries(l: Store, l1: Store, r: Store, r1: Store, mode: Mode)
    requires SameEntries(l, l1) && SameEntries(r, r1)
    ensures SameEntries(Layered(l, r, mode), Layered(l1, r1, mode))
  {
  }

  /** `s'` is `s` but for the entry of one id, which is `e`. */
  ghost predicate OneKeyChanged(s: Store, s': Store, e: Entry) {
    forall id: Id :: |id| == HASH_SIZE ==> Overlay(s', id) == if id == e.id then Hit(e) else Overlay(s, id)
  }

  // ----- writing -----

  /** Writing an entry changes the overlay at its id and nowhere else. */
  lemma {:induction false} WriteChangesOneKey(s: Store, e: Entry, now: int, content: Id -> Bytes)
    requires Writable(s) && HashEntry(e) && Sound(s, content)
    ensures var (s', ok) := WriteAction(s, e, now);
      ok && Sound(s', content) && KeepsOutputs(s, s') && OneKeyChanged(s, s', e)
  {
    hide KeepsOutputs;
    match s
    case Disk(files) => DiskWriteChangesOneKey(files, e, now, content);
    case Layered(l, r, mode) =>
      var l1 := WriteAction(l, e, now).0;
      WriteChangesOneKey(l, e, now, content);
      if mode == WriteThrough {
        WriteChangesOneKey(r, e, now, content);
        LayersKeepOutputs(l, l1, r, WriteAction(r, e, now).0, mode);
      } else {
        KeepsItself(r);
        LayersKeepOutputs(l, l1, r, r, mode);
      }
  }

  lemma KeepsItself(s: Store)
    ensures KeepsOutputs(s, s) && SameEntries(s, s)
  {
  }

  lemma DiskWriteChangesOneKey(files: Files, e: Entry, now: int, content: Id -> Bytes)
    requires HashEntry(e) && Sound(Disk(files), content)
    ensures var (f, ok) := WriteEntry(files, e, now);
      ok && Sound(Disk(f), content) && KeepsOutputs(Disk(files), Disk(f)) && OneKeyChanged(Disk(files), Disk(f), e)
  {
    hide WriteEntry, WriteOutput, ReadEntry, Name;
    var f := WriteEntry(files, e, now).0;
    forall id: Id
      ensures ReadEntry(f, id) == (if id == e.id then Hit(e) else ReadEntry(files, id)) && SameFile(f, files, Name(id, Output))
    {
      ReadAfterWrite(files, e, now, id);
      WritesAreSeparate(files, e, [], e, now, id);
    }
    forall id: Id ensures OutputIsContent(f, id, content) && (|id| == HASH_SIZE ==> EntryIsHash(f, id)) {
      assert OutputIsContent(files, id, content) && (|id| == HASH_SIZE ==> EntryIsHash(files, id));
    }
    assert WriteEntry(files, e, now).1 by { ReadAfterWrite(files, e, now, e.id); }
  }

  /** The file at a path of a stack holds `data`. */
  predicate Holds(s: Store, p: Path, data: Bytes) {
    FileAt(s, p).Some? && FileAt(s, p).value.data == data
  }

  lemma HoldsBelow(l: Store, r: Store, mode: Mode, side: Side, p: Path, data: Bytes)
    requires Holds(if side == Local then l else r, p, data)
    ensures Holds(Layered(l, r, mode), Below(side, p), data)
  {
    assert Below(side, p).(route := Below(side, p).route[1..]) == p;
  }

  /** Writing the body an output id stands for succeeds when the announced size is right,
      puts it at the home of the stack, and changes no entry either way. */
  lemma {:induction false} WriteBodyPutsContent(s: Store, a: Entry, now: int, content: Id -> Bytes)
    requires Writable(s) && Sound(s, content)
    ensures var (s', p) := WriteBody(s, a, content(a.outputId), now);
      && Sound(s', content) && KeepsOutputs(s, s') && SameEntries(s, s')
      && (p.Some? <==> |content(a.outputId)| == a.size)
      && (p.Some? ==> Holds(s', p.value, content(a.outputId)) && HomeHas(s', a.outputId))
  {
    hide KeepsOutputs, SameEntries;
    var body := content(a.outputId);
    match s
    case Disk(files) => DiskPutsContent(files, a, now, content);
    case Layered(l, r, mode) =>
      var (l1, p1) := WriteBody(l, a, body, now);
      WriteBodyPutsContent(l, a, now, content);
      var r1 := if mode == WriteThrough then WriteBody(r, a, body, now).0 else r;
      if mode == WriteThrough {
        WriteBodyPutsContent(r, a, now, content);
      } else {
        KeepsItself(r);
      }
      LayersKeepOutputs(l, l1, r, r1, mode);
      LayersKeepEntries(l, l1, r, r1, mode);
      if p1.Some? { HoldsBelow(l1, r1, mode, Local, p1.value, body); }
  }

  lemma DiskPutsContent(files: Files, a: Entry, now: int, content: Id -> Bytes)
    requires Sound(Disk(files), content)
    ensures var (f, ok) := WriteOutput(files, a, content(a.outputId), now);
      var fn := Name(a.outputId, Output);
      && Sound(Disk(f), content) && KeepsOutputs(Disk(files), Disk(f)) && SameEntries(Disk(files), Disk(f))
      && (ok <==> |content(a.outputId)| == a.size)
      && (ok ==> fn in f && f[fn].data == content(a.outputId))
  {
    hide ReadEntry, Name;
    var f := WriteOutput(files, a, content(a.outputId), now).0;
    forall id: Id
      ensures ReadEntry(f, id) == ReadEntry(files, id) && (id != a.outputId ==> SameFile(f, files, Name(id, Output)))
    {
      WritesAreSeparate(files, a, content(a.outputId), a.(id := ['0']), now, id);
    }
    forall id: Id ensures OutputIsContent(f, id, content) && (|id| == HASH_SIZE ==> EntryIsHash(f, id)) {
      assert OutputIsContent(files, id, content) && (|id| == HASH_SIZE ==> EntryIsHash(files, id));
    }
  }

  // ----- reading -----

  /** Reading an entry answers with the overlay and leaves the overlay as it was; a stack
      that writes its local layer then has the entry there. */
  lemma {:induction false} ReadKeepsOverlay(s: Store, id: Id, now: int, content: Id -> Bytes)
    requires WellLayered(s) && Sound(s, content) && |id| == HASH_SIZE
    ensures var (s', r) := ReadAction(s, id, now);
      && r == Overlay(s, id) && SameEntries(s, s') && KeepsOutputs(s, s') && Sound(s', content)
      && (r.Hit? ==> HashEntry(r.entry))
      && (r.Hit? && s.Layered? && s.mode != ReadOnly ==> Overlay(s'.local, id) == r)
  {
    hide KeepsOutputs, SameEntries;
    match s
    case Disk(files) => KeepsItself(s);
    case Layered(l, r, mode) =>
      var (l1, local) := ReadAction(l, id, now);
      ReadKeepsOverlay(l, id, now, content);
      if local.Hit? {
        KeepsItself(r);
        LayersKeepOutputs(l, l1, r, r, mode);
        LayersKeepEntries(l, l1, r, r, mode);
        SameEntry(l, l1, id);
      } else {
        var (r1, remote) := ReadAction(r, id, now);
        ReadKeepsOverlay(r, id, now, content);
        if remote.Hit? && mode != ReadOnly {
          ReadCopiesEntry(l, l1, r, r1, mode, remote.entry, now, content);
        } else {
          LayersKeepOutputs(l, l1, r, r1, mode);
          LayersKeepEntries(l, l1, r, r1, mode);
        }
      }
  }

  lemma ReadCopiesEntry(l: Store, l1: Store, r: Store, r1: Store, mode: Mode, e: Entry, now: int, content: Id -> Bytes)
    requires Writable(l1) && Sound(l1, content) && HashEntry(e)
    ensures var (l2, ok) := WriteAction(l1, e, now);
      && ok && Sound(l2, content) && Overlay(l2, e.id) == Hit(e)
      && (KeepsOutputs(l, l1) && KeepsOutputs(r, r1) ==> KeepsOutputs(Layered(l, r, mode), Layered(l2, r1, mode)))
      && (SameEntries(l, l1) && SameEntries(r, r1) && !Overlay(l, e.id).Hit? && Overlay(r, e.id) == Hit(e) ==>
            SameEntries(Layered(l, r, mode), Layered(l2, r1, mode)))
  {
    hide KeepsOutputs, Sound, WriteAction;
    WriteChangesOneKey(l1, e, now, content);
    var l2 := WriteAction(l1, e, now).0;
    KeepsTwice(l, l1, l2);
    if KeepsOutputs(l, l1) && KeepsOutputs(r, r1) { LayersKeepOutputs(l, l2, r, r1, mode); }
  }

  lemma KeepsTwice(a: Store, b: Store, c: Store)
    ensures KeepsOutputs(a, b) && KeepsOutputs(b, c) ==> KeepsOutputs(a, c)
    ensures SameEntries(a, b) && SameEntries(b, c) ==> SameEntries(a, c)
  {
  }

  lemma SameEntry(s: Store, s': Store, id: Id)
    requires SameEntries(s, s') && |id| == HASH_SIZE
    ensures Overlay(s', id) == Overlay(s, id)
  {
  }

  lemma StillHas(s: Store, s': Store, id: Id)
    requires KeepsOutputs(s, s')
    ensures (Has(s, id) ==> Has(s', id)) && (HomeHas(s, id) ==> HomeHas(s', id))
  {
  }

  lemma {:induction false} OpenFindsContent(s: Store, a: Entry, content: Id -> Bytes)
    ensures Sound(s, content) ==> OpenOutput(s, a) == if Has(s, a.outputId) then Some(content(a.outputId)) else None
  {
    if s.Layered? {
      OpenFindsContent(s.local, a, content);
      OpenFindsContent(s.remote, a, content);
    } else {
      assert Sound(s, content) ==> OutputIsContent(s.files, a.outputId, content);
    }
  }

  lemma DiskChecksContent(files: Files, a: Entry, content: Id -> Bytes)
    ensures Sound(Disk(files), content) ==>
      && (CheckOutput(files, a) == Present <==> Name(a.outputId, Output) in files && |content(a.outputId)| == a.size)
      && (CheckOutput(files, a) == Present ==> Holds(Disk(files), Path([], Name(a.outputId, Output)), content(a.outputId)))
  {
    hide Name;
    assert Sound(Disk(files), content) ==> OutputIsContent(files, a.outputId, content);
  }

  /** Checking an output finds it exactly when some layer has it and its size is the one
      asked for. A writable stack then has it at home, at the path it reports; a stack
      that writes nothing may know of it without having a path. */
  lemma {:induction false} CheckFindsContent(s: Store, a: Entry, now: int, content: Id -> Bytes)
    requires WellLayered(s) && Sound(s, content)
    ensures var (s', c) := CheckBody(s, a, now);
      && Sound(s', content) && SameEntries(s, s') && KeepsOutputs(s, s')
      && (c == Missing <==> !Has(s, a.outputId) || |content(a.outputId)| != a.size)
      && (c.Found? ==> Holds(s', c.path, content(a.outputId)))
      && (Writable(s) ==> c != Unusable && (c.Found? ==> HomeHas(s', a.outputId)))
  {
    hide KeepsOutputs, SameEntries, Sound, Name, Holds, CheckOutput;
    match s
    case Disk(files) =>
      KeepsItself(s);
      DiskChecksContent(files, a, content);
    case Layered(l, r, mode) =>
      assert Sound(l, content) && Sound(r, content) by { SoundLayers(l, r, mode, content); }
      var (l1, local) := CheckBody(l, a, now);
      SoundLayers(CheckBody(s, a, now).0.local, CheckBody(s, a, now).0.remote, mode, content);
      CheckFindsContent(l, a, now, content);
      if local != Missing {
        KeepsItself(r);
        LayersKeepOutputs(l, l1, r, r, mode);
        LayersKeepEntries(l, l1, r, r, mode);
        if local.Found? { HoldsBelow(l1, r, mode, Local, local.path, content(a.outputId)); }
      } else {
        var (r1, remote) := CheckBody(r, a, now);
        CheckFindsContent(r, a, now, content);
        if remote != Missing && mode != ReadOnly {
          StillHas(r, r1, a.outputId);
          OpenFindsContent(r1, a, content);
          var (l2, p) := WriteBody(l1, a, content(a.outputId), now);
          WriteBodyPutsContent(l1, a, now, content);
          KeepsTwice(l, l1, l2);
          LayersKeepOutputs(l, l2, r, r1, mode);
          LayersKeepEntries(l, l2, r, r1, mode);
          HoldsBelow(l2, r1, mode, Local, p.value, content(a.outputId));
        } else {
          LayersKeepOutputs(l, l1, r, r1, mode);
          LayersKeepEntries(l, l1, r, r1, mode);
        }
      }
  }

  // ----- the front end -----

  datatype Response =
    | Result(outputId: Id, size: int, time: int, path: Path)
    | Miss
    | MissWithError
    | Stored(diskPath: Option<Path>)
    | Failure

  function Get(s: Store, id: Id, now: int): (Store, Response)
    requires WellLayered(s)
  {
    var (s1, r) := ReadAction(s, id, now);
    match r
    case NotExist => (s1, Miss)
    case Bad => (s1, MissWithError)
    case Hit(e) =>
      var (s2, c) := CheckBody(s1, e, now);
      match c
      case Missing => (s2, MissWithError)
      case Unusable => (s2, Miss)
      case Found(p) => (s2, Result(e.outputId, e.size, e.time, p))
  }

  /** A body of size 0 is not sent at all. */
  function Put(s: Store, id: Id, outputId: Id, size: int, body: Option<Bytes>, now: int): (Store, Response)
    requires Writable(s)
  {
    var e := Entry(id, outputId, size, now);
    var (s1, path) := if body.Some? then WriteBody(s, e, body.value, now) else (s, None);
    if body.Some? && path == None then (s1, Failure)
    else
      var (s2, ok) := WriteAction(s1, e, now);
      (s2, if ok then Stored(path) else Failure)
  }

  datatype Op = DoGet(id: Id, now: int) | DoPut(id: Id, outputId: Id, size: int, body: Option<Bytes>, now: int)

  /** A request with hashes for ids whose body is the one its output id stands for. */
  predicate Proper(op: Op, content: Id -> Bytes) {
    && |op.id| == HASH_SIZE
    && (op.DoPut? ==> |op.outputId| == HASH_SIZE && IsInt64(op.size) && IsInt64(op.now))
    && (op.DoPut? && op.body.Some? ==> op.body.value == content(op.outputId))
  }

  function Do(s: Store, op: Op): (w: (Store, Response))
    requires Writable(s)
    ensures Writable(w.0)
  {
    match op
    case DoGet(id, now) => Get(s, id, now)
    case DoPut(id, outputId, size, body, now) => Put(s, id, outputId, size, body, now)
  }

  ghost predicate AllProper(ops: seq<Op>, content: Id -> Bytes) {
    forall i :: 0 <= i < |ops| ==> Proper(ops[i], content)
  }

  function DoAll(s: Store, ops: seq<Op>, content: Id -> Bytes): (s': Store)
    requires Writable(s) && AllProper(ops, content)
    ensures Writable(s')
  {
    if ops == [] then s
    else
      var last := ops[|ops| - 1];
      assert Proper(last, content);
      Do(DoAll(s, ops[..|ops| - 1], content), last).0
  }

  /** A stack that will answer `id` with a body of its own: the entry is in the overlay, its
      size is that of the content, and the home directory has the output. */
  ghost predicate Serves(s: Store, e: Entry, content: Id -> Bytes)
  {
    && Overlay(s, e.id) == Hit(e) && HomeHas(s, e.outputId) && e.size == |content(e.outputId)|
  }

  lemma {:induction false} HomeIsInStack(s: Store, outputId: Id)
    requires HomeHas(s, outputId)
    ensures Has(s, outputId)
  {
    if s.Layered? { HomeIsInStack(s.local, outputId); }
  }

  /** A stack that serves an entry answers a get with it and a path to its bytes. */
  lemma ServedIsFound(s: Store, e: Entry, now: int, content: Id -> Bytes)
    requires Writable(s) && WellLayered(s) && Sound(s, content) && HashEntry(e) && Serves(s, e, content)
    ensures var (s', r) := Get(s, e.id, now);
      r.Result? && r == Result(e.outputId, e.size, e.time, r.path) && Holds(s', r.path, content(e.outputId))
  {
    hide KeepsOutputs, SameEntries;
    var s1 := ReadAction(s, e.id, now).0;
    ReadKeepsOverlay(s, e.id, now, content);
    StillHas(s, s1, e.outputId);
    HomeIsInStack(s1, e.outputId);
    CheckFindsContent(s1, e, now, content);
  }

  /** A get's answer is the entry `e` and a path to its bytes, and the stack serves it. */
  ghost predicate AnswersWith(s: Store, r: Response, e: Entry, content: Id -> Bytes) {
    && HashEntry(e) && r.Result? && r == Result(e.outputId, e.size, e.time, r.path)
    && Serves(s, e, content) && Holds(s, r.path, content(e.outputId))
  }

  /** What every request keeps, and what a get changes. */
  lemma GetKeeps(s: Store, id: Id, now: int, content: Id -> Bytes)
    requires Writable(s) && WellLayered(s) && Sound(s, content) && |id| == HASH_SIZE
    ensures var (s', r) := Get(s, id, now);
      && Sound(s', content) && KeepsOutputs(s, s') && SameEntries(s, s')
      && (r.Result? ==> Overlay(s, id).Hit? && AnswersWith(s', r, Overlay(s, id).entry, content))
  {
    hide KeepsOutputs, SameEntries;
    var (s1, r) := ReadAction(s, id, now);
    ReadKeepsOverlay(s, id, now, content);
    if r.Hit? {
      var s2 := CheckBody(s1, r.entry, now).0;
      CheckFindsContent(s1, r.entry, now, content);
      KeepsTwice(s, s1, s2);
      SameEntry(s, s2, id);
    }
  }

  lemma PutKeeps(s: Store, op: Op, content: Id -> Bytes)
    requires Writable(s) && Sound(s, content) && op.DoPut? && Proper(op, content)
    ensures var (s', r) := Do(s, op);
      var e := Entry(op.id, op.outputId, op.size, op.now);
      && Sound(s', content) && KeepsOutputs(s, s')
      && (if r.Stored? then OneKeyChanged(s, s', e) else SameEntries(s, s'))
      && (r.Stored? <==> op.body == None || op.size == |content(op.outputId)|)
      && (r.Stored? && op.body.Some? ==> Serves(s', e, content))
  {
    hide KeepsOutputs, Sound, SameEntries, OneKeyChanged, WriteBody, WriteAction, Holds, HomeHas, Overlay;
    var e := Entry(op.id, op.outputId, op.size, op.now);
    var s1 := s;
    if op.body.Some? {
      s1 := WriteBody(s, e, op.body.value, op.now).0;
      WriteBodyPutsContent(s, e, op.now, content);
    } else {
      KeepsItself(s);
    }
    if op.body == None || op.size == |content(op.outputId)| {
      var s2 := WriteAction(s1, e, op.now).0;
      WriteChangesOneKey(s1, e, op.now, content);
      ThenOneKey(s, s1, s2, e);
      KeepsTwice(s, s1, s2);
      StillHas(s1, s2, op.outputId);
    }
  }

  lemma ThenOneKey(s: Store, s1: Store, s2: Store, e: Entry)
    requires |e.id| == HASH_SIZE
    ensures SameEntries(s, s1) && OneKeyChanged(s1, s2, e) ==> OneKeyChanged(s, s2, e) && Overlay(s2, e.id) == Hit(e)
  {
    hide Overlay;
  }

  /** Requests that do not store a new entry under `e.id` leave the stack serving `e`. */
  lemma {:induction false} KeepsServing(s: Store, ops: seq<Op>, e: Entry, content: Id -> Bytes)
    requires Writable(s) && Sound(s, content) && HashEntry(e) && Serves(s, e, content)
    requires AllProper(ops, content) && forall i :: 0 <= i < |ops| ==> !(ops[i].DoPut? && ops[i].id == e.id)
    ensures var s' := DoAll(s, ops, content); Sound(s', content) && Serves(s', e, content)
  {
    hide KeepsOutputs, Sound, Get, Put, Has, HomeHas;
    if ops != [] {
      var k := |ops| - 1;
      var s1 := DoAll(s, ops[..k], content);
      KeepsServing(s, ops[..k], e, content);
      assert Proper(ops[k], content);
      var s2 := Do(s1, ops[k]).0;
      if ops[k].DoGet? {
        GetKeeps(s1, ops[k].id, ops[k].now, content);
      } else {
        PutKeeps(s1, ops[k], content);
      }
      StillHas(s1, s2, e.outputId);
    }
  }

  /** The main theorem: after a put of a non-empty body that reported success, and any
      requests that do not put under the same action id, a get answers with the same output
      id, size and time, and with a path to exactly the bytes put. */
  lemma GetAfterPut(s: Store, put: Op, ops: seq<Op>, now: int, content: Id -> Bytes)
    requires Writable(s) && Sound(s, content) && put.DoPut? && put.body.Some? && Proper(put, content)
    requires Do(s, put).1.Stored?
    requires AllProper(ops, content) && forall i :: 0 <= i < |ops| ==> !(ops[i].DoPut? && ops[i].id == put.id)
    ensures var s1 := DoAll(Do(s, put).0, ops, content);
      WellLayered(s1) && var (s2, r) := Get(s1, put.id, now);
      && r.Result? && r == Result(put.outputId, put.size, put.now, r.path)
      && Holds(s2, r.path, put.body.value)
  {
    hide Sound, KeepsOutputs, OneKeyChanged, Get, Put, Holds;
    var e := Entry(put.id, put.outputId, put.size, put.now);
    PutKeeps(s, put, content);
    KeepsServing(Do(s, put).0, ops, e, content);
    var s1 := DoAll(Do(s, put).0, ops, content);
    ServedIsFound(s1, e, now, content);
  }

  lemma LocalServes(s: Store, id: Id, now: int, content: Id -> Bytes)
    requires s.Layered? && Writable(s) && Sound(s, content) && |id| == HASH_SIZE && Get(s, id, now).1.Result?
    ensures var (s', r) := Get(s, id, now);
      && s'.Layered? && Writable(s'.local) && Sound(s', content)
      && Overlay(s, id).Hit? && var e := Overlay(s, id).entry;
        e.id == id && AnswersWith(s', r, e, content) && Serves(s'.local, e, content)
  {
    hide KeepsOutputs, SameEntries, Holds, Sound;
    var (s1, rr) := ReadAction(s, id, now);
    ReadKeepsOverlay(s, id, now, content);
    GetKeeps(s, id, now, content);
    var e := rr.entry;
    LocalKeepsEntry(s1, e, now, content);
    SameEntry(s1.local, CheckBody(s1, e, now).0.local, id);
  }

  /** After a get through a writable local layer succeeds, that layer alone gives the same
      answer, so the remote layer is no longer needed for it. */
  lemma LocalAloneServes(s: Store, id: Id, now: int, later: int, content: Id -> Bytes)
    requires s.Layered? && Writable(s) && Sound(s, content) && |id| == HASH_SIZE && Get(s, id, now).1.Result?
    ensures var (s', r) := Get(s, id, now);
      && s'.Layered? && WellLayered(s'.local) && var (l, r') := Get(s'.local, id, later);
      && r'.Result? && r' == r.(path := r'.path)
      && Holds(s', r.path, content(r.outputId)) && Holds(l, r'.path, content(r.outputId))
  {
    hide KeepsOutputs, SameEntries, Holds, Get, Serves;
    LocalServes(s, id, now, content);
    ServedIsFound(Get(s, id, now).0.local, Overlay(s, id).entry, later, content);
  }

  /** Checking an output leaves the entries of the local layer as they are. */
  lemma LocalKeepsEntry(s: Store, a: Entry, now: int, content: Id -> Bytes)
    requires s.Layered? && Writable(s) && WellLayered(s) && Sound(s, content)
    ensures var s' := CheckBody(s, a, now).0; s'.Layered? && SameEntries(s.local, s'.local)
  {
    hide KeepsOutputs, SameEntries;
    var l, r := s.local, s.remote;
    var (l1, local) := CheckBody(l, a, now);
    CheckFindsContent(l, a, now, content);
    if local == Missing {
      var (r1, remote) := CheckBody(r, a, now);
      CheckFindsContent(r, a, now, content);
      if remote != Missing {
        StillHas(r, r1, a.outputId);
        OpenFindsContent(r1, a, content);
        WriteBodyPutsContent(l1, a, now, content);
        KeepsTwice(l, l1, WriteBody(l1, a, content(a.outputId), now).0);
      }
    }
  }
}
