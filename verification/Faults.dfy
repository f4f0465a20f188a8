/** Layered stores any of whose file operations may fail: what each operation may do, and
    what no fault can break. */
module CacheFaults {
  import opened Decimal
  import opened Wrappers
  import opened ActionRecord
  import opened CacheDisk
  import opened CacheLayers

  // ----- what the operations may do -----

  /** A directory writes an entry or is left as it was; a layer's failure does not stop the
      other layer's write. */
  ghost predicate MayWriteAction(s: Store, e: Entry, now: int, s': Store, ok: bool)
    decreases s, 0
  {
    match s
    case Disk(files) => if ok then WriteEntry(files, e, now).1 && s' == Disk(WriteEntry(files, e, now).0) else s' == s
    case Layered(l, r, mode) =>
      && s'.Layered? && s'.mode == mode
      && exists ok1 :: MayWriteAction(l, e, now, s'.local, ok1) && MayWriteOn(mode, r, e, now, s'.remote, ok1, ok)
  }

  /** The write to the remote layer, if there is one, after the local one. */
  ghost predicate MayWriteOn(mode: Mode, r: Store, e: Entry, now: int, r': Store, ok1: bool, ok: bool)
    decreases r, 1
  {
    if mode == WriteThrough then exists ok2 :: MayWriteAction(r, e, now, r', ok2) && ok == (ok1 && ok2)
    else r' == r && ok == ok1
  }

  ghost predicate MayReadAction(s: Store, id: Id, now: int, s': Store, result: ReadResult)
    decreases s, 0
  {
    match s
    case Disk(files) => s' == s && result in {ReadEntry(files, id), Bad}
    case Layered(l, r, mode) =>
      && s'.Layered? && s'.mode == mode
      && exists l1, local :: MayReadAction(l, id, now, l1, local) && MayReadOn(mode, r, id, now, l1, local, s', result)
  }

  /** The rest of a read once the local layer has answered. */
  ghost predicate MayReadOn(mode: Mode, r: Store, id: Id, now: int, l1: Store, local: ReadResult, s': Store, result: ReadResult)
    requires s'.Layered?
    decreases r, 1
  {
    if local.Hit? then s' == Layered(l1, r, mode) && result == local
    else exists remote :: MayReadAction(r, id, now, s'.remote, remote) && MayCopyEntry(mode, l1, local, remote, now, s'.local, result)
  }

  /** After a local miss: a remote hit is copied where that is possible. */
  ghost predicate MayCopyEntry(mode: Mode, l1: Store, local: ReadResult, remote: ReadResult, now: int, l2: Store, result: ReadResult) {
    if !remote.Hit? then l2 == l1 && result == local
    else if mode == ReadOnly then l2 == l1 && result == remote
    else exists ok :: MayWriteAction(l1, remote.entry, now, l2, ok) && result == if ok then remote else Bad
  }

  ghost predicate MayOpen(s: Store, a: Entry, body: Option<Bytes>)
  {
    match s
    case Disk(_) => body in {OpenOutput(s, a), None}
    case Layered(l, r, _) => exists b :: MayOpen(l, a, b) && if b.Some? then body == b else MayOpen(r, a, body)
  }

  ghost predicate MayWriteBody(s: Store, a: Entry, body: Bytes, now: int, s': Store, path: Option<Path>)
    decreases s, 0
  {
    match s
    case Disk(files) =>
      var fn := Name(a.outputId, Output);
      if path.Some? then path.value == Path([], fn) && MayStore(files, a, body, now, s') else s' == s
    case Layered(l, r, mode) =>
      && s'.Layered? && s'.mode == mode
      && exists p1 :: MayWriteBody(l, a, body, now, s'.local, p1) && MayWriteBodyOn(mode, r, a, body, now, s'.remote, LocalPath(p1), path)
  }

  function LocalPath(p: Option<Path>): Option<Path> {
    if p.Some? then Some(Below(Local, p.value)) else None
  }

  ghost predicate MayWriteBodyOn(mode: Mode, r: Store, a: Entry, body: Bytes, now: int, r': Store, p1: Option<Path>, path: Option<Path>)
    decreases r, 1
  {
    if mode == WriteThrough then exists p2 :: MayWriteBody(r, a, body, now, r', p2) && path == if p2.Some? then p1 else None
    else r' == r && path == p1
  }

  /** A successful write of an output: a file that suffices is left alone, unless looking
      at it failed; otherwise the body is stored. */
  ghost predicate MayStore(files: Files, a: Entry, body: Bytes, now: int, s': Store)
  {
    || (SkipsOutput(files, a) && s' == Disk(files))
    || (|body| == a.size && s' == Disk(files[Name(a.outputId, Output) := File(body, now)]))
  }

  ghost predicate MayCheckBody(s: Store, a: Entry, now: int, s': Store, c: Checked)
    decreases s, 0
  {
    match s
    case Disk(files) =>
      s' == s && (c == Missing || (c == Found(Path([], Name(a.outputId, Output))) && CheckOutput(files, a) == Present))
    case Layered(l, r, mode) =>
      && s'.Layered? && s'.mode == mode
      && exists l1, local :: MayCheckBody(l, a, now, l1, local) && MayCheckOn(mode, r, a, now, l1, local, s', c)
  }

  /** The rest of a check once the local layer has answered. */
  ghost predicate MayCheckOn(mode: Mode, r: Store, a: Entry, now: int, l1: Store, local: Checked, s': Store, c: Checked)
    requires s'.Layered?
    decreases r, 1
  {
    match local
    case Found(p) => s' == Layered(l1, r, mode) && c == Found(Below(Local, p))
    case Unusable => s' == Layered(l1, r, mode) && c == Unusable
    case Missing =>
      exists remote :: MayCheckBody(r, a, now, s'.remote, remote) && MayCopyBody(mode, l1, remote, s'.remote, a, now, s'.local, c)
  }

  /** After a local miss: what the remote layer has is copied where that is possible. */
  ghost predicate MayCopyBody(mode: Mode, l1: Store, remote: Checked, r1: Store, a: Entry, now: int, l2: Store, c: Checked)
  {
    if remote == Missing then l2 == l1 && c == Missing
    else if mode == ReadOnly then l2 == l1 && c == Unusable
    else exists body :: MayOpen(r1, a, body) && MayFetch(l1, a, body, now, l2, c)
  }

  ghost predicate MayFetch(l1: Store, a: Entry, body: Option<Bytes>, now: int, l2: Store, c: Checked)
  {
    match body
    case None => l2 == l1 && c == Missing
    case Some(b) => exists p :: MayWriteBody(l1, a, b, now, l2, p) && c == if p.Some? then Found(Below(Local, p.value)) else Missing
  }

  ghost predicate MayGet(s: Store, id: Id, now: int, s': Store, r: Response)
  {
    exists s1, result :: MayReadAction(s, id, now, s1, result) && MayAnswer(s1, result, now, s', r)
  }

  /** The answer to a get once an entry was looked for. */
  ghost predicate MayAnswer(s1: Store, result: ReadResult, now: int, s': Store, r: Response) {
    match result
    case NotExist => s' == s1 && r == Miss
    case Bad => s' == s1 && r == MissWithError
    case Hit(e) => exists c :: MayCheckBody(s1, e, now, s', c) && r == Answer(e, c)
  }

  function Answer(e: Entry, c: Checked): Response {
    match c
    case Missing => MissWithError
    case Unusable => Miss
    case Found(p) => Result(e.outputId, e.size, e.time, p)
  }

  ghost predicate MayPut(s: Store, e: Entry, body: Option<Bytes>, now: int, s': Store, r: Response)
  {
    exists s1, path :: MayPutBody(s, e, body, now, s1, path) && MayPutEntry(s1, e, body, path, now, s', r)
  }

  ghost predicate MayPutBody(s: Store, e: Entry, body: Option<Bytes>, now: int, s1: Store, path: Option<Path>)
  {
    if body.Some? then MayWriteBody(s, e, body.value, now, s1, path) else s1 == s && path == None
  }

  ghost predicate MayPutEntry(s1: Store, e: Entry, body: Option<Bytes>, path: Option<Path>, now: int, s': Store, r: Response)
  {
    if body.Some? && path == None then s' == s1 && r == Failure
    else exists ok :: MayWriteAction(s1, e, now, s', ok) && r == if ok then Stored(path) else Failure
  }

  ghost predicate MayDo(s: Store, op: Op, s': Store, r: Response)
  {
    match op
    case DoGet(id, now) => MayGet(s, id, now, s', r)
    case DoPut(id, outputId, size, body, now) => MayPut(s, Entry(id, outputId, size, now), body, now, s', r)
  }

  // ----- without faults -----

  lemma {:induction false} WriteActionMay(s: Store, e: Entry, now: int)
    requires Writable(s)
    ensures var (s', ok) := WriteAction(s, e, now); MayWriteAction(s, e, now, s', ok)
  {
    if s.Layered? {
      WriteActionMay(s.local, e, now);
      if s.mode == WriteThrough { WriteActionMay(s.remote, e, now); }
      assert MayWriteOn(s.mode, s.remote, e, now, WriteAction(s, e, now).0.remote, WriteAction(s.local, e, now).1, WriteAction(s, e, now).1);
    }
  }

  lemma {:induction false} ReadActionMay(s: Store, id: Id, now: int)
    requires WellLayered(s)
    ensures var (s', r) := ReadAction(s, id, now); MayReadAction(s, id, now, s', r)
  {
    if s.Layered? {
      var (l1, local) := ReadAction(s.local, id, now);
      var (s', r) := ReadAction(s, id, now);
      ReadActionMay(s.local, id, now);
      if !local.Hit? {
        var (r1, remote) := ReadAction(s.remote, id, now);
        ReadActionMay(s.remote, id, now);
        if remote.Hit? && s.mode != ReadOnly { WriteActionMay(l1, remote.entry, now); }
        assert MayCopyEntry(s.mode, l1, local, remote, now, s'.local, r);
      }
      assert MayReadOn(s.mode, s.remote, id, now, l1, local, s', r);
    }
  }

  lemma {:induction false} OpenMay(s: Store, a: Entry)
    ensures MayOpen(s, a, OpenOutput(s, a))
  {
    if s.Layered? {
      OpenMay(s.local, a);
      OpenMay(s.remote, a);
    }
  }

  lemma {:induction false} WriteBodyMay(s: Store, a: Entry, body: Bytes, now: int)
    requires Writable(s)
    ensures var (s', p) := WriteBody(s, a, body, now); MayWriteBody(s, a, body, now, s', p)
  {
    if s.Layered? {
      var (s', p) := WriteBody(s, a, body, now);
      WriteBodyMay(s.local, a, body, now);
      if s.mode == WriteThrough { WriteBodyMay(s.remote, a, body, now); }
      assert MayWriteBodyOn(s.mode, s.remote, a, body, now, s'.remote, LocalPath(WriteBody(s.local, a, body, now).1), p);
    }
  }

  lemma {:induction false} CheckBodyMay(s: Store, a: Entry, now: int)
    requires WellLayered(s)
    ensures var (s', c) := CheckBody(s, a, now); MayCheckBody(s, a, now, s', c)
  {
    if s.Layered? {
      var (l1, local) := CheckBody(s.local, a, now);
      var (s', c) := CheckBody(s, a, now);
      CheckBodyMay(s.local, a, now);
      if local == Missing {
        var (r1, remote) := CheckBody(s.remote, a, now);
        CheckBodyMay(s.remote, a, now);
        if remote != Missing && s.mode != ReadOnly {
          var body := OpenOutput(r1, a);
          OpenMay(r1, a);
          if body.Some? { WriteBodyMay(l1, a, body.value, now); }
          assert MayFetch(l1, a, body, now, s'.local, c);
        }
        assert MayCopyBody(s.mode, l1, remote, s'.remote, a, now, s'.local, c);
      }
      assert MayCheckOn(s.mode, s.remote, a, now, l1, local, s', c);
    }
  }

  /** The requests without faults are among those with faults. */
  lemma DoMay(s: Store, op: Op)
    requires Writable(s)
    ensures var (s', r) := Do(s, op); MayDo(s, op, s', r)
  {
    hide MayReadAction, MayCheckBody, MayWriteAction, MayWriteBody, ReadAction, CheckBody, WriteAction, WriteBody;
    var (s', r) := Do(s, op);
    match op
    case DoGet(id, now) =>
      var (s1, result) := ReadAction(s, id, now);
      ReadActionMay(s, id, now);
      if result.Hit? { CheckBodyMay(s1, result.entry, now); }
      assert MayAnswer(s1, result, now, s', r);
    case DoPut(id, outputId, size, body, now) =>
      var e := Entry(id, outputId, size, now);
      var (s1, path) := if body.Some? then WriteBody(s, e, body.value, now) else (s, None);
      if body.Some? { WriteBodyMay(s, e, body.value, now); }
      assert MayPutBody(s, e, body, now, s1, path);
      if !(body.Some? && path == None) { WriteActionMay(s1, e, now); }
      assert MayPutEntry(s1, e, body, path, now, s', r);
  }

  // ----- the shape of a stack -----

  /** The layers of a stack without their files. */
  function Bones(s: Store): Store {
    match s case Disk(_) => Disk(map[]) case Layered(l, r, mode) => Layered(Bones(l), Bones(r), mode)
  }

  lemma {:induction false} BonesDecide(s: Store, s': Store)
    requires Bones(s) == Bones(s')
    ensures (WellLayered(s) <==> WellLayered(s')) && (Writable(s) <==> Writable(s'))
  {
    if s.Layered? {
      BonesDecide(s.local, s'.local);
      BonesDecide(s.remote, s'.remote);
    }
  }

  lemma {:induction false} WriteActionKeepsBones(s: Store, e: Entry, now: int, s': Store, ok: bool)
    requires MayWriteAction(s, e, now, s', ok)
    ensures Bones(s') == Bones(s)
  {
    hide WriteEntry;
    if s.Layered? {
      var ok1 :| MayWriteAction(s.local, e, now, s'.local, ok1) && MayWriteOn(s.mode, s.remote, e, now, s'.remote, ok1, ok);
      WriteActionKeepsBones(s.local, e, now, s'.local, ok1);
      if s.mode == WriteThrough {
        var ok2 :| MayWriteAction(s.remote, e, now, s'.remote, ok2);
        WriteActionKeepsBones(s.remote, e, now, s'.remote, ok2);
      }
    }
  }

  lemma {:induction false} ReadActionKeepsBones(s: Store, id: Id, now: int, s': Store, result: ReadResult)
    requires MayReadAction(s, id, now, s', result)
    ensures Bones(s') == Bones(s)
    ensures result.Hit? ==> result.entry.id == id
  {
    hide ReadEntry;
    if s.Layered? {
      var l1, local :| MayReadAction(s.local, id, now, l1, local) && MayReadOn(s.mode, s.remote, id, now, l1, local, s', result);
      ReadActionKeepsBones(s.local, id, now, l1, local);
      if !local.Hit? {
        var remote :| MayReadAction(s.remote, id, now, s'.remote, remote) && MayCopyEntry(s.mode, l1, local, remote, now, s'.local, result);
        ReadActionKeepsBones(s.remote, id, now, s'.remote, remote);
        if remote.Hit? && s.mode != ReadOnly {
          var ok :| MayWriteAction(l1, remote.entry, now, s'.local, ok) && result == if ok then remote else Bad;
          WriteActionKeepsBones(l1, remote.entry, now, s'.local, ok);
        }
      }
    }
  }

  lemma {:induction false} WriteBodyKeepsBones(s: Store, a: Entry, body: Bytes, now: int, s': Store, path: Option<Path>)
    requires MayWriteBody(s, a, body, now, s', path)
    ensures Bones(s') == Bones(s)
  {
    hide SkipsOutput, Name;
    if s.Layered? {
      var p1 :| MayWriteBody(s.local, a, body, now, s'.local, p1) && MayWriteBodyOn(s.mode, s.remote, a, body, now, s'.remote, LocalPath(p1), path);
      WriteBodyKeepsBones(s.local, a, body, now, s'.local, p1);
      if s.mode == WriteThrough {
        var p2 :| MayWriteBody(s.remote, a, body, now, s'.remote, p2) && path == if p2.Some? then LocalPath(p1) else None;
        WriteBodyKeepsBones(s.remote, a, body, now, s'.remote, p2);
      }
    }
  }

  lemma {:induction false} CheckBodyKeepsBones(s: Store, a: Entry, now: int, s': Store, c: Checked)
    requires MayCheckBody(s, a, now, s', c)
    ensures Bones(s') == Bones(s)
  {
    hide CheckOutput, Name, MayOpen, MayWriteBody;
    if s.Layered? {
      var l1, local :| MayCheckBody(s.local, a, now, l1, local) && MayCheckOn(s.mode, s.remote, a, now, l1, local, s', c);
      CheckBodyKeepsBones(s.local, a, now, l1, local);
      if local == Missing {
        var remote :| MayCheckBody(s.remote, a, now, s'.remote, remote) && MayCopyBody(s.mode, l1, remote, s'.remote, a, now, s'.local, c);
        CheckBodyKeepsBones(s.remote, a, now, s'.remote, remote);
        CopyBodyKeepsBones(s.mode, l1, remote, s'.remote, a, now, s'.local, c);
      }
    }
  }

  lemma CopyBodyKeepsBones(mode: Mode, l1: Store, remote: Checked, r1: Store, a: Entry, now: int, l2: Store, c: Checked)
    requires MayCopyBody(mode, l1, remote, r1, a, now, l2, c)
    ensures Bones(l2) == Bones(l1)
  {
    hide MayOpen, MayWriteBody;
    if remote != Missing && mode != ReadOnly && l2 != l1 {
      var b, p :| MayWriteBody(l1, a, b, now, l2, p);
      WriteBodyKeepsBones(l1, a, b, now, l2, p);
    }
  }

  // ----- what no fault breaks -----

  /** If `s` is sound so is `s'`, and it has lost no output. */
  ghost predicate StaysSound(s: Store, s': Store, content: Id -> Bytes) {
    Sound(s, content) ==> Sound(s', content) && KeepsOutputs(s, s')
  }

  lemma LayersStaySound(l: Store, l1: Store, r: Store, r1: Store, mode: Mode, content: Id -> Bytes)
    ensures StaysSound(l, l1, content) && StaysSound(r, r1, content) ==>
      StaysSound(Layered(l, r, mode), Layered(l1, r1, mode), content)
  {
    hide Sound, KeepsOutputs;
    SoundLayers(l, r, mode, content);
    SoundLayers(l1, r1, mode, content);
    if KeepsOutputs(l, l1) && KeepsOutputs(r, r1) { LayersKeepOutputs(l, l1, r, r1, mode); }
  }

  lemma ItselfStaysSound(s: Store, content: Id -> Bytes)
    ensures StaysSound(s, s, content)
  {
    KeepsItself(s);
  }

  lemma StaysSoundTwice(a: Store, b: Store, c: Store, content: Id -> Bytes)
    ensures StaysSound(a, b, content) && StaysSound(b, c, content) ==> StaysSound(a, c, content)
  {
    hide Sound, KeepsOutputs;
    KeepsTwice(a, b, c);
  }

  lemma {:induction false} WriteActionStaysSound(s: Store, e: Entry, now: int, s': Store, ok: bool, content: Id -> Bytes)
    requires HashEntry(e) && MayWriteAction(s, e, now, s', ok)
    ensures StaysSound(s, s', content) && (ok ==> Overlay(s', e.id) == Hit(e))
  {
    hide KeepsOutputs, Sound, StaysSound, WriteEntry, ReadEntry;
    match s
    case Disk(files) =>
      ItselfStaysSound(s, content);
      EntryStaysSound(files, e, now, content);
    case Layered(l, r, mode) =>
      var ok1 :| MayWriteAction(l, e, now, s'.local, ok1) && MayWriteOn(mode, r, e, now, s'.remote, ok1, ok);
      WriteActionStaysSound(l, e, now, s'.local, ok1, content);
      if mode == WriteThrough {
        var ok2 :| MayWriteAction(r, e, now, s'.remote, ok2) && ok == (ok1 && ok2);
        WriteActionStaysSound(r, e, now, s'.remote, ok2, content);
      } else {
        ItselfStaysSound(r, content);
      }
      LayersStaySound(l, s'.local, r, s'.remote, mode, content);
  }

  lemma EntryStaysSound(files: Files, e: Entry, now: int, content: Id -> Bytes)
    requires HashEntry(e)
    ensures var f := WriteEntry(files, e, now).0;
      StaysSound(Disk(files), Disk(f), content) && ReadEntry(f, e.id) == Hit(e)
  {
    hide KeepsOutputs, Sound, WriteEntry, ReadEntry;
    ReadAfterWrite(files, e, now, e.id);
    if Sound(Disk(files), content) { DiskWriteChangesOneKey(files, e, now, content); }
  }

  lemma {:induction false} ReadActionStaysSound(s: Store, id: Id, now: int, s': Store, result: ReadResult, content: Id -> Bytes)
    requires |id| == HASH_SIZE && MayReadAction(s, id, now, s', result)
    ensures StaysSound(s, s', content)
    ensures Sound(s, content) && result.Hit? ==> HashEntry(result.entry) && result.entry.id == id
  {
    hide KeepsOutputs, Sound, ReadEntry;
    match s
    case Disk(files) =>
      ItselfStaysSound(s, content);
      ReadIsHash(files, id, content);
    case Layered(l, r, mode) =>
      SoundLayers(l, r, mode, content);
      var l1, local :| MayReadAction(l, id, now, l1, local) && MayReadOn(mode, r, id, now, l1, local, s', result);
      ReadActionStaysSound(l, id, now, l1, local, content);
      if local.Hit? {
        ItselfStaysSound(r, content);
      } else {
        var remote :| MayReadAction(r, id, now, s'.remote, remote) && MayCopyEntry(mode, l1, local, remote, now, s'.local, result);
        ReadActionStaysSound(r, id, now, s'.remote, remote, content);
        if Sound(r, content) && remote.Hit? && mode != ReadOnly {
          var ok :| MayWriteAction(l1, remote.entry, now, s'.local, ok) && result == if ok then remote else Bad;
          WriteActionStaysSound(l1, remote.entry, now, s'.local, ok, content);
          StaysSoundTwice(l, l1, s'.local, content);
        }
      }
      LayersStaySound(l, s'.local, r, s'.remote, mode, content);
  }

  lemma ReadIsHash(files: Files, id: Id, content: Id -> Bytes)
    requires |id| == HASH_SIZE
    ensures Sound(Disk(files), content) && ReadEntry(files, id).Hit? ==> HashEntry(ReadEntry(files, id).entry)
  {
  }

  lemma {:induction false} OpenedIsContent(s: Store, a: Entry, body: Option<Bytes>, content: Id -> Bytes)
    requires MayOpen(s, a, body)
    ensures Sound(s, content) && body.Some? ==> body.value == content(a.outputId)
  {
    match s
    case Disk(_) => OpenFindsContent(s, a, content);
    case Layered(l, r, _) =>
      var b :| MayOpen(l, a, b) && if b.Some? then body == b else MayOpen(r, a, body);
      OpenedIsContent(l, a, b, content);
      if b == None { OpenedIsContent(r, a, body, content); }
  }

  /** The file at `path` is the whole of what `a` announces. */
  ghost predicate Delivers(s: Store, path: Path, a: Entry, content: Id -> Bytes) {
    Holds(s, path, content(a.outputId)) && |content(a.outputId)| == a.size
  }

  lemma {:induction false} WriteBodyStaysSound(s: Store, a: Entry, now: int, s': Store, path: Option<Path>, content: Id -> Bytes)
    requires MayWriteBody(s, a, content(a.outputId), now, s', path)
    ensures StaysSound(s, s', content)
    ensures Sound(s, content) && path.Some? ==> Delivers(s', path.value, a, content) && HomeHas(s', a.outputId)
  {
    hide KeepsOutputs, Holds, Sound, StaysSound;
    var body := content(a.outputId);
    match s
    case Disk(files) =>
      ItselfStaysSound(s, content);
      if path.Some? { StoredIsSound(files, a, now, s', content); }
    case Layered(l, r, mode) =>
      SoundLayers(l, r, mode, content);
      var p1 :| MayWriteBody(l, a, body, now, s'.local, p1) && MayWriteBodyOn(mode, r, a, body, now, s'.remote, LocalPath(p1), path);
      WriteBodyStaysSound(l, a, now, s'.local, p1, content);
      if mode == WriteThrough {
        var p2 :| MayWriteBody(r, a, body, now, s'.remote, p2)
          && path == if p2.Some? then LocalPath(p1) else None;
        WriteBodyStaysSound(r, a, now, s'.remote, p2, content);
      } else {
        ItselfStaysSound(r, content);
      }
      LayersStaySound(l, s'.local, r, s'.remote, mode, content);
      if Sound(s, content) && path.Some? { HoldsBelow(s'.local, s'.remote, mode, Local, p1.value, body); }
  }

  lemma StoredIsSound(files: Files, a: Entry, now: int, s': Store, content: Id -> Bytes)
    requires MayStore(files, a, content(a.outputId), now, s')
    ensures StaysSound(Disk(files), s', content)
    ensures Sound(Disk(files), content) ==> Delivers(s', Path([], Name(a.outputId, Output)), a, content) && HomeHas(s', a.outputId)
  {
    hide ReadEntry, Name;
    forall id: Id
      ensures Name(a.outputId, Output) != Name(id, Action) && (id != a.outputId ==> Name(a.outputId, Output) != Name(id, Output))
    {
      NamesAreDistinct(a.outputId, id, Output, Action);
      NamesAreDistinct(a.outputId, id, Output, Output);
    }
    assert OutputIsContent(files, a.outputId, content) <== Sound(Disk(files), content);
    if s' != Disk(files) && Sound(Disk(files), content) {
      forall id: Id ensures OutputIsContent(s'.files, id, content) && (|id| == HASH_SIZE ==> EntryIsHash(s'.files, id)) {
        SameFileSameEntry(files, s'.files, id);
        assert OutputIsContent(files, id, content) && (|id| == HASH_SIZE ==> EntryIsHash(files, id));
      }
    }
  }

  lemma SameFileSameEntry(files: Files, files': Files, id: Id)
    ensures SameFile(files', files, Name(id, Action)) ==> ReadEntry(files', id) == ReadEntry(files, id)
  {
    hide Name, Parse;
  }

  /** What a check may find is where it says, whole. */
  lemma {:induction false} CheckBodyStaysSound(s: Store, a: Entry, now: int, s': Store, c: Checked, content: Id -> Bytes)
    requires MayCheckBody(s, a, now, s', c)
    ensures StaysSound(s, s', content)
    ensures Sound(s, content) && c.Found? ==> Delivers(s', c.path, a, content)
  {
    hide KeepsOutputs, Holds, Sound;
    match s
    case Disk(files) =>
      ItselfStaysSound(s, content);
      PresentDelivers(files, a, content);
    case Layered(l, r, mode) =>
      SoundLayers(l, r, mode, content);
      var l1, local :| MayCheckBody(l, a, now, l1, local) && MayCheckOn(mode, r, a, now, l1, local, s', c);
      CheckBodyStaysSound(l, a, now, l1, local, content);
      if local == Missing {
        var remote :| MayCheckBody(r, a, now, s'.remote, remote) && MayCopyBody(mode, l1, remote, s'.remote, a, now, s'.local, c);
        CheckBodyStaysSound(r, a, now, s'.remote, remote, content);
        CopyStaysSound(l, mode, l1, remote, r, s'.remote, a, now, s'.local, c, content);
      } else {
        ItselfStaysSound(r, content);
        if Sound(s, content) && local.Found? { HoldsBelow(l1, r, mode, Local, local.path, content(a.outputId)); }
      }
      LayersStaySound(l, s'.local, r, s'.remote, mode, content);
  }

  lemma PresentDelivers(files: Files, a: Entry, content: Id -> Bytes)
    ensures Sound(Disk(files), content) && CheckOutput(files, a) == Present ==>
      Delivers(Disk(files), Path([], Name(a.outputId, Output)), a, content)
  {
    hide Name, Holds, Sound, CheckOutput;
    DiskChecksContent(files, a, content);
  }

  lemma CopyStaysSound(l: Store, mode: Mode, l1: Store, remote: Checked, r: Store, r1: Store, a: Entry, now: int, l2: Store,
                       c: Checked, content: Id -> Bytes)
    requires MayCopyBody(mode, l1, remote, r1, a, now, l2, c)
    ensures StaysSound(l, l1, content) && StaysSound(r, r1, content) && Sound(r, content) ==>
      && StaysSound(l, l2, content)
      && (Sound(l, content) && c.Found? ==> Delivers(Layered(l2, r1, mode), c.path, a, content))
  {
    hide KeepsOutputs, Holds, Sound, MayOpen, MayWriteBody;
    if StaysSound(r, r1, content) && Sound(r, content) && StaysSound(l, l1, content) && remote != Missing && mode != ReadOnly {
      var body :| MayOpen(r1, a, body) && MayFetch(l1, a, body, now, l2, c);
      OpenedIsContent(r1, a, body, content);
      if body.Some? {
        var p :| MayWriteBody(l1, a, body.value, now, l2, p) && c == if p.Some? then Found(Below(Local, p.value)) else Missing;
        WriteBodyStaysSound(l1, a, now, l2, p, content);
        StaysSoundTwice(l, l1, l2, content);
        if Sound(l, content) && p.Some? { HoldsBelow(l2, r1, mode, Local, p.value, content(a.outputId)); }
      }
    }
  }

  // ----- which entries change -----

  /** Every directory of the stack answers every id as before. */
  ghost predicate SameActions(s: Store, s': Store) {
    match s
    case Disk(files) => s'.Disk? && forall id: Id :: ReadEntry(s'.files, id) == ReadEntry(files, id)
    case Layered(l, r, _) => s'.Layered? && SameActions(l, s'.local) && SameActions(r, s'.remote)
  }

  /** Every directory answers as before, or with `e` for its id. */
  ghost predicate AtMostEntry(s: Store, s': Store, e: Entry) {
    match s
    case Disk(files) =>
      s'.Disk? && forall id: Id :: ReadEntry(s'.files, id) == ReadEntry(files, id) || (id == e.id && ReadEntry(s'.files, id) == Hit(e))
    case Layered(l, r, _) => s'.Layered? && AtMostEntry(l, s'.local, e) && AtMostEntry(r, s'.remote, e)
  }

  lemma {:induction false} ActionsStay(s: Store)
    ensures SameActions(s, s)
  {
    if s.Layered? {
      ActionsStay(s.local);
      ActionsStay(s.remote);
    }
  }

  lemma {:induction false} ActionsThenEntry(s: Store, s1: Store, s2: Store, e: Entry)
    requires SameActions(s, s1) && (s2 == s1 || AtMostEntry(s1, s2, e))
    ensures AtMostEntry(s, s2, e)
  {
    hide ReadEntry;
    if s.Layered? {
      ActionsThenEntry(s.local, s1.local, s2.local, e);
      ActionsThenEntry(s.remote, s1.remote, s2.remote, e);
    }
  }

  /** What holds of every directory shows in the overlay. */
  lemma {:induction false} OverlayAtMost(s: Store, s': Store, e: Entry, id: Id)
    requires AtMostEntry(s, s', e)
    ensures Overlay(s', id) == Overlay(s, id) || (id == e.id && Overlay(s', id) == Hit(e))
  {
    hide ReadEntry;
    if s.Layered? {
      OverlayAtMost(s.local, s'.local, e, id);
      OverlayAtMost(s.remote, s'.remote, e, id);
    }
  }

  lemma {:induction false} WriteActionAtMost(s: Store, e: Entry, now: int, s': Store, ok: bool)
    requires HashEntry(e) && MayWriteAction(s, e, now, s', ok)
    ensures AtMostEntry(s, s', e)
  {
    hide ReadEntry, WriteEntry;
    ActionsStay(s);
    match s
    case Disk(files) =>
      forall id: Id ensures ReadEntry(WriteEntry(files, e, now).0, id) == if id == e.id then Hit(e) else ReadEntry(files, id) {
        ReadAfterWrite(files, e, now, id);
      }
    case Layered(l, r, mode) =>
      var ok1 :| MayWriteAction(l, e, now, s'.local, ok1) && MayWriteOn(mode, r, e, now, s'.remote, ok1, ok);
      WriteActionAtMost(l, e, now, s'.local, ok1);
      if mode == WriteThrough {
        var ok2 :| MayWriteAction(r, e, now, s'.remote, ok2) && ok == (ok1 && ok2);
        WriteActionAtMost(r, e, now, s'.remote, ok2);
      } else {
        ActionsThenEntry(r, r, r, e);
      }
  }

  lemma {:induction false} WriteBodyKeepsActions(s: Store, a: Entry, body: Bytes, now: int, s': Store, path: Option<Path>)
    requires MayWriteBody(s, a, body, now, s', path)
    ensures SameActions(s, s')
  {
    hide ReadEntry, Name, SkipsOutput;
    match s
    case Disk(files) =>
      ActionsStay(s);
      forall id: Id ensures ReadEntry(s'.files, id) == ReadEntry(files, id) {
        NamesAreDistinct(a.outputId, id, Output, Action);
        SameFileSameEntry(files, s'.files, id);
      }
    case Layered(l, r, mode) =>
      var p1 :| MayWriteBody(l, a, body, now, s'.local, p1) && MayWriteBodyOn(mode, r, a, body, now, s'.remote, LocalPath(p1), path);
      WriteBodyKeepsActions(l, a, body, now, s'.local, p1);
      if mode == WriteThrough {
        var p2 :| MayWriteBody(r, a, body, now, s'.remote, p2) && path == if p2.Some? then LocalPath(p1) else None;
        WriteBodyKeepsActions(r, a, body, now, s'.remote, p2);
      } else {
        ActionsStay(r);
      }
  }

  lemma {:induction false} CheckBodyKeepsActions(s: Store, a: Entry, now: int, s': Store, c: Checked)
    requires MayCheckBody(s, a, now, s', c)
    ensures SameActions(s, s')
  {
    hide ReadEntry, Name, MayOpen, MayWriteBody;
    ActionsStay(s);
    if s.Layered? {
      var l1, local :| MayCheckBody(s.local, a, now, l1, local) && MayCheckOn(s.mode, s.remote, a, now, l1, local, s', c);
      CheckBodyKeepsActions(s.local, a, now, l1, local);
      if local == Missing {
        var remote :| MayCheckBody(s.remote, a, now, s'.remote, remote) && MayCopyBody(s.mode, l1, remote, s'.remote, a, now, s'.local, c);
        CheckBodyKeepsActions(s.remote, a, now, s'.remote, remote);
        if s'.local != l1 {
          var b, p :| MayWriteBody(l1, a, b, now, s'.local, p);
          WriteBodyKeepsActions(l1, a, b, now, s'.local, p);
          ActionsTwice(s.local, l1, s'.local);
        }
      }
    }
  }

  lemma {:induction false} ActionsTwice(a: Store, b: Store, c: Store)
    requires SameActions(a, b) && SameActions(b, c)
    ensures SameActions(a, c)
  {
    hide ReadEntry;
    if a.Layered? {
      ActionsTwice(a.local, b.local, c.local);
      ActionsTwice(a.remote, b.remote, c.remote);
    }
  }

  // ----- requests -----

  /** Whatever fails in whatever layer, a get that answers with a result points at exactly
      the bytes its output id stands for, of the size it says, and the store stays sound. */
  lemma FaultyGetIsHonest(s: Store, id: Id, now: int, s': Store, r: Response, content: Id -> Bytes)
    requires |id| == HASH_SIZE && MayGet(s, id, now, s', r)
    ensures StaysSound(s, s', content)
    ensures Sound(s, content) && r.Result? ==> Holds(s', r.path, content(r.outputId)) && |content(r.outputId)| == r.size
  {
    hide KeepsOutputs, Holds, Sound, MayReadAction, MayCheckBody;
    var s1, result :| MayReadAction(s, id, now, s1, result) && MayAnswer(s1, result, now, s', r);
    ReadActionStaysSound(s, id, now, s1, result, content);
    if result.Hit? {
      var e := result.entry;
      var c :| MayCheckBody(s1, e, now, s', c) && r == Answer(e, c);
      CheckBodyStaysSound(s1, e, now, s', c, content);
      StaysSoundTwice(s, s1, s', content);
    }
  }

  /** Whatever fails, a put changes the entry of its own id only, and to the new entry only. */
  lemma FaultyPutAtMost(s: Store, op: Op, s': Store, r: Response)
    requires op.DoPut? && |op.id| == HASH_SIZE && |op.outputId| == HASH_SIZE && IsInt64(op.size) && IsInt64(op.now)
    requires MayDo(s, op, s', r)
    ensures var e := Entry(op.id, op.outputId, op.size, op.now);
      AtMostEntry(s, s', e)
      && forall id: Id :: Overlay(s', id) == Overlay(s, id) || (id == op.id && Overlay(s', id) == Hit(e))
  {
    hide MayWriteBody, MayWriteAction, Overlay, AtMostEntry, SameActions;
    var e := Entry(op.id, op.outputId, op.size, op.now);
    var s1, path :| MayPutBody(s, e, op.body, op.now, s1, path) && MayPutEntry(s1, e, op.body, path, op.now, s', r);
    ActionsStay(s);
    if op.body.Some? { WriteBodyKeepsActions(s, e, op.body.value, op.now, s1, path); }
    if op.body == None || path.Some? {
      var ok :| MayWriteAction(s1, e, op.now, s', ok) && r == if ok then Stored(path) else Failure;
      WriteActionAtMost(s1, e, op.now, s', ok);
    }
    ActionsThenEntry(s, s1, s', e);
    forall id: Id ensures Overlay(s', id) == Overlay(s, id) || (id == op.id && Overlay(s', id) == Hit(e)) {
      OverlayAtMost(s, s', e, id);
    }
  }

  /** A put that reports success has put everything where it is served from, whatever failed
      elsewhere; one that reports failure has broken nothing. */
  lemma FaultyPutServes(s: Store, op: Op, s': Store, r: Response, content: Id -> Bytes)
    requires op.DoPut? && Proper(op, content) && MayDo(s, op, s', r)
    ensures StaysSound(s, s', content)
    ensures r.Stored? ==> Overlay(s', op.id) == Hit(Entry(op.id, op.outputId, op.size, op.now))
    ensures Sound(s, content) && r.Stored? && op.body.Some? ==> Serves(s', Entry(op.id, op.outputId, op.size, op.now), content)
  {
    hide KeepsOutputs, Holds, Sound, MayWriteBody, MayWriteAction, Overlay, HomeHas;
    var e := Entry(op.id, op.outputId, op.size, op.now);
    var s1, path :| MayPutBody(s, e, op.body, op.now, s1, path) && MayPutEntry(s1, e, op.body, path, op.now, s', r);
    ItselfStaysSound(s, content);
    if op.body.Some? { WriteBodyStaysSound(s, e, op.now, s1, path, content); }
    if op.body == None || path.Some? {
      var ok :| MayWriteAction(s1, e, op.now, s', ok) && r == if ok then Stored(path) else Failure;
      WriteActionStaysSound(s1, e, op.now, s', ok, content);
      StaysSoundTwice(s, s1, s', content);
      if Sound(s, content) { StillHas(s1, s', op.outputId); }
    }
  }

  // ----- whole runs -----

  /** A run of requests: the states between them, and the answers. */
  ghost predicate FaultyRun(ops: seq<Op>, trace: seq<Store>, answers: seq<Response>, content: Id -> Bytes) {
    && AllProper(ops, content) && |trace| == |ops| + 1 && |answers| == |ops|
    && forall i :: 0 <= i < |ops| ==> Proper(ops[i], content) && MayDo(trace[i], ops[i], trace[i + 1], answers[i])
  }

  /** Over whole runs, with faults anywhere and at any time: no output is ever lost or wrong,
      and no get is ever answered with a path to other bytes than its output id stands for. */
  lemma {:induction false} FaultyRunIsHonest(ops: seq<Op>, trace: seq<Store>, answers: seq<Response>, content: Id -> Bytes, i: nat)
    requires FaultyRun(ops, trace, answers, content) && i <= |ops|
    ensures StaysSound(trace[0], trace[i], content)
    ensures Sound(trace[0], content) && i > 0 && answers[i - 1].Result? ==>
      var r := answers[i - 1]; Holds(trace[i], r.path, content(r.outputId)) && |content(r.outputId)| == r.size
  {
    hide KeepsOutputs, Holds, Sound, MayGet, MayPut;
    if i == 0 {
      ItselfStaysSound(trace[0], content);
    } else {
      FaultyRunIsHonest(ops, trace, answers, content, i - 1);
      var s, op := trace[i - 1], ops[i - 1];
      assert MayDo(s, op, trace[i], answers[i - 1]);
      if op.DoGet? {
        FaultyGetIsHonest(s, op.id, op.now, trace[i], answers[i - 1], content);
      } else {
        FaultyPutServes(s, op, trace[i], answers[i - 1], content);
        PutHasNoResult(s, op, trace[i], answers[i - 1]);
      }
      StaysSoundTwice(trace[0], s, trace[i], content);
    }
  }

  lemma PutHasNoResult(s: Store, op: Op, s': Store, r: Response)
    requires op.DoPut? && MayDo(s, op, s', r)
    ensures r.Stored? || r == Failure
  {
    hide MayWriteBody, MayWriteAction;
  }

  // ----- what a fault can do -----

  /** Which entry a get finds is not safe from faults: while the local directory holds
      `newer` and the remote one `older`, a local read that fails brings `older` back over
      `newer`. */
  lemma ReadFaultRevertsEntry(local: Files, remote: Files, older: Entry, newer: Entry, now: int)
    requires HashEntry(older) && HashEntry(newer) && older.id == newer.id
    ensures var l, r := Disk(WriteEntry(local, newer, now).0), Disk(WriteEntry(remote, older, now).0);
      var s, id := Layered(l, r, ReadThrough), newer.id;
      Overlay(s, id) == Hit(newer) && exists s' :: MayReadAction(s, id, now, s', Hit(older)) && Overlay(s', id) == Hit(older)
  {
    hide WriteEntry, ReadEntry;
    var l, r, id := WriteEntry(local, newer, now).0, WriteEntry(remote, older, now).0, newer.id;
    ReadAfterWrite(local, newer, now, id);
    ReadAfterWrite(remote, older, now, id);
    ReadAfterWrite(l, older, now, id);
    var s' := Layered(Disk(WriteEntry(l, older, now).0), Disk(r), ReadThrough);
    assert MayReadAction(Disk(l), id, now, Disk(l), Bad);
    assert MayReadAction(Disk(r), id, now, Disk(r), Hit(older));
    assert MayWriteAction(Disk(l), older, now, s'.local, true);
    assert MayCopyEntry(ReadThrough, Disk(l), Bad, Hit(older), now, s'.local, Hit(older));
    assert MayReadOn(ReadThrough, Disk(r), id, now, Disk(l), Bad, s', Hit(older));
    assert MayReadAction(Layered(Disk(l), Disk(r), ReadThrough), id, now, s', Hit(older));
    assert Overlay(s'.local, id) == Hit(older) && Overlay(s', id) == Hit(older);
  }
}
