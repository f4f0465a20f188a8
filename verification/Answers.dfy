/** What a cache answers, told from the files its directories hold. */
module CacheAnswers {
  import opened Decimal
  import opened Wrappers
  import opened ActionRecord
  import opened CacheDisk
  import opened CacheLayers
  import opened CacheFaults

  // ----- files -----

  /** A directory's file for an id holds an entry of that id in its first bytes. */
  predicate EntryFile(files: Files, id: Id, e: Entry) {
    var fn := Name(id, Action);
    && fn in files && e.id == id
    && var data := files[fn].data; Parse(if |data| <= ENTRY_SIZE then data else data[..ENTRY_SIZE]) == Ok(e)
  }

  /** Some directory of the stack has a file of that name. */
  predicate HasFile(s: Store, name: Bytes) {
    match s
    case Disk(files) => name in files
    case Layered(l, r, _) => HasFile(l, name) || HasFile(r, name)
  }

  /** The most local directory has one. */
  predicate HomeHasFile(s: Store, name: Bytes) {
    match s
    case Disk(files) => name in files
    case Layered(l, _, _) => HomeHasFile(l, name)
  }

  /** Some directory holds an entry of that id. */
  ghost predicate HasEntry(s: Store, id: Id) {
    match s
    case Disk(files) => exists e :: EntryFile(files, id, e)
    case Layered(l, r, _) => HasEntry(l, id) || HasEntry(r, id)
  }

  /** The most local directory that holds an entry of the id holds `e`. */
  ghost predicate FindsEntry(s: Store, id: Id, e: Entry) {
    match s
    case Disk(files) => EntryFile(files, id, e)
    case Layered(l, r, _) => FindsEntry(l, id, e) || (!HasEntry(l, id) && FindsEntry(r, id, e))
  }

  /** A directory's answer: no file at all is no error, an unreadable one is. */
  lemma DiskReads(files: Files, id: Id)
    ensures ReadEntry(files, id) == NotExist <==> Name(id, Action) !in files
    ensures ReadEntry(files, id) == Bad <==> Name(id, Action) in files && forall e :: !EntryFile(files, id, e)
    ensures forall e :: ReadEntry(files, id) == Hit(e) <==> EntryFile(files, id, e)
  {
    hide Parse, Name;
    var r := ReadEntry(files, id);
    if r.Hit? { assert EntryFile(files, id, r.entry); }
  }

  /** Looking for an output tells an absent file from one of another size. */
  lemma DiskChecks(files: Files, a: Entry)
    ensures var fn := Name(a.outputId, Output);
      && (CheckOutput(files, a) == Absent <==> fn !in files)
      && (CheckOutput(files, a) == WrongSize <==> fn in files && |files[fn].data| != a.size)
      && (CheckOutput(files, a) == Present <==> fn in files && |files[fn].data| == a.size)
  {
    hide Name;
  }

  /** What follows a record in its file is not read. */
  lemma RestIsIgnored(files: Files, e: Entry, rest: Bytes)
    requires HashEntry(e) && Name(e.id, Action) in files && files[Name(e.id, Action)].data == Format(e) + rest
    ensures ReadEntry(files, e.id) == Hit(e)
  {
    hide Format, Parse, Name;
    HashEntryRoundTrip(e);
    var data := files[Name(e.id, Action)].data;
    assert |data| <= ENTRY_SIZE ==> rest == [] && data == Format(e);
    assert |data| > ENTRY_SIZE ==> data[..ENTRY_SIZE] == Format(e);
    DiskReads(files, e.id);
    assert EntryFile(files, e.id, e);
  }

  /** A stack finds the most local entry; without any, its home decides between a plain miss
      and an error. */
  lemma {:induction false} OverlayTells(s: Store, id: Id)
    ensures Overlay(s, id).Hit? <==> HasEntry(s, id)
    ensures forall e :: Overlay(s, id) == Hit(e) <==> FindsEntry(s, id, e)
    ensures !HasEntry(s, id) ==> Overlay(s, id) == if HomeHasFile(s, Name(id, Action)) then Bad else NotExist
  {
    hide ReadEntry, Name, EntryFile;
    match s
    case Disk(files) =>
      DiskReads(files, id);
      if ReadEntry(files, id).Hit? { assert EntryFile(files, id, ReadEntry(files, id).entry); }
    case Layered(l, r, _) =>
      OverlayTells(l, id);
      OverlayTells(r, id);
  }

  // ----- what a get answers -----

  /** Where nothing holds an entry, a read leaves every directory as it is. */
  lemma {:induction false} NothingRead(s: Store, id: Id, now: int)
    requires WellLayered(s) && !HasEntry(s, id)
    ensures ReadAction(s, id, now) == (s, if HomeHasFile(s, Name(id, Action)) then Bad else NotExist)
  {
    hide ReadEntry, Name, EntryFile;
    match s
    case Disk(files) =>
      DiskReads(files, id);
      assert forall e :: !EntryFile(files, id, e);
    case Layered(l, r, _) =>
      NothingRead(l, id, now);
      NothingRead(r, id, now);
  }

  lemma {:induction false} NoFileNoEntry(s: Store, id: Id)
    requires !HasFile(s, Name(id, Action))
    ensures !HasEntry(s, id) && !HomeHasFile(s, Name(id, Action))
  {
    hide Name;
    if s.Layered? {
      NoFileNoEntry(s.local, id);
      NoFileNoEntry(s.remote, id);
    }
  }

  /** Where no directory has a file for the id, a get answers a plain miss and changes
      nothing. */
  lemma NoFileIsMiss(s: Store, id: Id, now: int)
    requires WellLayered(s) && !HasFile(s, Name(id, Action))
    ensures Get(s, id, now) == (s, Miss)
  {
    NoFileNoEntry(s, id);
    NothingRead(s, id, now);
  }

  /** The output can be handed out: the most local layer that has it has it in a directory of
      its own, or there is one to copy it to. */
  predicate Reaches(s: Store, outputId: Id) {
    match s
    case Disk(_) => Has(s, outputId)
    case Layered(l, r, mode) => if Has(l, outputId) then Reaches(l, outputId) else mode != ReadOnly && Has(r, outputId)
  }

  lemma {:induction false} CheckReaches(s: Store, a: Entry, now: int, content: Id -> Bytes)
    requires WellLayered(s) && Sound(s, content)
    ensures CheckBody(s, a, now).1.Found? <==> Has(s, a.outputId) && |content(a.outputId)| == a.size && Reaches(s, a.outputId)
  {
    hide Sound, KeepsOutputs, SameEntries, Holds, Name, CheckOutput;
    CheckFindsContent(s, a, now, content);
    if s.Layered? {
      var l, r := s.local, s.remote;
      SoundLayers(l, r, s.mode, content);
      CheckReaches(l, a, now, content);
      CheckFindsContent(l, a, now, content);
      CheckFindsContent(r, a, now, content);
      var (l1, local) := CheckBody(l, a, now);
      var (r1, remote) := CheckBody(r, a, now);
      if local == Missing && remote != Missing && s.mode != ReadOnly {
        StillHas(r, r1, a.outputId);
        OpenFindsContent(r1, a, content);
        WriteBodyPutsContent(l1, a, now, content);
      }
    } else {
      DiskChecksContent(s.files, a, content);
    }
  }

  /** Reading never takes an output out of reach, nor brings one there. */
  lemma {:induction false} ReadKeepsReach(s: Store, id: Id, now: int, outputId: Id)
    requires WellLayered(s)
    ensures var s' := ReadAction(s, id, now).0;
      (Has(s', outputId) <==> Has(s, outputId)) && (Reaches(s', outputId) <==> Reaches(s, outputId))
  {
    if s.Layered? {
      ReadKeepsReach(s.local, id, now, outputId);
      ReadKeepsReach(s.remote, id, now, outputId);
      var (l1, local) := ReadAction(s.local, id, now);
      var (r1, remote) := ReadAction(s.remote, id, now);
      if !local.Hit? && remote.Hit? && s.mode != ReadOnly { WriteKeepsReach(l1, remote.entry, now, outputId); }
    }
  }

  lemma {:induction false} WriteKeepsReach(s: Store, e: Entry, now: int, outputId: Id)
    requires Writable(s)
    ensures var s' := WriteAction(s, e, now).0;
      (Has(s', outputId) <==> Has(s, outputId)) && (Reaches(s', outputId) <==> Reaches(s, outputId))
  {
    if s.Layered? {
      WriteKeepsReach(s.local, e, now, outputId);
      if s.mode == WriteThrough { WriteKeepsReach(s.remote, e, now, outputId); }
    } else {
      hide Name, Format;
      WritesAreSeparate(s.files, e, [], e, now, outputId);
    }
  }

  /** The answer to a get, told from the files: a result for an entry whose output is there,
      has its size and can be handed out; a plain miss where the home has no file and nobody
      an entry, or where the output cannot be handed out; and an error in all other cases. */
  lemma GetAnswers(s: Store, id: Id, now: int, content: Id -> Bytes)
    requires WellLayered(s) && Sound(s, content) && |id| == HASH_SIZE
    ensures var r := Get(s, id, now).1;
      if e :| FindsEntry(s, id, e) then
        if !Has(s, e.outputId) || |content(e.outputId)| != e.size then r == MissWithError
        else if Reaches(s, e.outputId) then r.Result? && r == Result(e.outputId, e.size, e.time, r.path)
        else r == Miss
      else r == if HomeHasFile(s, Name(id, Action)) then MissWithError else Miss
  {
    hide Sound, KeepsOutputs, SameEntries, Name, ReadEntry, FindsEntry, HasEntry, HomeHasFile, Reaches, Holds;
    OverlayTells(s, id);
    ReadKeepsOverlay(s, id, now, content);
    var (s1, r) := ReadAction(s, id, now);
    if r.Hit? {
      ReadKeepsReach(s, id, now, r.entry.outputId);
      CheckFindsContent(s1, r.entry, now, content);
      CheckReaches(s1, r.entry, now, content);
    }
  }

  // ----- what a put writes -----

  /** Every directory a stack writes has the output. */
  predicate WrittenHave(s: Store, outputId: Id) {
    match s
    case Disk(_) => Has(s, outputId)
    case Layered(l, r, mode) => WrittenHave(l, outputId) && (mode == WriteThrough ==> WrittenHave(r, outputId))
  }

  /** Every directory a stack writes has the entry. */
  ghost predicate WrittenFind(s: Store, e: Entry) {
    match s
    case Disk(files) => EntryFile(files, e.id, e)
    case Layered(l, r, mode) => WrittenFind(l, e) && (mode == WriteThrough ==> WrittenFind(r, e))
  }

  /** A write of an output that reports a path has reached every directory it is for, and the
      path is that of a file there with these bytes or with as many of an earlier write. */
  lemma {:induction false} BodyReachesAll(s: Store, a: Entry, body: Bytes, now: int, s': Store, path: Option<Path>)
    requires MayWriteBody(s, a, body, now, s', path) && path.Some?
    ensures WrittenHave(s', a.outputId)
    ensures FileAt(s', path.value).Some? && path.value.name == Name(a.outputId, Output)
    ensures var f := FileAt(s', path.value).value; |f.data| == a.size && (f.data == body || f.mtime <= a.time)
  {
    hide Name;
    if s.Layered? {
      var l, r, mode := s.local, s.remote, s.mode;
      var p1 :| MayWriteBody(l, a, body, now, s'.local, p1) && MayWriteBodyOn(mode, r, a, body, now, s'.remote, LocalPath(p1), path);
      BodyReachesAll(l, a, body, now, s'.local, p1);
      if mode == WriteThrough {
        var p2 :| MayWriteBody(r, a, body, now, s'.remote, p2) && path == if p2.Some? then LocalPath(p1) else None;
        BodyReachesAll(r, a, body, now, s'.remote, p2);
      }
      assert Below(Local, p1.value).(route := Below(Local, p1.value).route[1..]) == p1.value;
    }
  }

  /** So has a write of an entry that reports success. */
  lemma {:induction false} EntryReachesAll(s: Store, e: Entry, now: int, s': Store)
    requires HashEntry(e) && MayWriteAction(s, e, now, s', true)
    ensures WrittenFind(s', e)
  {
    hide EntryFile, WriteEntry;
    match s
    case Disk(files) =>
      ReadAfterWrite(files, e, now, e.id);
      DiskReads(s'.files, e.id);
    case Layered(l, r, mode) =>
      EntryReachesAll(l, e, now, s'.local);
      if mode == WriteThrough { EntryReachesAll(r, e, now, s'.remote); }
  }

  /** Without writing through, no request changes the remote directory, whatever fails. */
  lemma RemoteIsSpared(s: Store, op: Op, s': Store, r: Response)
    requires s.Layered? && s.remote.Disk? && s.mode != WriteThrough && MayDo(s, op, s', r)
    ensures s'.Layered? && s'.remote == s.remote
  {
    hide MayWriteBody, MayWriteAction, MayOpen, CheckOutput, ReadEntry;
    match op
    case DoGet(id, now) =>
      var s1, result :| MayReadAction(s, id, now, s1, result) && MayAnswer(s1, result, now, s', r);
      ReadSparesRemote(s, id, now, s1, result);
      if result.Hit? {
        var c :| MayCheckBody(s1, result.entry, now, s', c) && r == Answer(result.entry, c);
        CheckSparesRemote(s1, result.entry, now, s', c);
      }
    case DoPut(id, outputId, size, body, now) =>
      var e := Entry(id, outputId, size, now);
      var s1, path :| MayPutBody(s, e, body, now, s1, path) && MayPutEntry(s1, e, body, path, now, s', r);
      if body.Some? { BodySparesRemote(s, e, body.value, now, s1, path); }
      if !(body.Some? && path == None) {
        var ok :| MayWriteAction(s1, e, now, s', ok) && r == if ok then Stored(path) else Failure;
        EntrySparesRemote(s1, e, now, s', ok);
      }
  }

  lemma ReadSparesRemote(s: Store, id: Id, now: int, s': Store, result: ReadResult)
    requires s.Layered? && s.remote.Disk? && MayReadAction(s, id, now, s', result)
    ensures s'.Layered? && s'.mode == s.mode && s'.remote == s.remote
  {
    hide ReadEntry;
    var l1, local :| MayReadAction(s.local, id, now, l1, local) && MayReadOn(s.mode, s.remote, id, now, l1, local, s', result);
    if !local.Hit? {
      var remote :| MayReadAction(s.remote, id, now, s'.remote, remote) && MayCopyEntry(s.mode, l1, local, remote, now, s'.local, result);
    }
  }

  lemma CheckSparesRemote(s: Store, a: Entry, now: int, s': Store, c: Checked)
    requires s.Layered? && s.remote.Disk? && MayCheckBody(s, a, now, s', c)
    ensures s'.Layered? && s'.mode == s.mode && s'.remote == s.remote
  {
    hide CheckOutput, MayCopyBody;
    var l1, local :| MayCheckBody(s.local, a, now, l1, local) && MayCheckOn(s.mode, s.remote, a, now, l1, local, s', c);
    if local == Missing {
      var remote :| MayCheckBody(s.remote, a, now, s'.remote, remote) && MayCopyBody(s.mode, l1, remote, s'.remote, a, now, s'.local, c);
    }
  }

  lemma BodySparesRemote(s: Store, a: Entry, body: Bytes, now: int, s': Store, path: Option<Path>)
    requires s.Layered? && s.mode != WriteThrough && MayWriteBody(s, a, body, now, s', path)
    ensures s'.Layered? && s'.mode == s.mode && s'.remote == s.remote
  {
  }

  lemma EntrySparesRemote(s: Store, e: Entry, now: int, s': Store, ok: bool)
    requires s.Layered? && s.mode != WriteThrough && MayWriteAction(s, e, now, s', ok)
    ensures s'.Layered? && s'.mode == s.mode && s'.remote == s.remote
  {
  }

  /** A read-only stack of two directories is left as it is by every get. */
  lemma ReadOnlyIsSpared(s: Store, id: Id, now: int, s': Store, r: Response)
    requires s.Layered? && s.local.Disk? && s.remote.Disk? && s.mode == ReadOnly && MayGet(s, id, now, s', r)
    ensures s' == s
  {
    hide CheckOutput, ReadEntry;
    var s1, result :| MayReadAction(s, id, now, s1, result) && MayAnswer(s1, result, now, s', r);
    ReadSparesRemote(s, id, now, s1, result);
    var l1, local :| MayReadAction(s.local, id, now, l1, local) && MayReadOn(s.mode, s.remote, id, now, l1, local, s1, result);
    if !local.Hit? {
      var remote :| MayReadAction(s.remote, id, now, s1.remote, remote) && MayCopyEntry(s.mode, l1, local, remote, now, s1.local, result);
    }
    if result.Hit? {
      var c :| MayCheckBody(s1, result.entry, now, s', c) && r == Answer(result.entry, c);
      CheckSparesRemote(s1, result.entry, now, s', c);
      var l2, local2 :| MayCheckBody(s1.local, result.entry, now, l2, local2)
        && MayCheckOn(ReadOnly, s1.remote, result.entry, now, l2, local2, s', c);
      if local2 == Missing {
        var remote2 :| MayCheckBody(s1.remote, result.entry, now, s'.remote, remote2)
          && MayCopyBody(ReadOnly, l2, remote2, s'.remote, result.entry, now, s'.local, c);
      }
    }
  }

  // ----- the paths reported -----

  /** The output's file in the most local directory of a stack. */
  function HomePath(s: Store, outputId: Id): Path {
    match s
    case Disk(_) => Path([], Name(outputId, Output))
    case Layered(l, _, _) => Below(Local, HomePath(l, outputId))
  }

  lemma {:induction false} SameHomePath(s: Store, s': Store, outputId: Id)
    requires Bones(s) == Bones(s')
    ensures HomePath(s, outputId) == HomePath(s', outputId)
  {
    if s.Layered? { SameHomePath(s.local, s'.local, outputId); }
  }

  /** A write reports the path at the home of the stack, and so does a check. */
  lemma {:induction false} BodyIsAtHome(s: Store, a: Entry, body: Bytes, now: int, s': Store, path: Option<Path>)
    requires MayWriteBody(s, a, body, now, s', path)
    ensures path.Some? ==> path.value == HomePath(s, a.outputId)
  {
    hide Name;
    if s.Layered? {
      var l, r, mode := s.local, s.remote, s.mode;
      var p1 :| MayWriteBody(l, a, body, now, s'.local, p1) && MayWriteBodyOn(mode, r, a, body, now, s'.remote, LocalPath(p1), path);
      BodyIsAtHome(l, a, body, now, s'.local, p1);
    }
  }

  lemma {:induction false} CheckedAtHome(s: Store, a: Entry, now: int, s': Store, c: Checked)
    requires MayCheckBody(s, a, now, s', c)
    ensures c.Found? ==> c.path == HomePath(s, a.outputId)
  {
    hide Name, CheckOutput;
    if s.Layered? {
      var l, r, mode := s.local, s.remote, s.mode;
      var l1, local :| MayCheckBody(l, a, now, l1, local) && MayCheckOn(mode, r, a, now, l1, local, s', c);
      CheckedAtHome(l, a, now, l1, local);
      CheckBodyKeepsBones(l, a, now, l1, local);
      SameHomePath(l, l1, a.outputId);
      if local == Missing {
        var remote :| MayCheckBody(r, a, now, s'.remote, remote) && MayCopyBody(mode, l1, remote, s'.remote, a, now, s'.local, c);
        FetchedAtHome(mode, l1, remote, s'.remote, a, now, s'.local, c);
      }
    }
  }

  lemma FetchedAtHome(mode: Mode, l1: Store, remote: Checked, r1: Store, a: Entry, now: int, l2: Store, c: Checked)
    requires MayCopyBody(mode, l1, remote, r1, a, now, l2, c)
    ensures c.Found? ==> c.path == Below(Local, HomePath(l1, a.outputId))
  {
    hide MayWriteBody, MayOpen;
    if c.Found? {
      var body :| MayOpen(r1, a, body) && MayFetch(l1, a, body, now, l2, c);
      var p :| MayWriteBody(l1, a, body.value, now, l2, p) && c == if p.Some? then Found(Below(Local, p.value)) else Missing;
      BodyIsAtHome(l1, a, body.value, now, l2, p);
    }
  }

  /** Every path answered is that of the output at the home of the stack, whatever fails: of
      a result always, and of a stored put exactly when a body came with it. */
  lemma AnswersAreAtHome(s: Store, op: Op, s': Store, r: Response)
    requires MayDo(s, op, s', r)
    ensures r.Result? ==> r.path == HomePath(s, r.outputId)
    ensures r.Stored? ==> op.DoPut?
    ensures r.Stored? ==> r.diskPath == if op.body.Some? then Some(HomePath(s, op.outputId)) else None
  {
    hide MayWriteBody, MayWriteAction, MayReadAction, MayCheckBody, HomePath;
    match op
    case DoGet(id, now) =>
      var s1, result :| MayReadAction(s, id, now, s1, result) && MayAnswer(s1, result, now, s', r);
      ReadActionKeepsBones(s, id, now, s1, result);
      if result.Hit? {
        var c :| MayCheckBody(s1, result.entry, now, s', c) && r == Answer(result.entry, c);
        CheckedAtHome(s1, result.entry, now, s', c);
        SameHomePath(s, s1, result.entry.outputId);
      }
    case DoPut(id, outputId, size, body, now) =>
      var e := Entry(id, outputId, size, now);
      var s1, path :| MayPutBody(s, e, body, now, s1, path) && MayPutEntry(s1, e, body, path, now, s', r);
      if body.Some? { BodyIsAtHome(s, e, body.value, now, s1, path); }
  }

  // ----- most local first -----

  /** The directories of a stack, the most local one first. */
  function Directories(s: Store): seq<Files> {
    match s case Disk(files) => [files] case Layered(l, r, _) => Directories(l) + Directories(r)
  }

  /** The first of some directories that has a file of that name, or their number. */
  function FirstWith(dirs: seq<Files>, name: Bytes): (i: nat)
    ensures i <= |dirs| && (i < |dirs| ==> name in dirs[i]) && forall k :: 0 <= k < i ==> name !in dirs[k]
  {
    if dirs == [] || name in dirs[0] then 0 else 1 + FirstWith(dirs[1..], name)
  }

  lemma FirstWithIs(dirs: seq<Files>, name: Bytes, i: nat)
    requires i <= |dirs| && (i < |dirs| ==> name in dirs[i]) && forall k :: 0 <= k < i ==> name !in dirs[k]
    ensures FirstWith(dirs, name) == i
  {
  }

  /** An output is opened in the most local directory that has it. */
  lemma {:induction false} OpensMostLocal(s: Store, a: Entry)
    ensures var dirs, fn := Directories(s), Name(a.outputId, Output);
      var i := FirstWith(dirs, fn);
      OpenOutput(s, a) == if i < |dirs| then Some(dirs[i][fn].data) else None
  {
    hide Name;
    if s.Layered? {
      var fn, l, r := Name(a.outputId, Output), Directories(s.local), Directories(s.remote);
      OpensMostLocal(s.local, a);
      OpensMostLocal(s.remote, a);
      var i, j := FirstWith(l, fn), FirstWith(r, fn);
      FirstWithIs(l + r, fn, if i < |l| then i else |l| + j);
    }
  }

  /** A hit in a stack that writes its local layer has been copied there, whatever fails. */
  lemma HitIsLocal(s: Store, id: Id, now: int, s': Store, result: ReadResult, content: Id -> Bytes)
    requires s.Layered? && s.mode != ReadOnly && Sound(s, content) && |id| == HASH_SIZE
    requires MayReadAction(s, id, now, s', result) && result.Hit?
    ensures s'.Layered? && exists dir :: dir in Directories(s'.local) && EntryFile(dir, id, result.entry)
  {
    hide Sound, ReadEntry, EntryFile, StaysSound;
    SoundLayers(s.local, s.remote, s.mode, content);
    var l1, local :| MayReadAction(s.local, id, now, l1, local) && MayReadOn(s.mode, s.remote, id, now, l1, local, s', result);
    if local.Hit? {
      ReadIsThere(s.local, id, now, l1, local, content);
    } else {
      var remote :| MayReadAction(s.remote, id, now, s'.remote, remote) && MayCopyEntry(s.mode, l1, local, remote, now, s'.local, result);
      var ok :| MayWriteAction(l1, remote.entry, now, s'.local, ok) && result == if ok then remote else Bad;
      ReadActionKeepsBones(s.remote, id, now, s'.remote, remote);
      ReadActionStaysSound(s.remote, id, now, s'.remote, remote, content);
      EntryReachesAll(l1, remote.entry, now, s'.local);
      WrittenIsThere(s'.local, remote.entry);
    }
  }

  lemma {:induction false} WrittenIsThere(s: Store, e: Entry)
    requires WrittenFind(s, e)
    ensures exists dir :: dir in Directories(s) && EntryFile(dir, e.id, e)
  {
    hide EntryFile;
    if s.Layered? {
      WrittenIsThere(s.local, e);
      var dir :| dir in Directories(s.local) && EntryFile(dir, e.id, e);
      assert dir in Directories(s);
    } else {
      assert s.files in Directories(s);
    }
  }

  lemma {:induction false} ReadIsThere(s: Store, id: Id, now: int, s': Store, result: ReadResult, content: Id -> Bytes)
    requires Sound(s, content) && |id| == HASH_SIZE && MayReadAction(s, id, now, s', result) && result.Hit?
    ensures exists dir :: dir in Directories(s') && EntryFile(dir, id, result.entry)
  {
    hide Sound, ReadEntry, EntryFile, StaysSound;
    match s
    case Disk(files) =>
      DiskReads(files, id);
      assert files in Directories(s');
    case Layered(l, r, mode) =>
      SoundLayers(l, r, mode, content);
      var l1, local :| MayReadAction(l, id, now, l1, local) && MayReadOn(mode, r, id, now, l1, local, s', result);
      if local.Hit? {
        ReadIsThere(l, id, now, l1, local, content);
      } else {
        var remote :| MayReadAction(r, id, now, s'.remote, remote) && MayCopyEntry(mode, l1, local, remote, now, s'.local, result);
        ReadIsThere(r, id, now, s'.remote, remote, content);
      }
      var dir :| (dir in Directories(s'.local) || dir in Directories(s'.remote)) && EntryFile(dir, id, result.entry);
      assert dir in Directories(s');
  }

  // ----- when an output is written again -----

  /** An output of the announced size that is not newer than the entry is left as it is,
      whatever body is offered; any other is written anew, if the body has that size. */
  lemma OutputWrittenAgain(files: Files, a: Entry, body: Bytes, now: int, b: Entry, again: Bytes, later: int)
    requires WriteOutput(files, a, body, now).1 && b.outputId == a.outputId && Name(a.outputId, Output) !in files
    ensures var f := WriteOutput(files, a, body, now).0;
      WriteOutput(f, b, again, later) ==
        if b.size == a.size && now <= b.time then (f, true)
        else if |again| == b.size then (f[Name(b.outputId, Output) := File(again, later)], true)
        else (f, false)
  {
    hide Name;
  }
}
