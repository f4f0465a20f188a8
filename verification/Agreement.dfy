/** Which entry a read finds when file operations may fail: the directories of a stack may
    disagree about an id, and exactly then a fault can bring the wrong entry up. */
module CacheAgreement {
  import opened Decimal
  import opened Wrappers
  import opened ActionRecord
  import opened CacheDisk
  import opened CacheLayers
  import opened CacheFaults

  /** No directory of the stack holds another entry than `e` for `id`. */
  predicate Agrees(s: Store, id: Id, e: Entry) {
    match s
    case Disk(files) => ReadEntry(files, id).Hit? ==> ReadEntry(files, id) == Hit(e)
    case Layered(l, r, _) => Agrees(l, id, e) && Agrees(r, id, e)
  }

  lemma {:induction false} SameActionsAgree(s: Store, s': Store, id: Id, e: Entry)
    requires SameActions(s, s') && Agrees(s, id, e)
    ensures Agrees(s', id, e)
  {
    hide ReadEntry;
    if s.Layered? {
      SameActionsAgree(s.local, s'.local, id, e);
      SameActionsAgree(s.remote, s'.remote, id, e);
    }
  }

  lemma {:induction false} AtMostEntryAgrees(s: Store, s': Store, id: Id, e: Entry, written: Entry)
    requires AtMostEntry(s, s', written) && Agrees(s, id, e) && (written.id == id ==> written == e)
    ensures Agrees(s', id, e)
  {
    hide ReadEntry;
    if s.Layered? {
      AtMostEntryAgrees(s.local, s'.local, id, e, written);
      AtMostEntryAgrees(s.remote, s'.remote, id, e, written);
    }
  }

  // ----- one read -----

  /** Reading any id keeps the agreement, and reading the id itself finds nothing else. */
  lemma {:induction false} ReadKeepsAgreement(s: Store, read: Id, now: int, s': Store, result: ReadResult, id: Id, e: Entry,
                                              content: Id -> Bytes)
    requires |read| == HASH_SIZE && Sound(s, content) && MayReadAction(s, read, now, s', result) && Agrees(s, id, e)
    ensures Agrees(s', id, e) && (read == id && result.Hit? ==> result == Hit(e))
  {
    hide Sound, ReadEntry;
    if s.Layered? {
      var l, r, mode := s.local, s.remote, s.mode;
      SoundLayers(l, r, mode, content);
      var l1, local :| MayReadAction(l, read, now, l1, local) && MayReadOn(mode, r, read, now, l1, local, s', result);
      ReadKeepsAgreement(l, read, now, l1, local, id, e, content);
      if !local.Hit? {
        var remote :| MayReadAction(r, read, now, s'.remote, remote) && MayCopyEntry(mode, l1, local, remote, now, s'.local, result);
        ReadKeepsAgreement(r, read, now, s'.remote, remote, id, e, content);
        ReadActionStaysSound(r, read, now, s'.remote, remote, content);
        if remote.Hit? && mode != ReadOnly {
          var ok :| MayWriteAction(l1, remote.entry, now, s'.local, ok) && result == if ok then remote else Bad;
          WriteActionAtMost(l1, remote.entry, now, s'.local, ok);
          AtMostEntryAgrees(l1, s'.local, id, e, remote.entry);
        }
      }
    }
  }

  /** Every directory may fail to be read, and then nothing changes. */
  lemma {:induction false} ReadMayFail(s: Store, id: Id, now: int)
    ensures MayReadAction(s, id, now, s, Bad)
  {
    if s.Layered? {
      ReadMayFail(s.local, id, now);
      ReadMayFail(s.remote, id, now);
      assert MayCopyEntry(s.mode, s.local, Bad, Bad, now, s.local, Bad);
      assert MayReadOn(s.mode, s.remote, id, now, s.local, Bad, s, Bad);
    }
  }

  /** An entry a directory holds against `e` can be read: every directory before it fails. */
  lemma {:induction false} DissentMayBeRead(s: Store, id: Id, now: int, e: Entry, content: Id -> Bytes)
    returns (s': Store, result: ReadResult)
    requires WellLayered(s) && Sound(s, content) && |id| == HASH_SIZE && !Agrees(s, id, e)
    ensures MayReadAction(s, id, now, s', result) && result.Hit? && result != Hit(e)
  {
    hide Sound, ReadEntry;
    match s
    case Disk(files) => s', result := s, ReadEntry(files, id);
    case Layered(l, r, mode) =>
      SoundLayers(l, r, mode, content);
      if !Agrees(l, id, e) {
        var l1;
        l1, result := DissentMayBeRead(l, id, now, e, content);
        s' := Layered(l1, r, mode);
        assert MayReadOn(mode, r, id, now, l1, result, s', result);
      } else {
        var r1;
        r1, result := DissentMayBeRead(r, id, now, e, content);
        ReadMayFail(l, id, now);
        ReadActionStaysSound(r, id, now, r1, result, content);
        var l2 := l;
        if mode != ReadOnly {
          WriteActionMay(l, result.entry, now);
          WriteChangesOneKey(l, result.entry, now, content);
          l2 := WriteAction(l, result.entry, now).0;
        }
        s' := Layered(l2, r1, mode);
        assert MayCopyEntry(mode, l, Bad, result, now, l2, result);
        assert MayReadOn(mode, r, id, now, l, Bad, s', result);
      }
  }

  /** Whatever fails, no read of `id` finds anything but `e`, exactly when no directory of the
      stack holds anything else. */
  lemma ReadFindsIff(s: Store, id: Id, now: int, e: Entry, content: Id -> Bytes)
    requires WellLayered(s) && Sound(s, content) && |id| == HASH_SIZE
    ensures (forall s', result :: MayReadAction(s, id, now, s', result) && result.Hit? ==> result == Hit(e)) <==> Agrees(s, id, e)
  {
    hide Sound, Agrees, MayReadAction;
    if Agrees(s, id, e) {
      forall s', result | MayReadAction(s, id, now, s', result) && result.Hit? ensures result == Hit(e) {
        ReadKeepsAgreement(s, id, now, s', result, id, e, content);
      }
    } else {
      var s', result := DissentMayBeRead(s, id, now, e, content);
    }
  }

  // ----- requests -----

  /** A request that does not put another entry under `id`. */
  predicate Spares(op: Op, id: Id, e: Entry) {
    op.DoPut? && op.id == id ==> Entry(op.id, op.outputId, op.size, op.now) == e
  }

  /** A get keeps the agreement; one of `id` answers with `e` and its bytes, or with none. */
  lemma GetKeepsAgreement(s: Store, op: Op, s': Store, r: Response, id: Id, e: Entry, content: Id -> Bytes)
    requires op.DoGet? && Proper(op, content) && Sound(s, content) && MayDo(s, op, s', r) && Agrees(s, id, e)
    ensures Agrees(s', id, e)
    ensures op.id == id && r.Result? ==>
      r == Result(e.outputId, e.size, e.time, r.path) && Holds(s', r.path, content(e.outputId))
  {
    hide Sound, Agrees, MayReadAction, MayCheckBody, Holds;
    var s1, result :| MayReadAction(s, op.id, op.now, s1, result) && MayAnswer(s1, result, op.now, s', r);
    ReadKeepsAgreement(s, op.id, op.now, s1, result, id, e, content);
    FaultyGetIsHonest(s, op.id, op.now, s', r, content);
    if result.Hit? {
      var c :| MayCheckBody(s1, result.entry, op.now, s', c) && r == Answer(result.entry, c);
      CheckBodyKeepsActions(s1, result.entry, op.now, s', c);
      SameActionsAgree(s1, s', id, e);
    }
  }

  lemma PutKeepsAgreement(s: Store, op: Op, s': Store, r: Response, id: Id, e: Entry, content: Id -> Bytes)
    requires op.DoPut? && Proper(op, content) && MayDo(s, op, s', r) && Agrees(s, id, e) && Spares(op, id, e)
    ensures Agrees(s', id, e)
  {
    hide Agrees, AtMostEntry, MayPut;
    FaultyPutAtMost(s, op, s', r);
    AtMostEntryAgrees(s, s', id, e, Entry(op.id, op.outputId, op.size, op.now));
  }

  /** Over any run with faults anywhere that starts where the directories agree on `e`, and
      puts nothing else under its id: they go on agreeing, and a get of it is answered with
      `e` and the path to its bytes whenever it is answered with a result at all. */
  lemma {:induction false} RunKeepsAgreement(ops: seq<Op>, trace: seq<Store>, answers: seq<Response>, id: Id, e: Entry,
                                             content: Id -> Bytes, i: nat)
    requires FaultyRun(ops, trace, answers, content) && i <= |ops|
    requires Sound(trace[0], content) && Agrees(trace[0], id, e) && forall k :: 0 <= k < |ops| ==> Spares(ops[k], id, e)
    ensures Agrees(trace[i], id, e)
    ensures i > 0 && ops[i - 1].DoGet? && ops[i - 1].id == id && answers[i - 1].Result? ==>
      var r := answers[i - 1];
      r == Result(e.outputId, e.size, e.time, r.path) && Holds(trace[i], r.path, content(e.outputId))
  {
    hide Sound, Agrees, Holds, MayGet, MayPut, KeepsOutputs, Spares;
    if i > 0 {
      RunKeepsAgreement(ops, trace, answers, id, e, content, i - 1);
      FaultyRunIsHonest(ops, trace, answers, content, i - 1);
      var s, op := trace[i - 1], ops[i - 1];
      assert MayDo(s, op, trace[i], answers[i - 1]) && Proper(op, content) && Spares(op, id, e);
      if op.DoGet? {
        GetKeepsAgreement(s, op, trace[i], answers[i - 1], id, e, content);
      } else {
        PutKeepsAgreement(s, op, trace[i], answers[i - 1], id, e, content);
      }
    }
  }

  // ----- puts that bring agreement about -----

  /** A stack that writes all its directories. */
  predicate WritesAll(s: Store) {
    s.Disk? || (s.mode == WriteThrough && WritesAll(s.local) && WritesAll(s.remote))
  }

  lemma {:induction false} WriteBringsAgreement(s: Store, e: Entry, now: int, s': Store)
    requires HashEntry(e) && WritesAll(s) && MayWriteAction(s, e, now, s', true)
    ensures Agrees(s', e.id, e)
  {
    hide ReadEntry, WriteEntry;
    match s
    case Disk(files) => ReadAfterWrite(files, e, now, e.id);
    case Layered(l, r, mode) =>
      WriteBringsAgreement(l, e, now, s'.local);
      WriteBringsAgreement(r, e, now, s'.remote);
  }

  /** The main theorem under faults: after a put that reported success, in a stack that writes
      all its directories or whose directories held nothing else under the id, and any run
      of requests with faults anywhere that puts nothing else under it, a get answers with
      the entry put and a path to exactly its bytes, or with no result. */
  lemma FaultyGetAfterPut(s: Store, put: Op, stored: Response, ops: seq<Op>, trace: seq<Store>, answers: seq<Response>,
                          content: Id -> Bytes, i: nat)
    requires Sound(s, content) && put.DoPut? && Proper(put, content)
    requires FaultyRun(ops, trace, answers, content) && MayDo(s, put, trace[0], stored) && stored.Stored?
    requires var e := Entry(put.id, put.outputId, put.size, put.now);
      (WritesAll(s) || Agrees(s, put.id, e)) && forall k :: 0 <= k < |ops| ==> Spares(ops[k], put.id, e)
    requires i < |ops| && ops[i].DoGet? && ops[i].id == put.id && answers[i].Result?
    ensures var r := answers[i];
      && r == Result(put.outputId, put.size, put.now, r.path)
      && Holds(trace[i + 1], r.path, content(put.outputId))
      && (put.body.Some? ==> Holds(trace[i + 1], r.path, put.body.value))
  {
    hide Sound, Agrees, Holds, MayGet, MayWriteAction, MayWriteBody, WritesAll, KeepsOutputs, Serves, Overlay, Spares;
    var e := Entry(put.id, put.outputId, put.size, put.now);
    FaultyPutServes(s, put, trace[0], stored, content);
    if Agrees(s, put.id, e) {
      assert Spares(put, put.id, e) by { SparesItself(put); }
      PutKeepsAgreement(s, put, trace[0], stored, put.id, e, content);
    } else {
      var s1, path :| MayPutBody(s, e, put.body, put.now, s1, path) && MayPutEntry(s1, e, put.body, path, put.now, trace[0], stored);
      assert MayWriteAction(s1, e, put.now, trace[0], true);
      if put.body.Some? {
        WriteBodyKeepsBones(s, e, put.body.value, put.now, s1, path);
        BonesDecideAll(s, s1);
      }
      WriteBringsAgreement(s1, e, put.now, trace[0]);
    }
    RunKeepsAgreement(ops, trace, answers, put.id, e, content, i + 1);
  }

  lemma SparesItself(put: Op)
    requires put.DoPut?
    ensures Spares(put, put.id, Entry(put.id, put.outputId, put.size, put.now))
  {
  }

  lemma {:induction false} BonesDecideAll(s: Store, s': Store)
    requires Bones(s) == Bones(s')
    ensures WritesAll(s) <==> WritesAll(s')
  {
    if s.Layered? {
      BonesDecideAll(s.local, s'.local);
      BonesDecideAll(s.remote, s'.remote);
    }
  }
}
