/** The layered backends as objects, any of whose directories may be faulty, and the front
    end's requests over them. */
module CacheBackends {
  import opened Decimal
  import opened Wrappers
  import opened ActionRecord
  import opened CacheDisk
  import Layers = CacheLayers
  import Faults = CacheFaults
  import Answers = CacheAnswers

  type Mode = Layers.Mode
  type Store = Layers.Store

  /** A directory, or two backends layered. The parts are fixed; only files change. */
  class Backend {
    const disk: DiskDir?
    const local: Backend?
    const remote: Backend?
    const mode: Mode
    ghost const Repr: set<object>

    ghost predicate Valid()
      decreases Repr
    {
      && this in Repr
      && if disk != null then disk in Repr
         else
           && local != null && remote != null
           && local.Repr <= Repr - {this} && remote.Repr <= Repr - {this} && local.Repr !! remote.Repr
           && local.Valid() && remote.Valid()
    }

    /** No file operation of any directory fails. */
    ghost predicate Faultless()
      requires Valid()
      decreases Repr
    {
      if disk != null then !disk.faulty else local.Faultless() && remote.Faultless()
    }

    ghost function View(): Store
      requires Valid()
      reads Repr
      decreases Repr
    {
      if disk != null then Layers.Disk(Visible(disk.files)) else Layers.Layered(local.View(), remote.View(), mode)
    }

    constructor FromDisk(disk: DiskDir)
      ensures Valid() && View() == Layers.Disk(Visible(disk.files)) && Repr == {this, disk}
      ensures Faultless() <==> !disk.faulty
    {
      this.disk, local, remote, mode := disk, null, null, Layers.ReadOnly;
      Repr := {this, disk};
    }

    constructor FromLayers(local: Backend, remote: Backend, mode: Mode)
      requires local.Valid() && remote.Valid() && local.Repr !! remote.Repr
      ensures Valid() && View() == Layers.Layered(local.View(), remote.View(), mode)
      ensures Faultless() <==> local.Faultless() && remote.Faultless()
    {
      disk := null;
      this.local, this.remote, this.mode := local, remote, mode;
      Repr := {this} + local.Repr + remote.Repr;
    }

    method WriteActionEntry(e: Entry, now: int) returns (ok: bool)
      requires Valid() && Layers.Writable(View())
      modifies Repr
      ensures Faults.MayWriteAction(old(View()), e, now, View(), ok)
      ensures Faultless() ==> (View(), ok) == Layers.WriteAction(old(View()), e, now)
      decreases Repr
    {
      if disk != null {
        ok := disk.WriteActionEntryFile(e, now);
      } else {
        var ok1 := local.WriteActionEntry(e, now);
        ok := ok1;
        if mode == Layers.WriteThrough {
          var ok2 := remote.WriteActionEntry(e, now);
          ok := ok1 && ok2;
        }
        assert Faults.MayWriteOn(mode, old(remote.View()), e, now, remote.View(), ok1, ok);
      }
    }

    method ReadActionEntry(id: Id, now: int) returns (r: ReadResult)
      requires Valid() && Layers.WellLayered(View())
      modifies Repr
      ensures Faults.MayReadAction(old(View()), id, now, View(), r)
      ensures Faultless() ==> (View(), r) == Layers.ReadAction(old(View()), id, now)
      decreases Repr
    {
      if disk != null {
        r := disk.ReadActionEntry(id);
      } else {
        var r1 := local.ReadActionEntry(id, now);
        r := r1;
        ghost var l1 := local.View();
        Faults.ReadActionKeepsBones(old(local.View()), id, now, l1, r1);
        Faults.BonesDecide(old(local.View()), l1);
        if !r1.Hit? {
          var r2 := remote.ReadActionEntry(id, now);
          Faults.ReadActionKeepsBones(old(remote.View()), id, now, remote.View(), r2);
          if r2.Hit? {
            r := r2;
            if mode != Layers.ReadOnly {
              var ok := local.WriteActionEntry(r2.entry, now);
              if !ok {
                r := Bad;
              }
            }
          }
          assert Faults.MayCopyEntry(mode, l1, r1, r2, now, local.View(), r);
        }
        assert Faults.MayReadOn(mode, old(remote.View()), id, now, l1, r1, View(), r);
      }
    }

    method OpenOutputFile(a: Entry) returns (r: Option<Bytes>)
      requires Valid()
      ensures Faults.MayOpen(View(), a, r)
      ensures Faultless() ==> r == Layers.OpenOutput(View(), a)
      decreases Repr
    {
      if disk != null {
        r := disk.OpenOutputFile(a);
      } else {
        var r1 := local.OpenOutputFile(a);
        r := r1;
        if r1 == None {
          r := remote.OpenOutputFile(a);
        }
        assert Faults.MayOpen(local.View(), a, r1);
      }
    }

    method WriteOutput(a: Entry, body: Bytes, now: int) returns (path: Option<Layers.Path>)
      requires Valid() && Layers.Writable(View())
      modifies Repr
      ensures Faults.MayWriteBody(old(View()), a, body, now, View(), path)
      ensures Faultless() ==> (View(), path) == Layers.WriteBody(old(View()), a, body, now)
      decreases Repr
    {
      if disk != null {
        var ok := disk.WriteOutputFile(a, body, now);
        path := if ok then Some(Layers.Path([], Name(a.outputId, Output))) else None;
      } else {
        var path1 := local.WriteOutput(a, body, now);
        path := Faults.LocalPath(path1);
        if mode == Layers.WriteThrough {
          var path2 := remote.WriteOutput(a, body, now);
          if path2 == None {
            path := None;
          }
        }
        assert Faults.MayWriteBodyOn(mode, old(remote.View()), a, body, now, remote.View(), Faults.LocalPath(path1), path);
      }
    }

    method CheckOutputFile(a: Entry, now: int) returns (c: Layers.Checked)
      requires Valid() && Layers.WellLayered(View())
      modifies Repr
      ensures Faults.MayCheckBody(old(View()), a, now, View(), c)
      ensures Faultless() ==> (View(), c) == Layers.CheckBody(old(View()), a, now)
      decreases Repr, 1
    {
      if disk != null {
        var r := disk.CheckOutputFile(a);
        c := if r == Present then Layers.Found(Layers.Path([], Name(a.outputId, Output))) else Layers.Missing;
      } else {
        var c1 := local.CheckOutputFile(a, now);
        c := c1;
        ghost var l1 := local.View();
        Faults.CheckBodyKeepsBones(old(local.View()), a, now, l1, c1);
        Faults.BonesDecide(old(local.View()), l1);
        if c1.Found? {
          c := Layers.Found(Layers.Below(Layers.Local, c1.path));
        } else if c1 == Layers.Missing {
          var c2 := remote.CheckOutputFile(a, now);
          c := FetchFromRemote(a, now, c2);
          assert Faults.MayCopyBody(mode, l1, c2, remote.View(), a, now, local.View(), c);
        }
        assert Faults.MayCheckOn(mode, old(remote.View()), a, now, l1, c1, View(), c);
      }
    }

    /** After a local miss and the remote answer `c2`: copies the output where that is
        possible. */
    method FetchFromRemote(a: Entry, now: int, c2: Layers.Checked) returns (c: Layers.Checked)
      requires Valid() && disk == null
      requires mode != Layers.ReadOnly ==> Layers.Writable(local.View())
      modifies local.Repr
      ensures Faults.MayCopyBody(mode, old(local.View()), c2, remote.View(), a, now, local.View(), c)
      ensures remote.View() == old(remote.View())
      ensures Faultless() ==>
        if c2 == Layers.Missing then local.View() == old(local.View()) && c == Layers.Missing
        else if mode == Layers.ReadOnly then local.View() == old(local.View()) && c == Layers.Unusable
        else match Layers.OpenOutput(remote.View(), a)
          case None => local.View() == old(local.View()) && c == Layers.Missing
          case Some(body) =>
            var (l2, p) := Layers.WriteBody(old(local.View()), a, body, now);
            local.View() == l2 && c == if p.Some? then Layers.Found(Layers.Below(Layers.Local, p.value)) else Layers.Missing
      decreases Repr, 0
    {
      c := Layers.Missing;
      if c2 != Layers.Missing {
        if mode == Layers.ReadOnly {
          return Layers.Unusable;
        }
        var body := remote.OpenOutputFile(a);
        if body.Some? {
          var path := local.WriteOutput(a, body.value, now);
          if path.Some? {
            c := Layers.Found(Layers.Below(Layers.Local, path.value));
          }
        }
        assert Faults.MayFetch(old(local.View()), a, body, now, local.View(), c);
      }
    }
  }

  /** The front end: requests take the backend for as long as they run, and are refused
      once a close has begun. */
  class StorageFrontend {
    const dd: Backend
    var closing: bool
    var inFlight: nat

    constructor (dd: Backend)
      ensures this.dd == dd && !closing && inFlight == 0
    {
      this.dd, closing, inFlight := dd, false, 0;
    }

    method Use() returns (ok: bool)
      modifies this`inFlight
      ensures ok == !closing && inFlight == old(inFlight) + if ok then 1 else 0
    {
      if closing {
        return false;
      }
      inFlight := inFlight + 1;
      ok := true;
    }

    method Release()
      requires inFlight > 0
      modifies this`inFlight
      ensures inFlight == old(inFlight) - 1
    {
      inFlight := inFlight - 1;
    }

    method BeginClose()
      modifies this`closing
      ensures closing
    {
      closing := true;
    }

    /** `None` is the error of a closed storage. */
    method Get(id: Id, now: int) returns (r: Option<Layers.Response>)
      requires this !in dd.Repr && dd.Valid() && Layers.WellLayered(dd.View())
      modifies this`inFlight, dd.Repr
      ensures inFlight == old(inFlight)
      ensures old(closing) ==> r == None && dd.View() == old(dd.View())
      ensures !old(closing) ==> r.Some? && Faults.MayGet(old(dd.View()), id, now, dd.View(), r.value)
      ensures !old(closing) && dd.Faultless() ==> (dd.View(), r.value) == Layers.Get(old(dd.View()), id, now)
      ensures !old(closing) && dd.Faultless() && !Answers.HasFile(old(dd.View()), Name(id, Action)) ==>
        r == Some(Layers.Miss) && dd.View() == old(dd.View())
    {
      var ok := Use();
      if !ok {
        return None;
      }
      ghost var s0 := dd.View();
      if !Answers.HasFile(s0, Name(id, Action)) { Answers.NoFileIsMiss(s0, id, now); }
      var entry := dd.ReadActionEntry(id, now);
      ghost var s1 := dd.View();
      Faults.ReadActionKeepsBones(old(dd.View()), id, now, s1, entry);
      Faults.BonesDecide(old(dd.View()), s1);
      match entry {
        case NotExist => r := Some(Layers.Miss);
        case Bad => r := Some(Layers.MissWithError);
        case Hit(e) =>
          var c := dd.CheckOutputFile(e, now);
          match c {
            case Missing => r := Some(Layers.MissWithError);
            case Unusable => r := Some(Layers.Miss);
            case Found(p) => r := Some(Layers.Result(e.outputId, e.size, e.time, p));
          }
      }
      assert Faults.MayAnswer(s1, entry, now, dd.View(), r.value);
      Release();
    }

    method Put(id: Id, outputId: Id, size: int, body: Option<Bytes>, now: int) returns (r: Option<Layers.Response>)
      requires this !in dd.Repr && dd.Valid() && Layers.Writable(dd.View())
      modifies this`inFlight, dd.Repr
      ensures inFlight == old(inFlight)
      ensures old(closing) ==> r == None && dd.View() == old(dd.View())
      ensures !old(closing) ==>
        r.Some? && Faults.MayPut(old(dd.View()), Entry(id, outputId, size, now), body, now, dd.View(), r.value)
      ensures !old(closing) && dd.Faultless() ==>
        (dd.View(), r.value) == Layers.Put(old(dd.View()), id, outputId, size, body, now)
    {
      var ok := Use();
      if !ok {
        return None;
      }
      var e := Entry(id, outputId, size, now);
      var path: Option<Layers.Path> := None;
      var failed := false;
      if body.Some? {
        path := dd.WriteOutput(e, body.value, now);
        failed := path == None;
        Faults.WriteBodyKeepsBones(old(dd.View()), e, body.value, now, dd.View(), path);
        Faults.BonesDecide(old(dd.View()), dd.View());
      }
      ghost var s1 := dd.View();
      assert Faults.MayPutBody(old(dd.View()), e, body, now, s1, path);
      if failed {
        r := Some(Layers.Failure);
      } else {
        ok := dd.WriteActionEntry(e, now);
        r := Some(if ok then Layers.Stored(path) else Layers.Failure);
      }
      assert Faults.MayPutEntry(s1, e, body, path, now, dd.View(), r.value);
      Release();
    }
  }
}
