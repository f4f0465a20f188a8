/** One cache directory: file names, what each operation does to the visible files, and the
    operations themselves step by step, any step of which may fail. */
module CacheDisk {
  import opened Decimal
  import opened Wrappers
  import opened ActionRecord

  datatype File = File(data: Bytes, mtime: int)

  type Files = map<Bytes, File>

  // ----- names -----

  datatype Kind = Action | Output

  function Suffix(kind: Kind): Byte {
    match kind case Action => 'a' case Output => 'd'
  }

  function Name(id: Id, kind: Kind): Bytes
  {
    Hex(id[..1]) + "/" + Hex(id) + "-" + [Suffix(kind)]
  }

  const TMP: Bytes := ".tmp"

  predicate IsTemporary(name: Bytes) {
    |name| >= 4 && name[|name| - 4..] == TMP
  }

  lemma HexInjective(a: Id, b: Id)
    requires Hex(a) == Hex(b)
    ensures a == b
  {
    ScanHexBack(a, "-");
    ScanHexBack(b, "-");
  }

  lemma NameShape(id: Id, kind: Kind)
    ensures var n := Name(id, kind);
      |n| == 5 + 2 * |id| && n[3..3 + 2 * |id|] == Hex(id) && n[|n| - 1] == Suffix(kind)
  {
    hide Hex;
    var h := Hex(id[..1]);
    assert Name(id, kind) == (h + "/") + Hex(id) + ("-" + [Suffix(kind)]);
  }

  lemma TemporaryEnds(name: Bytes)
    ensures IsTemporary(name) ==> name[|name| - 1] == 'p'
    ensures IsTemporary(name + TMP)
  {
    assert IsTemporary(name) ==> name[|name| - 4..][3] == name[|name| - 1];
    assert (name + TMP)[|name|..] == TMP;
  }

  /** Different ids or kinds never share a file, and no final name is a temporary one. */
  lemma NamesAreDistinct(a: Id, b: Id, ka: Kind, kb: Kind)
    requires a != [] && b != []
    ensures Name(a, ka) == Name(b, kb) <==> a == b && ka == kb
    ensures !IsTemporary(Name(a, ka)) && IsTemporary(Name(a, ka) + TMP)
  {
    hide Hex, Name, IsTemporary;
    NameShape(a, ka);
    NameShape(b, kb);
    TemporaryEnds(Name(a, ka));
    if Name(a, ka) == Name(b, kb) {
      HexInjective(a, b);
    }
  }

  /** Entries end in `-a` and outputs in `-d`, behind the id in hexadecimal digits; the first
      two of these name the directory. */
  lemma NameLayout(id: Id, kind: Kind)
    ensures var n, k := Name(id, kind), |id|;
      && |n| == 2 * k + 5
      && n[..2] == Hex(id)[..2] && n[2] == '/' && n[3..2 * k + 3] == Hex(id)
      && n[2 * k + 3..] == if kind == Action then "-a" else "-d"
  {
    NameShape(id, kind);
    assert id == [id[0]] + id[1..] && id[..1] == [id[0]];
    assert Hex(id[..1]) == Hex(id)[..2];
  }

  // ----- what the operations do to the visible files -----

  datatype ReadResult = Hit(entry: Entry) | NotExist | Bad

  function Take(data: Bytes, n: nat): Bytes {
    if |data| <= n then data else data[..n]
  }

  function ReadEntry(files: Files, id: Id): (r: ReadResult)
    ensures r.Hit? ==> r.entry.id == id
  {
    if Name(id, Action) !in files then NotExist
    else
      match Parse(Take(files[Name(id, Action)].data, ENTRY_SIZE))
      case Err(_) => Bad
      case Ok(e) => if e.id == id then Hit(e) else Bad
  }

  datatype CheckResult = Present | Absent | WrongSize | Unreadable

  function CheckOutput(files: Files, a: Entry): CheckResult
  {
    var fn := Name(a.outputId, Output);
    if fn !in files then Absent
    else if |files[fn].data| != a.size then WrongSize
    else Present
  }

  function OutputData(files: Files, a: Entry): Option<Bytes>
  {
    var fn := Name(a.outputId, Output);
    if fn in files then Some(files[fn].data) else None
  }

  /** An output of the right size that is not newer than the entry is left alone. */
  predicate SkipsOutput(files: Files, a: Entry)
  {
    CheckOutput(files, a) == Present && files[Name(a.outputId, Output)].mtime <= a.time
  }

  /** The files after a write without faults, and whether it succeeded. */
  function WriteOutput(files: Files, a: Entry, body: Bytes, now: int): (Files, bool)
  {
    if SkipsOutput(files, a) then (files, true)
    else if |body| != a.size then (files, false)
    else (files[Name(a.outputId, Output) := File(body, now)], true)
  }

  function WriteEntry(files: Files, e: Entry, now: int): (Files, bool)
  {
    if WriteTo(e).1 then (files[Name(e.id, Action) := File(Format(e), now)], true) else (files, false)
  }

  /** A hash entry that was written is read back, and no other entry changes. */
  lemma ReadAfterWrite(files: Files, e: Entry, now: int, id: Id)
    requires Storable(e) && |e.id| == HASH_SIZE && |e.outputId| == HASH_SIZE
    ensures WriteEntry(files, e, now).1
    ensures ReadEntry(WriteEntry(files, e, now).0, id) == if id == e.id then Hit(e) else ReadEntry(files, id)
  {
    hide Format, Parse, Name;
    HashEntryRoundTrip(e);
    NamesAreDistinct(e.id, id, Action, Action);
  }

  predicate SameFile(f: Files, f0: Files, n: Bytes) {
    (n in f <==> n in f0) && (n in f ==> f[n] == f0[n])
  }

  /** Writing an output changes no entry and no other output, and conversely. */
  lemma WritesAreSeparate(files: Files, a: Entry, body: Bytes, e: Entry, now: int, id: Id)
    ensures ReadEntry(WriteOutput(files, a, body, now).0, id) == ReadEntry(files, id)
    ensures var f := WriteOutput(files, a, body, now).0;
      id != a.outputId ==> SameFile(f, files, Name(id, Output))
    ensures var f := WriteEntry(files, e, now).0;
      SameFile(f, files, Name(id, Output))
  {
    hide Format, Parse, Name;
    NamesAreDistinct(a.outputId, id, Output, Action);
    NamesAreDistinct(a.outputId, id, Output, Output);
    NamesAreDistinct(e.id, id, Action, Output);
  }

  // ----- the directory -----

  function Visible(files: Files): Files {
    map n | n in files && !IsTemporary(n) :: files[n]
  }

  lemma TemporaryIsInvisible(files: Files, n: Bytes, file: File)
    requires IsTemporary(n)
    ensures Visible(files[n := file]) == Visible(files) && Visible(files - {n}) == Visible(files)
  {
  }

  lemma FinalIsVisible(files: Files, n: Bytes, file: File)
    requires !IsTemporary(n)
    ensures Visible(files[n := file]) == Visible(files)[n := file]
  {
  }

  /** `f` shows what `f0` did, or that and the whole of `data` under `fn`. */
  ghost predicate AllOrNothing(f0: Files, f: Files, fn: Bytes, data: Bytes, now: int) {
    Visible(f) == Visible(f0) || Visible(f) == Visible(f0)[fn := File(data, now)]
  }

  /** A directory; `seen` records every state its files have been in. Where `faulty`, any
      single file operation may fail. */
  class DiskDir {
    const faulty: bool
    var files: Files
    ghost var seen: seq<Files>

    constructor (faulty: bool)
      ensures this.faulty == faulty && files == map[] && seen == []
    {
      this.faulty, files, seen := faulty, map[], [];
    }

    method Fails() returns (b: bool)
      ensures !faulty ==> !b
    {
      b := *;
      b := b && faulty;
    }

    /** How much of a copy is left after one more piece of some size. */
    method Fewer(left: nat) returns (less: nat)
      requires left > 0
      ensures less < left
    {
      less :| 0 <= less < left;
    }

    method Store(name: Bytes, file: File)
      modifies this
      ensures files == old(files)[name := file] && seen == old(seen) + [files]
    {
      files := files[name := file];
      seen := seen + [files];
    }

    method Drop(name: Bytes)
      modifies this
      ensures files == old(files) - {name} && seen == old(seen) + [files]
    {
      files := files - {name};
      seen := seen + [files];
    }

    /** Renaming replaces the target in one step. */
    method Rename(from: Bytes, to: Bytes)
      requires from in files && from != to
      modifies this
      ensures files == (old(files) - {from})[to := old(files)[from]] && seen == old(seen) + [files]
    {
      files := (files - {from})[to := files[from]];
      seen := seen + [files];
    }

    /** Copies `data` into the temporary file `tmp`, in pieces, as far as nothing fails. */
    method CopyInto(tmp: Bytes, data: Bytes, now: int) returns (ok: bool)
      requires IsTemporary(tmp) && tmp in files && files[tmp] == File([], now)
      modifies this
      ensures |seen| >= |old(seen)| && seen[..|old(seen)|] == old(seen)
      ensures Visible(files) == Visible(old(files))
      ensures forall k :: |old(seen)| <= k < |seen| ==> Visible(seen[k]) == Visible(old(files))
      ensures ok ==> tmp in files && files[tmp] == File(data, now)
      ensures !faulty ==> ok
    {
      var left := |data|;
      while left > 0
        invariant 0 <= left <= |data| && tmp in files && files[tmp] == File(data[..|data| - left], now)
        invariant |seen| >= |old(seen)| && seen[..|old(seen)|] == old(seen)
        invariant Visible(files) == Visible(old(files))
        invariant forall k :: |old(seen)| <= k < |seen| ==> Visible(seen[k]) == Visible(old(files))
        decreases left
      {
        var failed := Fails();
        if failed {
          return false;
        }
        left := Fewer(left);
        TemporaryIsInvisible(files, tmp, File(data[..|data| - left], now));
        Store(tmp, File(data[..|data| - left], now));
      }
      assert data[..|data|] == data;
      ok := true;
    }

    /** Writes `data` to a temporary file piece by piece and moves it to its final name if
        it is complete and `accept` holds. */
    method WriteThroughTemporary(fn: Bytes, data: Bytes, accept: bool, now: int) returns (ok: bool)
      requires !IsTemporary(fn) && IsTemporary(fn + TMP)
      modifies this
      ensures |seen| >= |old(seen)| && seen[..|old(seen)|] == old(seen)
      ensures forall k :: |old(seen)| <= k < |seen| ==>
        Visible(seen[k]) == Visible(old(files)) || (accept && AllOrNothing(old(files), seen[k], fn, data, now))
      ensures Visible(files) == if ok then Visible(old(files))[fn := File(data, now)] else Visible(old(files))
      ensures ok ==> accept
      ensures !faulty ==> ok == accept
    {
      ok := false;
      var tmp := fn + TMP;
      var failed := Fails();
      if failed {
        return;
      }
      Store(tmp, File([], now));
      TemporaryIsInvisible(old(files), tmp, File([], now));
      ok := CopyInto(tmp, data, now);
      if !ok {
        return;
      }
      ok := false;
      if !accept {
        return;
      }
      failed := Fails();
      if failed {
        return;
      }
      failed := Fails();
      if failed {
        TemporaryIsInvisible(files, tmp, File([], now));
        failed := Fails();
        if !failed {
          Drop(tmp);
        }
        return;
      }
      TemporaryIsInvisible(files, tmp, File([], now));
      FinalIsVisible(files - {tmp}, fn, files[tmp]);
      Rename(tmp, fn);
      ok := true;
    }

    method ReadActionEntry(id: Id) returns (r: ReadResult)
      ensures r == ReadEntry(Visible(files), id) || (faulty && r == Bad)
      ensures !faulty ==> (r == NotExist <==> Name(id, Action) !in files)
    {
      NamesAreDistinct(id, id, Action, Action);
      var fn := Name(id, Action);
      var failed := Fails();
      if failed {
        return Bad;
      }
      if fn !in files {
        return NotExist;
      }
      match Parse(Take(files[fn].data, ENTRY_SIZE)) {
        case Err(_) => r := Bad;
        case Ok(e) => r := if e.id == id then Hit(e) else Bad;
      }
    }

    method CheckOutputFile(a: Entry) returns (r: CheckResult)
      ensures r == CheckOutput(Visible(files), a) || (faulty && r == Unreadable)
    {
      NamesAreDistinct(a.outputId, a.outputId, Output, Output);
      var fn := Name(a.outputId, Output);
      var failed := Fails();
      if failed {
        r := Unreadable;
      } else if fn !in files {
        r := Absent;
      } else if |files[fn].data| != a.size {
        r := WrongSize;
      } else {
        r := Present;
      }
    }

    method OpenOutputFile(a: Entry) returns (r: Option<Bytes>)
      ensures r == OutputData(Visible(files), a) || (faulty && r == None)
    {
      NamesAreDistinct(a.outputId, a.outputId, Output, Output);
      var fn := Name(a.outputId, Output);
      var failed := Fails();
      if failed {
        return None;
      }
      r := if fn in files then Some(files[fn].data) else None;
    }

    /** Whatever fails on the way, at no moment does the final name show anything but what
        it showed before or the whole body of the announced size. */
    method WriteOutputFile(a: Entry, body: Bytes, now: int) returns (ok: bool)
      modifies this
      ensures |seen| >= |old(seen)| && seen[..|old(seen)|] == old(seen)
      ensures forall k :: |old(seen)| <= k < |seen| ==>
        Visible(seen[k]) == Visible(old(files))
        || (|body| == a.size && AllOrNothing(old(files), seen[k], Name(a.outputId, Output), body, now))
      ensures ok ==>
        || (SkipsOutput(Visible(old(files)), a) && Visible(files) == Visible(old(files)))
        || (|body| == a.size && Visible(files) == Visible(old(files))[Name(a.outputId, Output) := File(body, now)])
      ensures !ok ==> Visible(files) == Visible(old(files))
      ensures !faulty ==> (Visible(files), ok) == WriteOutput(Visible(old(files)), a, body, now)
    {
      NamesAreDistinct(a.outputId, a.outputId, Output, Output);
      var fn := Name(a.outputId, Output);
      var failed := Fails();
      if !failed && fn in files && |files[fn].data| == a.size && files[fn].mtime <= a.time {
        failed := Fails();
        return !failed;
      }
      ok := WriteThroughTemporary(fn, body, |body| == a.size, now);
    }

    method WriteActionEntryFile(e: Entry, now: int) returns (ok: bool)
      modifies this
      ensures |seen| >= |old(seen)| && seen[..|old(seen)|] == old(seen)
      ensures forall k :: |old(seen)| <= k < |seen| ==>
        Visible(seen[k]) == Visible(old(files))
        || (|Format(e)| == ENTRY_SIZE && AllOrNothing(old(files), seen[k], Name(e.id, Action), Format(e), now))
      ensures ok ==> WriteEntry(Visible(old(files)), e, now) == (Visible(files), true)
      ensures !ok ==> Visible(files) == Visible(old(files))
      ensures !faulty ==> (Visible(files), ok) == WriteEntry(Visible(old(files)), e, now)
    {
      NamesAreDistinct(e.id, e.id, Action, Action);
      ok := WriteThroughTemporary(Name(e.id, Action), Format(e), |Format(e)| == ENTRY_SIZE, now);
    }
  }
}
