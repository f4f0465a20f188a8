/** Debian package versions (section 5.6.12 of the Debian Policy Manual): the comparison
    algorithm and the order it implements. Strings are sequences of bytes, read as
    Latin-1 runes. */
module DebianVersion {
  import opened Decimal
  import opened Wrappers

  predicate IsLetter(c: Byte) {
    || 'A' <= c <= 'Z' || 'a' <= c <= 'z'
    || c as int in {0xAA, 0xB5, 0xBA}
    || (0xC0 <= c as int && c as int != 0xD7 && c as int != 0xF7)
  }

  /** Letters sort before other symbols, tildes before everything, even the end. */
  function Order(c: Byte): int {
    if IsDigit(c) then 0
    else if IsLetter(c) then c as int
    else if c == '~' then -1
    else c as int + 256
  }

  // ----- the reference order -----

  /** The key of a version part: the weights of a non-digit run, a zero for the end of
      the run, the number that follows, the weights of the next run, and so on. */
  function Key(s: Bytes): seq<int>
    decreases |s|
  {
    if s == [] then []
    else if !IsDigit(s[0]) then [Order(s[0])] + Key(s[1..])
    else [0, Value(s[..DigitRun(s)])] + Key(s[DigitRun(s)..])
  }

  function At(k: seq<int>, i: nat): int {
    if i < |k| then k[i] else 0
  }

  /** Lexicographic comparison of keys, the shorter one continued with zeros. */
  function CompareKeys(a: seq<int>, b: seq<int>): (r: int)
    ensures -1 <= r <= 1
    decreases |a| + |b|
  {
    if a == [] && b == [] then 0
    else if At(a, 0) != At(b, 0) then Sign(At(a, 0) - At(b, 0))
    else CompareKeys(Rest(a), Rest(b))
  }

  function Rest(k: seq<int>): seq<int> {
    if k == [] then [] else k[1..]
  }

  // ----- keys are totally preordered -----

  lemma {:induction false} CompareKeysAntisymmetric(a: seq<int>, b: seq<int>)
    ensures CompareKeys(b, a) == -CompareKeys(a, b)
    decreases |a| + |b|
  {
    if !(a == [] && b == []) && At(a, 0) == At(b, 0) { CompareKeysAntisymmetric(Rest(a), Rest(b)); }
  }

  lemma {:induction false} CompareKeysTransitive(a: seq<int>, b: seq<int>, c: seq<int>)
    requires CompareKeys(a, b) <= 0 && CompareKeys(b, c) <= 0
    ensures CompareKeys(a, c) <= 0
    ensures CompareKeys(a, b) < 0 || CompareKeys(b, c) < 0 ==> CompareKeys(a, c) < 0
    decreases |a| + |b| + |c|
  {
    if a == [] && b == [] && c == [] {
    } else if At(a, 0) == At(b, 0) == At(c, 0) {
      CompareHeads(a, b);
      CompareHeads(b, c);
      CompareHeads(a, c);
      CompareKeysTransitive(Rest(a), Rest(b), Rest(c));
    } else {
      CompareHeads(a, b);
      CompareHeads(b, c);
    }
  }

  lemma CompareHeads(a: seq<int>, b: seq<int>)
    ensures CompareKeys(a, b) ==
      if At(a, 0) != At(b, 0) then Sign(At(a, 0) - At(b, 0)) else CompareKeys(Rest(a), Rest(b))
  {
  }

  /** A key without the zeros at its end. */
  function Normal(k: seq<int>): seq<int> {
    if k != [] && k[|k| - 1] == 0 then Normal(k[..|k| - 1]) else k
  }

  lemma {:induction false} NormalAt(k: seq<int>, i: nat)
    ensures At(Normal(k), i) == At(k, i)
    ensures Normal(k) == [] || Normal(k)[|Normal(k)| - 1] != 0
  {
    if k != [] && k[|k| - 1] == 0 { NormalAt(k[..|k| - 1], i); }
  }

  lemma {:induction false} EqualKeysAgree(a: seq<int>, b: seq<int>, i: nat)
    requires CompareKeys(a, b) == 0
    ensures At(a, i) == At(b, i)
    decreases i
  {
    if i > 0 && (a != [] || b != []) {
      EqualKeysAgree(Rest(a), Rest(b), i - 1);
      assert At(Rest(a), i - 1) == At(a, i) && At(Rest(b), i - 1) == At(b, i);
    }
  }

  lemma {:induction false} AgreeingKeysEqual(a: seq<int>, b: seq<int>)
    requires forall i: nat :: At(a, i) == At(b, i)
    ensures CompareKeys(a, b) == 0
    decreases |a| + |b|
  {
    if a != [] || b != [] {
      assert At(a, 0) == At(b, 0);
      forall i: nat ensures At(Rest(a), i) == At(Rest(b), i) {
        assert At(Rest(a), i) == At(a, i + 1) && At(Rest(b), i) == At(b, i + 1);
      }
      AgreeingKeysEqual(Rest(a), Rest(b));
    }
  }

  /** Two keys compare equal exactly when they agree up to trailing zeros. */
  lemma EqualIffSameNormal(a: seq<int>, b: seq<int>)
    ensures CompareKeys(a, b) == 0 <==> Normal(a) == Normal(b)
  {
    forall i: nat ensures At(Normal(a), i) == At(a, i) && At(Normal(b), i) == At(b, i) {
      NormalAt(a, i);
      NormalAt(b, i);
    }
    NormalAt(a, 0);
    NormalAt(b, 0);
    if CompareKeys(a, b) == 0 {
      forall i: nat ensures At(Normal(a), i) == At(Normal(b), i) { EqualKeysAgree(a, b, i); }
      SameEntries(Normal(a), Normal(b));
    }
    if Normal(a) == Normal(b) {
      forall i: nat ensures At(a, i) == At(b, i) { assert At(Normal(a), i) == At(Normal(b), i); }
      AgreeingKeysEqual(a, b);
    }
  }

  lemma SameEntries(a: seq<int>, b: seq<int>)
    requires forall i: nat :: At(a, i) == At(b, i)
    requires (a == [] || a[|a| - 1] != 0) && (b == [] || b[|b| - 1] != 0)
    ensures a == b
  {
    assert |a| <= |b| by { if |a| > 0 { assert At(a, |a| - 1) == At(b, |a| - 1); } }
    assert |b| <= |a| by { if |b| > 0 { assert At(a, |b| - 1) == At(b, |b| - 1); } }
    forall i | 0 <= i < |a| ensures a[i] == b[i] { assert At(a, i) == At(b, i); }
  }

  /** The number at the front of `s` (0 if there is none) and the text behind it. */
  function Number(s: Bytes): nat { Value(s[..DigitRun(s)]) }

  function Behind(s: Bytes): Bytes { s[DigitRun(s)..] }

  lemma SkipZero(s: Bytes)
    requires s != [] && s[0] == '0'
    ensures Number(s) == Number(s[1..]) && Behind(s) == Behind(s[1..])
  {
    LeadingZero(s[..DigitRun(s)]);
    assert s[..DigitRun(s)][1..] == s[1..][..DigitRun(s[1..])];
  }

  predicate AtRun(s: Bytes) {
    s != [] && !IsDigit(s[0])
  }

  /** How keys compare where at least one side stands in a non-digit run. */
  lemma CompareRuns(a: Bytes, b: Bytes)
    requires AtRun(a) || AtRun(b)
    ensures var ac, bc := (if a == [] then 0 else Order(a[0])), if b == [] then 0 else Order(b[0]);
      && (ac != bc ==> CompareKeys(Key(a), Key(b)) == Sign(ac - bc))
      && (ac == bc ==> AtRun(a) && AtRun(b) && CompareKeys(Key(a), Key(b)) == CompareKeys(Key(a[1..]), Key(b[1..])))
  {
    CompareHeads(Key(a), Key(b));
    if AtRun(a) { assert Rest(Key(a)) == Key(a[1..]); }
    if AtRun(b) { assert Rest(Key(b)) == Key(b[1..]); }
  }

  /** How keys compare where neither side stands in a non-digit run. */
  lemma CompareNumbers(a: Bytes, b: Bytes)
    requires !AtRun(a) && !AtRun(b)
    ensures CompareKeys(Key(a), Key(b)) ==
      if Number(a) != Number(b) then Sign(Number(a) - Number(b)) else CompareKeys(Key(Behind(a)), Key(Behind(b)))
  {
    KeyOfNumber(a);
    KeyOfNumber(b);
    CompareHeads(Key(a), Key(b));
    CompareHeads(Rest(Key(a)), Rest(Key(b)));
  }

  lemma KeyOfNumber(a: Bytes)
    requires !AtRun(a)
    ensures At(Key(a), 0) == 0 && At(Rest(Key(a)), 0) == Number(a) && Rest(Rest(Key(a))) == Key(Behind(a))
  {
    if a != [] { assert Key(a) == [0, Number(a)] + Key(Behind(a)); }
  }

  // ----- the algorithm -----

  /** A cursor `(rest, r)` that still has to read `s`: its current rune and what follows. */
  predicate Reads(rest: Bytes, r: Option<Byte>, s: Bytes) {
    if s == [] then r == None && rest == [] else r == Some(s[0]) && rest == s[1..]
  }

  method NextRune(s: Bytes) returns (rest: Bytes, r: Option<Byte>)
    ensures Reads(rest, r, s)
  {
    if |s| >= 1 {
      rest, r := s[1..], Some(s[0]);
    } else {
      rest, r := s, None;
    }
  }

  predicate OnDigit(r: Option<Byte>) {
    r.Some? && IsDigit(r.value)
  }

  /** Skips the leading zeros of a number. */
  method SkipZeros(t0: Bytes, r0: Option<Byte>, ghost s0: Bytes) returns (t: Bytes, r: Option<Byte>, ghost s: Bytes)
    requires Reads(t0, r0, s0)
    ensures Reads(t, r, s) && Number(s) == Number(s0) && Behind(s) == Behind(s0)
    ensures s != [] ==> s[0] != '0'
  {
    hide Value, DigitRun, Number, Behind;
    t, r, s := t0, r0, s0;
    while r != None && r.value == '0'
      invariant Reads(t, r, s) && Number(s) == Number(s0) && Behind(s) == Behind(s0)
      decreases |s|
    {
      SkipZero(s);
      s := s[1..];
      t, r := NextRune(t);
    }
  }

  /** Compares two numbers without leading zeros by length and first difference, and
      leaves the cursors behind them when they are equal. */
  method CompareDigits(t01: Bytes, r01: Option<Byte>, t02: Bytes, r02: Option<Byte>, ghost u: Bytes, ghost v: Bytes)
    returns (t1: Bytes, rt1: Option<Byte>, t2: Bytes, rt2: Option<Byte>, diff: int)
    requires Reads(t01, r01, u) && Reads(t02, r02, v)
    requires (u != [] ==> u[0] != '0') && (v != [] ==> v[0] != '0')
    ensures Sign(diff) == Sign(Number(u) - Number(v))
    ensures diff == 0 ==> Reads(t1, rt1, Behind(u)) && Reads(t2, rt2, Behind(v))
  {
    hide Value, DigitRun;
    t1, rt1, t2, rt2 := t01, r01, t02, r02;
    ghost var k := 0;
    var firstDiff := 0;
    while OnDigit(rt1) && OnDigit(rt2)
      invariant k <= DigitRun(u) && k <= DigitRun(v)
      invariant Reads(t1, rt1, u[k..]) && Reads(t2, rt2, v[k..])
      invariant Sign(firstDiff) == Sign(Value(u[..k]) - Value(v[..k]))
      decreases |u| - k
    {
      if firstDiff == 0 {
        firstDiff := rt1.value as int - rt2.value as int;
      }
      InsideRun(u, k);
      InsideRun(v, k);
      ExtendValue(u, k);
      ExtendValue(v, k);
      t1, rt1 := NextRune(t1);
      t2, rt2 := NextRune(t2);
      k := k + 1;
    }
    InsideRun(u, k);
    InsideRun(v, k);
    if OnDigit(rt1) {
      LongerNumberIsLarger(u[..DigitRun(u)], v[..DigitRun(v)]);
      diff := 1;
      return;
    }
    if OnDigit(rt2) {
      LongerNumberIsLarger(v[..DigitRun(v)], u[..DigitRun(u)]);
      diff := -1;
      return;
    }
    diff := firstDiff;
  }

  lemma CompareEnds()
    ensures CompareKeys(Key([]), Key([])) == 0
  {
  }

  /** Compares two version parts without computing a number: its sign is the order of
      the keys. */
  method Verrevcmp(a: Bytes, b: Bytes) returns (r: int)
    ensures Sign(r) == CompareKeys(Key(a), Key(b))
  {
    hide Key, CompareKeys, Order, Value, DigitRun, Number, Behind;
    ghost var x, y := a, b;
    var t1, rt1 := NextRune(a);
    var t2, rt2 := NextRune(b);
    while rt1 != None || rt2 != None
      invariant Reads(t1, rt1, x) && Reads(t2, rt2, y)
      invariant CompareKeys(Key(a), Key(b)) == CompareKeys(Key(x), Key(y))
      decreases |x| + |y|
    {
      ghost var size := |x| + |y|;
      while (rt1 != None && !IsDigit(rt1.value)) || (rt2 != None && !IsDigit(rt2.value))
        invariant Reads(t1, rt1, x) && Reads(t2, rt2, y)
        invariant CompareKeys(Key(a), Key(b)) == CompareKeys(Key(x), Key(y))
        invariant |x| + |y| <= size && (|x| + |y| == 0 ==> 0 < size)
        decreases |x| + |y|
      {
        var ac := 0;
        var bc := 0;
        if rt1 != None {
          ac := Order(rt1.value);
        }
        if rt2 != None {
          bc := Order(rt2.value);
        }
        CompareRuns(x, y);
        if ac != bc {
          return ac - bc;
        }
        x, y := x[1..], y[1..];
        t1, rt1 := NextRune(t1);
        t2, rt2 := NextRune(t2);
      }
      CompareNumbers(x, y);
      BehindIsShorter(x);
      BehindIsShorter(y);
      var firstDiff;
      ghost var u, v;
      t1, rt1, u := SkipZeros(t1, rt1, x);
      t2, rt2, v := SkipZeros(t2, rt2, y);
      t1, rt1, t2, rt2, firstDiff := CompareDigits(t1, rt1, t2, rt2, u, v);
      if firstDiff != 0 {
        return firstDiff;
      }
      x, y := Behind(x), Behind(y);
    }
    CompareEnds();
    return 0;
  }

  lemma BehindIsShorter(s: Bytes)
    requires !AtRun(s)
    ensures s != [] ==> |Behind(s)| < |s|
    ensures |Behind(s)| <= |s|
  {
  }

  // ----- whole versions -----

  datatype Version = Version(epoch: int, upstream: Bytes, revision: Bytes)

  /** Epochs first, then the keys of the upstream version, then those of the revision. */
  function VersionOrder(a: Version, b: Version): int {
    if a.epoch != b.epoch then Sign(a.epoch - b.epoch)
    else if CompareKeys(Key(a.upstream), Key(b.upstream)) != 0 then CompareKeys(Key(a.upstream), Key(b.upstream))
    else CompareKeys(Key(a.revision), Key(b.revision))
  }

  method CompareV(a: Version, b: Version) returns (r: int)
    ensures r == VersionOrder(a, b)
  {
    if a == b {
      EqualIffSameNormal(Key(a.upstream), Key(b.upstream));
      EqualIffSameNormal(Key(a.revision), Key(b.revision));
      return 0;
    }
    if a.epoch > b.epoch {
      return 1;
    }
    if a.epoch < b.epoch {
      return -1;
    }
    var rc := Verrevcmp(a.upstream, b.upstream);
    if rc != 0 {
      return Sign(rc);
    }
    rc := Verrevcmp(a.revision, b.revision);
    return Sign(rc);
  }

  /** Two versions compare equal exactly when their epochs agree and both parts have the
      same key once leading zeros of numbers and zeros at the end are ignored. */
  lemma EqualVersions(a: Version, b: Version)
    ensures VersionOrder(a, b) == 0 <==>
      && a.epoch == b.epoch
      && Normal(Key(a.upstream)) == Normal(Key(b.upstream))
      && Normal(Key(a.revision)) == Normal(Key(b.revision))
  {
    EqualIffSameNormal(Key(a.upstream), Key(b.upstream));
    EqualIffSameNormal(Key(a.revision), Key(b.revision));
  }

  lemma OrderIsAntisymmetric(a: Version, b: Version)
    ensures VersionOrder(b, a) == -VersionOrder(a, b) && VersionOrder(a, a) == 0
  {
    CompareKeysAntisymmetric(Key(a.upstream), Key(b.upstream));
    CompareKeysAntisymmetric(Key(a.revision), Key(b.revision));
    EqualVersions(a, a);
  }

  lemma OrderIsTransitive(a: Version, b: Version, c: Version)
    requires VersionOrder(a, b) <= 0 && VersionOrder(b, c) <= 0
    ensures VersionOrder(a, c) <= 0
    ensures VersionOrder(a, c) == 0 <==> VersionOrder(a, b) == 0 && VersionOrder(b, c) == 0
  {
    var ua, ub, uc := Key(a.upstream), Key(b.upstream), Key(c.upstream);
    if a.epoch == b.epoch == c.epoch {
      CompareKeysTransitive(ua, ub, uc);
      if CompareKeys(ua, ub) == 0 && CompareKeys(ub, uc) == 0 {
        EqualIffSameNormal(ua, ub);
        EqualIffSameNormal(ub, uc);
        EqualIffSameNormal(ua, uc);
        CompareKeysTransitive(Key(a.revision), Key(b.revision), Key(c.revision));
        EqualIffSameNormal(Key(a.revision), Key(b.revision));
        EqualIffSameNormal(Key(b.revision), Key(c.revision));
        EqualIffSameNormal(Key(a.revision), Key(c.revision));
      }
    }
  }

  // ----- parsing -----

  datatype ParseError =
    | EmptyVersion | EpochNotNumber | EpochNegative
    | NoUpstream | UpstreamStart | UpstreamCharacter | RevisionCharacter

  /** `SlicePanic` is the run-time panic of a slice whose bounds are out of order. */
  datatype Parsed = Ok(version: Version) | Err(error: ParseError) | SlicePanic

  predicate IsBlank(c: Byte) {
    c == ' ' || 9 <= c as int <= 13
  }

  function StripLeft(s: Bytes): Bytes {
    if s != [] && IsBlank(s[0]) then StripLeft(s[1..]) else s
  }

  function StripRight(s: Bytes): Bytes {
    if s != [] && IsBlank(s[|s| - 1]) then StripRight(s[..|s| - 1]) else s
  }

  function StripBlanks(s: Bytes): Bytes { StripRight(StripLeft(s)) }

  /** The first index of `c`, or -1. */
  function Index(s: Bytes, c: Byte): (i: int)
    ensures -1 <= i < |s|
    ensures i == -1 <==> c !in s
    ensures i >= 0 ==> s[i] == c && c !in s[..i]
  {
    if s == [] then -1
    else if s[0] == c then 0
    else
      var i := Index(s[1..], c);
      assert i >= 0 ==> s[..i + 1] == [s[0]] + s[1..][..i];
      if i == -1 then -1 else i + 1
  }

  /** The last index of `c`, or -1. */
  function LastIndex(s: Bytes, c: Byte): (i: int)
    ensures -1 <= i < |s|
    ensures i == -1 <==> c !in s
    ensures i >= 0 ==> s[i] == c && c !in s[i + 1..]
  {
    if s == [] then -1
    else if s[|s| - 1] == c then |s| - 1
    else
      var i := LastIndex(s[..|s| - 1], c);
      assert s == s[..|s| - 1] + [s[|s| - 1]];
      assert i >= 0 ==> s[i + 1..] == s[..|s| - 1][i + 1..] + [s[|s| - 1]];
      i
  }

  predicate UpstreamAllowed(c: Byte) {
    IsDigit(c) || IsLetter(c) || c in {'.', '-', '+', '~', ':', '_'}
  }

  predicate RevisionAllowed(c: Byte) {
    IsDigit(c) || IsLetter(c) || c in {'.', '+', '~', '_'}
  }

  predicate AllUpstreamAllowed(s: Bytes) {
    forall i :: 0 <= i < |s| ==> UpstreamAllowed(s[i])
  }

  predicate AllRevisionAllowed(s: Bytes) {
    forall i :: 0 <= i < |s| ==> RevisionAllowed(s[i])
  }

  function CheckParts(v: Version): (r: Parsed)
    ensures !r.SlicePanic?
  {
    if v.upstream == [] then Err(NoUpstream)
    else if !IsDigit(v.upstream[0]) then Err(UpstreamStart)
    else if !AllUpstreamAllowed(v.upstream) then Err(UpstreamCharacter)
    else if !AllRevisionAllowed(v.revision) then Err(RevisionCharacter)
    else Ok(v)
  }

  function ParseVersion(str: Bytes): Parsed {
    var s := StripBlanks(str);
    var colon, dash := Index(s, ':'), LastIndex(s, '-');
    var epoch := if colon > -1 then ParseInt(s[..colon]) else Some(0);
    if s == [] then Err(EmptyVersion)
    else if epoch == None then Err(EpochNotNumber)
    else if epoch.value < 0 then Err(EpochNegative)
    else if dash == -1 then CheckParts(Version(epoch.value, s[colon + 1..], "0"))
    else if dash < colon + 1 then SlicePanic
    else CheckParts(Version(epoch.value, s[colon + 1..dash], s[dash + 1..]))
  }

  method StringToVersion(str0: Bytes) returns (r: Parsed)
    ensures r == ParseVersion(str0)
  {
    hide StripBlanks, Index, LastIndex, ParseInt, CheckParts;
    var version := Version(0, [], []);
    var str := StripBlanks(str0);
    if |str| <= 0 {
      return Err(EmptyVersion);
    }
    var sepEpoch := Index(str, ':');
    if sepEpoch > -1 {
      var intEpoch := ParseInt(str[..sepEpoch]);
      if intEpoch.None? {
        return Err(EpochNotNumber);
      }
      version := version.(epoch := intEpoch.value);
      if intEpoch.value < 0 {
        return Err(EpochNegative);
      }
    }
    var sepDebianRevision := LastIndex(str, '-');
    if sepDebianRevision > -1 {
      if sepEpoch + 1 > sepDebianRevision {
        return SlicePanic;
      }
      version := version.(upstream := str[sepEpoch + 1..sepDebianRevision], revision := str[sepDebianRevision + 1..]);
    } else {
      version := version.(upstream := str[sepEpoch + 1..], revision := "0");
    }
    r := CheckFormat(version);
  }

  method CheckFormat(v: Version) returns (r: Parsed)
    ensures r == CheckParts(v)
  {
    if |v.upstream| == 0 {
      return Err(NoUpstream);
    }
    if !IsDigit(v.upstream[0]) {
      return Err(UpstreamStart);
    }
    for i := 0 to |v.upstream|
      invariant forall k :: 0 <= k < i ==> UpstreamAllowed(v.upstream[k])
    {
      if !UpstreamAllowed(v.upstream[i]) {
        return Err(UpstreamCharacter);
      }
    }
    for i := 0 to |v.revision|
      invariant forall k :: 0 <= k < i ==> RevisionAllowed(v.revision[k])
    {
      if !RevisionAllowed(v.revision[i]) {
        return Err(RevisionCharacter);
      }
    }
    r := Ok(v);
  }

  method Compare(a: Bytes, b: Bytes) returns (r: int, failed: bool)
    ensures failed <==> !ParseVersion(a).Ok? || !ParseVersion(b).Ok?
    ensures !failed ==> r == VersionOrder(ParseVersion(a).version, ParseVersion(b).version)
  {
    var v1 := StringToVersion(a);
    var v2 := StringToVersion(b);
    if v1.Ok? && v2.Ok? {
      r := CompareV(v1.version, v2.version);
      failed := false;
    } else {
      r, failed := 0, true;
    }
  }

  /** The versions some string denotes. */
  predicate Denotable(v: Version) {
    && 0 <= v.epoch <= MAX_INT64
    && v.upstream != [] && IsDigit(v.upstream[0])
    && AllUpstreamAllowed(v.upstream) && AllRevisionAllowed(v.revision)
  }

  function Render(v: Version): Bytes {
    Joined(FormatInt(v.epoch), v.upstream, v.revision)
  }

  function Joined(e: Bytes, u: Bytes, r: Bytes): Bytes {
    e + [':'] + u + ['-'] + r
  }

  /** Rendering a denotable version and parsing it back yields the same version, and
      parsing yields nothing else. */
  lemma ParseInvertsRender(v: Version)
    ensures ParseVersion(Render(v)) == Ok(v) <==> Denotable(v)
    ensures (exists str: Bytes :: ParseVersion(str) == Ok(v)) <==> Denotable(v)
  {
    if str: Bytes :| ParseVersion(str) == Ok(v) {
      ParsedIsDenotable(str);
    }
    if ParseVersion(Render(v)) == Ok(v) {
      ParsedIsDenotable(Render(v));
    }
    if Denotable(v) {
      RenderedParses(v);
    }
  }

  lemma ParsedIsDenotable(str: Bytes)
    requires ParseVersion(str).Ok?
    ensures Denotable(ParseVersion(str).version)
  {
    hide StripBlanks, Index, LastIndex, AllUpstreamAllowed, AllRevisionAllowed;
  }

  lemma RenderedParses(v: Version)
    requires Denotable(v)
    ensures ParseVersion(Render(v)) == Ok(v)
  {
    hide Index, LastIndex, ParseInt, Value, Joined, FormatInt, StripBlanks;
    var e := FormatInt(v.epoch);
    ParseFormat(v.epoch);
    JoinedParts(e, v.upstream, v.revision);
    RenderedShape(v);
  }

  lemma JoinedParts(e: Bytes, u: Bytes, r: Bytes)
    ensures var s, d := Joined(e, u, r), |e| + 1 + |u|;
      && |s| == d + 1 + |r| && s[|e|] == ':' && s[d] == '-'
      && s[..|e|] == e && s[|e| + 1..d] == u && s[d + 1..] == r
  {
  }

  /** Where the separators of a rendered version stand. */
  lemma RenderedShape(v: Version)
    requires Denotable(v)
    ensures var e, s := FormatInt(v.epoch), Render(v);
      StripBlanks(s) == s && Index(s, ':') == |e| && LastIndex(s, '-') == |e| + 1 + |v.upstream|
  {
    hide Index, LastIndex, FormatNat, Joined, StripBlanks;
    var e := FormatInt(v.epoch);
    var s := Joined(e, v.upstream, v.revision);
    var d := |e| + 1 + |v.upstream|;
    JoinedParts(e, v.upstream, v.revision);
    assert s[0] == s[..|e|][0] == e[0];
    assert |s| > d + 1 ==> s[|s| - 1] == s[d + 1..][|s| - d - 2];
    NothingToTrim(s);
    FirstIndexIs(s, ':', |e|);
    LastIndexIs(s, '-', d);
  }

  lemma NothingToTrim(s: Bytes)
    requires s != [] && !IsBlank(s[0]) && !IsBlank(s[|s| - 1])
    ensures StripBlanks(s) == s
  {
  }

  lemma FirstIndexIs(s: Bytes, c: Byte, i: nat)
    requires i < |s| && s[i] == c && c !in s[..i]
    ensures Index(s, c) == i
  {
    var j := Index(s, c);
    assert forall k :: 0 <= k < i ==> s[..i][k] == s[k] != c;
    assert forall k :: 0 <= k < j ==> s[..j][k] == s[k] != c;
  }

  lemma LastIndexIs(s: Bytes, c: Byte, i: nat)
    requires i < |s| && s[i] == c && c !in s[i + 1..]
    ensures LastIndex(s, c) == i
  {
    var j := LastIndex(s, c);
    assert forall k :: i < k < |s| ==> s[i + 1..][k - i - 1] == s[k] != c;
    assert forall k :: j < k < |s| ==> s[j + 1..][k - j - 1] == s[k] != c;
  }

  /** `-`, zeros, a colon, and no further `-`: the one kind of text parsing panics on. */
  predicate MinusZeroEpoch(s: Bytes) {
    var colon := Index(s, ':');
    && colon >= 2 && s[0] == '-' && '-' !in s[1..]
    && forall i :: 1 <= i < colon ==> s[i] == '0'
  }

  /** Parsing returns a version or an error exactly when the text is not of that kind. */
  lemma PanicsExactlyOnMinusZero(str: Bytes)
    ensures ParseVersion(str).SlicePanic? <==> MinusZeroEpoch(StripBlanks(str))
  {
    hide StripBlanks, Index, LastIndex, ParseInt, CheckParts, MinusZeroEpoch;
    var s := StripBlanks(str);
    if MinusZeroEpoch(s) {
      MinusZeroParses(s);
    }
    if ParseVersion(str).SlicePanic? {
      DashInEpoch(s);
    }
  }

  lemma MinusZeroParses(s: Bytes)
    requires MinusZeroEpoch(s)
    ensures s != [] && Index(s, ':') >= 2 && LastIndex(s, '-') == 0
    ensures ParseInt(s[..Index(s, ':')]) == Some(0)
  {
    hide Index, LastIndex;
    var e := s[..Index(s, ':')];
    LastIndexIs(s, '-', 0);
    ZerosAreZero(e[1..]);
    assert Digits(e[1..]);
  }

  lemma DashInEpoch(s: Bytes)
    requires var colon, dash := Index(s, ':'), LastIndex(s, '-');
      0 <= dash < colon && ParseInt(s[..colon]).Some? && ParseInt(s[..colon]).value >= 0
    ensures MinusZeroEpoch(s)
  {
    hide Index, LastIndex, Value;
    var colon, dash := Index(s, ':'), LastIndex(s, '-');
    var e := s[..colon];
    assert e[dash] == '-';
    assert dash == 0 by {
      assert forall k :: 0 < k < |e| ==> e[1..][k - 1] == e[k];
    }
    ZeroIsZeros(e[1..]);
    assert forall i :: 1 <= i < colon ==> s[i] == e[1..][i - 1];
  }

  lemma {:induction false} ZerosAreZero(s: Bytes)
    requires forall i :: 0 <= i < |s| ==> s[i] == '0'
    ensures Value(s) == 0
  {
    if s != [] { ZerosAreZero(s[..|s| - 1]); }
  }

  lemma {:induction false} ZeroIsZeros(s: Bytes)
    requires Digits(s) && Value(s) == 0
    ensures forall i :: 0 <= i < |s| ==> s[i] == '0'
  {
    if s != [] {
      ZeroIsZeros(s[..|s| - 1]);
      assert forall i :: 0 <= i < |s| - 1 ==> s[i] == s[..|s| - 1][i];
    }
  }
}
