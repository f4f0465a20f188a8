/** What the version order says about strings, without keys and weights. */
module DebianVersionLaws {
  import opened Decimal
  import opened Wrappers
  import opened DebianVersion

  /** The order of two version parts. */
  function PartOrder(a: Bytes, b: Bytes): int {
    CompareKeys(Key(a), Key(b))
  }

  /** Nothing at the end of `p` runs on into `s`: they do not meet in the middle of a number. */
  predicate Apart(p: Bytes, s: Bytes) {
    p == [] || s == [] || !IsDigit(p[|p| - 1]) || !IsDigit(s[0])
  }

  predicate Symbol(c: Byte) {
    !IsDigit(c) && !IsLetter(c) && c != '~'
  }

  /** The tilde sorts first, then letters by their codes, then other symbols by theirs. */
  predicate SortsBefore(c: Byte, d: Byte) {
    || (c == '~' && d != '~')
    || (IsLetter(c) && Symbol(d))
    || (IsLetter(c) && IsLetter(d) && c < d)
    || (Symbol(c) && Symbol(d) && c < d)
  }

  // ----- a common front does not matter -----

  lemma {:induction false} DigitRunOver(p: Bytes, s: Bytes)
    requires Apart(p, s)
    ensures DigitRun(p + s) == DigitRun(p) + if DigitRun(p) == |p| && p == [] then DigitRun(s) else 0
  {
    if p == [] {
      assert p + s == s;
    } else if IsDigit(p[0]) {
      assert (p + s)[1..] == p[1..] + s;
      if |p| > 1 {
        DigitRunOver(p[1..], s);
      } else {
        assert p[1..] + s == s;
      }
    }
  }

  lemma {:induction false} KeyOver(p: Bytes, s: Bytes)
    requires Apart(p, s)
    ensures Key(p + s) == Key(p) + Key(s)
    decreases |p|
  {
    hide Order, Value;
    if p == [] {
      assert p + s == s;
    } else if !IsDigit(p[0]) {
      assert (p + s)[1..] == p[1..] + s;
      KeyOver(p[1..], s);
    } else {
      var n := DigitRun(p);
      DigitRunOver(p, s);
      assert (p + s)[..n] == p[..n] && (p + s)[n..] == p[n..] + s;
      KeyOver(p[n..], s);
    }
  }

  lemma {:induction false} CommonFront(k: seq<int>, a: seq<int>, b: seq<int>)
    ensures CompareKeys(k + a, k + b) == CompareKeys(a, b)
  {
    if k == [] {
      assert k + a == a && k + b == b;
    } else {
      assert (k + a)[1..] == k[1..] + a && (k + b)[1..] == k[1..] + b;
      CommonFront(k[1..], a, b);
    }
  }

  lemma SameFront(p: Bytes, a: Bytes, b: Bytes)
    requires Apart(p, a) && Apart(p, b)
    ensures PartOrder(p + a, p + b) == PartOrder(a, b)
  {
    hide Key, CompareKeys;
    KeyOver(p, a);
    KeyOver(p, b);
    CommonFront(Key(p), Key(a), Key(b));
  }

  // ----- where two parts first differ -----

  lemma FirstWeights(c: Byte, d: Byte)
    requires !IsDigit(c) && !IsDigit(d)
    ensures Order(c) == -1 <==> c == '~'
    ensures c != '~' ==> Order(c) > 0
    ensures c != d ==> (Order(c) < Order(d) <==> SortsBefore(c, d)) && Order(c) != Order(d)
  {
  }

  lemma DigitWeight(c: Byte)
    requires IsDigit(c)
    ensures Order(c) == 0
  {
  }

  /** A tilde sorts before the end of a part, and every other non-digit behind it. */
  lemma AgainstEnd(p: Bytes, c: Byte, x: Bytes)
    requires !IsDigit(c)
    ensures PartOrder(p + ([c] + x), p) == if c == '~' then -1 else 1
  {
    hide Key, CompareKeys, Order;
    SameFront(p, [c] + x, []);
    assert p + [] == p;
    CompareRuns([c] + x, []);
    FirstWeights(c, c);
  }

  /** Two different non-digits decide by themselves. */
  lemma AgainstNonDigit(p: Bytes, c: Byte, x: Bytes, d: Byte, y: Bytes)
    requires !IsDigit(c) && !IsDigit(d) && c != d
    ensures PartOrder(p + ([c] + x), p + ([d] + y)) == if SortsBefore(c, d) then -1 else 1
  {
    hide Key, CompareKeys, Order;
    SameFront(p, [c] + x, [d] + y);
    CompareRuns([c] + x, [d] + y);
    FirstWeights(c, d);
  }

  /** Where a number begins, a tilde sorts before it and every other non-digit behind it. */
  lemma AgainstDigit(p: Bytes, c: Byte, x: Bytes, d: Byte, y: Bytes)
    requires !IsDigit(c) && IsDigit(d) && Apart(p, [d])
    ensures PartOrder(p + ([c] + x), p + ([d] + y)) == if c == '~' then -1 else 1
  {
    hide Key, CompareKeys;
    SameFront(p, [c] + x, [d] + y);
    CompareRuns([c] + x, [d] + y);
    FirstWeights(c, c);
  }

  /** Where numbers stand on both sides, or one side has none, which counts as zero, their
      values decide; equal values leave it to what follows. */
  lemma AgainstNumber(p: Bytes, n: Bytes, x: Bytes, m: Bytes, y: Bytes)
    requires Digits(n) && Digits(m) && Apart(p, n + x) && Apart(p, m + y)
    requires (x == [] || !IsDigit(x[0])) && (y == [] || !IsDigit(y[0]))
    requires (n == [] ==> x == []) && (m == [] ==> y == [])
    ensures PartOrder(p + (n + x), p + (m + y)) ==
      if Value(n) != Value(m) then Sign(Value(n) - Value(m)) else PartOrder(x, y)
  {
    hide Key, CompareKeys, Value;
    SameFront(p, n + x, m + y);
    NumberIn(n, x);
    NumberIn(m, y);
    CompareNumbers(n + x, m + y);
  }

  lemma NumberIn(n: Bytes, x: Bytes)
    requires Digits(n) && (x == [] || !IsDigit(x[0])) && (n == [] ==> x == [])
    ensures !AtRun(n + x) && Number(n + x) == Value(n) && Behind(n + x) == x
  {
    hide Value;
    if x == [] {
      assert n + x == n;
      AllDigits(n);
      assert n[..|n|] == n;
    } else {
      DigitRunEnds(n, x);
      assert (n + x)[..|n|] == n && (n + x)[|n|..] == x;
    }
  }

  lemma {:induction false} AllDigits(n: Bytes)
    requires Digits(n)
    ensures DigitRun(n) == |n|
  {
    if n != [] { AllDigits(n[1..]); }
  }

  lemma {:induction false} DigitRunEnds(n: Bytes, x: Bytes)
    requires Digits(n) && x != [] && !IsDigit(x[0])
    ensures DigitRun(n + x) == |n|
  {
    if n == [] {
      assert n + x == x;
    } else {
      assert (n + x)[1..] == n[1..] + x;
      DigitRunEnds(n[1..], x);
    }
  }

  // ----- whole versions -----

  /** A later epoch is a later version, whatever else the versions are. */
  lemma EpochDecides(a: Version, b: Version)
    requires a.epoch < b.epoch
    ensures VersionOrder(a, b) == -1 && VersionOrder(b, a) == 1
  {
  }

  /** Within an epoch the upstream part decides, whatever the revisions are. */
  lemma UpstreamDecides(epoch: int, u: Bytes, r: Bytes, v: Bytes, s: Bytes)
    ensures PartOrder(u, v) != 0 ==> VersionOrder(Version(epoch, u, r), Version(epoch, v, s)) == PartOrder(u, v)
    ensures PartOrder(u, v) == 0 ==> VersionOrder(Version(epoch, u, r), Version(epoch, v, s)) == PartOrder(r, s)
  {
  }

  /** A pre-release sorts before its release and every other suffix behind it, in every
      epoch and with any revisions. */
  lemma SuffixedVersion(epoch: int, u: Bytes, c: Byte, x: Bytes, r: Bytes, s: Bytes)
    requires !IsDigit(c)
    ensures VersionOrder(Version(epoch, u + ([c] + x), r), Version(epoch, u, s)) == if c == '~' then -1 else 1
  {
    AgainstEnd(u, c, x);
    UpstreamDecides(epoch, u + ([c] + x), r, u, s);
  }

  /** The same for the revision of one upstream version, as backports use it. */
  lemma SuffixedRevision(epoch: int, u: Bytes, r: Bytes, c: Byte, x: Bytes)
    requires !IsDigit(c)
    ensures VersionOrder(Version(epoch, u, r + ([c] + x)), Version(epoch, u, r)) == if c == '~' then -1 else 1
  {
    AgainstEnd(r, c, x);
    EqualVersions(Version(epoch, u, r), Version(epoch, u, r));
    UpstreamDecides(epoch, u, r + ([c] + x), u, r);
  }

  /** Two upstream versions that part at a non-digit. */
  lemma PartingVersions(epoch: int, p: Bytes, c: Byte, x: Bytes, r: Bytes, d: Byte, y: Bytes, s: Bytes)
    requires !IsDigit(c) && c != d && Apart(p, [d])
    ensures VersionOrder(Version(epoch, p + ([c] + x), r), Version(epoch, p + ([d] + y), s)) ==
      if (if IsDigit(d) then c == '~' else SortsBefore(c, d)) then -1 else 1
  {
    if IsDigit(d) { AgainstDigit(p, c, x, d, y); } else { AgainstNonDigit(p, c, x, d, y); }
    UpstreamDecides(epoch, p + ([c] + x), r, p + ([d] + y), s);
  }

  // ----- the policy's own words -----

  /** The front of a part that consists of non-digits. */
  function NonDigits(s: Bytes): (t: Bytes)
    ensures t <= s
  {
    if s == [] || IsDigit(s[0]) then [] else [s[0]] + NonDigits(s[1..])
  }

  /** Lexical comparison of two fronts: the end sorts behind a tilde and before the rest. */
  function Lexical(x: Bytes, y: Bytes): int {
    if x == [] && y == [] then 0
    else if x == [] then (if y[0] == '~' then 1 else -1)
    else if y == [] then (if x[0] == '~' then -1 else 1)
    else if x[0] == y[0] then Lexical(x[1..], y[1..])
    else if SortsBefore(x[0], y[0]) then -1 else 1
  }

  /** The fronts of non-digits are compared lexically, then the fronts of digits as numbers,
      and so on in turns until a difference is found or both parts are used up. */
  function PolicyOrder(a: Bytes, b: Bytes): int
    decreases |a| + |b|
  {
    var x, y := NonDigits(a), NonDigits(b);
    var c, d := a[|x|..], b[|y|..];
    if a == [] && b == [] then 0
    else if Lexical(x, y) != 0 then Lexical(x, y)
    else if Number(c) != Number(d) then Sign(Number(c) - Number(d))
    else
      FrontsShrink(a);
      FrontsShrink(b);
      PolicyOrder(Behind(c), Behind(d))
  }

  lemma FrontsShrink(s: Bytes)
    ensures var c := s[|NonDigits(s)|..];
      !AtRun(c) && |Behind(c)| <= |s| && (s != [] ==> |Behind(c)| < |s|)
  {
    NonDigitsEnd(s);
  }

  lemma {:induction false} NonDigitsEnd(s: Bytes)
    ensures !AtRun(s[|NonDigits(s)|..])
  {
    if s != [] && !IsDigit(s[0]) {
      NonDigitsEnd(s[1..]);
      assert s[1..][|NonDigits(s[1..])|..] == s[|NonDigits(s)|..];
    }
  }

  lemma {:induction false} FrontsDecide(a: Bytes, b: Bytes)
    ensures var x, y := NonDigits(a), NonDigits(b);
      PartOrder(a, b) == if Lexical(x, y) != 0 then Lexical(x, y) else PartOrder(a[|x|..], b[|y|..])
    decreases |a| + |b|
  {
    hide Key, CompareKeys, Order, SortsBefore;
    if AtRun(a) || AtRun(b) {
      CompareRuns(a, b);
      if AtRun(a) { FirstWeights(a[0], a[0]); } else if a != [] { DigitWeight(a[0]); }
      if AtRun(b) { FirstWeights(b[0], b[0]); } else if b != [] { DigitWeight(b[0]); }
      if AtRun(a) && AtRun(b) {
        FirstWeights(a[0], b[0]);
        if a[0] == b[0] {
          FrontsDecide(a[1..], b[1..]);
          assert NonDigits(a)[1..] == NonDigits(a[1..]) && NonDigits(b)[1..] == NonDigits(b[1..]);
          assert a[|NonDigits(a)|..] == a[1..][|NonDigits(a[1..])|..];
          assert b[|NonDigits(b)|..] == b[1..][|NonDigits(b[1..])|..];
        }
      }
    }
  }

  /** The order of parts is the one the policy describes. */
  lemma {:induction false} PartOrderIsPolicy(a: Bytes, b: Bytes)
    ensures PartOrder(a, b) == PolicyOrder(a, b)
    decreases |a| + |b|
  {
    hide Key, CompareKeys, Lexical, Number, Behind;
    FrontsDecide(a, b);
    var x, y := NonDigits(a), NonDigits(b);
    var c, d := a[|x|..], b[|y|..];
    FrontsShrink(a);
    FrontsShrink(b);
    CompareNumbers(c, d);
    if a == [] && b == [] {
      CompareEnds();
    } else if Lexical(x, y) == 0 && Number(c) == Number(d) {
      PartOrderIsPolicy(Behind(c), Behind(d));
    }
  }
}
