/** Which bytes are read as a record, as a grammar.

    The scanner reads `v1`, two fields of hexadecimal digits and two numbers, each behind
    blanks, and a newline. The grammar says so declaratively: digits of either case, signs,
    any number of blanks, and anything behind the newline. The main result is that a record
    of the right size is parsed to an entry exactly when the grammar says it spells it. */
module ActionRecordText {
  import opened Decimal
  import opened Wrappers
  import opened ActionRecord

  predicate Blanks(w: Bytes) {
    forall i :: 0 <= i < |w| ==> Blank(w[i])
  }

  /** Two hexadecimal digits a byte, in either case. */
  predicate HexText(h: Bytes, b: Bytes) {
    && |h| == 2 * |b|
    && forall i :: 0 <= i < |b| ==> HexPair(h[2 * i], h[2 * i + 1], b[i])
  }

  predicate HexPair(high: Byte, low: Byte, c: Byte) {
    HexValue(high).Some? && HexValue(low).Some? && c as int == 16 * HexValue(high).value + HexValue(low).value
  }

  /** At least one blank, and the digits of some bytes. */
  ghost predicate HexField(f: Bytes, b: Bytes) {
    exists n: nat :: 0 < n <= |f| && Blanks(f[..n]) && b != [] && HexText(f[n..], b)
  }

  /** At least one blank, and a number. */
  ghost predicate IntField(f: Bytes, v: int) {
    exists n: nat :: 0 < n <= |f| && Blanks(f[..n]) && ParseInt(f[n..]) == Some(v)
  }

  /** Blanks up to a newline or the end; what follows the newline does not matter. */
  ghost predicate Tail(t: Bytes) {
    exists n: nat :: n <= |t| && Blanks(t[..n]) && (n == |t| || t[n] == '\n')
  }

  /** `s` is `f` and what follows. */
  predicate Begins(s: Bytes, f: Bytes, rest: Bytes) {
    s == f + rest
  }

  ghost predicate RecordText(s: Bytes, e: Entry) {
    exists f1, f2, f3, f4, t :: FieldsOf(s, f1, f2, f3, f4, t, e)
  }

  ghost predicate FieldsOf(s: Bytes, f1: Bytes, f2: Bytes, f3: Bytes, f4: Bytes, t: Bytes, e: Entry) {
    && s == ['v', '1'] + (f1 + (f2 + (f3 + (f4 + t))))
    && HexField(f1, e.id) && HexField(f2, e.outputId) && IntField(f3, e.size) && IntField(f4, e.time) && Tail(t)
  }

  // ----- blanks -----

  lemma {:induction false} BlanksSkipped(w: Bytes, s: Bytes)
    requires Blanks(w) && (s == [] || !Blank(s[0]))
    ensures SkipBlanks(w + s) == s
  {
    if w == [] {
      assert w + s == s;
    } else {
      assert (w + s)[1..] == w[1..] + s;
      BlanksSkipped(w[1..], s);
    }
  }

  lemma {:induction false} SkippedAreBlanks(s: Bytes) returns (n: nat)
    ensures n <= |s| && Blanks(s[..n]) && SkipBlanks(s) == s[n..] && (n < |s| ==> !Blank(s[n]))
    ensures s != [] && Blank(s[0]) ==> n > 0
  {
    hide Blank;
    n := 0;
    if s != [] && Blank(s[0]) {
      n := SkippedAreBlanks(s[1..]);
      assert s[..n + 1] == [s[0]] + s[1..][..n];
      assert s[1..][n..] == s[n + 1..];
      n := n + 1;
    }
  }

  // ----- hexadecimal fields -----

  lemma {:induction false} PairsScanned(h: Bytes, b: Bytes, rest: Bytes)
    requires HexText(h, b) && (rest == [] || HexValue(rest[0]) == None)
    ensures ScanPairs(h + rest) == Some((b, rest))
    decreases |b|
  {
    hide HexValue;
    if b == [] {
      assert h + rest == rest;
    } else {
      assert HexPair(h[2 * 0], h[2 * 0 + 1], b[0]);
      forall i | 0 <= i < |b| - 1 ensures HexPair(h[2..][2 * i], h[2..][2 * i + 1], b[1..][i]) {
        assert HexPair(h[2 * (i + 1)], h[2 * (i + 1) + 1], b[i + 1]);
      }
      PairsScanned(h[2..], b[1..], rest);
      assert (h + rest)[2..] == h[2..] + rest;
      assert b == [b[0]] + b[1..];
    }
  }

  lemma HexIsSmall(c: Byte)
    ensures HexValue(c).Some? ==> HexValue(c).value < 16
  {
  }

  lemma {:induction false} ScannedPairs(s: Bytes)
    requires ScanPairs(s).Some?
    ensures var (b, rest) := ScanPairs(s).value;
      2 * |b| <= |s| && rest == s[2 * |b|..] && HexText(s[..2 * |b|], b) && (rest == [] || HexValue(rest[0]) == None)
    decreases |s|
  {
    hide HexValue;
    if s != [] && HexValue(s[0]).Some? {
      ScannedPairs(s[2..]);
      var (b, rest) := ScanPairs(s[2..]).value;
      var c := ScanPairs(s).value.0;
      HexIsSmall(s[0]);
      HexIsSmall(s[1]);
      assert c[1..] == b;
      forall i | 0 <= i < |c| ensures HexPair(s[..2 * |c|][2 * i], s[..2 * |c|][2 * i + 1], c[i]) {
        if i > 0 {
          var t, j := s[2..][..2 * |b|], i - 1;
          assert HexPair(t[2 * j], t[2 * j + 1], b[j]);
          assert t[2 * j] == s[2 * i] && t[2 * j + 1] == s[2 * i + 1] && c[i] == b[j];
        }
      }
      assert s[2..][2 * |b|..] == s[2 * |c|..];
    }
  }

  lemma HexStart(h: Bytes, b: Bytes)
    requires b != [] && HexText(h, b)
    ensures h != [] && !Blank(h[0])
  {
    assert HexPair(h[2 * 0], h[2 * 0 + 1], b[0]);
  }

  lemma HexFieldScanned(f: Bytes, b: Id, rest: Bytes)
    requires HexField(f, b) && (rest == [] || HexValue(rest[0]) == None)
    ensures ScanField(f + rest, ScanHex) == Some((b, rest))
  {
    hide HexValue, HexText, Blank;
    var n: nat :| 0 < n <= |f| && Blanks(f[..n]) && b != [] && HexText(f[n..], b);
    HexStart(f[n..], b);
    assert f == f[..n] + f[n..];
    assert f + rest == f[..n] + (f[n..] + rest);
    BlanksSkipped(f[..n], f[n..] + rest);
    PairsScanned(f[n..], b, rest);
    assert Blank((f + rest)[0]) by { assert (f + rest)[0] == f[..n][0]; }
  }

  lemma ScannedHexField(s: Bytes) returns (f: Bytes)
    requires ScanField(s, ScanHex).Some?
    ensures var (b, rest) := ScanField(s, ScanHex).value; s == f + rest && HexField(f, b)
  {
    hide HexValue, HexText, Blank;
    var (b, rest) := ScanField(s, ScanHex).value;
    var n := SkippedAreBlanks(s);
    ScannedPairs(s[n..]);
    f := s[..n + 2 * |b|];
    assert f[..n] == s[..n] && f[n..] == s[n..][..2 * |b|];
    assert s[n..][2 * |b|..] == s[n + 2 * |b|..];
    assert 0 < n <= |f| && Blanks(f[..n]) && HexText(f[n..], b);
  }

  // ----- number fields -----

  lemma IntFieldScanned(f: Bytes, v: int, rest: Bytes)
    requires IntField(f, v) && (rest == [] || !IsDigit(rest[0]))
    ensures ScanField(f + rest, ScanInt) == Some((v, rest))
  {
    hide Value, ScanInt, ParseInt;
    var n: nat :| 0 < n <= |f| && Blanks(f[..n]) && ParseInt(f[n..]) == Some(v);
    NumberStart(f[n..]);
    assert f + rest == f[..n] + (f[n..] + rest);
    BlanksSkipped(f[..n], f[n..] + rest);
    assert Blank((f + rest)[0]) by { assert (f + rest)[0] == f[..n][0]; }
    NumberScanned(f[n..], v, rest);
  }

  lemma NumberStart(d: Bytes)
    requires ParseInt(d).Some?
    ensures d != [] && !Blank(d[0])
  {
    hide Value;
  }

  lemma NumberScanned(d: Bytes, v: int, rest: Bytes)
    requires ParseInt(d) == Some(v) && (rest == [] || !IsDigit(rest[0]))
    ensures ScanInt(d + rest) == Some((v, rest))
  {
    hide Value, DigitRun;
    var s := d + rest;
    if IsSign(d[0]) {
      assert s[1..] == d[1..] + rest;
      RunEnds(d[1..], rest);
    } else {
      assert s[0] == d[0];
      RunEnds(d, rest);
    }
    assert s[..|d|] == d && s[|d|..] == rest;
  }

  lemma {:induction false} RunEnds(d: Bytes, rest: Bytes)
    requires Digits(d) && (rest == [] || !IsDigit(rest[0]))
    ensures DigitRun(d + rest) == |d|
  {
    if d == [] {
      assert d + rest == rest;
    } else {
      assert (d + rest)[1..] == d[1..] + rest;
      RunEnds(d[1..], rest);
    }
  }

  lemma ScannedIntField(s: Bytes) returns (f: Bytes)
    requires ScanField(s, ScanInt).Some?
    ensures var (v, rest) := ScanField(s, ScanInt).value; s == f + rest && IntField(f, v)
  {
    hide Value, Blank, DigitRun, ParseInt;
    var (v, rest) := ScanField(s, ScanInt).value;
    var n := SkippedAreBlanks(s);
    var r := s[n..];
    var m := if r != [] && IsSign(r[0]) then 1 + DigitRun(r[1..]) else DigitRun(r);
    if s == [] { NumberStart(r[..m]); }
    f := s[..n + m];
    assert f[..n] == s[..n] && f[n..] == r[..m];
    assert r[m..] == s[n + m..];
    assert 0 < n <= |f| && Blanks(f[..n]) && ParseInt(f[n..]) == Some(v);
  }

  // ----- the record -----

  lemma TailIsNewline(t: Bytes)
    ensures AtNewline(t) <==> Tail(t)
  {
    hide Blank;
    var n := SkippedAreBlanks(t);
    if AtNewline(t) { assert n <= |t| && Blanks(t[..n]) && (n == |t| || t[n] == '\n'); }
    if Tail(t) {
      var k: nat :| k <= |t| && Blanks(t[..k]) && (k == |t| || t[k] == '\n');
      assert t == t[..k] + t[k..];
      assert !Blank('\n') by { NewlineIsNoBlank(); }
      BlanksSkipped(t[..k], t[k..]);
    }
  }

  lemma NewlineIsNoBlank()
    ensures !Blank('\n')
  {
  }

  /** What a field or the tail begins with ends the field before it. */
  lemma FieldEnds(f: Bytes, rest: Bytes)
    requires (exists b :: HexField(f, b)) || (exists v :: IntField(f, v))
    ensures f != [] && HexValue((f + rest)[0]) == None && !IsDigit((f + rest)[0])
  {
    var n: nat :| 0 < n <= |f| && Blanks(f[..n]);
    assert f[..n][0] == f[0] == (f + rest)[0];
  }

  lemma TailEnds(t: Bytes)
    requires Tail(t)
    ensures t == [] || !IsDigit(t[0])
  {
    var n: nat :| n <= |t| && Blanks(t[..n]) && (n == |t| || t[n] == '\n');
    if n > 0 { assert t[..n][0] == t[0]; }
  }

  /** The bytes of one record's size that are read as an entry are exactly those of the
      form: `v1`, two hexadecimal fields, two numbers, each behind blanks, and a newline. */
  lemma ParseIff(data: Bytes, e: Entry)
    ensures Parse(data) == Ok(e) <==> |data| == ENTRY_SIZE && RecordText(data, e)
  {
    hide ScanField, HexField, IntField, Tail, AtNewline;
    if Parse(data) == Ok(e) { ParsedIsText(data, e); }
    if RecordText(data, e) {
      var f1, f2, f3, f4, t :| FieldsOf(data, f1, f2, f3, f4, t, e);
      TextIsScanned(data, f1, f2, f3, f4, t, e);
    }
  }

  lemma TextIsScanned(s: Bytes, f1: Bytes, f2: Bytes, f3: Bytes, f4: Bytes, t: Bytes, e: Entry)
    requires FieldsOf(s, f1, f2, f3, f4, t, e)
    ensures ScanEntry(s) == Some(e)
  {
    hide ScanField, HexField, IntField, Tail, AtNewline, HexValue;
    var s4 := f4 + t;
    var s3 := f3 + s4;
    var s2 := f2 + s3;
    FieldEnds(f2, s3);
    FieldEnds(f3, s4);
    FieldEnds(f4, t);
    TailEnds(t);
    assert s[2..] == f1 + s2;
    HexFieldScanned(f1, e.id, s2);
    HexFieldScanned(f2, e.outputId, s3);
    IntFieldScanned(f3, e.size, s4);
    IntFieldScanned(f4, e.time, t);
    TailIsNewline(t);
  }

  lemma ParsedIsText(s: Bytes, e: Entry)
    requires ScanEntry(s) == Some(e)
    ensures RecordText(s, e)
  {
    hide ScanField, HexField, IntField, Tail, AtNewline;
    var s1 := s[2..];
    var f1 := ScannedHexField(s1);
    var s2 := ScanField(s1, ScanHex).value.1;
    var f2 := ScannedHexField(s2);
    var s3 := ScanField(s2, ScanHex).value.1;
    var f3 := ScannedIntField(s3);
    var s4 := ScanField(s3, ScanInt).value.1;
    var f4 := ScannedIntField(s4);
    var t := ScanField(s4, ScanInt).value.1;
    TailIsNewline(t);
    assert s == ['v', '1'] + s1;
    assert FieldsOf(s, f1, f2, f3, f4, t, e);
  }
}
