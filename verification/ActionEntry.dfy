/** The fixed-width record a cache keeps for an action.

    It holds the action's id, the id of its output, the output's size and a time, as
    hexadecimal digits and right-aligned decimal numbers separated by blanks. Ids of the
    cache's hash size make a record of one fixed size, and only such writes are accepted;
    reading a record inverts writing it. */
module ActionRecord {
  import opened Decimal
  import opened Wrappers

  /** Ids are never empty; everything that names a file after one reads its first byte. */
  type Id = b: Bytes | b != [] witness ['0']

  /** `size` and `time` (nanoseconds) are 64-bit integers. */
  datatype Entry = Entry(id: Id, outputId: Id, size: int, time: int)

  const HASH_SIZE := 32
  const ENTRY_SIZE: int := 2 + 1 + 2 * HASH_SIZE + 1 + 2 * HASH_SIZE + 1 + 20 + 1 + 20 + 1

  // ----- writing -----

  function HexDigit(n: nat): Byte
    requires n < 16
  {
    (if n < 10 then '0' as int + n else 'a' as int + n - 10) as char
  }

  function Hex(b: Bytes): (s: Bytes)
    ensures |s| == 2 * |b|
  {
    if b == [] then [] else [HexDigit(b[0] as int / 16), HexDigit(b[0] as int % 16)] + Hex(b[1..])
  }

  /** Every byte is two digits, the small letters among them, the high half first. */
  lemma {:induction false} HexDigits(b: Bytes, i: nat)
    requires i < |b|
    ensures var digits := "0123456789abcdef"; Hex(b)[2 * i..2 * i + 2] == [digits[b[i] as int / 16], digits[b[i] as int % 16]]
  {
    if i > 0 {
      HexDigits(b[1..], i - 1);
      assert Hex(b)[2..] == Hex(b[1..]);
      assert Hex(b)[2 * i..2 * i + 2] == Hex(b[1..])[2 * (i - 1)..2 * (i - 1) + 2];
    } else {
      DigitsListed(b[0] as int / 16);
      DigitsListed(b[0] as int % 16);
    }
  }

  lemma DigitsListed(n: nat)
    requires n < 16
    ensures HexDigit(n) == "0123456789abcdef"[n]
  {
  }

  function Spaces(n: nat): (s: Bytes)
    ensures |s| == n && forall i :: 0 <= i < n ==> s[i] == ' '
  {
    seq(n, i => ' ')
  }

  /** Right-aligned in at least 20 columns. */
  function Pad20(s: Bytes): Bytes {
    Spaces(if |s| < 20 then 20 - |s| else 0) + s
  }

  function Format(e: Entry): Bytes {
    "v1 " + (Hex(e.id) + (" " + (Hex(e.outputId) + (" " + (Pad20(FormatInt(e.size)) + (" " + (Pad20(FormatInt(e.time)) + "\n")))))))
  }

  /** What reaches the file, and whether the write is reported as a success. */
  function WriteTo(e: Entry): (Bytes, bool) {
    (Format(e), |Format(e)| == ENTRY_SIZE)
  }

  /** A number set right in a field of 20 columns. */
  predicate RightAligned(field: Bytes, number: Bytes) {
    && |field| == 20 && |number| <= 20 && field[20 - |number|..] == number
    && forall i :: 0 <= i < 20 - |number| ==> field[i] == ' '
  }

  lemma PadAligns(s: Bytes)
    requires |s| <= 20
    ensures RightAligned(Pad20(s), s)
  {
  }

  /** Where a record of hashes has its fields: id, output id, size and time, in that order. */
  lemma RecordLayout(e: Entry)
    requires Storable(e) && |e.id| == HASH_SIZE && |e.outputId| == HASH_SIZE
    ensures var f := Format(e);
      && |f| == 175 && f[..3] == "v1 " && f[67] == ' ' && f[132] == ' ' && f[153] == ' ' && f[174] == '\n'
      && f[3..67] == Hex(e.id) && f[68..132] == Hex(e.outputId)
      && RightAligned(f[133..153], FormatInt(e.size)) && RightAligned(f[154..174], FormatInt(e.time))
  {
    hide Hex, FormatInt, Pad20, RightAligned;
    Int64FitsTwentyColumns(e.size);
    Int64FitsTwentyColumns(e.time);
    PadAligns(FormatInt(e.size));
    PadAligns(FormatInt(e.time));
    assert |Pad20(FormatInt(e.size))| == 20 && |Pad20(FormatInt(e.time))| == 20 by { AlignedSize(e); }
    var f := Format(e);
    FieldsAt(Hex(e.id), Hex(e.outputId), Pad20(FormatInt(e.size)), Pad20(FormatInt(e.time)));
  }

  lemma AlignedSize(e: Entry)
    requires |FormatInt(e.size)| <= 20 && |FormatInt(e.time)| <= 20
    ensures |Pad20(FormatInt(e.size))| == 20 && |Pad20(FormatInt(e.time))| == 20
  {
    hide FormatInt;
  }

  lemma FieldsAt(a: Bytes, b: Bytes, c: Bytes, d: Bytes)
    requires |a| == 64 && |b| == 64 && |c| == 20 && |d| == 20
    ensures var f: Bytes := "v1 " + (a + (" " + (b + (" " + (c + (" " + (d + "\n")))))));
      && |f| == 175 && f[..3] == "v1 " && f[67] == ' ' && f[132] == ' ' && f[153] == ' ' && f[174] == '\n'
      && f[3..67] == a && f[68..132] == b && f[133..153] == c && f[154..174] == d
  {
  }

  // ----- reading -----

  datatype ParseError = BadSize | BadFormat

  datatype Result<T> = Ok(value: T) | Err(error: ParseError)

  predicate Blank(c: Byte) {
    c == ' ' || c == '\t' || c == '\r' || c as int == 11 || c as int == 12
  }

  function HexValue(c: Byte): Option<nat> {
    if '0' <= c <= '9' then Some(c as int - '0' as int)
    else if 'a' <= c <= 'f' then Some(c as int - 'a' as int + 10)
    else if 'A' <= c <= 'F' then Some(c as int - 'A' as int + 10)
    else None
  }

  function SkipBlanks(s: Bytes): Bytes {
    if s != [] && Blank(s[0]) then SkipBlanks(s[1..]) else s
  }

  /** A blank in the format: at least one in the input, unless the input has ended. */
  function ScanBlanks(s: Bytes): Option<Bytes> {
    if s == [] || Blank(s[0]) then Some(SkipBlanks(s)) else None
  }

  /** Pairs of hexadecimal digits up to the first other character. */
  function ScanPairs(s: Bytes): Option<(Bytes, Bytes)>
    decreases |s|
  {
    if s == [] || HexValue(s[0]) == None then Some(([], s))
    else if |s| < 2 || HexValue(s[1]) == None then None
    else
      match ScanPairs(s[2..])
      case None => None
      case Some((b, rest)) => Some(([(16 * HexValue(s[0]).value + HexValue(s[1]).value) as char] + b, rest))
  }

  /** A field of no digits at all is refused. */
  function ScanHex(s: Bytes): Option<(Id, Bytes)> {
    match ScanPairs(s)
    case None => None
    case Some((b, rest)) => if b == [] then None else Some((b, rest))
  }

  function ScanInt(s: Bytes): Option<(int, Bytes)> {
    var n := if s != [] && IsSign(s[0]) then 1 + DigitRun(s[1..]) else DigitRun(s);
    match ParseInt(s[..n]) case None => None case Some(v) => Some((v, s[n..]))
  }

  /** A newline in the format: blanks, then a newline or the end of the input. */
  predicate AtNewline(s: Bytes) {
    var r := SkipBlanks(s);
    r == [] || r[0] == '\n'
  }

  function ScanField<T>(s: Bytes, scan: Bytes -> Option<(T, Bytes)>): Option<(T, Bytes)> {
    match ScanBlanks(s) case None => None case Some(r) => scan(r)
  }

  function ScanEntry(s0: Bytes): Option<Entry> {
    if !(['v', '1'] <= s0) then None
    else
      match ScanField(s0[2..], ScanHex)
      case None => None
      case Some((id, s1)) =>
        match ScanField(s1, ScanHex)
        case None => None
        case Some((outputId, s2)) =>
          match ScanField(s2, ScanInt)
          case None => None
          case Some((size, s3)) =>
            match ScanField(s3, ScanInt)
            case None => None
            case Some((time, s4)) => if AtNewline(s4) then Some(Entry(id, outputId, size, time)) else None
  }

  function Parse(data: Bytes): Result<Entry> {
    if |data| != ENTRY_SIZE then Err(BadSize)
    else match ScanEntry(data) case None => Err(BadFormat) case Some(e) => Ok(e)
  }

  // ----- the round trip -----

  lemma {:induction false} ScanHexBack(b: Bytes, rest: Bytes)
    requires rest != [] && HexValue(rest[0]) == None
    ensures ScanPairs(Hex(b) + rest) == Some((b, rest))
    decreases |b|
  {
    if b == [] {
      assert Hex(b) + rest == rest;
    } else {
      var s := Hex(b) + rest;
      assert s[2..] == Hex(b[1..]) + rest;
      ScanHexBack(b[1..], rest);
      assert b == [b[0]] + b[1..];
    }
  }

  lemma {:induction false} SkipSpaces(n: nat, rest: Bytes)
    requires rest == [] || !Blank(rest[0])
    ensures SkipBlanks(Spaces(n) + rest) == rest
  {
    if n == 0 {
      assert Spaces(0) + rest == rest;
    } else {
      assert (Spaces(n) + rest)[1..] == Spaces(n - 1) + rest;
      SkipSpaces(n - 1, rest);
    }
  }

  lemma {:induction false} DigitRunOf(s: Bytes, rest: Bytes)
    requires Digits(s) && rest != [] && !IsDigit(rest[0])
    ensures DigitRun(s + rest) == |s|
  {
    if s == [] {
      assert s + rest == rest;
    } else {
      assert (s + rest)[1..] == s[1..] + rest;
      DigitRunOf(s[1..], rest);
    }
  }

  lemma ScanIntBack(n: int, rest: Bytes)
    requires IsInt64(n) && rest != [] && !IsDigit(rest[0])
    ensures ScanInt(FormatInt(n) + rest) == Some((n, rest))
  {
    hide ParseInt, FormatNat, DigitRun;
    var d := FormatNat(if n < 0 then -n else n);
    var s := FormatInt(n) + rest;
    ParseFormat(n);
    DigitRunOf(d, rest);
    if n < 0 {
      assert s[1..] == d + rest;
    } else {
      assert s == d + rest && s[0] == d[0];
    }
    assert s[..|FormatInt(n)|] == FormatInt(n) && s[|FormatInt(n)|..] == rest;
  }

  lemma FieldHexBack(b: Id, rest: Bytes)
    requires rest != [] && HexValue(rest[0]) == None
    ensures ScanField(" " + (Hex(b) + rest), ScanHex) == Some((b, rest))
  {
    var tail := Hex(b) + rest;
    assert tail[0] == HexDigit(b[0] as int / 16);
    assert SkipBlanks(tail) == tail;
    assert (" " + tail)[1..] == tail;
    ScanHexBack(b, rest);
  }

  lemma FieldIntBack(n: int, rest: Bytes)
    requires IsInt64(n) && rest != [] && !IsDigit(rest[0])
    ensures ScanField(" " + (Pad20(FormatInt(n)) + rest), ScanInt) == Some((n, rest))
  {
    hide ScanInt, FormatNat;
    var s := FormatInt(n);
    var k := if |s| < 20 then 20 - |s| else 0;
    var tail := s + rest;
    assert !Blank(s[0]) && tail[0] == s[0];
    assert Pad20(s) + rest == Spaces(k) + tail;
    var input := " " + (Pad20(s) + rest);
    assert input == Spaces(k + 1) + tail;
    SkipSpaces(k + 1, tail);
    assert Blank(input[0]);
    ScanIntBack(n, rest);
  }

  predicate Storable(e: Entry) {
    IsInt64(e.size) && IsInt64(e.time)
  }

  /** A write succeeds exactly when the two ids take 64 bytes together; every 64-bit size
      and time, sign included, fits its columns. */
  lemma WrittenSize(e: Entry)
    requires Storable(e)
    ensures WriteTo(e).1 <==> |e.id| + |e.outputId| == 2 * HASH_SIZE
  {
    hide FormatInt, Hex;
    Int64FitsTwentyColumns(e.size);
    Int64FitsTwentyColumns(e.time);
    assert |Pad20(FormatInt(e.size))| == 20 && |Pad20(FormatInt(e.time))| == 20;
  }

  /** Parsing a written record gives the entry back. */
  lemma ParseInvertsFormat(e: Entry)
    requires Storable(e)
    ensures ScanEntry(Format(e)) == Some(e)
    ensures WriteTo(e).1 ==> Parse(Format(e)) == Ok(e)
  {
    hide Hex, Pad20, FormatInt, ScanField;
    var r4 := "\n";
    var r3 := " " + (Pad20(FormatInt(e.time)) + r4);
    var r2 := " " + (Pad20(FormatInt(e.size)) + r3);
    var r1 := " " + (Hex(e.outputId) + r2);
    var r0 := " " + (Hex(e.id) + r1);
    assert Format(e) == ['v', '1'] + r0;
    assert Format(e)[2..] == r0;
    FieldHexBack(e.id, r1);
    FieldHexBack(e.outputId, r2);
    FieldIntBack(e.size, r3);
    FieldIntBack(e.time, r4);
  }

  /** The records of a cache with hashes as ids: exactly `ENTRY_SIZE` bytes, and back. */
  lemma HashEntryRoundTrip(e: Entry)
    requires Storable(e) && |e.id| == HASH_SIZE && |e.outputId| == HASH_SIZE
    ensures |Format(e)| == ENTRY_SIZE && WriteTo(e).1 && Parse(Format(e)) == Ok(e)
  {
    hide Format, Parse;
    WrittenSize(e);
    ParseInvertsFormat(e);
  }
}
