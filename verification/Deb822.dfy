/** Stanzas of `key: value` lines (section 5.1 of the Debian Policy Manual). */
module Deb822 {
  // Values are single lines. Text is a sequence of characters; white space is recognized
  // among the first 256 code points.

  import opened LineText
  import opened Wrappers

  type Content = map<string, string>

  // ----- a predictable order of keys -----

  /** Strings in the order of their characters. */
  predicate Less(a: string, b: string) {
    b != [] && (a == [] || a[0] < b[0] || (a[0] == b[0] && Less(a[1..], b[1..])))
  }

  lemma {:induction false} LessIsTotal(a: string, b: string)
    ensures Less(a, b) || Less(b, a) || a == b
    ensures !(Less(a, b) && Less(b, a)) && (a == b ==> !Less(a, b))
  {
    if a != [] && b != [] {
      LessIsTotal(a[1..], b[1..]);
      assert a == [a[0]] + a[1..] && b == [b[0]] + b[1..];
    }
  }

  lemma {:induction false} LessIsTransitive(a: string, b: string, c: string)
    requires Less(a, b) && Less(b, c)
    ensures Less(a, c)
  {
    if a != [] && a[0] == b[0] == c[0] { LessIsTransitive(a[1..], b[1..], c[1..]); }
  }

  /** Behind a common front the smaller character decides, and the end comes before all. */
  lemma {:induction false} LessDecided(p: string, a: string, b: string)
    requires (a == [] || b == [] || a[0] != b[0])
    ensures Less(p + a, p + b) <==> b != [] && (a == [] || a[0] < b[0])
  {
    if p == [] {
      assert p + a == a && p + b == b;
    } else {
      assert (p + a)[1..] == p[1..] + a && (p + b)[1..] == p[1..] + b;
      LessDecided(p[1..], a, b);
    }
  }

  predicate Increasing(keys: seq<string>) {
    forall i, j :: 0 <= i < j < |keys| ==> Less(keys[i], keys[j])
  }

  function InsertKey(keys: seq<string>, k: string): seq<string> {
    if keys == [] || Less(k, keys[0]) then [k] + keys else [keys[0]] + InsertKey(keys[1..], k)
  }

  function SortKeys(keys: seq<string>): seq<string> {
    if keys == [] then [] else InsertKey(SortKeys(keys[1..]), keys[0])
  }

  predicate Distinct(keys: seq<string>) {
    forall i, j :: 0 <= i < j < |keys| ==> keys[i] != keys[j]
  }

  lemma {:induction false} InsertKeeps(keys: seq<string>, k: string)
    requires Increasing(keys) && k !in keys
    ensures Increasing(InsertKey(keys, k)) && Elements(InsertKey(keys, k)) == Elements(keys) + {k}
  {
    if keys == [] {
    } else if Less(k, keys[0]) {
      forall j | 0 <= j < |keys| ensures Less(k, keys[j]) {
        if j > 0 { LessIsTransitive(k, keys[0], keys[j]); }
      }
    } else {
      var rest := InsertKey(keys[1..], k);
      InsertKeeps(keys[1..], k);
      LessIsTotal(k, keys[0]);
      forall x | x in rest ensures Less(keys[0], x) {
        assert x in Elements(rest);
        if x != k { var j :| 0 <= j < |keys[1..]| && keys[1..][j] == x; assert keys[j + 1] == x; }
      }
      assert keys == [keys[0]] + keys[1..];
    }
  }

  lemma {:induction false} SortSorts(keys: seq<string>)
    requires Distinct(keys)
    ensures Increasing(SortKeys(keys)) && Elements(SortKeys(keys)) == Elements(keys)
  {
    if keys != [] {
      SortSorts(keys[1..]);
      assert keys[0] !in keys[1..];
      assert keys[0] !in Elements(SortKeys(keys[1..]));
      InsertKeeps(SortKeys(keys[1..]), keys[0]);
      assert keys == [keys[0]] + keys[1..];
    }
  }

  lemma ElementsEmpty(a: seq<string>)
    ensures a == [] <==> Elements(a) == {}
  {
    if a != [] { assert a[0] in Elements(a); }
  }

  /** There is one increasing sequence of the keys of a set. */
  lemma {:induction false} IncreasingIsUnique(a: seq<string>, b: seq<string>)
    requires Increasing(a) && Increasing(b) && Elements(a) == Elements(b)
    ensures a == b
  {
    ElementsEmpty(a);
    ElementsEmpty(b);
    if a != [] {
      LessIsTotal(a[0], b[0]);
      assert a[0] in Elements(b) && b[0] in Elements(a);
      assert a[0] == b[0];
      TailElements(a);
      TailElements(b);
      IncreasingIsUnique(a[1..], b[1..]);
    }
  }

  lemma TailElements(a: seq<string>)
    requires a != [] && Increasing(a)
    ensures Elements(a[1..]) == Elements(a) - {a[0]} && Increasing(a[1..])
  {
    LessIsTotal(a[0], a[0]);
    assert forall j :: 0 < j < |a| ==> a[j] == a[1..][j - 1] && Less(a[0], a[j]);
  }

  // ----- writing -----

  function KeyLine(key: string, value: string): string {
    key + ": " + value + "\n"
  }

  /** The lines of some keys, without those whose value is missing or empty. */
  function Lines(content: Content, keys: seq<string>): string {
    if keys == [] then []
    else
      var last := keys[|keys| - 1];
      Lines(content, keys[..|keys| - 1]) + if last in content && content[last] != "" then KeyLine(last, content[last]) else []
  }

  /** The keys that are not among `firstKeys`. */
  ghost function ExtraKeys(content: Content, firstKeys: seq<string>): set<string> {
    set k | k in content && k !in firstKeys && content[k] != ""
  }

  /** `text` is what formatting `content` writes. */
  ghost predicate Formatted(content: Content, firstKeys: seq<string>, text: string) {
    exists extra :: IsExtra(content, firstKeys, extra) && text == Lines(content, firstKeys) + Lines(content, extra)
  }

  ghost predicate IsExtra(content: Content, firstKeys: seq<string>, extra: seq<string>) {
    Increasing(extra) && Elements(extra) == ExtraKeys(content, firstKeys)
  }

  /** Whatever order the map is iterated in, the keys come in one order: `firstKeys`, then
      the others increasingly. */
  method FormatDeb822Stanza(content: Content, firstKeys: seq<string>) returns (out: string)
    ensures Formatted(content, firstKeys, out)
  {
    out := WriteKeys("", content, firstKeys);
    var extraKeys: seq<string> := [];
    var todo := content.Keys;
    while todo != {}
      invariant todo <= content.Keys && Distinct(extraKeys)
      invariant Elements(extraKeys) == set k | k in content && k !in todo && k !in firstKeys && content[k] != ""
      decreases todo
    {
      var key :| key in todo;
      todo := todo - {key};
      if key !in firstKeys && content[key] != "" {
        assert key !in Elements(extraKeys);
        assert Elements(extraKeys + [key]) == Elements(extraKeys) + {key};
        extraKeys := extraKeys + [key];
      }
    }
    SortSorts(extraKeys);
    extraKeys := SortKeys(extraKeys);
    assert IsExtra(content, firstKeys, extraKeys);
    out := WriteKeys(out, content, extraKeys);
    assert "" + Lines(content, firstKeys) == Lines(content, firstKeys);
  }

  /** There is only one text to write. */
  lemma FormattedIsUnique(content: Content, firstKeys: seq<string>, a: string, b: string)
    requires Formatted(content, firstKeys, a) && Formatted(content, firstKeys, b)
    ensures a == b
  {
    hide Lines, Increasing;
    var x :| IsExtra(content, firstKeys, x) && a == Lines(content, firstKeys) + Lines(content, x);
    var y :| IsExtra(content, firstKeys, y) && b == Lines(content, firstKeys) + Lines(content, y);
    IncreasingIsUnique(x, y);
  }

  method WriteKeys(out0: string, content: Content, keys: seq<string>) returns (out: string)
    ensures out == out0 + Lines(content, keys)
  {
    out := out0;
    for i := 0 to |keys|
      invariant out == out0 + Lines(content, keys[..i])
    {
      assert keys[..i + 1][..i] == keys[..i];
      var key := keys[i];
      if key in content && content[key] != "" {
        out := out + KeyLine(key, content[key]);
      }
    }
    assert keys[..|keys|] == keys;
  }

  // ----- reading -----

  datatype ParseError = KeyNotAscii | NoPredecessor | NoColon | KeyHasSpace | DuplicateKey

  datatype Result<T> = Ok(value: T) | Err(error: ParseError)

  function ColonIn(line: string): (i: nat)
    ensures i <= |line| && ':' !in line[..i] && (i < |line| ==> line[i] == ':')
  {
    if line == [] || line[0] == ':' then 0
    else
      var i := ColonIn(line[1..]);
      assert line[..i + 1] == [line[0]] + line[1..][..i];
      i + 1
  }

  predicate HasSpace(key: string) {
    exists i :: 0 <= i < |key| && IsSpace(key[i])
  }

  /** What one line does to the content read so far and the key a continuation goes to. */
  function ParseLine(line: string, content: Content, lastKey: string): Result<(Content, string)>
    requires line != [] && (lastKey != "" ==> lastKey in content)
  {
    if line[0] == '#' then Ok((content, lastKey))
    else if line[0] as int >= 0x80 then Err(KeyNotAscii)
    else if IsSpace(line[0]) then
      if lastKey == "" then Err(NoPredecessor)
      else Ok((content[lastKey := content[lastKey] + " " + Trim(line)], lastKey))
    else
      var i := ColonIn(line);
      if i == |line| then Err(NoColon)
      else if HasSpace(line[..i]) then Err(KeyHasSpace)
      else if line[..i] in content then Err(DuplicateKey)
      else Ok((content[line[..i] := Trim(line[i + 1..])], line[..i]))
  }

  /** The length of the first line, its newline included. */
  function FirstLine(text: string): (n: nat)
    requires text != []
    ensures 0 < n <= |text|
  {
    if LineEnd(text) < |text| then LineEnd(text) + 1 else |text|
  }

  function ParseFrom(text: string, content: Content, lastKey: string): Result<Content>
    requires lastKey != "" ==> lastKey in content
    decreases |text|
  {
    if text == [] then Ok(content)
    else
      var n := FirstLine(text);
      match ParseLine(text[..n], content, lastKey)
      case Err(e) => Err(e)
      case Ok((content', lastKey')) => ParseFrom(text[n..], content', lastKey')
  }

  function Parse(text: string): Result<Content> {
    ParseFrom(text, map[], "")
  }

  method ParseDeb822Stanza(text: string) returns (r: Result<Content>)
    ensures r == Parse(text)
  {
    var content: Content := map[];
    var lastKey := "";
    var rest := text;
    while rest != []
      invariant lastKey != "" ==> lastKey in content
      invariant ParseFrom(rest, content, lastKey) == Parse(text)
      decreases |rest|
    {
      var n := FirstLine(rest);
      var line := rest[..n];
      var read := ParseLine(line, content, lastKey);
      if read.Err? {
        return Err(read.error);
      }
      content, lastKey := read.value.0, read.value.1;
      rest := rest[n..];
    }
    r := Ok(content);
  }

  // ----- the round trip -----

  /** A key a line can carry. */
  predicate WellFormedKey(k: string) {
    && (k != [] ==> k[0] != '#' && (k[0] as int) < 0x80)
    && ':' !in k && !HasSpace(k)
  }

  predicate SingleLine(v: string) {
    '\n' !in v
  }

  lemma KeyLineParses(k: string, v: string, rest: string, content: Content, lastKey: string)
    requires WellFormedKey(k) && SingleLine(v) && k !in content && (lastKey != "" ==> lastKey in content)
    ensures ParseFrom(KeyLine(k, v) + rest, content, lastKey) == ParseFrom(rest, content[k := Trim(v)], k)
  {
    var front := k + ": " + v;
    var text := KeyLine(k, v) + rest;
    assert text == front + ['\n'] + rest;
    assert forall i :: 0 <= i < |k| ==> !IsSpace(k[i]);
    LineEndAt(front, rest);
    var line := KeyLine(k, v);
    assert text[..FirstLine(text)] == line && text[FirstLine(text)..] == rest;
    KeyLineRead(k, v, content, lastKey);
  }

  lemma KeyLineRead(k: string, v: string, content: Content, lastKey: string)
    requires WellFormedKey(k) && SingleLine(v) && k !in content && (lastKey != "" ==> lastKey in content)
    ensures ParseLine(KeyLine(k, v), content, lastKey) == Ok((content[k := Trim(v)], k))
  {
    var line := KeyLine(k, v);
    assert line[0] == (k + ":")[0];
    assert k != [] ==> k[0] == line[0] && !IsSpace(k[0]);
    ColonAt(k, " " + v + "\n");
    assert line == k + [':'] + (" " + v + "\n");
    assert line[..|k|] == k && line[|k| + 1..] == " " + v + "\n";
    TrimSpaceBehind(" " + v, '\n');
    assert (" " + v)[1..] == v;
    assert TrimLeft(" " + v) == TrimLeft(v);
  }

  lemma ColonAt(k: string, rest: string)
    requires ':' !in k
    ensures ColonIn(k + [':'] + rest) == |k|
  {
    var line := k + [':'] + rest;
    var i := ColonIn(line);
    assert line[|k|] == ':';
    assert forall j :: 0 <= j < |k| ==> line[j] == k[j] != ':';
    assert forall j :: 0 <= j < i ==> line[..i][j] == line[j] != ':';
  }

  /** The content that some written keys carry. */
  ghost function Carried(content: Content, keys: seq<string>): Content {
    map k | k in keys && k in content && content[k] != "" :: Trim(content[k])
  }

  predicate Shown(content: Content, k: string) {
    k in content && content[k] != ""
  }

  ghost predicate AllCarriable(content: Content, keys: seq<string>) {
    forall i :: 0 <= i < |keys| && Shown(content, keys[i]) ==> WellFormedKey(keys[i]) && SingleLine(content[keys[i]])
  }

  lemma CarriedNext(content: Content, keys: seq<string>, acc: Content)
    requires keys != [] && Distinct(keys)
    ensures acc + Carried(content, keys) ==
      (if Shown(content, keys[0]) then acc[keys[0] := Trim(content[keys[0]])] else acc) + Carried(content, keys[1..])
  {
    hide Trim;
    assert keys == [keys[0]] + keys[1..];
    assert keys[0] !in keys[1..];
  }

  lemma {:induction false} LinesParse(content: Content, keys: seq<string>, acc: Content, lastKey: string)
    requires AllCarriable(content, keys) && Distinct(keys)
    requires (forall k :: k in keys ==> k !in acc) && (lastKey != "" ==> lastKey in acc)
    ensures ParseFrom(Lines(content, keys), acc, lastKey) == Ok(acc + Carried(content, keys))
    decreases |keys|
  {
    hide Lines, ParseFrom, WellFormedKey, SingleLine, KeyLine, Carried, Trim;
    if keys == [] {
      NoLines(content, acc, lastKey);
    } else {
      var k, rest := keys[0], Lines(content, keys[1..]);
      assert keys[..1] == [k] && keys == [k] + keys[1..];
      assert k !in keys[1..];
      LinesSplit(content, [k], keys[1..]);
      OneLine(content, k);
      CarriedNext(content, keys, acc);
      if Shown(content, k) {
        KeyLineParses(k, content[k], rest, acc, lastKey);
        LinesParse(content, keys[1..], acc[k := Trim(content[k])], k);
      } else {
        assert [] + rest == rest;
        LinesParse(content, keys[1..], acc, lastKey);
      }
    }
  }

  lemma NoLines(content: Content, acc: Content, lastKey: string)
    requires lastKey != "" ==> lastKey in acc
    ensures ParseFrom(Lines(content, []), acc, lastKey) == Ok(acc + Carried(content, []))
  {
    assert Carried(content, []) == map[] && acc + map[] == acc;
  }

  lemma OneLine(content: Content, k: string)
    ensures Lines(content, [k]) == if k in content && content[k] != "" then KeyLine(k, content[k]) else []
  {
    assert [k][..0] == [];
    assert Lines(content, []) == [];
  }

  /** A content a stanza can carry unchanged. */
  predicate WellFormed(content: Content) {
    forall k :: k in content ==> WellFormedKey(k) && SingleLine(content[k]) && content[k] != "" && Trimmed(content[k])
  }

  lemma {:induction false} LinesSplit(content: Content, a: seq<string>, b: seq<string>)
    ensures Lines(content, a + b) == Lines(content, a) + Lines(content, b)
  {
    hide KeyLine;
    if b == [] {
      assert a + b == a;
      assert Lines(content, b) == [];
    } else {
      var n := |b| - 1;
      assert (a + b)[..|a + b| - 1] == a + b[..n];
      LinesSplit(content, a, b[..n]);
    }
  }

  /** Formatting then parsing gives each non-empty value back, trimmed. */
  lemma ParseFormatted(content: Content, firstKeys: seq<string>, text: string)
    requires Distinct(firstKeys) && Formatted(content, firstKeys, text)
    requires forall k :: k in content && content[k] != "" ==> WellFormedKey(k) && SingleLine(content[k])
    ensures Parse(text) == Ok(map k | k in content && content[k] != "" :: Trim(content[k]))
  {
    hide Lines, ParseFrom;
    var extra :| IsExtra(content, firstKeys, extra) && text == Lines(content, firstKeys) + Lines(content, extra);
    var keys := firstKeys + extra;
    LinesSplit(content, firstKeys, extra);
    ExtraDistinct(content, firstKeys, extra);
    LinesParse(content, keys, map[], "");
    forall k | k in content && content[k] != "" ensures k in keys {
      if k !in firstKeys { assert k in Elements(extra); }
    }
    assert map[] + Carried(content, keys) == map k | k in content && content[k] != "" :: Trim(content[k]);
  }

  lemma ExtraDistinct(content: Content, firstKeys: seq<string>, extra: seq<string>)
    requires Distinct(firstKeys) && IsExtra(content, firstKeys, extra)
    ensures Distinct(firstKeys + extra)
  {
    forall i, j | 0 <= i < j < |extra| ensures extra[i] != extra[j] { LessIsTotal(extra[i], extra[j]); }
    forall j | 0 <= j < |extra| ensures extra[j] !in firstKeys { assert extra[j] in Elements(extra); }
  }

  lemma FirstLineOfMore(front: string, more: string)
    requires front != [] && front[|front| - 1] == '\n'
    ensures FirstLine(front + more) == FirstLine(front)
    ensures var rest := front[FirstLine(front)..]; rest == [] || rest[|rest| - 1] == '\n'
  {
    var n := LineEnd(front);
    assert forall k :: 0 <= k < n ==> front[..n][k] == front[k] != '\n';
    LineEndAt(front[..n], front[n + 1..] + more);
    assert front + more == front[..n] + ['\n'] + (front[n + 1..] + more);
  }

  lemma ParseLineKeepsLast(line: string, content: Content, lastKey: string)
    requires line != [] && (lastKey != "" ==> lastKey in content)
    ensures var r := ParseLine(line, content, lastKey); r.Ok? && r.value.1 != "" ==> r.value.1 in r.value.0
  {
  }

  /** What parsing can produce: keys lines can carry and values on one line. */
  lemma {:induction false} ParsedIsClean(text: string, content: Content, lastKey: string)
    requires lastKey != "" ==> lastKey in content
    requires forall k :: k in content ==> WellFormedKey(k) && SingleLine(content[k])
    ensures var r := ParseFrom(text, content, lastKey);
      r.Ok? ==> forall k :: k in r.value ==> WellFormedKey(k) && SingleLine(r.value[k])
    decreases |text|
  {
    hide WellFormedKey, Trim, HasSpace, ColonIn;
    if text != [] {
      var n := FirstLine(text);
      var r := ParseLine(text[..n], content, lastKey);
      if r.Ok? {
        LineIsClean(text, content, lastKey);
        ParsedIsClean(text[n..], r.value.0, r.value.1);
      }
    }
  }

  lemma LineIsClean(text: string, content: Content, lastKey: string)
    requires text != [] && (lastKey != "" ==> lastKey in content)
    requires forall k :: k in content ==> WellFormedKey(k) && SingleLine(content[k])
    ensures var r := ParseLine(text[..FirstLine(text)], content, lastKey);
      && (r.Ok? && r.value.1 != "" ==> r.value.1 in r.value.0)
      && (r.Ok? ==> forall k :: k in r.value.0 ==> WellFormedKey(k) && SingleLine(r.value.0[k]))
  {
    var line := text[..FirstLine(text)];
    OnlyLastIsNewline(text);
    TrimDropsNewline(line);
    if ColonIn(line) < |line| {
      TrimDropsNewline(line[ColonIn(line) + 1..]);
    }
  }

  lemma OnlyLastIsNewline(text: string)
    requires text != []
    ensures var line := text[..FirstLine(text)]; forall i :: 0 <= i < |line| - 1 ==> line[i] != '\n'
  {
    assert forall i :: 0 <= i < LineEnd(text) ==> text[..LineEnd(text)][i] == text[i] != '\n';
  }

  lemma {:induction false} TrimDropsNewline(s: string)
    requires forall i :: 0 <= i < |s| - 1 ==> s[i] != '\n'
    ensures '\n' !in Trim(s)
  {
    TrimLeftIsSuffix(s);
    var l := TrimLeft(s);
    var r := TrimRight(l);
    forall i | 0 <= i < |r| ensures r[i] != '\n' {
      assert r[i] == l[i] == s[|s| - |l| + i];
    }
  }

  lemma {:induction false} TrimLeftIsSuffix(s: string)
    ensures |TrimLeft(s)| <= |s| && TrimLeft(s) == s[|s| - |TrimLeft(s)|..]
  {
    if s != [] && IsSpace(s[0]) {
      TrimLeftIsSuffix(s[1..]);
    }
  }

  /** A content survives formatting and parsing exactly when it is well formed. */
  lemma RoundTripIff(content: Content, firstKeys: seq<string>, text: string)
    requires Distinct(firstKeys) && Formatted(content, firstKeys, text)
    ensures Parse(text) == Ok(content) <==> WellFormed(content)
  {
    hide WellFormedKey, SingleLine, Formatted, Distinct, ParseFrom, Trimmed, Trim;
    if WellFormed(content) {
      ParseFormatted(content, firstKeys, text);
      forall k | k in content ensures Trim(content[k]) == content[k] { TrimmedIsFixed(content[k]); }
      assert (map k | k in content && content[k] != "" :: Trim(content[k])) == content;
    }
    if Parse(text) == Ok(content) {
      ParsedIsClean(text, map[], "");
      ParseFormatted(content, firstKeys, text);
      forall k | k in content ensures content[k] != "" && Trimmed(content[k]) { TrimIsTrimmed(content[k]); }
    }
  }
}
