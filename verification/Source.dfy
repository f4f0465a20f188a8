/** An apt source as an object, its deb822 form, and reading that form back. */
module AptSource {
  import opened LineText
  import opened Deb822
  import opened Wrappers

  /** The fields of a source as a value. */
  datatype SourceValue = SourceValue(
    types: seq<string>, uris: seq<string>, suites: seq<string>, components: seq<string>,
    architectures: seq<string>, signedBy: string)

  const FIRST_KEYS: seq<string> := ["Types", "URIs", "Suites", "Components", "Architectures", "Signed-By"]

  // ----- lists in a value -----

  function Join(list: seq<string>, sep: char): string {
    if list == [] then []
    else if |list| == 1 then list[0]
    else list[0] + [sep] + Join(list[1..], sep)
  }

  function FieldEnd(s: string): (n: nat)
    ensures n <= |s| && (forall i :: 0 <= i < n ==> !IsSpace(s[i])) && (n < |s| ==> IsSpace(s[n]))
  {
    if s == [] || IsSpace(s[0]) then 0 else 1 + FieldEnd(s[1..])
  }

  /** The pieces between runs of white space. */
  function Fields(s: string): seq<string>
    decreases |s|
  {
    if s == [] then []
    else if IsSpace(s[0]) then Fields(s[1..])
    else [s[..FieldEnd(s)]] + Fields(s[FieldEnd(s)..])
  }

  function SepIn(s: string, sep: char): (i: nat)
    ensures i <= |s| && sep !in s[..i] && (i < |s| ==> s[i] == sep)
  {
    if s == [] || s[0] == sep then 0
    else
      var i := SepIn(s[1..], sep);
      assert s[..i + 1] == [s[0]] + s[1..][..i];
      i + 1
  }

  /** The pieces between separators; the empty string is one empty piece. */
  function Split(s: string, sep: char): seq<string>
    decreases |s|
  {
    var i := SepIn(s, sep);
    if i == |s| then [s] else [s[..i]] + Split(s[i + 1..], sep)
  }

  predicate Token(t: string) {
    t != [] && !HasSpace(t)
  }

  predicate Tokens(list: seq<string>) {
    forall i :: 0 <= i < |list| ==> Token(list[i])
  }

  lemma {:induction false} FieldsOfJoin(list: seq<string>)
    requires Tokens(list)
    ensures Fields(Join(list, ' ')) == list
  {
    hide Fields, Token;
    if list == [] {
      NoFields();
    } else {
      assert list == [list[0]] + list[1..];
      if |list| == 1 {
        NoFields();
        FieldFront(list[0], []);
        assert list[0] + [] == list[0];
      } else {
        var rest := Join(list[1..], ' ');
        FieldsOfJoin(list[1..]);
        FieldFront(list[0], [' '] + rest);
        SpaceFront(rest);
        assert list[0] + ([' '] + rest) == Join(list, ' ');
      }
    }
  }

  lemma NoFields()
    ensures Fields([]) == []
  {
  }

  lemma SpaceFront(rest: string)
    ensures Fields([' '] + rest) == Fields(rest)
  {
    assert ([' '] + rest)[1..] == rest;
  }

  lemma FieldFront(t: string, rest: string)
    requires Token(t) && (rest == [] || IsSpace(rest[0]))
    ensures Fields(t + rest) == [t] + Fields(rest)
  {
    hide FieldEnd;
    var s := t + rest;
    assert forall i :: 0 <= i < |t| ==> s[i] == t[i] && !IsSpace(t[i]);
    assert rest != [] ==> s[|t|] == rest[0];
    assert FieldEnd(s) == |t|;
    assert s[..|t|] == t && s[|t|..] == rest;
  }

  lemma {:induction false} SplitOfJoin(list: seq<string>, sep: char)
    requires list != [] && forall i :: 0 <= i < |list| ==> sep !in list[i]
    ensures Split(Join(list, sep), sep) == list
  {
    var t, s := list[0], Join(list, sep);
    if |list| == 1 {
      assert SepIn(s, sep) == |s|;
      assert list == [t];
    } else {
      var rest := Join(list[1..], sep);
      SplitOfJoin(list[1..], sep);
      SepAt(t, sep, rest);
      assert s[..|t|] == t && s[|t| + 1..] == rest;
      assert list == [t] + list[1..];
    }
  }

  lemma SepAt(t: string, sep: char, rest: string)
    requires sep !in t
    ensures SepIn(t + [sep] + rest, sep) == |t|
  {
    var s := t + [sep] + rest;
    var i := SepIn(s, sep);
    assert s[|t|] == sep;
    assert forall j :: 0 <= j < |t| ==> s[j] == t[j] != sep;
    assert forall j :: 0 <= j < i ==> s[..i][j] == s[j] != sep;
  }

  /** Splitting cuts at every separator, and joining puts the pieces back. */
  lemma {:induction false} JoinOfSplit(s: string, sep: char)
    ensures Split(s, sep) != [] && Join(Split(s, sep), sep) == s
    ensures forall i :: 0 <= i < |Split(s, sep)| ==> sep !in Split(s, sep)[i]
    decreases |s|
  {
    var i := SepIn(s, sep);
    if i < |s| {
      JoinOfSplit(s[i + 1..], sep);
      assert Split(s, sep)[1..] == Split(s[i + 1..], sep);
      assert s == s[..i] + [sep] + s[i + 1..];
    } else {
      assert s[..i] == s;
    }
  }

  lemma {:induction false} FieldsAreTokens(s: string)
    ensures Tokens(Fields(s))
    decreases |s|
  {
    if s != [] {
      if IsSpace(s[0]) {
        FieldsAreTokens(s[1..]);
      } else {
        FieldsAreTokens(s[FieldEnd(s)..]);
      }
    }
  }

  /** A joined list of tokens is a value a stanza can carry. */
  lemma {:induction false} JoinIsCarried(list: seq<string>, sep: char)
    requires list != [] && Tokens(list) && sep != '\n'
    ensures var s := Join(list, sep); s != "" && Trimmed(s) && SingleLine(s)
  {
    var t, s := list[0], Join(list, sep);
    assert forall i :: 0 <= i < |t| ==> !IsSpace(t[i]);
    assert s[0] == t[0];
    if |list| > 1 {
      var rest := Join(list[1..], sep);
      JoinIsCarried(list[1..], sep);
      assert s[|s| - 1] == rest[|rest| - 1];
    }
  }

  // ----- the deb822 form -----

  function Defaulted(s: SourceValue): SourceValue {
    if s.types == [] then s.(types := ["deb"]) else s
  }

  function WithKey(m: Content, key: string, present: bool, value: string): Content {
    if present then m[key := value] else m
  }

  /** The keys of a source that has its defaults, without the one that enables it. */
  function PlainDeb822(s: SourceValue): Content {
    var m := WithKey(map[], "Types", s.types != [], Join(s.types, ' '));
    var m := WithKey(m, "URIs", s.uris != [], Join(s.uris, ' '));
    var m := WithKey(m, "Suites", s.suites != [], Join(s.suites, ' '));
    var m := WithKey(m, "Components", s.components != [], Join(s.components, ' '));
    var m := WithKey(m, "Architectures", s.architectures != [], Join(s.architectures, ','));
    WithKey(m, "Signed-By", s.signedBy != "", s.signedBy)
  }

  function Deb822Of(s: SourceValue): Content {
    PlainDeb822(Defaulted(s))["Enabled" := "yes"]
  }

  datatype FromResult = Recognized(source: SourceValue) | UnknownKey

  const NO_SOURCE := SourceValue([], [], [], [], [], "")

  predicate KnownKey(k: string) {
    k in FIRST_KEYS
  }

  function FieldsAt(m: Content, k: string): seq<string> {
    if k in m then Fields(m[k]) else []
  }

  /** What the recognized keys of a content say. */
  function Denoted(m: Content): SourceValue {
    SourceValue(FieldsAt(m, "Types"), FieldsAt(m, "URIs"), FieldsAt(m, "Suites"), FieldsAt(m, "Components"),
                if "Architectures" in m then Split(m["Architectures"], ',') else [],
                if "Signed-By" in m then m["Signed-By"] else "")
  }

  /** The source a content denotes, if all its keys are recognized. */
  ghost function FromContent(m: Content): FromResult {
    if forall k :: k in m ==> KnownKey(k) then Recognized(Denoted(m)) else UnknownKey
  }

  /** The keys of a source are six different ones. */
  lemma KeysDiffer()
    ensures Distinct(["Types", "URIs", "Suites", "Components", "Architectures", "Signed-By", "Enabled"])
  {
    assert "Types"[0] == 'T' && "URIs"[0] == 'U' && "Components"[0] == 'C' && "Architectures"[0] == 'A' && "Enabled"[0] == 'E';
    assert "Suites"[1] == 'u' && "Signed-By"[1] == 'i';
  }

  /** Sets the field of a recognized key. */
  function SetKey(s: SourceValue, k: string, v: string): SourceValue
    requires KnownKey(k)
  {
    if k == "Types" then s.(types := Fields(v))
    else if k == "URIs" then s.(uris := Fields(v))
    else if k == "Suites" then s.(suites := Fields(v))
    else if k == "Components" then s.(components := Fields(v))
    else if k == "Architectures" then s.(architectures := Split(v, ','))
    else s.(signedBy := v)
  }

  lemma SetKeyDenotes(m: Content, k: string, v: string)
    requires KnownKey(k)
    ensures Denoted(m[k := v]) == SetKey(Denoted(m), k, v)
  {
    hide Fields, Split;
    KeysDiffer();
    var keys := ["Types", "URIs", "Suites", "Components", "Architectures", "Signed-By", "Enabled"];
    assert forall i, j :: 0 <= i < j < 6 ==> keys[i] != keys[j];
  }

  /** Reads the keys in whatever order the map yields them. */
  method FromDeb822(m: Content) returns (r: FromResult)
    ensures r == FromContent(m)
  {
    hide SetKey, Denoted;
    var s := NO_SOURCE;
    NothingDenoted();
    var todo := m.Keys;
    ghost var done: Content := map[];
    while todo != {}
      invariant todo <= m.Keys && done == map k | k in m && k !in todo :: m[k]
      invariant s == Denoted(done) && forall k :: k in done ==> KnownKey(k)
      decreases todo
    {
      var k :| k in todo;
      if !KnownKey(k) {
        return UnknownKey;
      }
      SetKeyDenotes(done, k, m[k]);
      s := SetKey(s, k, m[k]);
      done := done[k := m[k]];
      todo := todo - {k};
    }
    assert done == m;
    r := Recognized(s);
  }

  lemma NothingDenoted()
    ensures Denoted(map[]) == NO_SOURCE
  {
  }

  class Source {
    var Types: seq<string>
    var URIs: seq<string>
    var Suites: seq<string>
    var Components: seq<string>
    var Architectures: seq<string>
    var SignedBy: string

    ghost function Value(): SourceValue
      reads this
    {
      SourceValue(Types, URIs, Suites, Components, Architectures, SignedBy)
    }

    constructor (v: SourceValue)
      ensures Value() == v
    {
      Types, URIs, Suites := v.types, v.uris, v.suites;
      Components, Architectures, SignedBy := v.components, v.architectures, v.signedBy;
    }

    method Defaults()
      modifies this`Types
      ensures Value() == Defaulted(old(Value()))
    {
      if |Types| == 0 {
        Types := ["deb"];
      }
    }

    /** Writing a source also gives it its defaults. */
    method ToDeb822() returns (m: Content)
      modifies this`Types
      ensures Value() == Defaulted(old(Value())) && m == Deb822Of(old(Value()))
    {
      Defaults();
      m := map[];
      if |Types| > 0 {
        m := m["Types" := Join(Types, ' ')];
      }
      if |URIs| > 0 {
        m := m["URIs" := Join(URIs, ' ')];
      }
      if |Suites| > 0 {
        m := m["Suites" := Join(Suites, ' ')];
      }
      if |Components| > 0 {
        m := m["Components" := Join(Components, ' ')];
      }
      if |Architectures| > 0 {
        m := m["Architectures" := Join(Architectures, ',')];
      }
      if SignedBy != "" {
        m := m["Signed-By" := SignedBy];
      }
      m := m["Enabled" := "yes"];
    }
  }

  // ----- the round trip -----

  /** A value a stanza carries unchanged. */
  predicate Carriable(v: string) {
    v != "" && Trimmed(v) && SingleLine(v)
  }

  /** Lists of words, architectures without commas that together make a value, and a key
      path that is one if there is any. */
  predicate Writable(s: SourceValue) {
    && Tokens(s.types) && Tokens(s.uris) && Tokens(s.suites) && Tokens(s.components)
    && (forall i :: 0 <= i < |s.architectures| ==> ',' !in s.architectures[i])
    && (s.architectures != [] ==> Carriable(Join(s.architectures, ',')))
    && (s.signedBy != "" ==> Carriable(s.signedBy))
  }

  /** Lists of words are enough. */
  lemma WordsAreWritable(s: SourceValue)
    requires Tokens(s.types) && Tokens(s.uris) && Tokens(s.suites) && Tokens(s.components) && Tokens(s.architectures)
    requires forall i :: 0 <= i < |s.architectures| ==> ',' !in s.architectures[i]
    requires Trimmed(s.signedBy) && SingleLine(s.signedBy)
    ensures Writable(s)
  {
    if s.architectures != [] { JoinIsCarried(s.architectures, ','); }
  }

  /** `m` holds `value` under `key` if it is present, and nothing otherwise. */
  ghost predicate At(m: Content, key: string, present: bool, value: string) {
    (key in m <==> present) && (present ==> m[key] == value)
  }

  lemma PlainAt(s: SourceValue)
    ensures var m := PlainDeb822(s);
      && At(m, "Types", s.types != [], Join(s.types, ' '))
      && At(m, "URIs", s.uris != [], Join(s.uris, ' '))
      && At(m, "Suites", s.suites != [], Join(s.suites, ' '))
      && At(m, "Components", s.components != [], Join(s.components, ' '))
      && At(m, "Architectures", s.architectures != [], Join(s.architectures, ','))
      && At(m, "Signed-By", s.signedBy != "", s.signedBy)
      && forall k :: k in m ==> k in {"Types", "URIs", "Suites", "Components", "Architectures", "Signed-By"}
  {
    hide Join, WithKey, At;
    KeysDiffer();
    var m1 := WithKey(map[], "Types", s.types != [], Join(s.types, ' '));
    var m2 := WithKey(m1, "URIs", s.uris != [], Join(s.uris, ' '));
    var m3 := WithKey(m2, "Suites", s.suites != [], Join(s.suites, ' '));
    var m4 := WithKey(m3, "Components", s.components != [], Join(s.components, ' '));
    var m5 := WithKey(m4, "Architectures", s.architectures != [], Join(s.architectures, ','));
    WithKeyAt(map[], {}, "Types", s.types != [], Join(s.types, ' '));
    WithKeyAt(m1, {"Types"}, "URIs", s.uris != [], Join(s.uris, ' '));
    WithKeyAt(m2, {"Types", "URIs"}, "Suites", s.suites != [], Join(s.suites, ' '));
    WithKeyAt(m3, {"Types", "URIs", "Suites"}, "Components", s.components != [], Join(s.components, ' '));
    WithKeyAt(m4, {"Types", "URIs", "Suites", "Components"}, "Architectures", s.architectures != [], Join(s.architectures, ','));
    WithKeyAt(m5, {"Types", "URIs", "Suites", "Components", "Architectures"}, "Signed-By", s.signedBy != "", s.signedBy);
  }

  /** Every source is written as enabled, and as one of binary packages unless it says. */
  lemma WrittenByDefault(s: SourceValue)
    ensures var m := Deb822Of(s);
      && "Enabled" in m && m["Enabled"] == "yes"
      && "Types" in m && m["Types"] == (if s.types == [] then "deb" else Join(s.types, ' '))
  {
    hide Join, PlainDeb822;
    PlainAt(Defaulted(s));
    KeysDiffer();
    var keys := ["Types", "URIs", "Suites", "Components", "Architectures", "Signed-By", "Enabled"];
    assert keys[0] != keys[6];
    JoinOfOne("deb");
  }

  lemma JoinOfOne(t: string)
    ensures Join([t], ' ') == t
  {
  }

  lemma WithKeyAt(m: Content, keys: set<string>, key: string, present: bool, value: string)
    requires m.Keys <= keys && key !in keys
    ensures var m' := WithKey(m, key, present, value);
      && At(m', key, present, value) && m'.Keys <= keys + {key}
      && forall k, p, v :: k in keys ==> At(m', k, p, v) == At(m, k, p, v)
  {
  }

  lemma PlainIsDenoted(s: SourceValue)
    requires Writable(s)
    ensures FromContent(PlainDeb822(s)) == Recognized(s)
  {
    hide PlainDeb822, Join, Fields, Split, Tokens;
    PlainAt(s);
    FieldsOfJoin(s.types);
    FieldsOfJoin(s.uris);
    FieldsOfJoin(s.suites);
    FieldsOfJoin(s.components);
    if s.architectures != [] { SplitOfJoin(s.architectures, ','); }
  }

  lemma KeysAreWellFormed()
    ensures forall k :: k in FIRST_KEYS ==> WellFormedKey(k)
    ensures Distinct(FIRST_KEYS)
  {
    KeysDiffer();
  }

  lemma PlainIsWellFormed(s: SourceValue)
    requires Writable(s)
    ensures WellFormed(PlainDeb822(s))
  {
    hide PlainDeb822, Join, Tokens, WellFormedKey, Trimmed, SingleLine;
    PlainAt(s);
    KeysAreWellFormed();
    if s.types != [] { JoinIsCarried(s.types, ' '); }
    if s.uris != [] { JoinIsCarried(s.uris, ' '); }
    if s.suites != [] { JoinIsCarried(s.suites, ' '); }
    if s.components != [] { JoinIsCarried(s.components, ' '); }
  }

  /** Written without the key that enables it and read back, a source is what it was, with
      its defaults filled in, exactly when it is writable. */
  lemma SourceRoundTripIff(s: SourceValue, text: string)
    requires Formatted(Deb822Of(s) - {"Enabled"}, FIRST_KEYS, text)
    ensures Parse(text).Ok? && FromContent(Parse(text).value) == Recognized(Defaulted(s)) <==> Writable(s)
  {
    hide WellFormed, Formatted, Parse, FromContent, PlainDeb822, Distinct, Writable;
    var d := Defaulted(s);
    DefaultedIsWritable(s);
    EnabledIsExtra(d);
    if Writable(s) {
      PlainIsDenoted(d);
      PlainIsWellFormed(d);
      KeysAreWellFormed();
      RoundTripIff(PlainDeb822(d), FIRST_KEYS, text);
    }
    if Parse(text).Ok? && FromContent(Parse(text).value) == Recognized(d) {
      ReadBackIsWritable(d, text);
    }
  }

  /** A source that was written and read back is writable. */
  lemma ReadBackIsWritable(d: SourceValue, text: string)
    requires Formatted(PlainDeb822(d), FIRST_KEYS, text)
    requires Parse(text).Ok? && FromContent(Parse(text).value) == Recognized(d)
    ensures Writable(d)
  {
    hide Formatted, ParseFrom, PlainDeb822, Join, Split, Fields, Tokens, Trimmed, Trim, Distinct, WellFormedKey, SingleLine;
    var c, p := Parse(text).value, PlainDeb822(d);
    ReadIsSingleLine(text);
    ReadBackPieces(c, d);
    PlainAt(d);
    ReadBackTrims(d, text);
    if d.architectures != [] { TrimIsTrimmed(Join(d.architectures, ',')); }
    if d.signedBy != "" { TrimIsTrimmed(d.signedBy); }
  }

  lemma ReadIsSingleLine(text: string)
    requires Parse(text).Ok?
    ensures forall k :: k in Parse(text).value ==> SingleLine(Parse(text).value[k])
  {
    hide ParseFrom, WellFormedKey;
    ParsedIsClean(text, map[], "");
  }

  lemma ReadBackTrims(d: SourceValue, text: string)
    requires Formatted(PlainDeb822(d), FIRST_KEYS, text) && Parse(text).Ok?
    requires Tokens(d.types) && Tokens(d.uris) && Tokens(d.suites) && Tokens(d.components)
    requires d.architectures != [] ==> SingleLine(Join(d.architectures, ','))
    requires d.signedBy != "" ==> SingleLine(d.signedBy)
    ensures var c, p := Parse(text).value, PlainDeb822(d); forall k :: k in c ==> k in p && p[k] != "" && c[k] == Trim(p[k])
  {
    hide Formatted, ParseFrom, PlainDeb822, Join, Tokens, Trim, Distinct, WellFormedKey, SingleLine;
    PlainAt(d);
    PlainIsSingleLine(d);
    KeysAreWellFormed();
    ParseFormatted(PlainDeb822(d), FIRST_KEYS, text);
  }

  /** What a content whose values are single lines can denote. */
  lemma ReadBackPieces(c: Content, d: SourceValue)
    requires Denoted(c) == d && forall k :: k in c ==> SingleLine(c[k])
    ensures Tokens(d.types) && Tokens(d.uris) && Tokens(d.suites) && Tokens(d.components)
    ensures forall i :: 0 <= i < |d.architectures| ==> ',' !in d.architectures[i]
    ensures d.architectures != [] ==> "Architectures" in c && Join(d.architectures, ',') == c["Architectures"]
    ensures d.signedBy != "" ==> "Signed-By" in c && d.signedBy == c["Signed-By"]
  {
    hide Join, Split, Fields, SingleLine;
    forall k | k in c ensures Tokens(Fields(c[k])) { FieldsAreTokens(c[k]); }
    if "Architectures" in c { JoinOfSplit(c["Architectures"], ','); }
  }

  lemma PlainIsSingleLine(d: SourceValue)
    requires Tokens(d.types) && Tokens(d.uris) && Tokens(d.suites) && Tokens(d.components)
    requires d.architectures != [] ==> SingleLine(Join(d.architectures, ','))
    requires d.signedBy != "" ==> SingleLine(d.signedBy)
    ensures forall k :: k in PlainDeb822(d) ==> SingleLine(PlainDeb822(d)[k])
  {
    hide PlainDeb822, Join, Tokens, Trimmed, SingleLine;
    PlainAt(d);
    if d.types != [] { JoinIsCarried(d.types, ' '); }
    if d.uris != [] { JoinIsCarried(d.uris, ' '); }
    if d.suites != [] { JoinIsCarried(d.suites, ' '); }
    if d.components != [] { JoinIsCarried(d.components, ' '); }
  }

  lemma DefaultedIsWritable(s: SourceValue)
    ensures Writable(Defaulted(s)) <==> Writable(s)
  {
    assert Token("deb") by { assert "deb" == ['d', 'e', 'b']; }
  }

  lemma EnabledIsExtra(d: SourceValue)
    ensures PlainDeb822(d)["Enabled" := "yes"] - {"Enabled"} == PlainDeb822(d)
  {
    hide PlainDeb822;
    PlainAt(d);
    KeysDiffer();
  }

  /** A key written last is in whatever is parsed, however the lines before it read. */
  lemma {:induction false} LastKeyIsParsed(front: string, k: string, v: string, content: Content, lastKey: string)
    requires front == [] || front[|front| - 1] == '\n'
    requires WellFormedKey(k) && SingleLine(v) && (lastKey != "" ==> lastKey in content)
    ensures var r := ParseFrom(front + KeyLine(k, v), content, lastKey); r.Ok? ==> k in r.value
    decreases |front|
  {
    hide WellFormedKey, SingleLine, KeyLine, ParseLine;
    var text := front + KeyLine(k, v);
    if front == [] {
      assert text == KeyLine(k, v) + [];
      LastLineRead(k, v, content, lastKey);
    } else {
      var n := FirstLine(front);
      FirstLineOfMore(front, KeyLine(k, v));
      var r := ParseLine(text[..n], content, lastKey);
      if r.Ok? {
        assert text[n..] == front[n..] + KeyLine(k, v);
        ParseLineKeepsLast(text[..n], content, lastKey);
        LastKeyIsParsed(front[n..], k, v, r.value.0, r.value.1);
      }
    }
  }

  lemma LastLineRead(k: string, v: string, content: Content, lastKey: string)
    requires WellFormedKey(k) && SingleLine(v) && (lastKey != "" ==> lastKey in content)
    ensures var r := ParseFrom(KeyLine(k, v) + [], content, lastKey); r.Ok? ==> k in r.value
  {
    if k !in content {
      KeyLineParses(k, v, [], content, lastKey);
    } else {
      RepeatedKeyFails(k, v, content, lastKey);
    }
  }

  lemma RepeatedKeyFails(k: string, v: string, content: Content, lastKey: string)
    requires WellFormedKey(k) && SingleLine(v) && k in content && (lastKey != "" ==> lastKey in content)
    ensures ParseFrom(KeyLine(k, v) + [], content, lastKey).Err?
  {
    hide ColonIn;
    var text, front := KeyLine(k, v) + [], k + ": " + v;
    assert text == front + ['\n'] + [];
    assert forall i :: 0 <= i < |k| ==> !IsSpace(k[i]);
    LineEndAt(front, []);
    assert text[..FirstLine(text)] == text == k + [':'] + (" " + v + "\n");
    ColonAt(k, " " + v + "\n");
    assert text[0] == (k + ":")[0] && text[..|k|] == k;
    assert k != [] ==> k[0] == text[0] && !IsSpace(k[0]);
  }

  lemma {:induction false} LinesEndInNewline(content: Content, keys: seq<string>)
    ensures var s := Lines(content, keys); s == [] || s[|s| - 1] == '\n'
  {
    if keys != [] { LinesEndInNewline(content, keys[..|keys| - 1]); }
  }

  /** The key that enables a source is written last. */
  lemma EnabledIsLast(s: SourceValue, text: string)
    requires Formatted(Deb822Of(s), FIRST_KEYS, text)
    ensures text == Lines(Deb822Of(s), FIRST_KEYS) + KeyLine("Enabled", "yes")
  {
    hide PlainDeb822, Lines, KeyLine, Increasing;
    var m := Deb822Of(s);
    PlainAt(Defaulted(s));
    KeysDiffer();
    var keys := ["Types", "URIs", "Suites", "Components", "Architectures", "Signed-By", "Enabled"];
    assert forall i :: 0 <= i < 6 ==> keys[i] == FIRST_KEYS[i] && keys[i] != keys[6];
    assert ExtraKeys(m, FIRST_KEYS) == Elements(["Enabled"]);
    var extra :| IsExtra(m, FIRST_KEYS, extra) && text == Lines(m, FIRST_KEYS) + Lines(m, extra);
    assert Increasing(["Enabled"]) by { OneKeyIsIncreasing("Enabled"); }
    IncreasingIsUnique(extra, ["Enabled"]);
    OneLine(m, "Enabled");
  }

  lemma OneKeyIsIncreasing(k: string)
    ensures Increasing([k])
  {
  }

  /** As written, with that key, no source can be read back: whatever parses holds the key,
      and conversion refuses it. */
  lemma EnabledIsRejected(s: SourceValue, text: string)
    requires Formatted(Deb822Of(s), FIRST_KEYS, text)
    ensures Parse(text).Ok? ==> FromContent(Parse(text).value) == UnknownKey
    ensures Writable(s) ==> Parse(text).Ok?
  {
    hide Lines, KeyLine, ParseFrom, Deb822Of, Formatted, Writable;
    if Writable(s) { EnabledParses(s, text); }
    EnabledIsLast(s, text);
    LinesEndInNewline(Deb822Of(s), FIRST_KEYS);
    assert WellFormedKey("Enabled") && SingleLine("yes");
    LastKeyIsParsed(Lines(Deb822Of(s), FIRST_KEYS), "Enabled", "yes", map[], "");
    assert !KnownKey("Enabled") by { EnabledIsUnknown(); }
  }

  lemma EnabledParses(s: SourceValue, text: string)
    requires Writable(s) && Formatted(Deb822Of(s), FIRST_KEYS, text)
    ensures Parse(text) == Ok(Deb822Of(s))
  {
    hide PlainDeb822, Formatted, Writable, Parse, Distinct;
    DefaultedIsWritable(s);
    PlainIsWellFormed(Defaulted(s));
    KeysAreWellFormed();
    assert WellFormedKey("Enabled") && SingleLine("yes") && Trimmed("yes");
    RoundTripIff(Deb822Of(s), FIRST_KEYS, text);
  }

  lemma EnabledIsUnknown()
    ensures !KnownKey("Enabled")
  {
    KeysDiffer();
    var keys := ["Types", "URIs", "Suites", "Components", "Architectures", "Signed-By", "Enabled"];
    assert forall i :: 0 <= i < 6 ==> keys[i] == FIRST_KEYS[i] && keys[i] != keys[6];
  }
}
