/** What each kind of line does to a stanza that is read, line by line and without the
    reader's own cases. */
module Deb822Laws {
  import opened LineText
  import opened Deb822
  import opened Wrappers

  /** Text after which a new line begins. */
  predicate EndsLine(front: string) {
    front == [] || front[|front| - 1] == '\n'
  }

  // ----- reading in parts -----

  /** What has been read after some text: the content, and the key a continuation goes to. */
  function ReadAll(text: string, content: Content, lastKey: string): (r: Result<(Content, string)>)
    requires lastKey != "" ==> lastKey in content
    ensures r.Ok? && r.value.1 != "" ==> r.value.1 in r.value.0
    decreases |text|
  {
    if text == [] then Ok((content, lastKey))
    else
      var n := FirstLine(text);
      match ParseLine(text[..n], content, lastKey)
      case Err(e) => Err(e)
      case Ok((content', lastKey')) => ReadAll(text[n..], content', lastKey')
  }

  lemma {:induction false} ParseIsRead(text: string, content: Content, lastKey: string)
    requires lastKey != "" ==> lastKey in content
    ensures ParseFrom(text, content, lastKey) ==
      match ReadAll(text, content, lastKey) case Err(e) => Err(e) case Ok((m, _)) => Ok(m)
    decreases |text|
  {
    hide ParseLine;
    if text != [] {
      var n := FirstLine(text);
      ParseLineKeepsLast(text[..n], content, lastKey);
      var r := ParseLine(text[..n], content, lastKey);
      if r.Ok? { ParseIsRead(text[n..], r.value.0, r.value.1); }
    }
  }

  lemma {:induction false} ReadParts(front: string, rest: string, content: Content, lastKey: string)
    requires EndsLine(front) && (lastKey != "" ==> lastKey in content)
    ensures ReadAll(front + rest, content, lastKey) ==
      match ReadAll(front, content, lastKey) case Err(e) => Err(e) case Ok((m, k)) => ReadAll(rest, m, k)
    decreases |front|
  {
    hide ParseLine, FirstLine;
    if front == [] {
      assert front + rest == rest;
    } else {
      var n := FirstLine(front);
      FirstLineOfMore(front, rest);
      assert (front + rest)[..n] == front[..n] && (front + rest)[n..] == front[n..] + rest;
      ParseLineKeepsLast(front[..n], content, lastKey);
      var r := ParseLine(front[..n], content, lastKey);
      if r.Ok? { ReadParts(front[n..], rest, r.value.0, r.value.1); }
    }
  }

  lemma ReadLine(line: string, content: Content, lastKey: string)
    requires '\n' !in line && (lastKey != "" ==> lastKey in content)
    ensures ReadAll(line + "\n", content, lastKey) == ParseLine(line + "\n", content, lastKey)
  {
    hide ParseLine;
    var text := line + "\n";
    LineEndAt(line, []);
    assert text == line + ['\n'] + [];
    assert FirstLine(text) == |text| && text[..|text|] == text && text[|text|..] == [];
    ParseLineKeepsLast(text, content, lastKey);
  }

  /** One line more. */
  lemma ParseOneMore(front: string, line: string)
    requires EndsLine(front) && '\n' !in line
    ensures Parse(front + (line + "\n")) ==
      match ReadAll(front, map[], "")
      case Err(e) => Err(e)
      case Ok((m, k)) => match ParseLine(line + "\n", m, k) case Err(e) => Err(e) case Ok((m', _)) => Ok(m')
    ensures Parse(front) == match ReadAll(front, map[], "") case Err(e) => Err(e) case Ok((m, _)) => Ok(m)
  {
    hide ParseLine, ReadAll, ParseFrom;
    ParseIsRead(front, map[], "");
    ParseIsRead(front + (line + "\n"), map[], "");
    ReadParts(front, line + "\n", map[], "");
    var r := ReadAll(front, map[], "");
    if r.Ok? { ReadLine(line, r.value.0, r.value.1); }
  }

  // ----- one line -----

  /** An error stays, whatever follows. */
  lemma ErrorStays(front: string, rest: string)
    requires EndsLine(front) && Parse(front).Err?
    ensures Parse(front + rest) == Parse(front)
  {
    hide ReadAll, ParseFrom;
    ParseIsRead(front, map[], "");
    ParseIsRead(front + rest, map[], "");
    ReadParts(front, rest, map[], "");
  }

  /** A comment changes nothing. */
  lemma CommentLine(front: string, c: string)
    requires EndsLine(front) && '\n' !in c
    ensures Parse(front + (("#" + c) + "\n")) == Parse(front)
  {
    hide ReadAll, ParseFrom;
    ParseOneMore(front, "#" + c);
    assert (("#" + c) + "\n")[0] == '#';
  }

  /** A line that can begin a key: its first character is ASCII, no space and no `#`. */
  predicate BeginsKey(line: string) {
    line != [] && line[0] != '#' && line[0] as int < 0x80 && !IsSpace(line[0])
  }

  /** A line with a key sets it, once; a second time it is refused. */
  lemma KeyedLine(front: string, k: string, v: string)
    requires EndsLine(front) && WellFormedKey(k) && SingleLine(v) && Parse(front).Ok?
    ensures var m := Parse(front).value;
      Parse(front + ((k + [':'] + v) + "\n")) == if k in m then Err(DuplicateKey) else Ok(m[k := Trim(v)])
  {
    hide ReadAll, ParseFrom;
    KeyIsOneLine(k, v);
    ParseOneMore(front, k + [':'] + v);
    var r := ReadAll(front, map[], "");
    KeyedLineRead(k, v, r.value.0, r.value.1);
  }

  lemma KeyIsOneLine(k: string, v: string)
    requires WellFormedKey(k) && SingleLine(v)
    ensures '\n' !in k + [':'] + v
  {
    assert forall i :: 0 <= i < |k| ==> !IsSpace(k[i]);
  }

  lemma KeyedLineRead(k: string, v: string, content: Content, lastKey: string)
    requires WellFormedKey(k) && SingleLine(v) && (lastKey != "" ==> lastKey in content)
    ensures ParseLine((k + [':'] + v) + "\n", content, lastKey) ==
      if k in content then Err(DuplicateKey) else Ok((content[k := Trim(v)], k))
  {
    var line := (k + [':'] + v) + "\n";
    assert line[0] == (k + [':'])[0];
    assert k != [] ==> k[0] == line[0] && !IsSpace(k[0]);
    ColonAt(k, v + "\n");
    assert line == k + [':'] + (v + "\n");
    assert line[..|k|] == k && line[|k| + 1..] == v + ['\n'];
    TrimSpaceBehind(v, '\n');
  }

  /** A line that begins a key but has no colon, or white space before it, is refused. */
  lemma UnkeyedLine(front: string, line: string)
    requires EndsLine(front) && '\n' !in line && BeginsKey(line) && Parse(front).Ok?
    ensures ':' !in line ==> Parse(front + (line + "\n")) == Err(NoColon)
    ensures forall k, v :: line == k + [':'] + v && ':' !in k && HasSpace(k) ==>
      Parse(front + (line + "\n")) == Err(KeyHasSpace)
  {
    hide ReadAll, ParseFrom, HasSpace;
    ParseOneMore(front, line);
    var all := line + "\n";
    assert all[0] == line[0];
    var i := ColonIn(all);
    if ':' !in line {
      assert ':' !in all;
    } else {
      forall k, v | line == k + [':'] + v && ':' !in k && HasSpace(k)
        ensures Parse(front + (line + "\n")) == Err(KeyHasSpace)
      {
        ColonAt(k, v + "\n");
        assert all == k + [':'] + (v + "\n");
        assert all[..|k|] == k;
      }
    }
  }

  /** A key must be ASCII. */
  lemma ForeignLine(front: string, line: string)
    requires EndsLine(front) && '\n' !in line && line != [] && line[0] as int >= 0x80 && Parse(front).Ok?
    ensures Parse(front + (line + "\n")) == Err(KeyNotAscii)
  {
    hide ReadAll, ParseFrom;
    ParseOneMore(front, line);
    assert (line + "\n")[0] == line[0];
  }

  // ----- folded values -----

  /** A line that continues a value: ASCII white space in front, or nothing in it at all. */
  predicate Continues(line: string) {
    '\n' !in line && (line == [] || (IsSpace(line[0]) && line[0] as int < 0x80))
  }

  predicate Comments(line: string) {
    '\n' !in line && line != [] && line[0] == '#'
  }

  /** Without a key line before it, a continuation is refused. */
  lemma LoneContinuation(front: string, line: string)
    requires EndsLine(front) && Continues(line) && Parse(front) == Ok(map[])
    ensures Parse(front + (line + "\n")) == Err(NoPredecessor)
  {
    hide ReadAll, ParseFrom;
    ParseOneMore(front, line);
    assert line != [] ==> (line + "\n")[0] == line[0];
  }

  /** A value, with the text of every continuation behind it and comments left out. */
  function Unfolded(value: string, lines: seq<string>): string {
    if lines == [] then value
    else
      var v := Unfolded(value, lines[..|lines| - 1]);
      if Comments(lines[|lines| - 1]) then v else v + " " + Trim(lines[|lines| - 1])
  }

  /** A value folded over any number of lines comes back joined by blanks, however many
      comments stand between them. */
  lemma {:induction false} FoldedValue(front: string, k: string, v: string, lines: seq<string>)
    requires EndsLine(front) && WellFormedKey(k) && k != "" && SingleLine(v) && Parse(front).Ok? && k !in Parse(front).value
    requires forall i :: 0 <= i < |lines| ==> Continues(lines[i]) || Comments(lines[i])
    ensures Parse(front + ((k + [':'] + v) + "\n" + Written(lines))) == Ok(Parse(front).value[k := Unfolded(Trim(v), lines)])
  {
    hide ReadAll, ParseFrom, WellFormedKey, Trim, Comments, Unfolded;
    ParseIsRead(front, map[], "");
    var text := (k + [':'] + v) + "\n" + Written(lines);
    ParseIsRead(front + text, map[], "");
    ReadParts(front, text, map[], "");
    var r := ReadAll(front, map[], "");
    FoldedRead(k, v, lines, r.value.0, r.value.1);
  }

  lemma {:induction false} FoldedRead(k: string, v: string, lines: seq<string>, content: Content, lastKey: string)
    requires WellFormedKey(k) && k != "" && SingleLine(v) && k !in content && (lastKey != "" ==> lastKey in content)
    requires forall i :: 0 <= i < |lines| ==> Continues(lines[i]) || Comments(lines[i])
    ensures ReadAll((k + [':'] + v) + "\n" + Written(lines), content, lastKey) ==
      Ok((content[k := Unfolded(Trim(v), lines)], k))
  {
    hide ReadAll, WellFormedKey, Trim, Continues, Comments, ParseLine, Written, Unfolded;
    var first := (k + [':'] + v) + "\n";
    if lines == [] {
      NothingWritten();
      KeyIsOneLine(k, v);
      ReadLine(k + [':'] + v, content, lastKey);
      KeyedLineRead(k, v, content, lastKey);
      assert first + Written(lines) == first;
      NothingUnfolded(Trim(v));
    } else {
      var n := |lines| - 1;
      var front, last := lines[..n], lines[n];
      FoldedRead(k, v, front, content, lastKey);
      assert lines == front + [last];
      WrittenLast(front, last);
      PlainLine(last);
      assert first + Written(lines) == (first + Written(front)) + (last + "\n");
      WrittenEndsLine(first, front);
      ReadParts(first + Written(front), last + "\n", content, lastKey);
      ReadLine(last, content[k := Unfolded(Trim(v), front)], k);
      FoldedLine(k, Trim(v), front, last, content);
    }
  }

  lemma NothingUnfolded(v: string)
    ensures Unfolded(v, []) == v
  {
  }

  lemma PlainLine(line: string)
    requires Continues(line) || Comments(line)
    ensures '\n' !in line && Chomp(line) == line
  {
  }

  lemma WrittenEndsLine(first: string, lines: seq<string>)
    requires first != [] && first[|first| - 1] == '\n'
    ensures EndsLine(first + Written(lines))
  {
  }

  lemma FoldedLine(k: string, v: string, front: seq<string>, last: string, content: Content)
    requires (Continues(last) || Comments(last)) && k != ""
    ensures ParseLine(last + "\n", content[k := Unfolded(v, front)], k) == Ok((content[k := Unfolded(v, front + [last])], k))
  {
    hide Trim, Unfolded;
    var line := last + "\n";
    UnfoldedLast(v, front, last);
    assert last != [] ==> line[0] == last[0];
    TrimNewline(last);
    var c := content[k := Unfolded(v, front)];
    assert c[k := Unfolded(v, front + [last])] == content[k := Unfolded(v, front + [last])];
  }

  lemma UnfoldedLast(v: string, front: seq<string>, last: string)
    ensures Unfolded(v, front + [last]) ==
      if Comments(last) then Unfolded(v, front) else Unfolded(v, front) + " " + Trim(last)
  {
    assert (front + [last])[..|front|] == front;
  }

  lemma TrimNewline(line: string)
    ensures Trim(line + "\n") == Trim(line)
  {
    TrimSpaceBehind(line, '\n');
    assert line + ['\n'] == line + "\n";
  }

  // ----- the last line -----

  /** Whether or not a newline ends the last line makes no difference. */
  lemma UnendedLine(front: string, line: string)
    requires EndsLine(front) && '\n' !in line && line != []
    ensures Parse(front + line) == Parse(front + (line + "\n"))
  {
    hide ReadAll, ParseFrom, ParseLine;
    ParseIsRead(front + line, map[], "");
    ReadParts(front, line, map[], "");
    ParseOneMore(front, line);
    var r := ReadAll(front, map[], "");
    if r.Ok? {
      ReadUnended(line, r.value.0, r.value.1);
      SameLine(line, r.value.0, r.value.1);
    }
  }

  lemma ReadUnended(line: string, content: Content, lastKey: string)
    requires '\n' !in line && line != [] && (lastKey != "" ==> lastKey in content)
    ensures ReadAll(line, content, lastKey) == ParseLine(line, content, lastKey)
  {
    hide ParseLine;
    assert LineEnd(line) == |line|;
    assert line[..|line|] == line && line[|line|..] == [];
    ParseLineKeepsLast(line, content, lastKey);
  }

  lemma SameLine(line: string, content: Content, lastKey: string)
    requires '\n' !in line && line != [] && (lastKey != "" ==> lastKey in content)
    ensures ParseLine(line, content, lastKey) == ParseLine(line + "\n", content, lastKey)
  {
    hide Trim, HasSpace;
    var all := line + "\n";
    assert all[0] == line[0];
    TrimNewline(line);
    var i := ColonIn(line);
    if i < |line| {
      assert line == line[..i] + [':'] + line[i + 1..];
      assert all == line[..i] + [':'] + (line[i + 1..] + "\n");
      ColonAt(line[..i], line[i + 1..] + "\n");
      assert all[..i] == line[..i] && all[i + 1..] == line[i + 1..] + "\n";
      TrimNewline(line[i + 1..]);
    } else {
      assert line[..i] == line;
      assert ':' !in all;
    }
  }
}
