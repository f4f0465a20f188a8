/** The editor objects and the driver loop, proved against the values in TextEdit. */
module LineEditors {
  import opened LineText
  import opened TextEdit
  import opened Wrappers

  class SimpleEditor {
    const line: string
    const olds: set<string>
    var found: bool

    ghost function State(): Editor
      reads this
    {
      Simple(line, olds, found)
    }

    constructor (line: string, oldLines: set<string>)
      ensures State() == TextEdit.AppendLine(line, oldLines)
    {
      this.line := line;
      this.olds := set o | o in oldLines :: Trim(o);
      found := false;
    }

    method NextLine(text: string) returns (out: seq<string>)
      modifies this
      ensures (State(), out) == Next(old(State()), text)
    {
      if !found {
        var tsl := Trim(text);
        if tsl == Trim(line) {
          found := true;
        } else if tsl in olds {
          found := true;
          return [line];
        }
      }
      out := [text];
    }

    method EOF() returns (out: seq<string>)
      ensures AtEof(State()) == Some(out)
    {
      out := if found then [] else [line];
    }
  }

  class RangeEditor {
    const start: string
    const content: seq<string>
    const end: string
    var startFound: bool
    var endFound: bool

    ghost function State(): Editor
      reads this
    {
      Range(start, content, end, startFound, endFound)
    }

    constructor (start: string, content: seq<string>, end: string)
      ensures State() == TextEdit.SpliceRange(start, content, end)
    {
      this.start, this.content, this.end := start, content, end;
      startFound, endFound := false, false;
    }

    method NextLine(text: string) returns (out: seq<string>)
      modifies this
      ensures (State(), out) == Next(old(State()), text)
    {
      var tsl := Trim(text);
      if endFound {
        out := [text];
      } else if startFound {
        if tsl == Trim(end) {
          endFound := true;
          out := [start] + content + [end];
        } else {
          out := [];
        }
      } else if tsl == Trim(start) {
        startFound := true;
        out := [];
      } else {
        out := [text];
      }
    }

    method EOF() returns (out: seq<string>)
      ensures AtEof(State()) == Some(out)
    {
      out := if endFound then [] else [start] + content + [end];
    }
  }

  class ReplaceLineEditor {
    const oldLine: string
    const newLine: string
    var previousLines: seq<string>
    var mustMatch: bool
    var found: bool
    var prevPos: nat

    ghost function State(): Editor
      reads this
    {
      Replace(oldLine, newLine, previousLines, mustMatch, found, prevPos)
    }

    constructor (oldLine: string, newLine: string)
      ensures State() == TextEdit.ReplaceLine(oldLine, newLine, [], false)
    {
      this.oldLine, this.newLine := Trim(oldLine), Trim(newLine);
      previousLines, mustMatch, found, prevPos := [], false, false, 0;
    }

    /** Fails, as a panic does, on an empty line. */
    method WithPreviousLines(lines: seq<string>) returns (ok: bool)
      modifies this`previousLines
      ensures ok <==> !AnyEmpty(lines)
      ensures previousLines == if ok then Texts(lines) else old(previousLines)
    {
      var trimmed: seq<string> := [];
      for i := 0 to |lines|
        invariant trimmed == Texts(lines[..i]) && !AnyEmpty(lines[..i])
      {
        var tsl := Trim(lines[i]);
        assert lines[..i + 1] == lines[..i] + [lines[i]];
        if tsl == "" {
          return false;
        }
        trimmed := trimmed + [tsl];
      }
      assert lines[..|lines|] == lines;
      previousLines := trimmed;
      ok := true;
    }

    method MustMatch()
      modifies this`mustMatch
      ensures mustMatch
    {
      mustMatch := true;
    }

    method NextLine(text: string) returns (out: seq<string>)
      requires Valid(State())
      modifies this
      ensures (State(), out) == Next(old(State()), text)
    {
      if found {
        return [text];
      }
      var tsl := Trim(text);
      if prevPos == |previousLines| {
        prevPos := 0;
        if tsl == oldLine {
          found := true;
          return [newLine];
        } else if tsl == newLine {
          found := true;
          return [text];
        }
      }
      if |previousLines| > 0 {
        if tsl == previousLines[prevPos] {
          prevPos := prevPos + 1;
        } else {
          prevPos := 0;
        }
      }
      out := [text];
    }

    method EOF() returns (ok: bool, out: seq<string>)
      ensures AtEof(State()) == if ok then Some(out) else None
    {
      ok, out := !(mustMatch && !found), [];
    }
  }

  // ----- making editors; `None` stands for the panic on a line without text -----

  predicate AnyEmpty(lines: seq<string>) {
    exists i :: 0 <= i < |lines| && Trim(lines[i]) == ""
  }

  method AppendLine(line: string, oldLines: seq<string>) returns (r: Option<SimpleEditor>)
    ensures r.None? <==> Trim(line) == "" || AnyEmpty(oldLines)
    ensures r.Some? ==> fresh(r.value) && r.value.State() == TextEdit.AppendLine(line, Elements(oldLines))
  {
    if Trim(line) == "" {
      return None;
    }
    for i := 0 to |oldLines|
      invariant !AnyEmpty(oldLines[..i])
    {
      assert oldLines[..i + 1] == oldLines[..i] + [oldLines[i]];
      if Trim(oldLines[i]) == "" {
        return None;
      }
    }
    assert oldLines[..|oldLines|] == oldLines;
    var ed := new SimpleEditor(line, set o | o in oldLines);
    r := Some(ed);
  }

  /** The first and the last line are the markers. */
  method SpliceRange(lines: seq<string>) returns (r: Option<RangeEditor>)
    ensures r.None? <==> |lines| < 3 || Trim(lines[0]) == "" || Trim(lines[|lines| - 1]) == ""
    ensures r.Some? ==> fresh(r.value) && Block(r.value.State()) == lines && Fresh(r.value.State())
  {
    if |lines| < 3 {
      return None;
    }
    var start, end := lines[0], lines[|lines| - 1];
    if Trim(start) == "" || Trim(end) == "" {
      return None;
    }
    var ed := new RangeEditor(start, lines[1..|lines| - 1], end);
    assert [start] + lines[1..|lines| - 1] + [end] == lines;
    r := Some(ed);
  }

  method ReplaceLine(oldLine: string, newLine: string) returns (r: Option<ReplaceLineEditor>)
    ensures r.None? <==> Trim(oldLine) == "" || Trim(newLine) == ""
    ensures r.Some? ==> fresh(r.value) && r.value.State() == TextEdit.ReplaceLine(oldLine, newLine, [], false)
  {
    if Trim(oldLine) == "" || Trim(newLine) == "" {
      return None;
    }
    var ed := new ReplaceLineEditor(oldLine, newLine);
    r := Some(ed);
  }

  // ----- the driver -----

  /** Any one of the editors, as the driver takes it. */
  datatype AnyEditor = OfSimple(s: SimpleEditor) | OfRange(r: RangeEditor) | OfReplace(l: ReplaceLineEditor) {
    ghost function Object(): object {
      match this case OfSimple(s) => s case OfRange(r) => r case OfReplace(l) => l
    }

    ghost function State(): Editor
      reads Object()
    {
      match this case OfSimple(s) => s.State() case OfRange(r) => r.State() case OfReplace(l) => l.State()
    }

    method NextLine(text: string) returns (out: seq<string>)
      requires TextEdit.Valid(State())
      modifies Object()
      ensures TextEdit.Valid(old(State())) && (State(), out) == Next(old(State()), text)
    {
      match this
      case OfSimple(s) => out := s.NextLine(text);
      case OfRange(r) => out := r.NextLine(text);
      case OfReplace(l) => out := l.NextLine(text);
    }

    method EOF() returns (ok: bool, out: seq<string>)
      ensures AtEof(State()) == if ok then Some(out) else None
    {
      match this
      case OfSimple(s) => out := s.EOF(); ok := true;
      case OfRange(r) => out := r.EOF(); ok := true;
      case OfReplace(l) => ok, out := l.EOF();
    }
  }

  method WriteLines(text0: string, lines: seq<string>) returns (text: string)
    ensures text == text0 + Written(lines)
  {
    hide Written;
    text := text0;
    NothingWritten();
    for i := 0 to |lines|
      invariant text == text0 + Written(lines[..i])
    {
      var outLine := lines[i];
      if outLine == [] || outLine[|outLine| - 1] != '\n' {
        outLine := outLine + ['\n'];
      }
      assert outLine == Chomp(lines[i]) + ['\n'];
      text := text + outLine;
      WrittenLast(lines[..i], lines[i]);
      assert text == text0 + (Written(lines[..i]) + outLine);
      assert lines[..i + 1] == lines[..i] + [lines[i]];
    }
    assert lines[..|lines|] == lines;
  }

  /** Drives an editor over a text. */
  method Edit(text: string, editor: AnyEditor) returns (ok: bool, out: string)
    requires TextEdit.Valid(editor.State())
    modifies editor.Object()
    ensures TextEdit.Valid(old(editor.State()))
    ensures match Edited(old(editor.State()), ScanLines(text))
      case None => !ok
      case Some(lines) => ok && out == Written(lines)
    ensures ok && Fresh(old(editor.State())) ==> EditsText(old(editor.State()), text, out)
  {
    hide Next, AtEof, Written, Fresh, EditsText, ScanLines, TextEdit.Valid;
    var lines := ScanLines(text);
    ghost var ed := editor.State();
    ghost var all: seq<string> := [];
    out := [];
    assert Written([]) == [] by { NothingWritten(); }
    for i := 0 to |lines|
      invariant TextEdit.Valid(editor.State()) && TextEdit.Valid(ed)
      invariant (editor.State(), all) == Run(ed, lines[..i]) && out == Written(all)
    {
      ghost var before := editor.State();
      NextKeepsValid(before, lines[i]);
      var more := editor.NextLine(lines[i]);
      out := WriteLines(out, more);
      WrittenSplit(all, more);
      all := all + more;
      assert lines[..i + 1][..i] == lines[..i] && lines[..i + 1][i] == lines[i];
    }
    assert lines[..|lines|] == lines;
    var last;
    ok, last := editor.EOF();
    if ok {
      out := WriteLines(out, last);
      WrittenSplit(all, last);
      if Fresh(ed) { EditKeepsLines(ed, text); }
    }
  }
}
