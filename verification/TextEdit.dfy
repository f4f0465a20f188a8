/** Line editors and the loop that drives them: append a line once, splice a marked range,
    replace a line behind given previous lines. */
module TextEdit {
  import opened LineText
  import opened Wrappers

  /** An editor's configuration and progress as a value. */
  datatype Editor =
    | Simple(line: string, oldLines: set<string>, found: bool)
    | Range(start: string, content: seq<string>, end: string, startFound: bool, endFound: bool)
    | Replace(oldLine: string, newLine: string, previous: seq<string>, mustMatch: bool, matched: bool, prevPos: nat)

  /** What the editors' constructors establish. */
  ghost predicate Valid(ed: Editor) {
    match ed
    case Simple(_, _, _) => true
    case Range(_, _, _, _, _) => true
    case Replace(o, n, previous, _, _, pos) =>
      && Trimmed(o) && Trimmed(n)
      && (forall i :: 0 <= i < |previous| ==> Trimmed(previous[i]))
      && pos <= |previous|
  }

  function AppendLine(line: string, oldLines: set<string>): Editor {
    Simple(line, set o | o in oldLines :: Trim(o), false)
  }

  function SpliceRange(start: string, content: seq<string>, end: string): Editor {
    Range(start, content, end, false, false)
  }

  function ReplaceLine(oldLine: string, newLine: string, previous: seq<string>, mustMatch: bool): (ed: Editor)
    ensures Valid(ed)
  {
    Replace(Trim(oldLine), Trim(newLine), seq(|previous|, i requires 0 <= i < |previous| => Trim(previous[i])), mustMatch, false, 0)
  }

  function Block(ed: Editor): seq<string>
    requires ed.Range?
  {
    [ed.start] + ed.content + [ed.end]
  }

  /** Where the search for previous lines stands after a line that was not acted on. */
  function Advance(previous: seq<string>, pos: nat, text: string): (p: nat)
    requires pos <= |previous|
    ensures p <= |previous|
  {
    var from := if pos == |previous| then 0 else pos;
    if |previous| > 0 && text == previous[from] then from + 1 else 0
  }

  predicate Acts(ed: Editor, text: string)
    requires ed.Replace?
  {
    !ed.matched && ed.prevPos == |ed.previous| && text in {ed.oldLine, ed.newLine}
  }

  /** One input line: the editor afterwards and the lines it puts out. */
  function Next(ed: Editor, line: string): (Editor, seq<string>)
    requires Valid(ed)
  {
    var text := Trim(line);
    match ed
    case Simple(own, olds, found) =>
      if found then (ed, [line])
      else if text == Trim(own) then (ed.(found := true), [line])
      else if text in olds then (ed.(found := true), [own])
      else (ed, [line])
    case Range(start, content, end, startFound, endFound) =>
      if endFound then (ed, [line])
      else if startFound then (if text == Trim(end) then (ed.(endFound := true), Block(ed)) else (ed, []))
      else if text == Trim(start) then (ed.(startFound := true), [])
      else (ed, [line])
    case Replace(o, n, previous, _, matched, pos) =>
      if matched then (ed, [line])
      else if Acts(ed, text) then (ed.(matched := true, prevPos := 0), [if text == o then n else line])
      else (ed.(prevPos := Advance(previous, pos, text)), [line])
  }

  /** The end of the input: further lines, or the failure of an editor that must match. */
  function AtEof(ed: Editor): Option<seq<string>> {
    match ed
    case Simple(own, _, found) => Some(if found then [] else [own])
    case Range(_, _, _, _, endFound) => Some(if endFound then [] else Block(ed))
    case Replace(_, _, _, mustMatch, matched, _) => if mustMatch && !matched then None else Some([])
  }

  lemma NextKeepsValid(ed: Editor, line: string)
    requires Valid(ed)
    ensures Valid(Next(ed, line).0)
  {
  }

  function Run(ed: Editor, lines: seq<string>): (r: (Editor, seq<string>))
    requires Valid(ed)
    ensures Valid(r.0)
  {
    if lines == [] then (ed, [])
    else
      var (e1, o1) := Run(ed, lines[..|lines| - 1]);
      var (e2, o2) := Next(e1, lines[|lines| - 1]);
      (e2, o1 + o2)
  }

  /** Everything an editor puts out for some input lines. */
  function Edited(ed: Editor, lines: seq<string>): Option<seq<string>>
    requires Valid(ed)
  {
    var (e, out) := Run(ed, lines);
    match AtEof(e) case None => None case Some(rest) => Some(out + rest)
  }

  // ----- appending a line -----

  function AppendResult(line: string, olds: set<string>, lines: seq<string>): seq<string> {
    var i := FirstIn(lines, {Trim(line)} + olds, 0);
    if i == |lines| then lines + [line]
    else if Trim(lines[i]) == Trim(line) then lines
    else lines[i := line]
  }

  function SimpleAfter(line: string, olds: set<string>, lines: seq<string>): (Editor, seq<string>) {
    var i := FirstIn(lines, {Trim(line)} + olds, 0);
    (Simple(line, olds, i < |lines|), if i == |lines| then lines else AppendResult(line, olds, lines))
  }

  lemma SimpleNext(line: string, olds: set<string>, front: seq<string>, x: string)
    ensures var (e1, o1) := SimpleAfter(line, olds, front);
      var (e2, o2) := Next(e1, x);
      SimpleAfter(line, olds, front + [x]) == (e2, o1 + o2)
  {
    hide FirstIn, Trim;
    var i := FirstIn(front, {Trim(line)} + olds, 0);
    FirstExtended(front, x, {Trim(line)} + olds, 0);
    if i < |front| {
      assert front[i := line] + [x] == (front + [x])[i := line];
    } else {
      assert (front + [x])[i := line] == front + [line];
    }
  }

  lemma {:induction false} SimpleRun(line: string, olds: set<string>, lines: seq<string>)
    ensures Run(Simple(line, olds, false), lines) == SimpleAfter(line, olds, lines)
  {
    hide Next, SimpleAfter;
    if lines != [] {
      var k := |lines| - 1;
      SimpleRun(line, olds, lines[..k]);
      SimpleNext(line, olds, lines[..k], lines[k]);
      assert lines == lines[..k] + [lines[k]];
    } else {
      SimpleStart(line, olds);
    }
  }

  lemma SimpleStart(line: string, olds: set<string>)
    ensures SimpleAfter(line, olds, []) == (Simple(line, olds, false), [])
  {
  }

  /** The line ends up in place of the first line equal to it or to an old line, or at the
      end; nothing else changes. */
  lemma AppendDoes(line: string, olds: set<string>, lines: seq<string>)
    ensures Edited(Simple(line, olds, false), lines) == Some(AppendResult(line, olds, lines))
  {
    hide FirstIn, Trim, Run;
    SimpleRun(line, olds, lines);
    assert AppendResult(line, olds, lines) + [] == AppendResult(line, olds, lines);
  }

  /** Appending again changes nothing. */
  lemma AppendIdempotent(line: string, olds: set<string>, lines: seq<string>)
    ensures var out := AppendResult(line, olds, lines); AppendResult(line, olds, out) == out
  {
    var wanted := {Trim(line)} + olds;
    var i, out := FirstIn(lines, wanted, 0), AppendResult(line, olds, lines);
    assert forall j :: 0 <= j < i ==> out[j] == lines[j];
    FirstIs(out, wanted, 0, i);
  }

  // ----- splicing a range -----

  function SpliceResult(ed: Editor, lines: seq<string>): seq<string>
    requires ed.Range?
  {
    var i := FirstIn(lines, {Trim(ed.start)}, 0);
    if i == |lines| then lines + Block(ed)
    else
      var j := FirstIn(lines, {Trim(ed.end)}, i + 1);
      if j == |lines| then lines[..i] + Block(ed)
      else lines[..i] + Block(ed) + lines[j + 1..]
  }

  /** Editor and output after some lines: where the start and the end of the range are. */
  function RangeAfter(ed: Editor, lines: seq<string>): (Editor, seq<string>)
    requires ed.Range?
  {
    var i := FirstIn(lines, {Trim(ed.start)}, 0);
    var j := if i < |lines| then FirstIn(lines, {Trim(ed.end)}, i + 1) else i;
    (ed.(startFound := i < |lines|, endFound := j < |lines|),
     if j < |lines| then lines[..i] + Block(ed) + lines[j + 1..] else lines[..i])
  }

  lemma RangeNext(ed: Editor, front: seq<string>, line: string)
    requires ed.Range?
    ensures var (e1, o1) := RangeAfter(ed, front);
      var (e2, o2) := Next(e1, line);
      RangeAfter(ed, front + [line]) == (e2, o1 + o2)
  {
    hide FirstIn, Trim, Next;
    var i := FirstIn(front, {Trim(ed.start)}, 0);
    if i == |front| {
      RangeNextBefore(ed, front, line);
    } else if FirstIn(front, {Trim(ed.end)}, i + 1) == |front| {
      RangeNextInside(ed, front, line, i);
    } else {
      RangeNextBehind(ed, front, line, i, FirstIn(front, {Trim(ed.end)}, i + 1));
    }
  }

  lemma RangeNextBefore(ed: Editor, front: seq<string>, line: string)
    requires ed.Range? && FirstIn(front, {Trim(ed.start)}, 0) == |front|
    ensures var (e1, o1) := RangeAfter(ed, front);
      var (e2, o2) := Next(e1, line);
      RangeAfter(ed, front + [line]) == (e2, o1 + o2)
  {
    hide FirstIn, Trim, Block;
    var lines, k := front + [line], |front|;
    FirstExtended(front, line, {Trim(ed.start)}, 0);
    assert front[..k] == front;
    if Trim(line) == Trim(ed.start) {
      assert FirstIn(lines, {Trim(ed.end)}, k + 1) == k + 1;
      assert lines[..k] == front && front + [] == front;
    } else {
      assert lines[..k + 1] == lines;
    }
  }

  lemma RangeNextInside(ed: Editor, front: seq<string>, line: string, i: nat)
    requires ed.Range? && i == FirstIn(front, {Trim(ed.start)}, 0) < |front|
    requires FirstIn(front, {Trim(ed.end)}, i + 1) == |front|
    ensures var (e1, o1) := RangeAfter(ed, front);
      var (e2, o2) := Next(e1, line);
      RangeAfter(ed, front + [line]) == (e2, o1 + o2)
  {
    hide FirstIn, Trim;
    var lines, k := front + [line], |front|;
    FirstExtended(front, line, {Trim(ed.start)}, 0);
    FirstExtended(front, line, {Trim(ed.end)}, i + 1);
    assert lines[..i] == front[..i] && lines[k + 1..] == [];
    assert front[..i] + Block(ed) + [] == front[..i] + Block(ed) && front[..i] + [] == front[..i];
  }

  lemma RangeNextBehind(ed: Editor, front: seq<string>, line: string, i: nat, j: nat)
    requires ed.Range? && i == FirstIn(front, {Trim(ed.start)}, 0) < |front|
    requires j == FirstIn(front, {Trim(ed.end)}, i + 1) < |front|
    ensures var (e1, o1) := RangeAfter(ed, front);
      var (e2, o2) := Next(e1, line);
      RangeAfter(ed, front + [line]) == (e2, o1 + o2)
  {
    hide FirstIn, Trim, Block;
    var lines := front + [line];
    FirstExtended(front, line, {Trim(ed.start)}, 0);
    FirstExtended(front, line, {Trim(ed.end)}, i + 1);
    assert lines[..i] == front[..i] && lines[j + 1..] == front[j + 1..] + [line];
    assert (front[..i] + Block(ed) + front[j + 1..]) + [line] == front[..i] + Block(ed) + (front[j + 1..] + [line]);
  }

  lemma {:induction false} RangeRun(ed: Editor, lines: seq<string>)
    requires ed.Range? && !ed.startFound && !ed.endFound
    ensures Run(ed, lines) == RangeAfter(ed, lines)
  {
    hide Next, RangeAfter;
    if lines != [] {
      var k := |lines| - 1;
      RangeRun(ed, lines[..k]);
      RangeNext(ed, lines[..k], lines[k]);
      assert lines == lines[..k] + [lines[k]];
    } else {
      RangeStart(ed);
    }
  }

  lemma RangeStart(ed: Editor)
    requires ed.Range? && !ed.startFound && !ed.endFound
    ensures RangeAfter(ed, []) == (ed, [])
  {
  }

  /** The block replaces the first range, or everything from an unended start on, or is
      added at the end; the text around it is kept in order. */
  lemma SpliceDoes(ed: Editor, lines: seq<string>)
    requires ed.Range? && !ed.startFound && !ed.endFound
    ensures Edited(ed, lines) == Some(SpliceResult(ed, lines))
  {
    hide FirstIn, Trim, Run;
    RangeRun(ed, lines);
    assert lines[..|lines|] == lines;
    assert SpliceResult(ed, lines) + [] == SpliceResult(ed, lines);
  }

  /** No content line looks like the end marker. */
  predicate FreeOfEnd(ed: Editor)
    requires ed.Range?
  {
    forall i :: 0 <= i < |ed.content| ==> Trim(ed.content[i]) != Trim(ed.end)
  }

  lemma SpliceShape(ed: Editor, lines: seq<string>) returns (before: seq<string>, behind: seq<string>)
    requires ed.Range?
    ensures SpliceResult(ed, lines) == before + Block(ed) + behind
    ensures forall k :: 0 <= k < |before| ==> Trim(before[k]) != Trim(ed.start)
  {
    var i := FirstIn(lines, {Trim(ed.start)}, 0);
    before, behind := lines[..i], [];
    if i < |lines| {
      var j := FirstIn(lines, {Trim(ed.end)}, i + 1);
      if j < |lines| { behind := lines[j + 1..]; }
    } else {
      assert lines[..i] == lines;
    }
  }

  lemma BlockEntries(ed: Editor, before: seq<string>, behind: seq<string>)
    requires ed.Range?
    ensures var out, i, m := before + Block(ed) + behind, |before|, |ed.content|;
      && |Block(ed)| == m + 2 && |out| == i + m + 2 + |behind| && out[..i] == before && out[i] == ed.start && out[i + 1 + m] == ed.end
      && (forall k :: 0 <= k < i ==> out[k] == before[k])
      && forall k :: 0 <= k < m ==> out[i + 1 + k] == ed.content[k]
  {
  }

  lemma SpliceBlock(ed: Editor, before: seq<string>, behind: seq<string>) returns (j: nat)
    requires ed.Range? && forall k :: 0 <= k < |before| ==> Trim(before[k]) != Trim(ed.start)
    ensures var out := before + Block(ed) + behind;
      && j < |before| + |Block(ed)|
      && SpliceResult(ed, out) == before + Block(ed) + out[j + 1..]
      && (FreeOfEnd(ed) <==> j == |before| + |Block(ed)| - 1)
  {
    hide Trim, FirstIn, Block, FreeOfEnd, SpliceResult;
    var out, i := before + Block(ed) + behind, |before|;
    BlockEntries(ed, before, behind);
    FirstIs(out, {Trim(ed.start)}, 0, i);
    j := FirstIn(out, {Trim(ed.end)}, i + 1);
    EndInBlock(ed, out, i, j);
    SpliceAt(ed, out, i, j);
  }

  lemma SpliceAt(ed: Editor, lines: seq<string>, i: nat, j: nat)
    requires ed.Range? && i < j < |lines|
    requires i == FirstIn(lines, {Trim(ed.start)}, 0) && j == FirstIn(lines, {Trim(ed.end)}, i + 1)
    ensures SpliceResult(ed, lines) == lines[..i] + Block(ed) + lines[j + 1..]
  {
    hide FirstIn, Trim, Block;
  }

  lemma EndInBlock(ed: Editor, out: seq<string>, i: nat, j: nat)
    requires ed.Range? && |out| >= i + |ed.content| + 2 && out[i + 1 + |ed.content|] == ed.end
    requires forall k :: 0 <= k < |ed.content| ==> out[i + 1 + k] == ed.content[k]
    requires j == FirstIn(out, {Trim(ed.end)}, i + 1)
    ensures j <= i + 1 + |ed.content| && (FreeOfEnd(ed) <==> j == i + 1 + |ed.content|)
  {
    hide Trim, FirstIn;
    var m := |ed.content|;
    if FreeOfEnd(ed) {
      forall k | i + 1 <= k < i + 1 + m ensures Trim(out[k]) != Trim(ed.end) {
        assert out[i + 1 + (k - i - 1)] == ed.content[k - i - 1];
      }
      FirstIs(out, {Trim(ed.end)}, i + 1, i + 1 + m);
    }
  }

  /** Splicing again changes nothing exactly when the content is free of the end marker;
      otherwise the text grows. */
  lemma SpliceIdempotentIff(ed: Editor, lines: seq<string>)
    requires ed.Range?
    ensures var out := SpliceResult(ed, lines);
      if FreeOfEnd(ed) then SpliceResult(ed, out) == out else |SpliceResult(ed, out)| > |out|
  {
    hide SpliceResult, FreeOfEnd, Block;
    var before, behind := SpliceShape(ed, lines);
    var out := before + Block(ed) + behind;
    var j := SpliceBlock(ed, before, behind);
    if FreeOfEnd(ed) { assert out[j + 1..] == behind; }
  }

  // ----- replacing a line -----

  function Texts(lines: seq<string>): seq<string> {
    seq(|lines|, i requires 0 <= i < |lines| => Trim(lines[i]))
  }

  /** The matching automaton without the output: where it stands after some texts, and the
      index at which it acted, if it did. */
  datatype Scan = Scan(pos: nat, hit: Option<nat>)

  function ScanTexts(previous: seq<string>, wanted: set<string>, texts: seq<string>): (r: Scan)
    ensures r.pos <= |previous|
    ensures r.hit.Some? ==> r.hit.value < |texts|
  {
    if texts == [] then Scan(0, None)
    else
      var k := |texts| - 1;
      var s := ScanTexts(previous, wanted, texts[..k]);
      if s.hit.Some? then s
      else if s.pos == |previous| && texts[k] in wanted then Scan(0, Some(k))
      else Scan(Advance(previous, s.pos, texts[k]), None)
  }

  /** The previous lines stand immediately before index `i`. */
  predicate Preceded(previous: seq<string>, texts: seq<string>, i: nat) {
    |previous| <= i <= |texts| && texts[i - |previous|..i] == previous
  }

  predicate Match(previous: seq<string>, wanted: set<string>, texts: seq<string>, i: nat) {
    i < |texts| && texts[i] in wanted && Preceded(previous, texts, i)
  }

  ghost predicate FirstMatch(previous: seq<string>, wanted: set<string>, texts: seq<string>, i: nat) {
    Match(previous, wanted, texts, i) && forall k :: 0 <= k < i ==> !Match(previous, wanted, texts, k)
  }

  function ReplaceResult(ed: Editor, lines: seq<string>): seq<string>
    requires ed.Replace?
  {
    match ScanTexts(ed.previous, {ed.oldLine, ed.newLine}, Texts(lines)).hit
    case None => lines
    case Some(i) => if Trim(lines[i]) == ed.oldLine then lines[i := ed.newLine] else lines
  }

  function ReplaceAfter(ed: Editor, lines: seq<string>): (Editor, seq<string>)
    requires ed.Replace?
  {
    var s := ScanTexts(ed.previous, {ed.oldLine, ed.newLine}, Texts(lines));
    (ed.(matched := s.hit.Some?, prevPos := s.pos), ReplaceResult(ed, lines))
  }

  lemma ScanExtended(previous: seq<string>, wanted: set<string>, front: seq<string>, line: string)
    ensures var s := ScanTexts(previous, wanted, Texts(front));
      ScanTexts(previous, wanted, Texts(front + [line])) ==
        if s.hit.Some? then s
        else if s.pos == |previous| && Trim(line) in wanted then Scan(0, Some(|front|))
        else Scan(Advance(previous, s.pos, Trim(line)), None)
  {
    assert Texts(front + [line])[..|front|] == Texts(front);
  }

  lemma ReplaceNext(ed: Editor, front: seq<string>, line: string)
    requires ed.Replace? && Valid(ed)
    ensures var (e1, o1) := ReplaceAfter(ed, front);
      Valid(e1) && var (e2, o2) := Next(e1, line);
      ReplaceAfter(ed, front + [line]) == (e2, o1 + o2)
  {
    hide Trim, ScanTexts;
    var s := ScanTexts(ed.previous, {ed.oldLine, ed.newLine}, Texts(front));
    ScanExtended(ed.previous, {ed.oldLine, ed.newLine}, front, line);
    if s.hit.Some? {
      var i := s.hit.value;
      assert front[i := ed.newLine] + [line] == (front + [line])[i := ed.newLine];
    } else {
      assert (front + [line])[|front| := ed.newLine] == front + [ed.newLine];
    }
  }

  lemma {:induction false} ReplaceRun(ed: Editor, lines: seq<string>)
    requires ed.Replace? && Valid(ed) && !ed.matched && ed.prevPos == 0
    ensures Run(ed, lines) == ReplaceAfter(ed, lines)
  {
    hide Next, ReplaceAfter, Valid;
    if lines != [] {
      var k := |lines| - 1;
      ReplaceRun(ed, lines[..k]);
      ReplaceNext(ed, lines[..k], lines[k]);
      assert lines == lines[..k] + [lines[k]];
    } else {
      ReplaceStart(ed);
    }
  }

  lemma ReplaceStart(ed: Editor)
    requires ed.Replace? && !ed.matched && ed.prevPos == 0
    ensures ReplaceAfter(ed, []) == (ed, [])
  {
  }

  /** At most one line changes, the one the automaton acted on; an editor that must match
      fails exactly when it acted on none. */
  lemma ReplaceDoes(ed: Editor, lines: seq<string>)
    requires ed.Replace? && Valid(ed) && !ed.matched && ed.prevPos == 0
    ensures Edited(ed, lines) ==
      if ed.mustMatch && ScanTexts(ed.previous, {ed.oldLine, ed.newLine}, Texts(lines)).hit.None? then None
      else Some(ReplaceResult(ed, lines))
  {
    hide Run, ReplaceResult, ScanTexts;
    ReplaceRun(ed, lines);
    assert ReplaceResult(ed, lines) + [] == ReplaceResult(ed, lines);
  }

  // ----- what the automaton finds -----

  /** It stands at `pos` only behind the first `pos` previous lines. */
  lemma {:induction false} ScanStandsBehind(previous: seq<string>, wanted: set<string>, texts: seq<string>)
    ensures var s := ScanTexts(previous, wanted, texts);
      s.hit.None? ==> s.pos <= |texts| && texts[|texts| - s.pos..] == previous[..s.pos]
  {
    hide Advance;
    if texts != [] {
      var k := |texts| - 1;
      ScanStandsBehind(previous, wanted, texts[..k]);
      var s0 := ScanTexts(previous, wanted, texts[..k]);
      if ScanTexts(previous, wanted, texts).hit.None? {
        AdvanceStandsBehind(previous, texts[..k], texts[k], s0.pos);
        assert texts == texts[..k] + [texts[k]];
      }
    }
  }

  lemma AdvanceStandsBehind(previous: seq<string>, texts: seq<string>, text: string, pos: nat)
    requires pos <= |previous| && pos <= |texts| && texts[|texts| - pos..] == previous[..pos]
    ensures var p := Advance(previous, pos, text);
      p <= |texts| + 1 && (texts + [text])[|texts| + 1 - p..] == previous[..p]
  {
    var p, all := Advance(previous, pos, text), texts + [text];
    if p > 0 {
      assert previous[..p] == previous[..p - 1] + [text];
      assert all[|texts| + 1 - p..] == texts[|texts| - (p - 1)..] + [text];
      if p - 1 == 0 { assert texts[|texts|..] == previous[..0]; }
    }
  }

  /** A line is acted on only where the required previous lines stand right before it. */
  lemma {:induction false} HitIsMatch(previous: seq<string>, wanted: set<string>, texts: seq<string>)
    ensures var s := ScanTexts(previous, wanted, texts);
      s.hit.Some? ==> Match(previous, wanted, texts, s.hit.value)
  {
    hide Advance;
    if texts != [] {
      var k := |texts| - 1;
      var front := texts[..k];
      HitIsMatch(previous, wanted, front);
      ScanStandsBehind(previous, wanted, front);
      var s := ScanTexts(previous, wanted, texts);
      if s.hit.Some? && s.hit.value < k {
        var i := s.hit.value;
        assert texts[i - |previous|..i] == front[i - |previous|..i];
      } else if s.hit.Some? {
        assert texts[k - |previous|..k] == front[k - |previous|..];
      }
    }
  }

  // ----- when the automaton finds the first match -----

  /** It always acts on the first match if there is one. */
  ghost predicate Complete(previous: seq<string>, wanted: set<string>) {
    forall texts, i: nat :: FirstMatch(previous, wanted, texts, i) ==> ScanTexts(previous, wanted, texts).hit == Some(i)
  }

  predicate AllEqual(previous: seq<string>) {
    forall i :: 0 <= i < |previous| ==> previous[i] == previous[0]
  }

  /** At most one previous line, or the same line throughout and that line itself wanted. */
  predicate Trackable(previous: seq<string>, wanted: set<string>) {
    |previous| <= 1 || (AllEqual(previous) && previous[0] in wanted)
  }

  /** How many texts at the end equal `a`. */
  function TrailingRun(texts: seq<string>, a: string): (n: nat)
    ensures n <= |texts|
    ensures forall i :: |texts| - n <= i < |texts| ==> texts[i] == a
    ensures n < |texts| ==> texts[|texts| - n - 1] != a
  {
    if texts != [] && texts[|texts| - 1] == a then 1 + TrailingRun(texts[..|texts| - 1], a) else 0
  }

  lemma {:induction false} EqualLinesCounted(previous: seq<string>, wanted: set<string>, texts: seq<string>)
    requires |previous| >= 2 && AllEqual(previous) && previous[0] in wanted
    ensures var s := ScanTexts(previous, wanted, texts); s.hit.None? ==> s.pos == TrailingRun(texts, previous[0])
  {
    if texts != [] {
      EqualLinesCounted(previous, wanted, texts[..|texts| - 1]);
    }
  }

  lemma RunReaches(texts: seq<string>, a: string, m: nat)
    requires m <= |texts|
    ensures TrailingRun(texts, a) >= m <==> forall i :: |texts| - m <= i < |texts| ==> texts[i] == a
  {
    hide TrailingRun;
    var n := TrailingRun(texts, a);
    if n < m { assert texts[|texts| - n - 1] != a; }
  }

  lemma RunMeansPreceded(previous: seq<string>, texts: seq<string>)
    requires |previous| >= 1 && AllEqual(previous)
    ensures Preceded(previous, texts, |texts|) <==> TrailingRun(texts, previous[0]) >= |previous|
  {
    hide TrailingRun;
    var m := |previous|;
    if m <= |texts| {
      RunReaches(texts, previous[0], m);
      var tail := texts[|texts| - m..|texts|];
      assert forall i :: |texts| - m <= i < |texts| ==> texts[i] == tail[i - (|texts| - m)];
      assert forall i :: 0 <= i < m ==> tail[i] == texts[|texts| - m + i];
    }
  }

  /** While nothing was acted on, the automaton stands at the end of its pattern exactly
      when the previous lines have just been read. */
  lemma TrackedPosition(previous: seq<string>, wanted: set<string>, texts: seq<string>)
    requires Trackable(previous, wanted)
    ensures var s := ScanTexts(previous, wanted, texts);
      s.hit.None? ==> (s.pos == |previous| <==> Preceded(previous, texts, |texts|))
  {
    if |previous| >= 2 {
      EqualLinesCounted(previous, wanted, texts);
      RunMeansPreceded(previous, texts);
    } else if |previous| == 1 && texts != [] {
      assert texts[|texts| - 1..|texts|] == [texts[|texts| - 1]];
    } else {
      assert texts[|texts|..|texts|] == [];
    }
  }

  lemma PrecededFront(previous: seq<string>, texts: seq<string>, k: nat, j: nat)
    requires j <= k <= |texts|
    ensures Preceded(previous, texts[..k], j) <==> Preceded(previous, texts, j)
  {
    if |previous| <= j { assert texts[..k][j - |previous|..j] == texts[j - |previous|..j]; }
  }

  lemma {:induction false} TrackableFindsFirst(previous: seq<string>, wanted: set<string>, texts: seq<string>, i: nat)
    requires Trackable(previous, wanted) && FirstMatch(previous, wanted, texts, i)
    ensures ScanTexts(previous, wanted, texts).hit == Some(i)
    decreases |texts|
  {
    var k := |texts| - 1;
    var front := texts[..k];
    forall j: nat | j < k ensures Match(previous, wanted, front, j) <==> Match(previous, wanted, texts, j) {
      PrecededFront(previous, texts, k, j);
    }
    PrecededFront(previous, texts, k, k);
    if i < k {
      TrackableFindsFirst(previous, wanted, front, i);
    } else {
      HitIsMatch(previous, wanted, front);
      var s := ScanTexts(previous, wanted, front);
      assert forall j: nat :: s.hit == Some(j) ==> Match(previous, wanted, texts, j);
      TrackedPosition(previous, wanted, front);
    }
  }

  // ----- when it does not -----

  /** After `n` further texts the automaton stands at most `n` further on. */
  lemma {:induction false} SlowClimb(previous: seq<string>, wanted: set<string>, texts: seq<string>, more: seq<string>)
    requires ScanTexts(previous, wanted, texts) == Scan(0, None) && |more| < |previous|
    ensures var s := ScanTexts(previous, wanted, texts + more); s.hit.None? && s.pos <= |more|
  {
    if more == [] {
      assert texts + more == texts;
    } else {
      var k := |more| - 1;
      SlowClimb(previous, wanted, texts, more[..k]);
      assert (texts + more)[..|texts| + k] == texts + more[..k];
    }
  }

  lemma {:induction false} ClimbEqual(previous: seq<string>, wanted: set<string>, a: string, n: nat)
    requires n <= |previous| && forall i :: 0 <= i < n ==> previous[i] == a
    ensures ScanTexts(previous, wanted, seq(n, i => a)) == Scan(n, None)
  {
    if n > 0 {
      ClimbEqual(previous, wanted, a, n - 1);
      assert seq(n, i => a)[..n - 1] == seq(n - 1, i => a);
    }
  }

  /** The text the automaton misses: the first previous line once more, then all of them,
      then a wanted line. */
  lemma RepeatedStartIsMissed(previous: seq<string>, wanted: set<string>, w: string)
    requires |previous| >= 2 && !Trackable(previous, wanted) && w in wanted
    ensures var texts := [previous[0]] + previous + [w];
      Match(previous, wanted, texts, |previous| + 1) && ScanTexts(previous, wanted, texts).hit.None?
  {
    var a, m := previous[0], |previous|;
    var texts := [a] + previous + [w];
    assert texts[1..m + 1] == previous;
    if AllEqual(previous) {
      MissedAllEqual(previous, wanted, w);
    } else {
      MissedUnequal(previous, wanted, w);
    }
  }

  lemma MissedAllEqual(previous: seq<string>, wanted: set<string>, w: string)
    requires |previous| >= 2 && AllEqual(previous) && previous[0] !in wanted
    ensures ScanTexts(previous, wanted, [previous[0]] + previous + [w]).hit.None?
  {
    var a, m := previous[0], |previous|;
    var texts := [a] + previous + [w];
    ClimbEqual(previous, wanted, a, m);
    assert texts[..m] == seq(m, i => a);
    assert texts[..m + 1][..m] == texts[..m] && texts[..m + 1][m] == a;
    assert ScanTexts(previous, wanted, texts[..m + 1]) == Scan(1, None);
    assert texts[..m + 2] == texts && texts[..m + 2][..m + 1] == texts[..m + 1];
  }

  lemma MissedUnequal(previous: seq<string>, wanted: set<string>, w: string)
    requires |previous| >= 2 && !AllEqual(previous)
    ensures ScanTexts(previous, wanted, [previous[0]] + previous + [w]).hit.None?
  {
    var a, m := previous[0], |previous|;
    var texts := [a] + previous + [w];
    var r := FirstUnequal(previous);
    ClimbEqual(previous, wanted, a, r);
    assert texts[..r] == seq(r, i => a);
    assert texts[..r + 1][..r] == texts[..r] && texts[..r + 1][r] == a;
    assert ScanTexts(previous, wanted, texts[..r + 1]) == Scan(0, None);
    SlowClimb(previous, wanted, texts[..r + 1], previous[r..]);
    assert texts[..r + 1] + previous[r..] == texts[..m + 1];
    assert texts[..m + 2] == texts && texts[..m + 2][..m + 1] == texts[..m + 1];
  }

  lemma FirstUnequal(previous: seq<string>) returns (r: nat)
    requires !AllEqual(previous)
    ensures 0 < r < |previous| && previous[r] != previous[0]
    ensures forall i :: 0 <= i < r ==> previous[i] == previous[0]
  {
    r := 1;
    while r < |previous| && previous[r] == previous[0]
      invariant 1 <= r <= |previous|
      invariant forall i :: 0 <= i < r ==> previous[i] == previous[0]
    {
      r := r + 1;
    }
  }

  /** The exact reach of the automaton: it always acts on the first match exactly when
      there is at most one previous line, or they are all the same wanted line. */
  lemma CompleteIffTrackable(previous: seq<string>, oldLine: string, newLine: string)
    ensures Complete(previous, {oldLine, newLine}) <==> Trackable(previous, {oldLine, newLine})
  {
    hide Match, ScanTexts, Trackable;
    var wanted := {oldLine, newLine};
    if Trackable(previous, wanted) {
      forall texts, i: nat | FirstMatch(previous, wanted, texts, i) ensures ScanTexts(previous, wanted, texts).hit == Some(i) {
        TrackableFindsFirst(previous, wanted, texts, i);
      }
    } else {
      Untrackable(previous, wanted);
      RepeatedStartIsMissed(previous, wanted, oldLine);
      var texts := [previous[0]] + previous + [oldLine];
      var i := SomeFirstMatch(previous, wanted, texts, |previous| + 1);
      assert FirstMatch(previous, wanted, texts, i);
    }
  }

  lemma Untrackable(previous: seq<string>, wanted: set<string>)
    requires !Trackable(previous, wanted)
    ensures |previous| >= 2
  {
  }

  lemma SomeFirstMatch(previous: seq<string>, wanted: set<string>, texts: seq<string>, n: nat) returns (i: nat)
    requires Match(previous, wanted, texts, n)
    ensures FirstMatch(previous, wanted, texts, i)
  {
    i := 0;
    while !Match(previous, wanted, texts, i)
      invariant i <= n && forall k :: 0 <= k < i ==> !Match(previous, wanted, texts, k)
      decreases n - i
    {
      i := i + 1;
    }
  }

  /** The automaton acts on the line it wrote, and on no other. */
  lemma HitAgain(ed: Editor, lines: seq<string>)
    requires ed.Replace? && Valid(ed)
    ensures var wanted := {ed.oldLine, ed.newLine};
      ScanTexts(ed.previous, wanted, Texts(ReplaceResult(ed, lines))).hit == ScanTexts(ed.previous, wanted, Texts(lines)).hit
  {
    hide ScanTexts;
    var wanted := {ed.oldLine, ed.newLine};
    var s := ScanTexts(ed.previous, wanted, Texts(lines));
    var out := ReplaceResult(ed, lines);
    if s.hit.Some? {
      var i := s.hit.value;
      TrimmedIsFixed(ed.newLine);
      HitAtPrefix(ed.previous, wanted, Texts(lines), i);
      assert Texts(out)[..i] == Texts(lines)[..i];
      HitThere(ed.previous, wanted, Texts(out), i);
    }
  }

  /** Replacing again changes nothing. */
  lemma ReplaceIdempotent(ed: Editor, lines: seq<string>)
    requires ed.Replace? && Valid(ed)
    ensures var out := ReplaceResult(ed, lines); ReplaceResult(ed, out) == out
  {
    hide ScanTexts;
    HitAgain(ed, lines);
    TrimmedIsFixed(ed.newLine);
  }

  lemma {:induction false} HitAtPrefix(previous: seq<string>, wanted: set<string>, texts: seq<string>, i: nat)
    requires ScanTexts(previous, wanted, texts).hit == Some(i)
    ensures i < |texts| && texts[i] in wanted
    ensures var s := ScanTexts(previous, wanted, texts[..i]); s.hit.None? && s.pos == |previous|
    decreases |texts|
  {
    var k := |texts| - 1;
    if i < k {
      HitAtPrefix(previous, wanted, texts[..k], i);
      assert texts[..k][..i] == texts[..i];
    }
  }

  lemma {:induction false} HitThere(previous: seq<string>, wanted: set<string>, texts: seq<string>, i: nat)
    requires i < |texts| && texts[i] in wanted
    requires var s := ScanTexts(previous, wanted, texts[..i]); s.hit.None? && s.pos == |previous|
    ensures ScanTexts(previous, wanted, texts).hit == Some(i)
    decreases |texts|
  {
    var k := |texts| - 1;
    if i < k {
      assert texts[..k][..i] == texts[..i];
      HitThere(previous, wanted, texts[..k], i);
    }
  }

  // ----- whole texts -----

  /** An editor before its first line. */
  predicate Fresh(ed: Editor) {
    match ed
    case Simple(_, _, found) => !found
    case Range(_, _, _, startFound, endFound) => !startFound && !endFound
    case Replace(_, _, _, _, matched, pos) => !matched && pos == 0
  }

  /** The lines an editor that does not fail makes of some lines. */
  function Result(ed: Editor, lines: seq<string>): seq<string> {
    match ed
    case Simple(line, olds, _) => AppendResult(line, olds, lines)
    case Range(_, _, _, _, _) => SpliceResult(ed, lines)
    case Replace(_, _, _, _, _, _) => ReplaceResult(ed, lines)
  }

  lemma EditedIsResult(ed: Editor, lines: seq<string>)
    requires Valid(ed) && Fresh(ed) && Edited(ed, lines).Some?
    ensures Edited(ed, lines) == Some(Result(ed, lines))
  {
    hide Edited, AppendResult, SpliceResult, ReplaceResult, ScanTexts;
    match ed
    case Simple(line, olds, _) => AppendDoes(line, olds, lines);
    case Range(_, _, _, _, _) => SpliceDoes(ed, lines);
    case Replace(_, _, _, _, _, _) => ReplaceDoes(ed, lines);
  }

  lemma TextsBare(lines: seq<string>)
    ensures Texts(Bare(lines)) == Texts(lines)
  {
    hide Trim, DropReturn;
    forall k | 0 <= k < |lines| ensures Trim(Bare(lines)[k]) == Trim(lines[k]) { TrimReturn(lines[k]); }
  }

  // ----- what an editor puts in place of what -----

  /** The input lines `from <= k < to` an editor replaces by its own. */
  function Replaced(ed: Editor, lines: seq<string>): (span: (nat, nat))
    ensures span.0 <= span.1 <= |lines|
  {
    var none := (|lines|, |lines|);
    match ed
    case Simple(line, olds, _) =>
      var i := FirstIn(lines, {Trim(line)} + olds, 0);
      if i == |lines| || Trim(lines[i]) == Trim(line) then none else (i, i + 1)
    case Range(start, _, end, _, _) =>
      var i := FirstIn(lines, {Trim(start)}, 0);
      if i == |lines| then none
      else
        var j := FirstIn(lines, {Trim(end)}, i + 1);
        (i, if j == |lines| then j else j + 1)
    case Replace(o, n, previous, _, _, _) =>
      match ScanTexts(previous, {o, n}, Texts(lines)).hit
      case None => none
      case Some(i) => if Trim(lines[i]) == o then (i, i + 1) else none
  }

  /** Its own lines that it puts there. */
  function Own(ed: Editor, lines: seq<string>): seq<string> {
    match ed
    case Simple(line, olds, _) =>
      var i := FirstIn(lines, {Trim(line)} + olds, 0);
      if i == |lines| || Trim(lines[i]) != Trim(line) then [line] else []
    case Range(_, _, _, _, _) => Block(ed)
    case Replace(_, n, _, _, _, _) => if Replaced(ed, lines).0 < Replaced(ed, lines).1 then [n] else []
  }

  lemma ResultSpan(ed: Editor, lines: seq<string>)
    ensures var (from, to) := Replaced(ed, lines); Result(ed, lines) == lines[..from] + Own(ed, lines) + lines[to..]
  {
    hide Replaced, Own, Result;
    match ed
    case Simple(_, _, _) => AppendSpan(ed, lines);
    case Range(_, _, _, _, _) => SpliceSpan(ed, lines);
    case Replace(_, _, _, _, _, _) => ReplaceSpan(ed, lines);
  }

  lemma AppendSpan(ed: Editor, lines: seq<string>)
    requires ed.Simple?
    ensures var (from, to) := Replaced(ed, lines); Result(ed, lines) == lines[..from] + Own(ed, lines) + lines[to..]
  {
    hide Trim, FirstIn;
    var (from, to) := Replaced(ed, lines);
    NothingBehind(lines, from, Own(ed, lines));
    assert from < to ==> lines[from := ed.line] == lines[..from] + [ed.line] + lines[from + 1..];
  }

  lemma SpliceSpan(ed: Editor, lines: seq<string>)
    requires ed.Range?
    ensures var (from, to) := Replaced(ed, lines); Result(ed, lines) == lines[..from] + Own(ed, lines) + lines[to..]
  {
    hide Trim, FirstIn, Block;
    NothingBehind(lines, Replaced(ed, lines).0, Block(ed));
  }

  lemma ReplaceSpan(ed: Editor, lines: seq<string>)
    requires ed.Replace?
    ensures var (from, to) := Replaced(ed, lines); Result(ed, lines) == lines[..from] + Own(ed, lines) + lines[to..]
  {
    hide Trim, ScanTexts;
    var (from, to) := Replaced(ed, lines);
    NothingBehind(lines, from, []);
    assert from < to ==> lines[from := ed.newLine] == lines[..from] + [ed.newLine] + lines[from + 1..];
  }

  lemma NothingBehind(lines: seq<string>, from: nat, own: seq<string>)
    requires from <= |lines|
    ensures lines[..from] + own + lines[|lines|..] == lines[..from] + own
    ensures lines[..|lines|] == lines && lines[..|lines|] + [] + lines[|lines|..] == lines
  {
  }

  /** A carriage return at the end of a line changes nothing in that. */
  lemma SpanOfBare(ed: Editor, lines: seq<string>)
    ensures Replaced(ed, Bare(lines)) == Replaced(ed, lines) && Own(ed, Bare(lines)) == Own(ed, lines)
  {
    hide Trim, FirstIn, ScanTexts, DropReturn;
    forall k | 0 <= k < |lines| ensures Trim(Bare(lines)[k]) == Trim(lines[k]) { TrimReturn(lines[k]); }
    match ed
    case Simple(line, olds, _) => FirstBare(lines, {Trim(line)} + olds, 0);
    case Range(start, _, end, _, _) =>
      var i := FirstIn(lines, {Trim(start)}, 0);
      FirstBare(lines, {Trim(start)}, 0);
      if i < |lines| { FirstBare(lines, {Trim(end)}, i + 1); }
    case Replace(_, _, _, _, _, _) => TextsBare(lines);
  }

  // ----- which texts an edit leaves alone -----

  /** No line outside the ones replaced ends in a carriage return. */
  predicate KeptPlain(ed: Editor, lines: seq<string>) {
    var (from, to) := Replaced(ed, lines);
    AllPlain(lines[..from]) && AllPlain(lines[to..])
  }

  /** Nothing to be done: what would be replaced are the pieces of what would replace it. */
  predicate Settled(ed: Editor, lines: seq<string>) {
    var (from, to) := Replaced(ed, lines);
    KeptPlain(ed, lines) && lines[from..to] == Flat(Own(ed, lines))
  }

  /** An edit of the text of some lines writes the same text exactly when they are settled. */
  lemma SettledIff(ed: Editor, lines: seq<string>)
    requires NewlineFree(lines)
    ensures Written(Result(ed, Bare(lines))) == Written(lines) <==> Settled(ed, lines)
  {
    hide Written, Flat, Result, Replaced, Own, AllPlain, Bare, DropReturn;
    var (from, to) := Replaced(ed, lines);
    var own := Own(ed, lines);
    SpanOfBare(ed, lines);
    ResultSpan(ed, Bare(lines));
    BareParts(lines, from, to);
    WrittenEqualIff(Bare(lines[..from]) + own + Bare(lines[to..]), lines);
    FlatAround(Bare(lines[..from]), own, Bare(lines[to..]));
    FlatFree(lines);
    SamePartsIff(Bare(lines[..from]), Flat(own), Bare(lines[to..]), lines, from, to);
  }

  lemma BareParts(lines: seq<string>, from: nat, to: nat)
    requires NewlineFree(lines) && from <= to <= |lines|
    ensures Bare(lines)[..from] == Bare(lines[..from]) && Bare(lines)[to..] == Bare(lines[to..])
    ensures NewlineFree(Bare(lines[..from])) && NewlineFree(Bare(lines[to..]))
    ensures Bare(lines[..from]) == lines[..from] <==> AllPlain(lines[..from])
    ensures Bare(lines[to..]) == lines[to..] <==> AllPlain(lines[to..])
  {
    hide DropReturn, Plain, AllPlain;
    DropReturnIff(lines[..from]);
    DropReturnIff(lines[to..]);
  }

  lemma FlatAround(a: seq<string>, own: seq<string>, b: seq<string>)
    requires NewlineFree(a) && NewlineFree(b)
    ensures Flat(a + own + b) == a + Flat(own) + b
  {
    hide Flat;
    FlatSplit(a + own, b);
    FlatSplit(a, own);
    FlatFree(a);
    FlatFree(b);
  }

  lemma SamePartsIff(a: seq<string>, mid: seq<string>, b: seq<string>, all: seq<string>, from: nat, to: nat)
    requires from <= to <= |all| && |a| == from && |b| == |all| - to
    ensures a + mid + b == all <==> a == all[..from] && mid == all[from..to] && b == all[to..]
  {
    var parts := a + mid + b;
    if parts == all {
      assert a == parts[..from] && mid == parts[from..to] && b == parts[to..];
    } else {
      assert all == all[..from] + all[from..to] + all[to..];
    }
  }

  // ----- when a first edit leaves a settled text -----

  /** An editor looking through the pieces of its own lines stops where it should: at the
      line itself, or at both ends of the block. */
  predicate Recognized(ed: Editor)
    requires !ed.Replace?
  {
    match ed
    case Simple(line, olds, _) =>
      var own := Pieces(Chomp(line));
      var k := FirstIn(own, {Trim(line)} + olds, 0);
      k < |own| && Trim(own[k]) == Trim(line)
    case Range(start, _, end, _, _) =>
      var own := Flat(Block(ed));
      |own| >= 2 && Trim(own[0]) == Trim(start) && FirstIn(own, {Trim(end)}, 1) >= |own| - 1
  }

  /** The new line was put in, and the editor finds no place to act on afterwards. */
  predicate Lost(ed: Editor, lines: seq<string>)
    requires ed.Replace?
  {
    var (from, to) := Replaced(ed, lines);
    from < to && ScanTexts(ed.previous, {ed.oldLine, ed.newLine}, Texts(lines[..from] + Pieces(ed.newLine) + lines[to..])).hit.None?
  }

  /** No line that is kept ends in a carriage return, nor a piece of a single line put out;
      lines put out are recognized, or, if a replacing line is several, no longer found. */
  predicate Repeatable(ed: Editor, lines: seq<string>) {
    && KeptPlain(ed, lines)
    && match ed
       case Simple(line, _, _) => Own(ed, lines) != [] ==> Recognized(ed) && AllPlain(Pieces(Chomp(line)))
       case Range(_, _, _, _, _) => Recognized(ed)
       case Replace(_, n, _, _, _, _) =>
         Own(ed, lines) != [] && '\n' in n ==> Lost(ed, lines) && AllPlain(Pieces(n))
  }

  lemma FlatResult(ed: Editor, lines: seq<string>)
    requires NewlineFree(lines)
    ensures var (from, to) := Replaced(ed, lines);
      Flat(Result(ed, lines)) == lines[..from] + Flat(Own(ed, lines)) + lines[to..]
  {
    hide Result, Replaced, Own, Flat;
    var (from, to) := Replaced(ed, lines);
    ResultSpan(ed, lines);
    FlatAround(lines[..from], Own(ed, lines), lines[to..]);
  }

  lemma PlainAround(a: seq<string>, b: seq<string>, c: seq<string>)
    ensures AllPlain(a + b + c) <==> AllPlain(a) && AllPlain(b) && AllPlain(c)
  {
    hide Plain;
    var all := a + b + c;
    assert forall k :: 0 <= k < |a| ==> a[k] == all[k];
    assert forall k :: 0 <= k < |b| ==> b[k] == all[|a| + k];
    assert forall k :: 0 <= k < |c| ==> c[k] == all[|a| + |b| + k];
  }

  /** An editor that puts nothing out leaves a text without final carriage returns alone. */
  lemma IdleIsSettled(ed: Editor, lines: seq<string>)
    requires Replaced(ed, lines) == (|lines|, |lines|) && Own(ed, lines) == []
    ensures KeptPlain(ed, lines) <==> AllPlain(lines)
    ensures Settled(ed, lines) <==> AllPlain(lines)
  {
    hide Plain, Replaced, Own;
    assert lines[..|lines|] == lines && lines[|lines|..] == [] && lines[|lines|..|lines|] == [];
  }

  /** An appended line stays as it is exactly when its pieces are plain and the editor meets
      the line itself among them first. */
  lemma AppendAgain(ed: Editor, lines: seq<string>)
    requires ed.Simple? && NewlineFree(lines)
    ensures Settled(ed, Flat(Result(ed, lines))) <==> Repeatable(ed, lines)
  {
    hide Trim, FirstIn, Plain, Chomp, Settled, AllPlain, Flat, Pieces, Result, Recognized;
    FlatResult(ed, lines);
    var (from, to) := Replaced(ed, lines);
    if Own(ed, lines) == [] {
      FlatFree([]);
      NothingBehind(lines, |lines|, []);
      IdleIsSettled(ed, lines);
    } else {
      FlatOne(ed.line);
      AppendedAgain(ed, lines[..from], lines[to..]);
      PlainAround(lines[..from], Pieces(Chomp(ed.line)), lines[to..]);
    }
  }

  lemma AppendedAgain(ed: Editor, a: seq<string>, b: seq<string>)
    requires ed.Simple? && NewlineFree(a) && NewlineFree(b)
    requires forall k :: 0 <= k < |a| ==> Trim(a[k]) !in {Trim(ed.line)} + ed.oldLines
    ensures var all := a + Pieces(Chomp(ed.line)) + b;
      Settled(ed, all) <==> Recognized(ed) && AllPlain(all)
  {
    hide Trim, FirstIn, Plain, Chomp, Pieces, AllPlain, Flat, KeptPlain;
    var wanted, own := {Trim(ed.line)} + ed.oldLines, Pieces(Chomp(ed.line));
    var all, k := a + own + b, FirstIn(own, wanted, 0);
    assert all == a + (own + b);
    FirstSkips(a, own + b, wanted);
    FlatOne(ed.line);
    if k < |own| {
      FirstInFront(own, b, wanted, 0);
      assert all[|a| + k] == own[k];
    } else {
      NotAmongPieces(ed.line, own, all);
    }
    TrimChomp(ed.line);
    if Recognized(ed) { IdleIsSettled(ed, all); }
  }

  /** A line none of whose pieces has its text is several lines, and equal to none. */
  lemma NotAmongPieces(line: string, own: seq<string>, all: seq<string>)
    requires own == Pieces(Chomp(line)) && NewlineFree(all)
    requires forall k :: 0 <= k < |own| ==> Trim(own[k]) != Trim(line)
    ensures |own| >= 2 && forall k :: 0 <= k < |all| ==> Trim(all[k]) != Trim(line)
  {
    hide Trim, Chomp, Pieces;
    TrimChomp(line);
    assert Chomp(line) !in own;
    if '\n' !in Trim(Chomp(line)) {
      var k := CorePiece(Chomp(line));
    }
    forall k | 0 <= k < |all| ensures Trim(all[k]) != Trim(line) { TrimWithin(all[k], '\n'); }
  }

  /** A spliced block stays as it is exactly when the editor meets its start marker first
      and its end marker last among its pieces. */
  lemma SpliceAgain(ed: Editor, lines: seq<string>)
    requires ed.Range? && NewlineFree(lines)
    ensures Settled(ed, Flat(Result(ed, lines))) <==> Repeatable(ed, lines)
  {
    hide Trim, FirstIn, Plain, AllPlain, Flat, Result, Block, Recognized;
    FlatResult(ed, lines);
    var (from, to) := Replaced(ed, lines);
    var before, own, behind := lines[..from], Flat(Block(ed)), lines[to..];
    var all := before + own + behind;
    if '\n' in Trim(ed.end) {
      forall k | 0 <= k < |lines| ensures Trim(lines[k]) != Trim(ed.end) { TrimWithin(lines[k], '\n'); }
      assert to == |lines|;
    }
    BlockAgain(ed, before, behind);
    assert all[..|before|] == before && all[|before| + |own|..] == behind;
  }

  lemma BlockAgain(ed: Editor, before: seq<string>, behind: seq<string>)
    requires ed.Range? && forall k :: 0 <= k < |before| ==> Trim(before[k]) != Trim(ed.start)
    requires '\n' in Trim(ed.end) ==> behind == []
    ensures var own := Flat(Block(ed));
      var all := before + own + behind;
      var (from, to) := Replaced(ed, all);
      && (all[from..to] == own <==> Recognized(ed))
      && (Recognized(ed) ==> from == |before| && to == |before| + |own|)
  {
    hide Trim, FirstIn, Flat, Block;
    var own := Flat(Block(ed));
    var all := before + own + behind;
    var (from, to) := Replaced(ed, all);
    BlockPieces(ed);
    assert all == before + (own + behind);
    FirstSkips(before, own + behind, {Trim(ed.start)});
    FirstBehind(before, own + behind, {Trim(ed.end)}, 1);
    if FirstIn(own, {Trim(ed.end)}, 1) < |own| {
      FirstInFront(own, behind, {Trim(ed.end)}, 1);
    } else {
      assert own + [] == own;
    }
    if Trim(own[0]) == Trim(ed.start) {
      FirstIs(own + behind, {Trim(ed.start)}, 0, 0);
    } else {
      assert from < to ==> all[from..to][0] == all[from];
    }
  }

  lemma BlockPieces(ed: Editor)
    requires ed.Range?
    ensures var own := Flat(Block(ed));
      |own| >= 2 && ('\n' !in Trim(ed.end) ==> FirstIn(own, {Trim(ed.end)}, 1) < |own|)
  {
    hide Trim, FirstIn, Chomp, Pieces, Flat;
    var own := Flat(Block(ed));
    FlatSplit([ed.start] + ed.content, [ed.end]);
    FlatSplit([ed.start], ed.content);
    FlatOne(ed.start);
    FlatOne(ed.end);
    TrimChomp(ed.end);
    if '\n' !in Trim(ed.end) {
      var k := CorePiece(Chomp(ed.end));
      assert own[|own| - |Pieces(Chomp(ed.end))| + k] == Pieces(Chomp(ed.end))[k];
    }
  }

  /** A replaced line stays as it is unless it is several lines, and then exactly when they
      are plain and the editor finds no further place. */
  lemma ReplaceAgain(ed: Editor, lines: seq<string>)
    requires ed.Replace? && Valid(ed) && NewlineFree(lines)
    ensures Settled(ed, Flat(Result(ed, lines))) <==> Repeatable(ed, lines)
  {
    hide Trim, ScanTexts, Plain, Flat, Pieces, Settled, AllPlain, Chomp, Result;
    FlatResult(ed, lines);
    var (from, to) := Replaced(ed, lines);
    if from == to {
      FlatFree([]);
      NothingBehind(lines, |lines|, []);
      IdleIsSettled(ed, lines);
    } else {
      NewLineIsTrimmed(ed);
      FlatOne(ed.newLine);
      PlainAround(lines[..from], Pieces(ed.newLine), lines[to..]);
      if '\n' in ed.newLine {
        ReplacedBySeveral(ed, lines[..from], lines[to..]);
      } else {
        assert Pieces(ed.newLine) == [ed.newLine];
        ReplacedByOne(ed, lines);
      }
    }
  }

  lemma NewLineIsTrimmed(ed: Editor)
    requires ed.Replace? && Valid(ed)
    ensures Trim(ed.newLine) == ed.newLine == Chomp(ed.newLine)
    ensures '\n' !in ed.newLine ==> Plain(ed.newLine)
  {
    TrimmedIsFixed(ed.newLine);
  }

  lemma ReplacedBySeveral(ed: Editor, a: seq<string>, b: seq<string>)
    requires ed.Replace? && Valid(ed) && '\n' in ed.newLine && NewlineFree(a) && NewlineFree(b)
    ensures var all := a + Pieces(ed.newLine) + b;
      Settled(ed, all) <==>
        ScanTexts(ed.previous, {ed.oldLine, ed.newLine}, Texts(all)).hit.None? && AllPlain(all)
  {
    hide Trim, ScanTexts, Plain, Flat, Pieces, KeptPlain, AllPlain, Chomp;
    var all := a + Pieces(ed.newLine) + b;
    NewLineIsTrimmed(ed);
    FlatOne(ed.newLine);
    forall k | 0 <= k < |all| ensures Trim(all[k]) != ed.newLine { TrimWithin(all[k], '\n'); }
    var hit := ScanTexts(ed.previous, {ed.oldLine, ed.newLine}, Texts(all)).hit;
    if hit.Some? {
      HitAtPrefix(ed.previous, {ed.oldLine, ed.newLine}, Texts(all), hit.value);
    } else {
      IdleIsSettled(ed, all);
    }
  }

  lemma ReplacedByOne(ed: Editor, lines: seq<string>)
    requires ed.Replace? && Valid(ed) && '\n' !in ed.newLine && NewlineFree(lines)
    requires Replaced(ed, lines).0 < Replaced(ed, lines).1
    ensures var (from, to) := Replaced(ed, lines);
      Settled(ed, lines[..from] + [ed.newLine] + lines[to..]) <==> KeptPlain(ed, lines)
  {
    hide Trim, ScanTexts, Plain, Flat, Pieces, AllPlain, Chomp;
    var (from, to) := Replaced(ed, lines);
    var all := lines[..from] + [ed.newLine] + lines[to..];
    NewLineIsTrimmed(ed);
    FlatOne(ed.newLine);
    HitAgain(ed, lines);
    assert ReplaceResult(ed, lines) == all;
    assert all[..from] == lines[..from] && all[to..] == lines[to..] && all[from..to] == [ed.newLine] && all[from] == ed.newLine;
    PlainAround(lines[..from], [ed.newLine], lines[to..]);
    assert AllPlain([ed.newLine]) by { PlainOne(ed.newLine); }
    if ed.newLine != ed.oldLine { IdleIsSettled(ed, all); }
  }

  lemma PlainOne(line: string)
    requires Plain(line)
    ensures AllPlain([line])
  {
  }

  // ----- one edit of a text -----

  /** The lines of a text, one without a newline at its end included. */
  function LinesOf(lines: seq<string>, last: string): seq<string> {
    if last == [] then lines else lines + [last]
  }

  /** `out` is `text` with the editor's own lines in place of the stretch it replaces: every
      other line, whether or not a newline ends it, is in it, in order and without a final
      carriage return. */
  ghost predicate EditsText(ed: Editor, text: string, out: string) {
    forall lines, last :: NewlineFree(lines) && '\n' !in last && text == Written(lines) + last ==>
      EditsLines(ed, LinesOf(lines, last), out)
  }

  ghost predicate EditsLines(ed: Editor, lines: seq<string>, out: string) {
    var (from, to) := Replaced(ed, lines);
    out == Written(Bare(lines[..from]) + Own(ed, lines) + Bare(lines[to..]))
  }

  lemma EditKeepsLines(ed: Editor, text: string)
    requires Valid(ed) && Fresh(ed) && Edited(ed, ScanLines(text)).Some?
    ensures EditsText(ed, text, Written(Edited(ed, ScanLines(text)).value))
  {
    hide Valid, Fresh, Edited, ScanLines, Written, Result, Replaced, Own, DropReturn;
    EditedIsResult(ed, ScanLines(text));
    forall lines, last | NewlineFree(lines) && '\n' !in last && text == Written(lines) + last
      ensures EditsLines(ed, LinesOf(lines, last), Written(Result(ed, ScanLines(text))))
    {
      var all := LinesOf(lines, last);
      ScansTo(lines, last);
      SpanOfBare(ed, all);
      ResultSpan(ed, Bare(all));
      var (from, to) := Replaced(ed, all);
      assert Bare(all)[..from] == Bare(all[..from]) && Bare(all)[to..] == Bare(all[to..]);
    }
  }

  lemma ScansTo(lines: seq<string>, last: string)
    requires NewlineFree(lines) && '\n' !in last
    ensures ScanLines(Written(lines) + last) == Bare(LinesOf(lines, last))
  {
    hide ScanLines, Written, DropReturn;
    if last == [] {
      ScanFree(lines);
      assert Written(lines) + last == Written(lines);
    } else {
      ScanFreeLast(lines, last);
      assert Bare(lines + [last]) == Bare(lines) + [DropReturn(last)];
    }
  }

  // ----- editing twice -----

  lemma RepeatableIff(ed: Editor, lines: seq<string>)
    requires Valid(ed) && NewlineFree(lines)
    ensures Settled(ed, Flat(Result(ed, lines))) <==> Repeatable(ed, lines)
  {
    hide Settled, Flat, Result, Repeatable;
    match ed
    case Simple(_, _, _) => AppendAgain(ed, lines);
    case Range(_, _, _, _, _) => SpliceAgain(ed, lines);
    case Replace(_, _, _, _, _, _) => ReplaceAgain(ed, lines);
  }

  /** The second edit fails exactly when the editor must match and has lost its place. */
  lemma SecondEdit(ed: Editor, lines: seq<string>)
    requires Valid(ed) && Fresh(ed) && NewlineFree(lines) && Edited(ed, lines).Some?
    ensures var again := Bare(Flat(Result(ed, lines)));
      Edited(ed, again) == if ed.Replace? && ed.mustMatch && Lost(ed, lines) then None else Some(Result(ed, again))
  {
    hide Edited, AppendResult, SpliceResult, ReplaceResult, ScanTexts, Flat, Lost, DropReturn;
    var again := Bare(Flat(Result(ed, lines)));
    match ed
    case Simple(line, olds, _) => AppendDoes(line, olds, again);
    case Range(_, _, _, _, _) => SpliceDoes(ed, again);
    case Replace(_, _, _, _, _, _) =>
      ReplaceDoes(ed, lines);
      ReplaceDoes(ed, again);
      TextsBare(Flat(Result(ed, lines)));
      LostIff(ed, lines);
  }

  lemma LostIff(ed: Editor, lines: seq<string>)
    requires ed.Replace? && Valid(ed) && NewlineFree(lines)
    ensures var wanted := {ed.oldLine, ed.newLine};
      ScanTexts(ed.previous, wanted, Texts(Flat(ReplaceResult(ed, lines)))).hit.None? <==>
        ScanTexts(ed.previous, wanted, Texts(lines)).hit.None? || Lost(ed, lines)
  {
    hide Trim, ScanTexts, Flat, Pieces, Chomp, ReplaceResult;
    FlatResult(ed, lines);
    NewLineIsTrimmed(ed);
    FlatOne(ed.newLine);
    var (from, to) := Replaced(ed, lines);
    if from == to {
      FlatFree([]);
      NothingBehind(lines, |lines|, []);
    }
  }

  /** Editing a text that was written, again and with a fresh editor, fails exactly when the
      editor must match and has lost its place; otherwise it writes the same text exactly
      when the first text was repeatable. */
  lemma EditTwice(ed: Editor, text: string)
    requires Valid(ed) && Fresh(ed) && Edited(ed, ScanLines(text)).Some?
    ensures var out := Edited(ed, ScanLines(text)).value;
      var again := Edited(ed, ScanLines(Written(out)));
      && (again.None? <==> ed.Replace? && ed.mustMatch && Lost(ed, ScanLines(text)))
      && (again.Some? ==> (Written(again.value) == Written(out) <==> Repeatable(ed, ScanLines(text))))
  {
    hide Valid, Fresh, Edited, ScanLines, Written, Repeatable, Result, Flat, Bare, Settled, Lost;
    var lines := ScanLines(text);
    ScannedHasNoNewline(text);
    EditedIsResult(ed, lines);
    var out := Result(ed, lines);
    ScanWritten(out);
    SecondEdit(ed, lines);
    SettledIff(ed, Flat(out));
    WrittenFlat(out);
    RepeatableIff(ed, lines);
  }

  /** None of the editor's own lines is more than one line. */
  predicate OwnLinesSingle(ed: Editor) {
    match ed
    case Simple(line, _, _) => '\n' !in Chomp(line)
    case Range(start, content, end, _, _) =>
      '\n' !in Chomp(start) && '\n' !in Chomp(end) && forall i :: 0 <= i < |content| ==> '\n' !in Chomp(content[i])
    case Replace(_, newLine, _, _, _, _) => '\n' !in newLine
  }

  /** Texts without a carriage return before another one, and editors with ordinary lines,
      are always repeatable. */
  lemma OrdinaryIsRepeatable(ed: Editor, text: string)
    requires AllPlain(ScanLines(text)) && OwnLinesSingle(ed)
    requires (ed.Simple? ==> Plain(Chomp(ed.line))) && (ed.Range? ==> FreeOfEnd(ed))
    ensures Repeatable(ed, ScanLines(text))
  {
    hide ScanLines, Plain, Trim, FirstIn, Chomp, Pieces, Recognized, ScanTexts;
    var lines := ScanLines(text);
    var (from, to) := Replaced(ed, lines);
    assert forall k :: to <= k < |lines| ==> lines[to..][k - to] == lines[k];
    if !ed.Replace? { SingleIsRecognized(ed); }
  }

  lemma SingleIsRecognized(ed: Editor)
    requires !ed.Replace? && OwnLinesSingle(ed) && (ed.Range? ==> FreeOfEnd(ed))
    ensures Recognized(ed)
  {
    hide Trim, FirstIn, Chomp, Pieces, Flat;
    match ed
    case Simple(line, olds, _) =>
      TrimChomp(line);
      FirstIs(Pieces(Chomp(line)), {Trim(line)} + olds, 0, 0);
    case Range(start, content, end, _, _) =>
      var own := Flat(Block(ed));
      FlatSingle(Block(ed));
      TrimChomp(start);
      forall k | 0 <= k < |content| ensures Trim(own[k + 1]) == Trim(content[k]) { TrimChomp(content[k]); }
      FirstIs(own[..|own| - 1], {Trim(end)}, 1, |own| - 1);
      assert forall k :: 1 <= k < |own| - 1 ==> Trim(own[k]) == Trim(content[k - 1]);
  }

  lemma {:induction false} FlatSingle(lines: seq<string>)
    requires forall i :: 0 <= i < |lines| ==> '\n' !in Chomp(lines[i])
    ensures |Flat(lines)| == |lines| && forall i :: 0 <= i < |lines| ==> Flat(lines)[i] == Chomp(lines[i])
  {
    hide Chomp, Pieces;
    if lines != [] { FlatSingle(lines[1..]); }
  }

  /** An appended line is found among its own pieces exactly when its text is one line, as
      long as the editor never looks for a line without text. */
  lemma RecognizedIff(ed: Editor)
    requires ed.Simple? && "" !in {Trim(ed.line)} + ed.oldLines
    ensures Recognized(ed) <==> '\n' !in Trim(ed.line)
  {
    hide Trim, FirstIn, Chomp, Pieces;
    var own, wanted := Pieces(Chomp(ed.line)), {Trim(ed.line)} + ed.oldLines;
    TrimChomp(ed.line);
    if '\n' in Trim(ed.line) {
      forall k | 0 <= k < |own| ensures Trim(own[k]) != Trim(ed.line) { TrimWithin(own[k], '\n'); }
    } else {
      var k := CorePiece(Chomp(ed.line));
      FirstIs(own, wanted, 0, k);
    }
  }

  /** A line ending in two carriage returns loses one at every edit. */
  lemma DoubleReturnIsNotStable()
    ensures var ed := Simple("x", {}, false);
      var once := Edited(ed, ScanLines("x\r\r\n"));
      once.Some? && var twice := Edited(ed, ScanLines(Written(once.value)));
      twice.Some? && Written(twice.value) != Written(once.value)
  {
    hide Edited, ScanLines, Written;
    TrimSpaceBehind("x", '\r');
    assert "x" + ['\r'] == "x\r";
    OneLine("x\r\r", "x\r");
    assert "x\r\r" + "\n" == "x\r\r\n";
    KeepsItsLine("x", "x\r");
    OneLine("x\r", "x");
    WrittenOne("x\r");
    KeepsItsLine("x", "x");
    WrittenOne("x");
  }

  lemma KeepsItsLine(line: string, present: string)
    requires Trim(present) == Trim(line)
    ensures Edited(Simple(line, {}, false), [present]) == Some([present])
  {
    hide Edited;
    AppendDoes(line, {}, [present]);
    FirstIs([present], {Trim(line)} + {}, 0, 0);
  }

  lemma WrittenOne(line: string)
    ensures Written([line]) == Chomp(line) + "\n"
  {
    WrittenFront([line]);
    assert Chomp(line) + ['\n'] + [] == Chomp(line) + "\n";
  }

  lemma OneLine(line: string, scanned: string)
    requires '\n' !in line && scanned == DropReturn(line)
    ensures ScanLines(line + "\n") == [scanned]
  {
    LineEndAt(line, "");
    assert line + ['\n'] + "" == line + "\n";
    assert (line + "\n")[..|line|] == line;
  }
}
