/** Lines of text as the editors see them.

    Trimming drops white space at both ends and is what editors compare by. Scanning cuts
    a text into lines, without their newlines and without one carriage return before each.
    Writing puts every line out with exactly one newline, so that a line which holds
    newlines itself becomes several. Scanning what was written gives those pieces back but
    for carriage returns at their ends. */
module LineText {

  /** White space among the first 256 code points. */
  predicate IsSpace(c: char) {
    9 <= c as int <= 13 || c == ' ' || c as int == 0x85 || c as int == 0xA0
  }

  /** Written out: tab, newline, vertical tab, form feed, carriage return, blank, next line and
      no-break space. */
  lemma SpaceCharacters(c: char)
    ensures IsSpace(c) <==> c in "\t\n\U{0b}\U{0c}\r \U{85}\U{a0}"
  {
    assert IsSpace(c) ==> c as int in {9, 10, 11, 12, 13, 32, 0x85, 0xA0};
    assert '\t' as int == 9 && '\n' as int == 10 && '\r' as int == 13;
    assert '\U{0b}' as int == 11 && '\U{0c}' as int == 12 && '\U{85}' as int == 0x85 && '\U{a0}' as int == 0xA0;
  }

  function TrimLeft(s: string): (r: string)
    ensures r != [] ==> !IsSpace(r[0])
  {
    if s != [] && IsSpace(s[0]) then TrimLeft(s[1..]) else s
  }

  function TrimRight(s: string): (r: string)
    ensures r <= s
    ensures r != [] ==> !IsSpace(r[|r| - 1])
  {
    if s != [] && IsSpace(s[|s| - 1]) then TrimRight(s[..|s| - 1]) else s
  }

  function Trim(s: string): string { TrimRight(TrimLeft(s)) }

  predicate Trimmed(s: string) {
    s != [] ==> !IsSpace(s[0]) && !IsSpace(s[|s| - 1])
  }

  lemma TrimmedIsFixed(s: string)
    requires Trimmed(s)
    ensures Trim(s) == s
  {
  }

  lemma TrimIsTrimmed(s: string)
    ensures Trimmed(Trim(s))
  {
  }

  /** A line without its newline, if it carries one. */
  function Chomp(line: string): string {
    if line != [] && line[|line| - 1] == '\n' then line[..|line| - 1] else line
  }

  lemma {:induction false} TrimSpaceBehind(s: string, c: char)
    requires IsSpace(c)
    ensures Trim(s + [c]) == Trim(s)
    decreases |s|
  {
    if s == [] {
      assert TrimLeft([c]) == TrimLeft([]);
    } else if IsSpace(s[0]) {
      assert (s + [c])[1..] == s[1..] + [c];
      TrimSpaceBehind(s[1..], c);
    } else {
      assert (s + [c])[..|s|] == s;
      assert TrimLeft(s + [c]) == s + [c];
    }
  }

  function DropReturn(line: string): string {
    if line != [] && line[|line| - 1] == '\r' then line[..|line| - 1] else line
  }

  /** Lines as a line scanner delivers them. */
  function Bare(lines: seq<string>): (r: seq<string>)
    ensures |r| == |lines|
  {
    seq(|lines|, i requires 0 <= i < |lines| => DropReturn(lines[i]))
  }

  lemma TrimChomp(line: string)
    ensures Trim(Chomp(line)) == Trim(line)
  {
    if Chomp(line) != line {
      assert line == Chomp(line) + ['\n'];
      TrimSpaceBehind(Chomp(line), '\n');
    }
  }

  lemma TrimReturn(line: string)
    ensures Trim(DropReturn(line)) == Trim(line)
  {
    if DropReturn(line) != line {
      assert line == DropReturn(line) + ['\r'];
      TrimSpaceBehind(DropReturn(line), '\r');
    }
  }

  lemma {:induction false} TrimLeftWithin(s: string, c: char)
    requires c !in s
    ensures c !in TrimLeft(s)
  {
    if s != [] && IsSpace(s[0]) { TrimLeftWithin(s[1..], c); }
  }

  lemma TrimWithin(s: string, c: char)
    requires c !in s
    ensures c !in Trim(s)
  {
    TrimLeftWithin(s, c);
  }

  // ----- what trimming keeps of two parts -----

  predicate Blank(s: string) {
    forall i :: 0 <= i < |s| ==> IsSpace(s[i])
  }

  lemma {:induction false} TrimLeftParts(a: string, b: string)
    ensures TrimLeft(a + b) == if Blank(a) then TrimLeft(b) else TrimLeft(a) + b
    ensures !Blank(a) ==> !Blank(TrimLeft(a))
  {
    if a == [] {
      assert a + b == b;
    } else if IsSpace(a[0]) {
      assert (a + b)[1..] == a[1..] + b;
      assert a == [a[0]] + a[1..];
      TrimLeftParts(a[1..], b);
    }
  }

  lemma {:induction false} TrimRightParts(a: string, b: string)
    ensures TrimRight(a + b) == if Blank(b) then TrimRight(a) else a + TrimRight(b)
  {
    if b == [] {
      assert a + b == a;
    } else {
      var k := |b| - 1;
      assert b == b[..k] + [b[k]];
      if IsSpace(b[k]) {
        assert (a + b)[..|a| + k] == a + b[..k];
        TrimRightParts(a, b[..k]);
      }
    }
  }

  lemma TrimBlank(s: string)
    requires Blank(s)
    ensures Trim(s) == []
  {
    TrimLeftParts(s, []);
    assert s + [] == s;
  }

  /** Trimming two parts separated by a space: one of the parts decides, or the space is kept. */
  lemma TrimParts(a: string, c: char, b: string)
    requires IsSpace(c)
    ensures Blank(a) ==> Trim(a + [c] + b) == Trim(b)
    ensures Blank(b) ==> Trim(a + [c] + b) == Trim(a)
    ensures !Blank(a) && !Blank(b) ==> c in Trim(a + [c] + b)
  {
    hide IsSpace, TrimLeft, TrimRight;
    TrimLeftParts(a + [c], b);
    TrimLeftParts(a, [c] + b);
    assert a + [c] + b == a + ([c] + b);
    TrimRightParts(TrimLeft(a), [c] + b);
    assert Blank(a) ==> Blank(a + [c]);
    assert Blank(b) ==> Blank([c] + b);
    if Blank(a) && Blank(b) {
      TrimBlank(a);
      TrimBlank(a + [c] + b);
    } else if !Blank(b) {
      TrimRightParts([c], b);
      assert ([c] + b)[1..] == b;
    }
  }

  // ----- text -----

  /** What is written for some output lines: each ends in exactly one newline. */
  function Written(lines: seq<string>): string {
    if lines == [] then [] else Written(lines[..|lines| - 1]) + Chomp(lines[|lines| - 1]) + ['\n']
  }

  function LineEnd(text: string): (n: nat)
    ensures n <= |text| && '\n' !in text[..n] && (n < |text| ==> text[n] == '\n')
  {
    if text == [] || text[0] == '\n' then 0
    else
      var n := LineEnd(text[1..]);
      assert text[..n + 1] == [text[0]] + text[1..][..n];
      n + 1
  }

  /** The lines of a text as a line scanner delivers them: without newline, and without
      a carriage return before it. */
  function ScanLines(text: string): seq<string>
    decreases |text|
  {
    if text == [] then []
    else
      var n := LineEnd(text);
      [DropReturn(text[..n])] + if n < |text| then ScanLines(text[n + 1..]) else []
  }

  predicate NewlineFree(lines: seq<string>) {
    forall i :: 0 <= i < |lines| ==> '\n' !in lines[i]
  }

  /** A line a scanner can deliver and will deliver again when it is written. */
  predicate Plain(line: string) {
    '\n' !in line && (line != [] ==> line[|line| - 1] != '\r')
  }

  predicate AllPlain(lines: seq<string>) {
    forall i :: 0 <= i < |lines| ==> Plain(lines[i])
  }

  lemma LineEndAt(line: string, rest: string)
    requires '\n' !in line
    ensures LineEnd(line + ['\n'] + rest) == |line|
  {
    var text := line + ['\n'] + rest;
    var n := LineEnd(text);
    assert text[|line|] == '\n';
    assert forall k :: 0 <= k < |line| ==> text[k] == line[k] != '\n';
    assert forall k :: 0 <= k < n ==> text[..n][k] == text[k] != '\n';
  }

  lemma {:induction false} WrittenFront(lines: seq<string>)
    requires lines != []
    ensures Written(lines) == Chomp(lines[0]) + ['\n'] + Written(lines[1..])
  {
    hide Chomp;
    var k := |lines| - 1;
    if k > 0 {
      WrittenFront(lines[..k]);
      assert lines[1..][..k - 1] == lines[..k][1..];
    }
  }

  lemma ScanFront(line: string, rest: string)
    requires '\n' !in line
    ensures ScanLines(line + ['\n'] + rest) == [DropReturn(line)] + ScanLines(rest)
  {
    hide LineEnd;
    LineEndAt(line, rest);
    var text := line + ['\n'] + rest;
    assert text[..|line|] == line && text[|line| + 1..] == rest;
  }

  lemma ScanNothing()
    ensures ScanLines([]) == []
  {
  }

  /** Scanning lines that were written one by one gives them back, each without a carriage
      return at its end. */
  lemma {:induction false} ScanFree(lines: seq<string>)
    requires NewlineFree(lines)
    ensures ScanLines(Written(lines)) == Bare(lines)
    decreases |lines|
  {
    hide DropReturn, ScanLines;
    assert ScanLines([]) == [] by { ScanNothing(); }
    if lines != [] {
      WrittenFront(lines);
      ScanFree(lines[1..]);
      ScanFront(lines[0], Written(lines[1..]));
      assert Bare(lines) == [DropReturn(lines[0])] + Bare(lines[1..]);
    }
  }

  lemma {:induction false} ScannedHasNoNewline(text: string)
    ensures forall i :: 0 <= i < |ScanLines(text)| ==> '\n' !in ScanLines(text)[i]
    decreases |text|
  {
    if text != [] {
      var n := LineEnd(text);
      if n < |text| { ScannedHasNoNewline(text[n + 1..]); }
    }
  }

  lemma NothingWritten()
    ensures Written([]) == []
  {
  }

  lemma WrittenLast(front: seq<string>, line: string)
    ensures Written(front + [line]) == Written(front) + (Chomp(line) + ['\n'])
  {
    assert (front + [line])[..|front|] == front;
  }

  lemma {:induction false} WrittenSplit(a: seq<string>, b: seq<string>)
    ensures Written(a + b) == Written(a) + Written(b)
  {
    hide Written;
    if b == [] {
      assert a + b == a;
      NothingWritten();
    } else {
      var k := |b| - 1;
      WrittenSplit(a, b[..k]);
      WrittenAssoc(a, b[..k], b[k]);
      assert b == b[..k] + [b[k]];
    }
  }

  lemma WrittenAssoc(a: seq<string>, b: seq<string>, line: string)
    requires Written(a + b) == Written(a) + Written(b)
    ensures Written(a + (b + [line])) == Written(a) + Written(b + [line])
  {
    hide Written;
    WrittenLast(a + b, line);
    WrittenLast(b, line);
    assert a + (b + [line]) == (a + b) + [line];
  }

  // ----- lines that hold newlines -----

  /** What a string becomes when it is cut at every newline. */
  function Pieces(s: string): (r: seq<string>)
    ensures NewlineFree(r)
    ensures |r| >= 1 && (|r| == 1 <==> '\n' !in s) && (|r| == 1 ==> r == [s])
    decreases |s|
  {
    var n := LineEnd(s);
    if n == |s| then
      assert s[..n] == s;
      [s]
    else
      [s[..n]] + Pieces(s[n + 1..])
  }

  /** The lines that written lines are in the text. */
  function Flat(lines: seq<string>): (r: seq<string>)
    ensures NewlineFree(r)
  {
    if lines == [] then [] else Pieces(Chomp(lines[0])) + Flat(lines[1..])
  }

  lemma {:induction false} FlatFree(lines: seq<string>)
    requires NewlineFree(lines)
    ensures Flat(lines) == lines
  {
    if lines != [] { FlatFree(lines[1..]); }
  }

  lemma {:induction false} FlatSplit(a: seq<string>, b: seq<string>)
    ensures Flat(a + b) == Flat(a) + Flat(b)
  {
    hide Chomp, Pieces;
    if a == [] {
      assert a + b == b;
    } else {
      assert (a + b)[1..] == a[1..] + b;
      FlatSplit(a[1..], b);
    }
  }

  lemma FlatOne(line: string)
    ensures Flat([line]) == Pieces(Chomp(line))
  {
    assert [line][1..] == [];
  }

  lemma WrittenFirst(line: string, rest: seq<string>)
    requires '\n' !in line
    ensures Written([line] + rest) == line + ['\n'] + Written(rest)
  {
    hide Written;
    WrittenFront([line] + rest);
    assert ([line] + rest)[1..] == rest;
  }

  lemma {:induction false} WrittenPieces(s: string)
    ensures Written(Pieces(s)) == s + ['\n']
    decreases |s|
  {
    hide LineEnd, Written;
    var n := LineEnd(s);
    if n < |s| {
      WrittenPieces(s[n + 1..]);
      WrittenFirst(s[..n], Pieces(s[n + 1..]));
      assert s == s[..n] + ['\n'] + s[n + 1..];
    } else {
      assert s[..n] == s && [s] + [] == [s];
      WrittenFirst(s, []);
      NothingWritten();
    }
  }

  /** Writing lines is writing their pieces. */
  lemma {:induction false} WrittenFlat(lines: seq<string>)
    ensures Written(Flat(lines)) == Written(lines)
  {
    hide Written, Pieces, Chomp;
    if lines != [] {
      WrittenFlat(lines[1..]);
      WrittenSplit(Pieces(Chomp(lines[0])), Flat(lines[1..]));
      WrittenPieces(Chomp(lines[0]));
      WrittenFront(lines);
    }
  }

  /** Scanning written lines gives their pieces back, each without a carriage return at its
      end. */
  lemma ScanWritten(lines: seq<string>)
    ensures ScanLines(Written(lines)) == Bare(Flat(lines))
  {
    WrittenFlat(lines);
    ScanFree(Flat(lines));
  }

  lemma ScanLast(last: string)
    requires '\n' !in last && last != []
    ensures ScanLines(last) == [DropReturn(last)]
  {
    assert LineEnd(last) == |last|;
    assert last[..|last|] == last;
  }

  lemma {:induction false} ScanFreeLast(lines: seq<string>, last: string)
    requires NewlineFree(lines) && '\n' !in last && last != []
    ensures ScanLines(Written(lines) + last) == Bare(lines) + [DropReturn(last)]
    decreases |lines|
  {
    hide DropReturn, ScanLines, Written;
    if lines == [] {
      NothingWritten();
      ScanLast(last);
      assert Written(lines) + last == last;
    } else {
      WrittenFront(lines);
      ScanFreeLast(lines[1..], last);
      ScanFront(lines[0], Written(lines[1..]) + last);
      assert Written(lines) + last == lines[0] + ['\n'] + (Written(lines[1..]) + last);
      assert Bare(lines) == [DropReturn(lines[0])] + Bare(lines[1..]);
    }
  }

  /** Scanning a text that ends in the middle of a line gives that line too. */
  lemma ScanWrittenLast(lines: seq<string>, last: string)
    requires '\n' !in last && last != []
    ensures ScanLines(Written(lines) + last) == Bare(Flat(lines)) + [DropReturn(last)]
  {
    WrittenFlat(lines);
    ScanFreeLast(Flat(lines), last);
  }

  /** Every text is made of lines and at the end perhaps one without a newline. */
  lemma {:induction false} TextHasLines(text: string) returns (lines: seq<string>, last: string)
    ensures NewlineFree(lines) && '\n' !in last && text == Written(lines) + last
    decreases |text|
  {
    hide Written;
    var n := LineEnd(text);
    lines, last := [], text;
    NothingWritten();
    if n < |text| {
      lines, last := TextHasLines(text[n + 1..]);
      WrittenFirst(text[..n], lines);
      lines := [text[..n]] + lines;
      assert text == text[..n] + ['\n'] + text[n + 1..];
    } else {
      assert text[..n] == text;
    }
  }

  /** A text determines the lines it was written from. */
  lemma {:induction false} WrittenInjective(a: seq<string>, b: seq<string>)
    requires NewlineFree(a) && NewlineFree(b) && Written(a) == Written(b)
    ensures a == b
    decreases |a|
  {
    hide Written;
    NothingWritten();
    if a != [] { WrittenFront(a); }
    if b != [] { WrittenFront(b); }
    if a != [] && b != [] {
      FirstLineIs(a[0], Written(a[1..]), b[0], Written(b[1..]));
      WrittenInjective(a[1..], b[1..]);
    }
  }

  lemma FirstLineIs(a: string, restA: string, b: string, restB: string)
    requires '\n' !in a && '\n' !in b && a + ['\n'] + restA == b + ['\n'] + restB
    ensures a == b && restA == restB
  {
    hide LineEnd;
    LineEndAt(a, restA);
    LineEndAt(b, restB);
    var text := a + ['\n'] + restA;
    assert a == text[..|a|] && restA == text[|a| + 1..];
    assert b == text[..|b|] && restB == text[|b| + 1..];
  }

  /** Texts are equal exactly when their pieces are. */
  lemma WrittenEqualIff(a: seq<string>, b: seq<string>)
    ensures Written(a) == Written(b) <==> Flat(a) == Flat(b)
  {
    hide Written, Flat;
    WrittenFlat(a);
    WrittenFlat(b);
    if Written(a) == Written(b) { WrittenInjective(Flat(a), Flat(b)); }
  }

  lemma DropReturnIff(lines: seq<string>)
    requires NewlineFree(lines)
    ensures NewlineFree(Bare(lines)) && |Bare(lines)| == |lines|
    ensures Bare(lines) == lines <==> AllPlain(lines)
  {
    var bare := Bare(lines);
    forall i | 0 <= i < |lines| ensures '\n' !in bare[i] && (bare[i] == lines[i] <==> Plain(lines[i])) {
      assert bare[i] <= lines[i];
    }
    if AllPlain(lines) {
      assert forall i :: 0 <= i < |lines| ==> Plain(lines[i]);
    } else {
      var i :| 0 <= i < |lines| && !Plain(lines[i]);
      assert bare[i] != lines[i];
    }
  }

  /** Losing a carriage return anywhere makes the written text shorter. */
  lemma {:induction false} WrittenShrinks(lines: seq<string>)
    requires NewlineFree(lines)
    ensures |Written(Bare(lines))| <= |Written(lines)|
    ensures !AllPlain(lines) ==> |Written(Bare(lines))| < |Written(lines)|
  {
    hide Written;
    if lines != [] {
      WrittenShrinks(lines[1..]);
      WrittenFront(lines);
      WrittenFront(Bare(lines));
      assert Bare(lines)[1..] == Bare(lines[1..]);
      assert forall i :: 0 < i < |lines| ==> lines[i] == lines[1..][i - 1];
    }
  }

  /** Scanning a written text and writing it again keeps it exactly when no piece ends in a
      carriage return, and makes it shorter otherwise. */
  lemma WrittenBareIff(lines: seq<string>)
    ensures var again := Written(ScanLines(Written(lines)));
      if AllPlain(Flat(lines)) then again == Written(lines) else |again| < |Written(lines)|
  {
    hide Written, ScanLines, Flat, DropReturn;
    ScanWritten(lines);
    WrittenFlat(lines);
    WrittenShrinks(Flat(lines));
    DropReturnIff(Flat(lines));
  }

  /** A string whose trimmed text is one line has a piece with that text, behind blank ones. */
  lemma {:induction false} CorePiece(s: string) returns (k: nat)
    requires '\n' !in Trim(s)
    ensures k < |Pieces(s)| && Trim(Pieces(s)[k]) == Trim(s)
    ensures forall j :: 0 <= j < k ==> Trim(Pieces(s)[j]) == []
    decreases |s|
  {
    hide Trim, LineEnd, Blank;
    var n := LineEnd(s);
    k := 0;
    if n < |s| {
      var a, b := s[..n], s[n + 1..];
      assert s == a + ['\n'] + b;
      TrimParts(a, '\n', b);
      if Blank(a) {
        TrimBlank(a);
        k := CorePiece(b);
        k := k + 1;
      }
    } else {
      assert s[..n] == s;
    }
  }

  // ----- searching -----

  /** The first line from `from` on whose trimmed text is wanted, or the number of lines. */
  function FirstIn(lines: seq<string>, wanted: set<string>, from: nat): (i: nat)
    requires from <= |lines|
    ensures from <= i <= |lines|
    ensures forall k :: from <= k < i ==> Trim(lines[k]) !in wanted
    ensures i < |lines| ==> Trim(lines[i]) in wanted
    decreases |lines| - from
  {
    if from == |lines| || Trim(lines[from]) in wanted then from else FirstIn(lines, wanted, from + 1)
  }

  /** How the search result changes when a line is added at the end. */
  lemma FirstExtended(front: seq<string>, line: string, wanted: set<string>, from: nat)
    requires from <= |front|
    ensures var i := FirstIn(front, wanted, from);
      FirstIn(front + [line], wanted, from) == if i < |front| then i else if Trim(line) in wanted then i else i + 1
  {
    hide Trim;
    var lines, i := front + [line], FirstIn(front, wanted, from);
    assert forall k :: 0 <= k < |front| ==> lines[k] == front[k];
    FirstIs(lines, wanted, from, if i < |front| then i else if Trim(line) in wanted then i else i + 1);
  }

  lemma FirstBare(lines: seq<string>, wanted: set<string>, from: nat)
    requires from <= |lines|
    ensures FirstIn(Bare(lines), wanted, from) == FirstIn(lines, wanted, from)
  {
    hide Trim, FirstIn;
    forall k | 0 <= k < |lines| ensures Trim(Bare(lines)[k]) == Trim(lines[k]) { TrimReturn(lines[k]); }
    FirstIs(Bare(lines), wanted, from, FirstIn(lines, wanted, from));
  }

  lemma FirstBehind(a: seq<string>, b: seq<string>, wanted: set<string>, from: nat)
    requires from <= |b|
    ensures FirstIn(a + b, wanted, |a| + from) == |a| + FirstIn(b, wanted, from)
  {
    hide Trim, FirstIn;
    assert forall k :: |a| <= k < |a + b| ==> (a + b)[k] == b[k - |a|];
    FirstIs(a + b, wanted, |a| + from, |a| + FirstIn(b, wanted, from));
  }

  lemma FirstSkips(a: seq<string>, b: seq<string>, wanted: set<string>)
    requires forall k :: 0 <= k < |a| ==> Trim(a[k]) !in wanted
    ensures FirstIn(a + b, wanted, 0) == |a| + FirstIn(b, wanted, 0)
  {
    hide Trim, FirstIn;
    assert forall k :: |a| <= k < |a + b| ==> (a + b)[k] == b[k - |a|];
    FirstIs(a + b, wanted, 0, |a| + FirstIn(b, wanted, 0));
  }

  lemma FirstInFront(a: seq<string>, b: seq<string>, wanted: set<string>, from: nat)
    requires from <= |a| && FirstIn(a, wanted, from) < |a|
    ensures FirstIn(a + b, wanted, from) == FirstIn(a, wanted, from)
  {
    hide Trim, FirstIn;
    FirstIs(a + b, wanted, from, FirstIn(a, wanted, from));
  }

  lemma FirstIs(lines: seq<string>, wanted: set<string>, from: nat, i: nat)
    requires from <= i <= |lines|
    requires forall k :: from <= k < i ==> Trim(lines[k]) !in wanted
    requires i < |lines| ==> Trim(lines[i]) in wanted
    ensures FirstIn(lines, wanted, from) == i
  {
  }
}
