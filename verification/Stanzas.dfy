/** Files of several stanzas.

    A scanner function cuts a file at its first empty line, asks for more data while it has
    seen none, and at the end of the file takes what is left. Repeated, it takes apart what
    joining formatted stanzas with empty lines puts together, and every stanza cut out can
    be parsed on its own. */
module StanzaFile {
  import opened LineText
  import opened Deb822
  import opened Wrappers

  /** The index of the first empty line's double newline, or the length of the data. */
  function DoubleNewline(data: string): (i: nat)
    ensures i <= |data|
    ensures i < |data| ==> i + 1 < |data| && data[i] == '\n' && data[i + 1] == '\n'
    ensures forall k :: 0 <= k < i && k + 1 < |data| ==> !(data[k] == '\n' && data[k + 1] == '\n')
  {
    if |data| < 2 then |data|
    else if data[0] == '\n' && data[1] == '\n' then 0
    else DoubleNewline(data[1..]) + 1
  }

  /** A scanner step: how far to advance, and the stanza found; no stanza and no advance
      asks for more data. */
  datatype Cut = Cut(advance: nat, stanza: string) | NeedMore

  /** An empty line of the data ends at `i + 1`, and no earlier one. */
  predicate FirstEmptyLine(data: string, i: nat) {
    && i + 1 < |data| && data[i] == '\n' && data[i + 1] == '\n'
    && forall k :: 0 <= k < i ==> !(data[k] == '\n' && data[k + 1] == '\n')
  }

  predicate NoEmptyLine(data: string) {
    forall k :: 0 <= k < |data| - 1 ==> !(data[k] == '\n' && data[k + 1] == '\n')
  }

  /** The text before the first empty line, with its newline; the last stanza is all that
      is left. */
  function Deb822SplitStanza(data: string, atEof: bool): (c: Cut)
    ensures c == NeedMore <==> NoEmptyLine(data) && !(atEof && data != [])
    ensures c.Cut? ==> c.stanza <= data && 0 < |c.stanza| <= c.advance <= |data|
    ensures c.Cut? ==>
      if NoEmptyLine(data) then c.stanza == data
      else FirstEmptyLine(data, |c.stanza| - 1) && c.advance == |c.stanza| + 1
  {
    var i := DoubleNewline(data);
    if i < |data| then Cut(i + 2, data[..i + 1])
    else if atEof && |data| > 0 then Cut(|data|, data)
    else NeedMore
  }

  /** However the data arrives, a stanza cut from a part of it is cut from all of it. */
  lemma CutIsStable(part: string, more: string, atEof: bool)
    ensures var c := Deb822SplitStanza(part, false); c.Cut? ==> Deb822SplitStanza(part + more, atEof) == c
  {
    var i := DoubleNewline(part);
    var all := part + more;
    if i < |part| {
      assert all[..i + 1] == part[..i + 1];
      FirstDoubleIs(all, i);
    }
  }

  lemma FirstDoubleIs(data: string, i: nat)
    requires i + 1 < |data| && data[i] == '\n' && data[i + 1] == '\n'
    requires forall k :: 0 <= k < i ==> !(data[k] == '\n' && data[k + 1] == '\n')
    ensures DoubleNewline(data) == i
  {
    var j := DoubleNewline(data);
    assert j < i ==> j < |data|;
  }

  /** All stanzas of a file. */
  function Stanzas(data: string): seq<string>
    decreases |data|
  {
    match Deb822SplitStanza(data, true)
    case NeedMore => []
    case Cut(n, stanza) => [stanza] + Stanzas(data[n..])
  }

  /** Non-empty lines, each with its newline. */
  predicate IsStanza(s: string) {
    && s != [] && s[0] != '\n' && s[|s| - 1] == '\n'
    && forall k :: 0 <= k < |s| - 1 ==> !(s[k] == '\n' && s[k + 1] == '\n')
  }

  /** Stanzas with an empty line between them. */
  function FileOf(stanzas: seq<string>): string {
    if stanzas == [] then []
    else if |stanzas| == 1 then stanzas[0]
    else stanzas[0] + ['\n'] + FileOf(stanzas[1..])
  }

  /** Cutting a file gives its stanzas back. */
  lemma {:induction false} StanzasOfFile(stanzas: seq<string>)
    requires forall i :: 0 <= i < |stanzas| ==> IsStanza(stanzas[i])
    ensures Stanzas(FileOf(stanzas)) == stanzas
    decreases |stanzas|
  {
    hide Stanzas, IsStanza;
    if stanzas == [] {
      NoStanza();
    } else if |stanzas| == 1 {
      LastStanza(stanzas[0]);
      assert stanzas == [stanzas[0]];
    } else {
      StanzasOfFile(stanzas[1..]);
      StanzaNotEmpty(stanzas[0]);
      FrontStanza(stanzas[0], FileOf(stanzas[1..]));
      assert stanzas == [stanzas[0]] + stanzas[1..];
    }
  }

  lemma StanzaNotEmpty(s: string)
    requires IsStanza(s)
    ensures s != []
  {
  }

  lemma NoStanza()
    ensures Stanzas([]) == []
  {
  }

  lemma LastStanza(s: string)
    requires IsStanza(s)
    ensures Stanzas(s) == [s]
  {
    assert DoubleNewline(s) == |s|;
    assert s[|s|..] == [];
  }

  lemma FrontStanza(s: string, rest: string)
    requires s != [] && IsStanza(s)
    ensures Stanzas(s + ['\n'] + rest) == [s] + Stanzas(rest)
  {
    hide DoubleNewline, IsStanza, Stanzas;
    var data := s + ['\n'] + rest;
    FrontDouble(s, rest);
    FirstStanza(data);
    assert data[..|s|] == s && data[|s| + 1..] == rest;
  }

  lemma FirstStanza(data: string)
    requires DoubleNewline(data) < |data|
    ensures var i := DoubleNewline(data); Stanzas(data) == [data[..i + 1]] + Stanzas(data[i + 2..])
  {
    hide DoubleNewline, Deb822SplitStanza;
    var i := DoubleNewline(data);
    assert Deb822SplitStanza(data, true) == Cut(i + 2, data[..i + 1]) by { FirstCut(data); }
  }

  lemma FirstCut(data: string)
    requires DoubleNewline(data) < |data|
    ensures var i := DoubleNewline(data); Deb822SplitStanza(data, true) == Cut(i + 2, data[..i + 1])
  {
    hide DoubleNewline;
  }

  lemma FrontDouble(s: string, rest: string)
    requires IsStanza(s)
    ensures DoubleNewline(s + ['\n'] + rest) == |s| - 1
  {
    hide DoubleNewline;
    var data := s + ['\n'] + rest;
    assert forall k :: 0 <= k < |s| ==> data[k] == s[k];
    FirstDoubleIs(data, |s| - 1);
  }

  // ----- formatted stanzas -----

  lemma {:induction false} LinesAreStanza(content: Content, keys: seq<string>)
    requires AllCarriable(content, keys)
    ensures var s := Lines(content, keys); s == [] || IsStanza(s)
  {
    hide WellFormedKey, SingleLine, KeyLine;
    if keys != [] {
      var n := |keys| - 1;
      var front := keys[..n];
      assert forall i :: 0 <= i < n ==> front[i] == keys[i];
      LinesAreStanza(content, front);
      if Shown(content, keys[n]) {
        KeyLineIsStanza(keys[n], content[keys[n]]);
        StanzasJoin(Lines(content, front), KeyLine(keys[n], content[keys[n]]));
      } else {
        assert Lines(content, front) + [] == Lines(content, front);
      }
    }
  }

  lemma StanzasJoin(a: string, b: string)
    requires (a == [] || IsStanza(a)) && IsStanza(b)
    ensures IsStanza(a + b)
  {
    var s := a + b;
    forall k | 0 <= k < |s| - 1 ensures !(s[k] == '\n' && s[k + 1] == '\n') {
      if k >= |a| { assert s[k] == b[k - |a|] && s[k + 1] == b[k + 1 - |a|]; }
    }
  }

  lemma KeyLineIsStanza(k: string, v: string)
    requires WellFormedKey(k) && SingleLine(v)
    ensures IsStanza(KeyLine(k, v))
  {
    var s := KeyLine(k, v);
    assert forall i :: 0 <= i < |k| ==> k[i] != '\n' by { assert forall i :: 0 <= i < |k| ==> !IsSpace(k[i]); }
    assert forall i :: 0 <= i < |s| - 1 ==> s[i] == (if i < |k| then k[i] else if i == |k| then ':' else if i == |k| + 1 then ' ' else v[i - |k| - 2]);
  }

  /** A whole file: any number of well-formed, non-empty contents, each formatted and
      separated by empty lines, are read back one by one. */
  lemma FileRoundTrip(contents: seq<Content>, firstKeys: seq<string>, texts: seq<string>)
    requires Distinct(firstKeys) && |texts| == |contents|
    requires forall i :: 0 <= i < |contents| ==> WellFormed(contents[i]) && contents[i] != map[]
    requires forall i :: 0 <= i < |texts| ==> Formatted(contents[i], firstKeys, texts[i])
    ensures Stanzas(FileOf(texts)) == texts
    ensures forall i :: 0 <= i < |texts| ==> Parse(texts[i]) == Ok(contents[i])
  {
    hide WellFormed, Formatted, Parse, IsStanza;
    forall i | 0 <= i < |texts| ensures IsStanza(texts[i]) && Parse(texts[i]) == Ok(contents[i]) {
      RoundTripIff(contents[i], firstKeys, texts[i]);
      FormattedIsStanza(contents[i], firstKeys, texts[i]);
    }
    StanzasOfFile(texts);
  }

  lemma FormattedIsStanza(content: Content, firstKeys: seq<string>, text: string)
    requires WellFormed(content) && content != map[] && Formatted(content, firstKeys, text)
    ensures IsStanza(text)
  {
    hide Parse, IsStanza, WellFormedKey, SingleLine, Trimmed, Increasing;
    var extra :| IsExtra(content, firstKeys, extra) && text == Lines(content, firstKeys) + Lines(content, extra);
    LinesSplit(content, firstKeys, extra);
    LinesAreStanza(content, firstKeys + extra);
    NotEmpty(content, firstKeys, text);
  }

  lemma NotEmpty(content: Content, firstKeys: seq<string>, text: string)
    requires WellFormed(content) && content != map[] && Formatted(content, firstKeys, text)
    ensures text != []
  {
    var k :| k in content;
    var extra :| IsExtra(content, firstKeys, extra) && text == Lines(content, firstKeys) + Lines(content, extra);
    if k in firstKeys {
      LinesShow(content, firstKeys, k);
    } else {
      assert k in Elements(extra);
      LinesShow(content, extra, k);
    }
  }

  lemma {:induction false} LinesShow(content: Content, keys: seq<string>, k: string)
    requires k in keys && Shown(content, k)
    ensures Lines(content, keys) != []
  {
    if keys[|keys| - 1] != k { LinesShow(content, keys[..|keys| - 1], k); }
  }
}
