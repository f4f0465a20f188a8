/** Which texts denote which version, as a grammar.

    A text denotes a version when, blanks at its ends aside, it spells an epoch and a colon
    or no epoch, the upstream part, and a dash and a revision or no revision. What is
    refused, and for what, is said in the same terms. */
module DebianVersionText {
  import opened Decimal
  import opened Wrappers
  import opened DebianVersion

  /** The text before the upstream part: nothing for epoch 0 where no colon follows, and
      otherwise the epoch as a number and a colon. */
  predicate EpochText(e: Bytes, v: Version) {
    if e == [] then v.epoch == 0 && ':' !in v.upstream
    else e[|e| - 1] == ':' && ':' !in e[..|e| - 1] && ParseInt(e[..|e| - 1]) == Some(v.epoch)
  }

  /** The text behind it: nothing for revision 0 where no dash comes before, and otherwise a
      dash and the revision. */
  predicate RevisionText(t: Bytes, e: Bytes, v: Version) {
    if t == [] then v.revision == "0" && '-' !in e && '-' !in v.upstream
    else t == ['-'] + v.revision
  }

  ghost predicate Spelled(s: Bytes, v: Version) {
    exists e, t :: SpelledAs(s, e, t, v)
  }

  predicate SpelledAs(s: Bytes, e: Bytes, t: Bytes, v: Version) {
    s == e + v.upstream + t && EpochText(e, v) && RevisionText(t, e, v)
  }

  /** A text denotes a version exactly when, blanks at its ends aside, it spells its parts. */
  lemma ParsesIff(str: Bytes, v: Version)
    ensures ParseVersion(str) == Ok(v) <==> Denotable(v) && Spelled(StripBlanks(str), v)
  {
    hide StripBlanks, Index, LastIndex, ParseInt, CheckParts, Denotable, SpelledAs;
    var s := StripBlanks(str);
    if ParseVersion(str) == Ok(v) {
      ParsedIsDenotable(str);
      ParsedIsSpelled(s, v, str);
    }
    if Denotable(v) && Spelled(s, v) {
      var e, t :| SpelledAs(s, e, t, v);
      DenotableChecks(v);
      assert s != [] by { UpstreamIsInText(s, e, t, v); }
      SpelledIsChecked(str, e, t, v);
    }
  }

  lemma UpstreamIsInText(s: Bytes, e: Bytes, t: Bytes, v: Version)
    requires SpelledAs(s, e, t, v) && v.upstream != []
    ensures s != []
  {
    hide ParseInt;
  }

  lemma ParsedParts(str: Bytes, v: Version)
    requires ParseVersion(str) == Ok(v)
    ensures var s := StripBlanks(str);
      var colon, dash := Index(s, ':'), LastIndex(s, '-');
      && (if colon == -1 then v.epoch == 0 else ParseInt(s[..colon]) == Some(v.epoch))
      && if dash == -1 then v.upstream == s[colon + 1..] && v.revision == "0"
         else colon + 1 <= dash && v.upstream == s[colon + 1..dash] && v.revision == s[dash + 1..]
  {
    hide StripBlanks, Index, LastIndex, ParseInt, CheckParts;
    var s := StripBlanks(str);
    var colon, dash := Index(s, ':'), LastIndex(s, '-');
    var epoch := if colon > -1 then ParseInt(s[..colon]) else Some(0);
    if epoch.Some? {
      if dash == -1 {
        CheckedIsSame(Version(epoch.value, s[colon + 1..], "0"));
      } else if dash >= colon + 1 {
        CheckedIsSame(Version(epoch.value, s[colon + 1..dash], s[dash + 1..]));
      }
    }
  }

  lemma CheckedIsSame(v: Version)
    ensures CheckParts(v).Ok? ==> CheckParts(v) == Ok(v)
  {
    hide AllUpstreamAllowed, AllRevisionAllowed;
  }

  lemma ParsedIsSpelled(s: Bytes, v: Version, str: Bytes)
    requires s == StripBlanks(str) && ParseVersion(str) == Ok(v)
    ensures Spelled(s, v)
  {
    hide StripBlanks, Index, LastIndex, ParseInt, ParseVersion, Spelled;
    ParsedParts(str, v);
    SpelledFrom(s, v, Index(s, ':'), LastIndex(s, '-'));
  }

  lemma SpelledFrom(s: Bytes, v: Version, colon: int, dash: int)
    requires -1 <= colon < |s| && -1 <= dash < |s| && (dash > -1 ==> colon < dash)
    requires if colon == -1 then ':' !in s && v.epoch == 0
             else s[colon] == ':' && ':' !in s[..colon] && ParseInt(s[..colon]) == Some(v.epoch)
    requires if dash == -1 then '-' !in s && v.upstream == s[colon + 1..] && v.revision == "0"
             else s[dash] == '-' && v.upstream == s[colon + 1..dash] && v.revision == s[dash + 1..]
    ensures Spelled(s, v)
  {
    hide ParseInt, EpochText, RevisionText;
    var end := if dash == -1 then |s| else dash;
    ThreeParts(s, colon + 1, end);
    EpochFrom(s, v, colon, end);
    RevisionFrom(s, v, colon, dash);
    assert SpelledAs(s, s[..colon + 1], s[end..], v);
  }

  lemma ThreeParts(s: Bytes, i: nat, j: nat)
    requires i <= j <= |s|
    ensures s == s[..i] + s[i..j] + s[j..] && s[i..|s|] == s[i..]
  {
  }

  lemma EpochFrom(s: Bytes, v: Version, colon: int, end: nat)
    requires -1 <= colon < end <= |s| && v.upstream == s[colon + 1..end]
    requires if colon == -1 then ':' !in s && v.epoch == 0
             else s[colon] == ':' && ':' !in s[..colon] && ParseInt(s[..colon]) == Some(v.epoch)
    ensures EpochText(s[..colon + 1], v)
  {
    hide ParseInt;
    if colon == -1 {
      SliceWithout(s, ':', 0, end);
    } else {
      assert s[..colon + 1][..colon] == s[..colon];
    }
  }

  lemma RevisionFrom(s: Bytes, v: Version, colon: int, dash: int)
    requires -1 <= colon < |s| && -1 <= dash < |s|
    requires if dash == -1 then '-' !in s && v.upstream == s[colon + 1..] && v.revision == "0"
             else s[dash] == '-' && v.revision == s[dash + 1..]
    ensures RevisionText(if dash == -1 then s[|s|..] else s[dash..], s[..colon + 1], v)
  {
    if dash == -1 {
      SliceWithout(s, '-', 0, colon + 1);
      SliceWithout(s, '-', colon + 1, |s|);
    }
  }

  lemma SliceWithout(s: Bytes, c: Byte, i: nat, j: nat)
    requires c !in s && i <= j <= |s|
    ensures c !in s[i..j] && s[0..j] == s[..j] && s[i..|s|] == s[i..]
  {
    assert forall k :: 0 <= k < j - i ==> s[i..j][k] == s[i + k] != c;
  }

  lemma PartsParse(str: Bytes, v: Version)
    requires StripBlanks(str) != [] && v.epoch >= 0
    requires var s := StripBlanks(str);
      var colon, dash := Index(s, ':'), LastIndex(s, '-');
      && (if colon == -1 then v.epoch == 0 else ParseInt(s[..colon]) == Some(v.epoch))
      && if dash == -1 then v.upstream == s[colon + 1..] && v.revision == "0"
         else colon + 1 <= dash && v.upstream == s[colon + 1..dash] && v.revision == s[dash + 1..]
    ensures ParseVersion(str) == CheckParts(v)
  {
    hide StripBlanks, Index, LastIndex, ParseInt, CheckParts;
  }

  /** Where the separators stand where they are read, the parts are what is checked. */
  lemma SpelledIsChecked(str: Bytes, e: Bytes, t: Bytes, v: Version)
    requires StripBlanks(str) != [] && SpelledAs(StripBlanks(str), e, t, v)
    requires v.epoch >= 0 && ':' !in v.revision && '-' !in v.revision
    ensures ParseVersion(str) == CheckParts(v)
  {
    hide StripBlanks, Index, LastIndex, ParseInt, SpelledAs, ParseVersion, CheckParts;
    var s := StripBlanks(str);
    Separators(s, e, t, v);
    assert s[|e|..|e| + |v.upstream|] == v.upstream;
    if t == [] {
      assert s[|e|..] == v.upstream;
    } else {
      assert s[|e| + |v.upstream| + 1..] == v.revision;
    }
    if e != [] { assert s[..|e| - 1] == e[..|e| - 1]; }
    PartsParse(str, v);
  }

  lemma Separators(s: Bytes, e: Bytes, t: Bytes, v: Version)
    requires SpelledAs(s, e, t, v) && ':' !in v.revision && '-' !in v.revision
    ensures s == e + v.upstream + t && EpochText(e, v) && RevisionText(t, e, v)
    ensures Index(s, ':') == |e| - 1
    ensures LastIndex(s, '-') == if t == [] then -1 else |e| + |v.upstream|
  {
    hide Index, LastIndex, ParseInt;
    if e == [] {
      assert ':' !in s;
    } else {
      assert s[..|e| - 1] == e[..|e| - 1];
      FirstIndexIs(s, ':', |e| - 1);
    }
    if t == [] {
      assert '-' !in s;
    } else {
      assert s[|e| + |v.upstream| + 1..] == v.revision;
      LastIndexIs(s, '-', |e| + |v.upstream|);
    }
  }

  lemma DenotableChecks(v: Version)
    requires Denotable(v)
    ensures CheckParts(v) == Ok(v) && v.upstream != [] && v.epoch >= 0
    ensures ':' !in v.revision && '-' !in v.revision
  {
    NoSeparators(v.revision);
  }

  lemma NoSeparators(s: Bytes)
    requires AllRevisionAllowed(s)
    ensures ':' !in s && '-' !in s
  {
    forall c | c in s ensures c != ':' && c != '-' {
      var i :| 0 <= i < |s| && s[i] == c;
      assert RevisionAllowed(s[i]);
    }
  }

  // ----- blanks -----

  predicate AllBlank(s: Bytes) {
    forall i :: 0 <= i < |s| ==> IsBlank(s[i])
  }

  lemma {:induction false} StripLeftOver(l: Bytes, s: Bytes)
    requires AllBlank(l) && (s == [] || !IsBlank(s[0]))
    ensures StripLeft(l + s) == s
  {
    if l == [] {
      assert l + s == s;
    } else {
      assert (l + s)[1..] == l[1..] + s;
      StripLeftOver(l[1..], s);
    }
  }

  lemma {:induction false} StripRightOver(s: Bytes, r: Bytes)
    requires AllBlank(r) && (s == [] || !IsBlank(s[|s| - 1]))
    ensures StripRight(s + r) == s
  {
    if r == [] {
      assert s + r == s;
    } else {
      assert (s + r)[..|s + r| - 1] == s + r[..|r| - 1];
      StripRightOver(s, r[..|r| - 1]);
    }
  }

  /** Blanks around a text do not count. */
  lemma BlanksAreStripped(l: Bytes, s: Bytes, r: Bytes)
    requires AllBlank(l) && AllBlank(r) && s != [] && !IsBlank(s[0]) && !IsBlank(s[|s| - 1])
    ensures StripBlanks(l + s + r) == s && ParseVersion(l + s + r) == ParseVersion(s)
  {
    hide StripLeft, StripRight, Index, LastIndex, ParseInt, CheckParts;
    StripLeftOver(l, s + r);
    assert l + s + r == l + (s + r);
    StripRightOver(s, r);
    NothingToTrim(s);
  }

  // ----- which texts are refused for what -----

  /** Text without anything but blanks, a front that is no number, and a negative epoch, in
      this order, are refused before any part is looked at. */
  lemma FrontIsRefused(str: Bytes, d: Bytes, rest: Bytes)
    requires StripBlanks(str) == d + [':'] + rest && ':' !in d
    ensures ParseVersion(str) == Err(EpochNotNumber) <==> ParseInt(d) == None
    ensures ParseVersion(str) == Err(EpochNegative) <==> ParseInt(d).Some? && ParseInt(d).value < 0
  {
    hide StripBlanks, Index, LastIndex, ParseInt;
    var s := StripBlanks(str);
    assert s[..|d|] == d;
    FirstIndexIs(s, ':', |d|);
  }

  /** The parts are refused for the first of these: no upstream part, one that begins with
      something else than a digit, or a character a part may not have. */
  lemma PartsAreRefused(v: Version)
    ensures CheckParts(v) == Err(NoUpstream) <==> v.upstream == []
    ensures CheckParts(v) == Err(UpstreamStart) <==> v.upstream != [] && !IsDigit(v.upstream[0])
    ensures var begins := v.upstream != [] && IsDigit(v.upstream[0]);
      var upstream, revision := exists c :: c in v.upstream && !UpstreamAllowed(c), exists c :: c in v.revision && !RevisionAllowed(c);
      && (CheckParts(v) == Err(UpstreamCharacter) <==> begins && upstream)
      && (CheckParts(v) == Err(RevisionCharacter) <==> begins && !upstream && revision)
      && (CheckParts(v) == Ok(v) <==> begins && !upstream && !revision)
  {
    hide UpstreamAllowed, RevisionAllowed;
    if c :| c in v.upstream && !UpstreamAllowed(c) { var i :| 0 <= i < |v.upstream| && v.upstream[i] == c; }
    if c :| c in v.revision && !RevisionAllowed(c) { var i :| 0 <= i < |v.revision| && v.revision[i] == c; }
  }

  lemma EmptyIsRefused(str: Bytes)
    ensures ParseVersion(str) == Err(EmptyVersion) <==> AllBlank(str)
  {
    hide Index, LastIndex, ParseInt, CheckParts;
    StripsToNothing(str);
    NotEmptyIsNotRefused(str);
  }

  lemma NotEmptyIsNotRefused(str: Bytes)
    ensures StripBlanks(str) != [] ==> ParseVersion(str) != Err(EmptyVersion)
  {
    hide StripBlanks, Index, LastIndex, ParseInt, AllUpstreamAllowed, AllRevisionAllowed;
  }

  lemma {:induction false} StripsToNothing(str: Bytes)
    ensures StripBlanks(str) == [] <==> AllBlank(str)
    decreases |str|
  {
    if str == [] {
    } else if IsBlank(str[0]) {
      assert str == [str[0]] + str[1..];
      StripsToNothing(str[1..]);
    } else {
      StripKeepsFirst(str);
    }
  }

  lemma {:induction false} StripKeepsFirst(s: Bytes)
    requires s != [] && !IsBlank(s[0])
    ensures StripRight(s) != []
  {
    if IsBlank(s[|s| - 1]) { StripKeepsFirst(s[..|s| - 1]); }
  }

  // ----- characters -----

  const DIGITS := "0123456789"
  const CAPITALS := "ABCDEFGHIJKLMNOPQRSTUVWXYZ"
  const SMALL := "abcdefghijklmnopqrstuvwxyz"

  /** The ASCII characters a part may have, written out. */
  lemma AsciiCharacters(c: Byte)
    requires c as int < 0x80
    ensures RevisionAllowed(c) <==> c in DIGITS || c in CAPITALS || c in SMALL || c in ".+~_"
    ensures UpstreamAllowed(c) <==> RevisionAllowed(c) || c in "-:"
  {
    DigitIsListed(c);
    CapitalIsListed(c);
    SmallIsListed(c);
  }

  lemma DigitIsListed(c: Byte)
    ensures IsDigit(c) <==> c in DIGITS
  {
    if IsDigit(c) { assert c == DIGITS[c as int - '0' as int]; }
  }

  lemma CapitalIsListed(c: Byte)
    ensures 'A' <= c <= 'Z' <==> c in CAPITALS
  {
    if 'A' <= c <= 'Z' { assert c == CAPITALS[c as int - 'A' as int]; }
  }

  lemma SmallIsListed(c: Byte)
    ensures 'a' <= c <= 'z' <==> c in SMALL
  {
    if 'a' <= c <= 'z' { assert c == SMALL[c as int - 'a' as int]; }
  }
}
