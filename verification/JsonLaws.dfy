/** Which characters of a text open a comment, a string or nothing, said of the text itself. */
module JsonLaws {
  import opened JsonComments

  /** The six white-space characters of the C locale, two of which end a line. */
  lemma SpacesExactly(ch: char)
    ensures IsSpace(ch) <==> ch in {' ', '\t', '\n', '\U{B}', '\U{C}', '\r'}
    ensures IsNewline(ch) <==> ch in {'\n', '\r'}
    ensures Blank(ch) == if ch == '\n' || ch == '\r' then ch else ' '
  {
  }

  predicate White(ch: char) {
    ch in {' ', '\t', '\n', '\U{B}', '\U{C}', '\r'}
  }

  /** Since the last line break outside comments there was only white space outside comments. */
  ghost predicate OnlyWhiteBefore(text: string, i: nat)
    requires i <= |text|
  {
    forall k :: 0 <= k < i && KeptAt(text, k) && !White(text[k]) ==> BreakBetween(text, k, i)
  }

  ghost predicate BreakBetween(text: string, k: nat, i: nat)
    requires i <= |text|
  {
    exists m :: k < m < i && KeptAt(text, m) && text[m] in {'\n', '\r'}
  }

  /** Only a line end is kept inside a line comment. */
  lemma {:induction false} LineKeepsBreaks(text: string, i: nat)
    requires i < |text| && ScanAt(text, i).mode in {Line, LineEnding}
    ensures KeptAt(text, i) ==> text[i] in {'\n', '\r'}
    ensures ScanAt(text, i).mode == LineEnding ==> KeptAt(text, i) && text[i] == '\n'
  {
    if i > 0 {
      ScanStep(text, i - 1);
    }
  }

  /** The flag that the scanner carries along says just that. */
  lemma {:induction false} LineStartMeans(text: string, i: nat)
    requires i <= |text|
    ensures ScanAt(text, i).lineStart <==> OnlyWhiteBefore(text, i)
  {
    hide ScanAt, KeptAt, OnlyWhiteBefore, BreakBetween, IsSpace, IsNewline;
    if i == 0 {
      TextStartIsWhite(text);
    } else {
      LineStartMeans(text, i - 1);
      LineStartStep(text, i - 1);
      SpacesExactly(text[i - 1]);
      OnlyWhiteStep(text, i - 1);
    }
  }

  lemma TextStartIsWhite(text: string)
    ensures ScanAt(text, 0).lineStart && OnlyWhiteBefore(text, 0)
  {
    hide KeptAt;
  }

  lemma LineStartStep(text: string, i: nat)
    requires i < |text|
    ensures ScanAt(text, i + 1).lineStart <==>
      if KeptAt(text, i) then IsNewline(text[i]) || (IsSpace(text[i]) && ScanAt(text, i).lineStart)
      else ScanAt(text, i).lineStart
  {
    ScanStep(text, i);
    if ScanAt(text, i).mode in {Line, LineEnding} {
      LineKeepsBreaks(text, i);
    }
    hide ScanAt;
  }

  lemma OnlyWhiteStep(text: string, i: nat)
    requires i < |text|
    ensures OnlyWhiteBefore(text, i + 1) <==>
      if KeptAt(text, i) then text[i] in {'\n', '\r'} || (White(text[i]) && OnlyWhiteBefore(text, i))
      else OnlyWhiteBefore(text, i)
  {
    hide KeptAt;
    if KeptAt(text, i) && text[i] in {'\n', '\r'} {
      forall k | 0 <= k < i + 1 && KeptAt(text, k) && !White(text[k])
        ensures BreakBetween(text, k, i + 1)
      {
        assert KeptAt(text, i) && text[i] in {'\n', '\r'};
      }
    } else {
      forall k | 0 <= k < i
        ensures BreakBetween(text, k, i) <==> BreakBetween(text, k, i + 1)
      {
        if m :| k < m < i && KeptAt(text, m) && text[m] in {'\n', '\r'} {
          assert k < m < i + 1;
        }
      }
      assert !BreakBetween(text, i, i + 1);
    }
  }

  /** A hash opens a comment exactly at the text start, behind white space or on an otherwise white line. */
  lemma HashOpensExactlyWhen(text: string, i: nat)
    requires i < |text|
    ensures OpensHash(ScanAt(text, i), text[i]) <==>
      text[i] == '#' && (i == 0 || White(text[i - 1]) || OnlyWhiteBefore(text, i))
  {
    LineStartMeans(text, i);
    assert SpaceBefore(text, i) == ScanAt(text, i).afterSpace;
    hide ScanAt, OnlyWhiteBefore;
    if i > 0 {
      SpacesExactly(text[i - 1]);
    }
  }

  /** The character at `i` opens a line comment, a block comment. */
  ghost predicate BeginsLine(text: string, i: nat) {
    && i < |text|
    && ((text[i] == '/' && i + 1 < |text| && text[i + 1] == '/')
        || (text[i] == '#' && (i == 0 || White(text[i - 1]) || OnlyWhiteBefore(text, i))))
  }

  ghost predicate BeginsBlock(text: string, i: nat) {
    i + 1 < |text| && text[i] == '/' && text[i + 1] == '*'
  }

  /** Outside strings and comments a character is removed exactly if it opens a comment; a quote opens a string. */
  lemma CodeExactly(text: string, i: nat)
    requires i < |text| && ScanAt(text, i).mode == Code
    ensures KeptAt(text, i) <==> !BeginsLine(text, i) && !BeginsBlock(text, i)
    ensures OpensLine(text, i) <==> BeginsLine(text, i)
    ensures ScanAt(text, i + 1).mode == Quoted <==> IsQuote(text, i)
    ensures ScanAt(text, i + 1).mode == Code <==> KeptAt(text, i) && !IsQuote(text, i)
  {
    HashOpensExactlyWhen(text, i);
    BackslashParity(text, i);
    ScanStep(text, i);
    hide ScanAt, OnlyWhiteBefore, TrailingBackslashes;
  }
}
