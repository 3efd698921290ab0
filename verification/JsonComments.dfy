/** Comment stripping: a chunk-copying scanner against a transducer that reads one character at a time. */
module JsonComments {

  predicate IsNewline(ch: char) {
    ch == '\n' || ch == '\r'
  }

  /** The white space of the C locale. */
  predicate IsSpace(ch: char) {
    ch == ' ' || '\t' <= ch <= '\r'
  }

  // The transducer.

  /** `LineOpening` to `LineEnding` wait for the second character of a two-character token. */
  datatype Mode = Code | Quoted | Line | Block | LineOpening | BlockOpening | BlockClosing | LineEnding

  datatype Scan = Scan(mode: Mode, lineStart: bool, afterSpace: bool, afterOddBackslashes: bool)

  const START := Scan(Code, true, true, false)

  function LineStartAfter(before: bool, ch: char): bool {
    IsNewline(ch) || (IsSpace(ch) && before)
  }

  /** A hash opens a comment only at the beginning of a line or after white space. */
  predicate OpensHash(s: Scan, ch: char) {
    ch == '#' && (s.lineStart || s.afterSpace)
  }

  function ModeAfter(s: Scan, ch: char, next: char): Mode {
    match s.mode
    case Code =>
      if ch == '"' then (if s.afterOddBackslashes then Code else Quoted)
      else if ch == '/' && next == '/' then LineOpening
      else if ch == '/' && next == '*' then BlockOpening
      else if OpensHash(s, ch) then Line
      else Code
    case Quoted => if ch == '"' && !s.afterOddBackslashes then Code else Quoted
    case Line => if ch == '\n' then Code else if ch == '\r' && next == '\n' then LineEnding else Line
    case Block => if ch == '*' && next == '/' then BlockClosing else Block
    case LineOpening => Line
    case BlockOpening => Block
    case BlockClosing => Code
    case LineEnding => Code
  }

  /** The character belongs to no comment; the line break that ends a line comment is not part of it. */
  predicate Keeps(s: Scan, ch: char, next: char) {
    match s.mode
    case Code => ch == '"' || !((ch == '/' && (next == '/' || next == '*')) || OpensHash(s, ch))
    case Quoted => true
    case Line => ch == '\n' || (ch == '\r' && next == '\n')
    case LineEnding => true
    case _ => false
  }

  function Step(s: Scan, ch: char, next: char): Scan {
    Scan(ModeAfter(s, ch, next),
         if s.mode.Code? || s.mode.Quoted?
         then (if Keeps(s, ch, next) then LineStartAfter(s.lineStart, ch) else s.lineStart)
         else s.lineStart || Keeps(s, ch, next),
         IsSpace(ch),
         ch == '\\' && !s.afterOddBackslashes)
  }

  function NextOf(text: string, i: nat): char {
    if i + 1 < |text| then text[i + 1] else '\0'
  }

  function ScanAt(text: string, i: nat): Scan
    requires i <= |text|
  {
    if i == 0 then START else Step(ScanAt(text, i - 1), text[i - 1], NextOf(text, i - 1))
  }

  predicate KeptAt(text: string, i: nat)
    requires i < |text|
  {
    Keeps(ScanAt(text, i), text[i], NextOf(text, i))
  }

  function Blank(ch: char): char {
    if IsNewline(ch) then ch else ' '
  }

  function EmitAt(text: string, i: nat, preserve: bool): string
    requires i < |text|
  {
    if KeptAt(text, i) then [text[i]] else if preserve then [Blank(text[i])] else []
  }

  /** The output for the first `n` characters. */
  function Emitted(text: string, n: nat, preserve: bool): string
    requires n <= |text|
  {
    if n == 0 then [] else Emitted(text, n - 1, preserve) + EmitAt(text, n - 1, preserve)
  }

  // The scanner.

  function TrailingBackslashes(text: string, n: nat): nat
    requires n <= |text|
  {
    if n > 0 && text[n - 1] == '\\' then 1 + TrailingBackslashes(text, n - 1) else 0
  }

  lemma {:induction false} BackslashParity(text: string, n: nat)
    requires n <= |text|
    ensures ScanAt(text, n).afterOddBackslashes <==> TrailingBackslashes(text, n) % 2 == 1
  {
    if n > 0 {
      BackslashParity(text, n - 1);
    }
  }

  method IsEscapedJsonQuote(text: string, position: nat) returns (escaped: bool)
    requires position <= |text|
    ensures escaped == ScanAt(text, position).afterOddBackslashes
  {
    var at, count := position, 0;
    while at > 0 && text[at - 1] == '\\'
      invariant 0 <= at <= position
      invariant TrailingBackslashes(text, position) == count + TrailingBackslashes(text, at)
    {
      at, count := at - 1, count + 1;
    }
    BackslashParity(text, position);
    return count % 2 == 1;
  }

  function Blanks(text: string): string {
    seq(|text|, i requires 0 <= i < |text| => Blank(text[i]))
  }

  method AppendSpacesPreserveNewlines(output: string, source: string, begin: nat, end: nat)
    returns (extended: string)
    requires begin <= end <= |source|
    ensures extended == output + Blanks(source[begin..end])
  {
    extended := output;
    for index := begin to end
      invariant extended == output + Blanks(source[begin..index])
    {
      assert source[begin..index + 1] == source[begin..index] + [source[index]];
      assert Blanks(source[begin..index + 1]) == Blanks(source[begin..index]) + [Blank(source[index])];
      extended := extended + [if source[index] == '\n' || source[index] == '\r' then source[index] else ' '];
    }
  }

  datatype CommentState = NoComment | LineComment | BlockComment

  /** What the scanner still owes for the comment it is in. */
  function Pending(text: string, begin: nat, end: nat, preserve: bool): string
    requires begin <= end <= |text|
  {
    if preserve then Blanks(text[begin..end]) else []
  }

  /** The flags of the scanner are the transducer's state between two tokens. */
  predicate Agrees(s: Scan, inString: bool, atLineStart: bool, comment: CommentState) {
    && s.lineStart == atLineStart
    && (inString ==> comment == NoComment)
    && s.mode == match comment
         case NoComment => if inString then Quoted else Code
         case LineComment => Line
         case BlockComment => Block
  }

  /** The chunk or the comment in progress is exactly what the output lacks. */
  predicate UpToDate(text: string, n: nat, preserve: bool, output: string, comment: CommentState,
                     chunkBegin: nat, commentBegin: nat)
  {
    && n <= |text|
    && (comment == NoComment ==>
          chunkBegin <= n && output + text[chunkBegin..n] == Emitted(text, n, preserve))
    && (comment != NoComment ==>
          commentBegin <= n && output + Pending(text, commentBegin, n, preserve) == Emitted(text, n, preserve))
  }

  /** A kept character extends the chunk. */
  lemma ChunkGrows(text: string, n: nat, preserve: bool, output: string, chunkBegin: nat, commentBegin: nat)
    requires n < |text| && KeptAt(text, n)
    requires UpToDate(text, n, preserve, output, NoComment, chunkBegin, commentBegin)
    ensures UpToDate(text, n + 1, preserve, output, NoComment, chunkBegin, commentBegin)
  {
    hide ScanAt;
    assert text[chunkBegin..n + 1] == text[chunkBegin..n] + [text[n]];
  }

  lemma CommentOpens(text: string, n: nat, preserve: bool, output: string, comment: CommentState,
                     chunkBegin: nat, commentBegin: nat)
    requires UpToDate(text, n, preserve, output, NoComment, chunkBegin, commentBegin) && comment != NoComment
    ensures UpToDate(text, n, preserve, output + text[chunkBegin..n], comment, chunkBegin, n)
  {
    assert text[n..n] == [];
  }

  /** A removed character extends the comment. */
  lemma CommentGrows(text: string, n: nat, preserve: bool, output: string, comment: CommentState,
                     chunkBegin: nat, commentBegin: nat)
    requires n < |text| && !KeptAt(text, n) && comment != NoComment
    requires UpToDate(text, n, preserve, output, comment, chunkBegin, commentBegin)
    ensures UpToDate(text, n + 1, preserve, output, comment, chunkBegin, commentBegin)
  {
    hide ScanAt;
    assert text[commentBegin..n + 1] == text[commentBegin..n] + [text[n]];
    assert Blanks(text[commentBegin..n + 1]) == Blanks(text[commentBegin..n]) + [Blank(text[n])];
  }

  /** The comment is paid for, and the kept characters up to `m` are copied. */
  lemma CommentCloses(text: string, n: nat, m: nat, preserve: bool, output: string, comment: CommentState,
                      chunkBegin: nat, commentBegin: nat)
    requires comment != NoComment && UpToDate(text, n, preserve, output, comment, chunkBegin, commentBegin)
    requires n <= m <= n + 2 && m <= |text| && forall i :: n <= i < m ==> KeptAt(text, i)
    ensures UpToDate(text, m, preserve, output + Pending(text, commentBegin, n, preserve) + text[n..m],
                     NoComment, m, commentBegin)
  {
    hide KeptAt, Pending, Blanks;
    var paid := output + Pending(text, commentBegin, n, preserve);
    assert Emitted(text, n, preserve) == paid;
    if m == n + 1 {
      assert text[n..m] == [text[n]];
    } else if m == n + 2 {
      assert Emitted(text, n + 1, preserve) == paid + [text[n]];
      assert paid + text[n..m] == paid + [text[n]] + [text[n + 1]];
    }
    assert text[m..m] == [];
  }

  method StripJsonComments(text: string, preserve: bool) returns (output: string)
    ensures output == Emitted(text, |text|, preserve)
  {
    hide UpToDate, ScanAt, Pending, Blanks, Emitted;
    if text == [] {
      NothingEmitted(text, preserve, 0, 0);
      return [];
    }
    output := [];
    var inString, atLineStart, comment := false, true, NoComment;
    var chunkBegin, commentBegin := 0, 0;
    var index := 0;
    NothingEmitted(text, preserve, chunkBegin, commentBegin);
    while index < |text|
      invariant index <= |text|
      invariant Agrees(ScanAt(text, index), inString, atLineStart, comment)
      invariant UpToDate(text, index, preserve, output, comment, chunkBegin, commentBegin)
    {
      var ch := text[index];
      var next := NextOf(text, index);
      ScanStep(text, index);
      Bounds(text, index, preserve, output, comment, chunkBegin, commentBegin);
      if comment == NoComment && ch == '"' {
        var escaped := IsEscapedJsonQuote(text, index);
        if !escaped {
          inString := !inString;
        }
        atLineStart := false;
        ChunkGrows(text, index, preserve, output, chunkBegin, commentBegin);
      } else if inString {
        atLineStart := LineStartAfter(atLineStart, ch);
        ChunkGrows(text, index, preserve, output, chunkBegin, commentBegin);
      } else if comment == NoComment {
        if ch == '/' && (next == '/' || next == '*') {
          ScanStep(text, index + 1);
          comment := if next == '/' then LineComment else BlockComment;
          CommentOpens(text, index, preserve, output, comment, chunkBegin, commentBegin);
          output := output + text[chunkBegin..index];
          commentBegin := index;
          CommentGrows(text, index, preserve, output, comment, chunkBegin, commentBegin);
          index := index + 1;
          CommentGrows(text, index, preserve, output, comment, chunkBegin, commentBegin);
        } else if ch == '#' && (atLineStart || SpaceBefore(text, index)) {
          comment := LineComment;
          CommentOpens(text, index, preserve, output, comment, chunkBegin, commentBegin);
          output := output + text[chunkBegin..index];
          commentBegin := index;
          CommentGrows(text, index, preserve, output, comment, chunkBegin, commentBegin);
        } else {
          atLineStart := LineStartAfter(atLineStart, ch);
          ChunkGrows(text, index, preserve, output, chunkBegin, commentBegin);
        }
      } else if comment == LineComment {
        if ch == '\n' || (ch == '\r' && next == '\n') {
          var after := if ch == '\n' then index + 1 else index + 2;
          if after == index + 2 {
            ScanStep(text, index + 1);
          }
          CommentCloses(text, index, after, preserve, output, comment, chunkBegin, commentBegin);
          output := PayComment(output, text, commentBegin, index, preserve);
          output := output + text[index..after];
          index, chunkBegin := after - 1, after;
          comment, atLineStart := NoComment, true;
        } else {
          CommentGrows(text, index, preserve, output, comment, chunkBegin, commentBegin);
        }
      } else {
        CommentGrows(text, index, preserve, output, comment, chunkBegin, commentBegin);
        if ch == '*' && next == '/' {
          ScanStep(text, index + 1);
          CommentGrows(text, index + 1, preserve, output, comment, chunkBegin, commentBegin);
          var commentEnd := index + 2;
          CommentCloses(text, commentEnd, commentEnd, preserve, output, comment, chunkBegin, commentBegin);
          output := PayComment(output, text, commentBegin, commentEnd, preserve);
          assert output + text[commentEnd..commentEnd] == output;
          index, chunkBegin := index + 1, commentEnd;
          comment := NoComment;
        }
      }
      index := index + 1;
    }
    Bounds(text, index, preserve, output, comment, chunkBegin, commentBegin);
    if comment == NoComment {
      output := output + text[chunkBegin..|text|];
    } else {
      output := PayComment(output, text, commentBegin, |text|, preserve);
    }
  }

  /** Only in preserving mode does a comment leave something behind. */
  method PayComment(output: string, text: string, begin: nat, end: nat, preserve: bool) returns (paid: string)
    requires begin <= end <= |text|
    ensures paid == output + Pending(text, begin, end, preserve)
  {
    paid := output;
    if preserve {
      paid := AppendSpacesPreserveNewlines(output, text, begin, end);
    }
  }

  lemma NothingEmitted(text: string, preserve: bool, chunkBegin: nat, commentBegin: nat)
    requires chunkBegin == 0
    ensures Emitted(text, 0, preserve) == []
    ensures ScanAt(text, 0) == START
    ensures UpToDate(text, 0, preserve, [], NoComment, chunkBegin, commentBegin)
  {
  }

  lemma ScanStep(text: string, i: nat)
    requires i < |text|
    ensures ScanAt(text, i + 1) == Step(ScanAt(text, i), text[i], NextOf(text, i))
  {
  }

  /** What the hidden bookkeeping means at the point where it is used. */
  lemma Bounds(text: string, n: nat, preserve: bool, output: string, comment: CommentState,
               chunkBegin: nat, commentBegin: nat)
    requires UpToDate(text, n, preserve, output, comment, chunkBegin, commentBegin)
    ensures n <= |text|
    ensures comment == NoComment ==>
      chunkBegin <= n && output + text[chunkBegin..n] == Emitted(text, n, preserve)
    ensures comment != NoComment ==>
      commentBegin <= n && output + Pending(text, commentBegin, n, preserve) == Emitted(text, n, preserve)
  {
  }

  predicate SpaceBefore(text: string, i: nat)
    requires i <= |text|
    ensures SpaceBefore(text, i) == ScanAt(text, i).afterSpace
  {
    i == 0 || IsSpace(text[i - 1])
  }

  // What the output looks like.

  /**
   * Preserving mode keeps the length and every line break; any other character is its old self or, in a
   * comment, a space.
   */
  lemma {:induction false} PreservingKeepsShape(text: string, n: nat)
    requires n <= |text|
    ensures var out := Emitted(text, n, true);
      && |out| == n
      && (forall i :: 0 <= i < n ==> out[i] == if KeptAt(text, i) then text[i] else Blank(text[i]))
      && (forall i :: 0 <= i < n && IsNewline(text[i]) ==> out[i] == text[i])
  {
    hide KeptAt;
    if n > 0 {
      PreservingKeepsShape(text, n - 1);
    }
  }

  /** The characters of `out` at the positions outside comments. */
  function KeptOnly(text: string, out: string, n: nat): string
    requires n <= |text| && n <= |out|
  {
    if n == 0 then [] else KeptOnly(text, out, n - 1) + if KeptAt(text, n - 1) then [out[n - 1]] else []
  }

  lemma {:induction false} KeptOnlyOfPrefix(text: string, out: string, n: nat, longer: string)
    requires n <= |text| && n <= |out| && out <= longer
    ensures KeptOnly(text, out, n) == KeptOnly(text, longer, n)
  {
    if n > 0 {
      KeptOnlyOfPrefix(text, out, n - 1, longer);
    }
  }

  /** The compact output is the preserving one without its comment positions. */
  lemma {:induction false} ModesAgree(text: string, n: nat)
    requires n <= |text|
    ensures |Emitted(text, n, true)| == n
    ensures KeptOnly(text, Emitted(text, n, true), n) == Emitted(text, n, false)
  {
    hide KeptAt;
    if n > 0 {
      ModesAgree(text, n - 1);
      KeptOnlyOfPrefix(text, Emitted(text, n - 1, true), n - 1, Emitted(text, n, true));
    }
  }

  // Where comments and strings begin and end.

  predicate ClosesBlock(text: string, i: nat) {
    i + 1 < |text| && text[i] == '*' && text[i + 1] == '/'
  }

  /** A lone carriage return does not end a line comment. */
  predicate EndsLine(text: string, i: nat) {
    i < |text| && (text[i] == '\n' || (text[i] == '\r' && NextOf(text, i) == '\n'))
  }

  ghost predicate RemovedBetween(text: string, from: nat, to: nat)
    requires to <= |text|
  {
    forall k :: from <= k < to ==> !KeptAt(text, k)
  }

  lemma {:induction false} StaysInBlock(text: string, from: nat, to: nat)
    requires from <= to <= |text| && ScanAt(text, from).mode == Block
    requires forall k :: from <= k < to ==> !ClosesBlock(text, k)
    ensures ScanAt(text, to).mode == Block && ScanAt(text, to).lineStart == ScanAt(text, from).lineStart
    ensures RemovedBetween(text, from, to)
  {
    if from < to {
      StaysInBlock(text, from, to - 1);
      assert !ClosesBlock(text, to - 1);
    }
  }

  /** A block comment runs to the first closer after its opener, or to the end of the text. */
  lemma BlockCommentExtent(text: string, i: nat, j: nat)
    requires i + 2 <= j <= |text| && ScanAt(text, i).mode == Code && text[i] == '/' && text[i + 1] == '*'
    requires forall k :: i + 2 <= k < j ==> !ClosesBlock(text, k)
    ensures j == |text| ==> RemovedBetween(text, i, |text|)
    ensures ClosesBlock(text, j) ==>
      && RemovedBetween(text, i, j + 2)
      && ScanAt(text, j + 2).mode == Code
      && ScanAt(text, j + 2).lineStart == ScanAt(text, i).lineStart
  {
    assert ScanAt(text, i + 1).mode == BlockOpening && ScanAt(text, i + 1).lineStart == ScanAt(text, i).lineStart;
    assert ScanAt(text, i + 2).mode == Block && ScanAt(text, i + 2).lineStart == ScanAt(text, i).lineStart;
    StaysInBlock(text, i + 2, j);
    assert RemovedBetween(text, i, j);
    if ClosesBlock(text, j) {
      assert ScanAt(text, j + 1).mode == BlockClosing;
    }
  }

  lemma {:induction false} StaysInLine(text: string, from: nat, to: nat)
    requires from <= to <= |text| && ScanAt(text, from).mode == Line
    requires forall k :: from <= k < to ==> !EndsLine(text, k)
    ensures ScanAt(text, to).mode == Line
    ensures RemovedBetween(text, from, to)
  {
    if from < to {
      StaysInLine(text, from, to - 1);
      assert !EndsLine(text, to - 1);
    }
  }

  predicate OpensLine(text: string, i: nat)
    requires i < |text|
  {
    (text[i] == '/' && NextOf(text, i) == '/') || OpensHash(ScanAt(text, i), text[i])
  }

  /** A line comment runs up to, and not including, the first line end after its opener. */
  lemma LineCommentExtent(text: string, i: nat, j: nat)
    requires i < |text| && ScanAt(text, i).mode == Code && OpensLine(text, i)
    requires (if text[i] == '#' then i + 1 else i + 2) <= j <= |text|
    requires forall k :: i < k < j ==> !EndsLine(text, k)
    ensures RemovedBetween(text, i, j)
    ensures EndsLine(text, j) ==>
      var after := if text[j] == '\n' then j + 1 else j + 2;
      KeptAt(text, j) && KeptAt(text, after - 1) && ScanAt(text, after).mode == Code && ScanAt(text, after).lineStart
  {
    if text[i] == '#' {
      assert ScanAt(text, i + 1).mode == Line;
      StaysInLine(text, i + 1, j);
    } else {
      assert ScanAt(text, i + 1).mode == LineOpening;
      assert ScanAt(text, i + 2).mode == Line;
      StaysInLine(text, i + 2, j);
    }
    if EndsLine(text, j) {
      LineEndIsKept(text, j);
    }
  }

  lemma LineEndIsKept(text: string, j: nat)
    requires EndsLine(text, j) && ScanAt(text, j).mode == Line
    ensures var after := if text[j] == '\n' then j + 1 else j + 2;
      KeptAt(text, j) && KeptAt(text, after - 1) && ScanAt(text, after).mode == Code && ScanAt(text, after).lineStart
  {
    if text[j] == '\r' {
      assert ScanAt(text, j + 1).mode == LineEnding;
    }
  }

  /** An even number of backslashes before a quote leaves it a quote. */
  predicate IsQuote(text: string, i: nat)
    requires i < |text|
  {
    text[i] == '"' && TrailingBackslashes(text, i) % 2 == 0
  }

  lemma {:induction false} StaysQuoted(text: string, from: nat, to: nat)
    requires from <= to <= |text| && ScanAt(text, from).mode == Quoted
    requires forall k :: from <= k < to ==> !IsQuote(text, k)
    ensures ScanAt(text, to).mode == Quoted
    ensures forall k :: from <= k < to ==> KeptAt(text, k)
  {
    if from < to {
      StaysQuoted(text, from, to - 1);
      BackslashParity(text, to - 1);
      assert !IsQuote(text, to - 1);
    }
  }

  /** Nothing between an opening quote and the next quote is touched, whatever it looks like. */
  lemma StringsAreUntouched(text: string, i: nat, j: nat)
    requires i < j <= |text| && ScanAt(text, i).mode == Code && IsQuote(text, i)
    requires forall k :: i < k < j ==> !IsQuote(text, k)
    ensures forall k :: i <= k < j ==> KeptAt(text, k)
    ensures j < |text| && IsQuote(text, j) ==> KeptAt(text, j) && ScanAt(text, j + 1).mode == Code
  {
    BackslashParity(text, i);
    assert ScanAt(text, i + 1).mode == Quoted;
    StaysQuoted(text, i + 1, j);
    BackslashParity(text, j);
  }

  /** A text without any comment opener comes out as it went in. */
  lemma {:induction false} PlainTextIsUntouched(text: string, n: nat, preserve: bool)
    requires n <= |text|
    requires forall i :: 0 <= i < n ==>
      text[i] != '#' && !(text[i] == '/' && (NextOf(text, i) == '/' || NextOf(text, i) == '*'))
    ensures ScanAt(text, n).mode == Code || ScanAt(text, n).mode == Quoted
    ensures Emitted(text, n, preserve) == text[..n]
  {
    if n > 0 {
      PlainTextIsUntouched(text, n - 1, preserve);
      assert KeptAt(text, n - 1);
      assert text[..n] == text[..n - 1] + [text[n - 1]];
    }
  }

  /** Inside a line comment a carriage return ends it exactly when a line feed follows. */
  lemma CarriageReturnEndsExactlyWhen(text: string, i: nat)
    requires i < |text| && ScanAt(text, i).mode == Line && text[i] == '\r'
    ensures KeptAt(text, i) <==> NextOf(text, i) == '\n'
    ensures NextOf(text, i) != '\n' ==> ScanAt(text, i + 1).mode == Line
  {
  }

  /** A lone carriage return does not end a line comment: what follows it is lost with the comment. */
  lemma LoneCarriageReturn()
    ensures var text := "//a\rb";
      Emitted(text, |text|, true) == "   \r " && Emitted(text, |text|, false) == ""
  {
    var text := "//a\rb";
    LineCommentExtent(text, 0, |text|);
    PreservingKeepsShape(text, |text|);
    assert Emitted(text, |text|, true) == "   \r ";
    NothingKept(text, |text|);
  }

  lemma {:induction false} NothingKept(text: string, n: nat)
    requires n <= |text| && RemovedBetween(text, 0, n)
    ensures Emitted(text, n, false) == ""
  {
    if n > 0 {
      NothingKept(text, n - 1);
    }
  }

  // A second pass.

  /** What one preserving pass leaves. */
  function Blanked(text: string): string {
    Emitted(text, |text|, true)
  }

  /** A hash that the pass keeps stands right behind a comment: behind a block comment, not at a line start. */
  predicate HashBehindComment(text: string, i: nat) {
    0 < i < |text| && text[i] == '#' && KeptAt(text, i) && !KeptAt(text, i - 1)
  }

  /** The second pass is outside comments wherever the first one is anywhere but in a string. */
  ghost predicate Follows(text: string, out: string, i: nat)
    requires i <= |text| == |out|
  {
    var s, t := ScanAt(text, i), ScanAt(out, i);
    && t.mode == (if s.mode == Quoted then Quoted else Code)
    && (s.mode == Code || s.mode == Quoted ==> t.afterOddBackslashes == s.afterOddBackslashes)
    && (t.lineStart ==> t.afterSpace)
    && (s.mode == LineEnding ==> i < |text| && text[i] == '\n')
    && (s.mode == BlockClosing ==> i < |text| && text[i] == '/')
    && (s.mode == LineOpening ==> i < |text| && text[i] == '/')
    && (s.mode == BlockOpening ==> i < |text| && text[i] == '*')
  }

  lemma BlankedAt(text: string, i: nat)
    requires i < |text|
    ensures |Blanked(text)| == |text|
    ensures Blanked(text)[i] == if KeptAt(text, i) then text[i] else Blank(text[i])
    ensures NextOf(Blanked(text), i) == NextOf(text, i) || NextOf(Blanked(text), i) == Blank(NextOf(text, i))
  {
    PreservingKeepsShape(text, |text|);
    hide KeptAt;
  }

  lemma FollowsOn(text: string, out: string, i: nat)
    requires i < |text| == |out| && out == Blanked(text) && Follows(text, out, i)
    requires !HashBehindComment(text, i)
    ensures Follows(text, out, i + 1) && KeptAt(out, i)
  {
    BlankedAt(text, i);
    ScanStep(text, i);
    ScanStep(out, i);
    BehindKept(text, out, i);
    hide Emitted, ScanAt, Blanked;
    var s, t := ScanAt(text, i), ScanAt(out, i);
    if KeptAt(text, i) {
      KeptFollowsOn(s, t, text[i], NextOf(text, i), NextOf(out, i));
    } else {
      RemovedFollowsOn(s, t, text[i], NextOf(text, i), NextOf(out, i));
    }
    assert NextOf(text, i) != '\0' ==> i + 1 < |text|;
  }

  /** If a kept hash follows a kept character, the second pass does not see white space before it either. */
  lemma BehindKept(text: string, out: string, i: nat)
    requires i < |text| == |out| && out == Blanked(text)
    ensures text[i] == '#' && KeptAt(text, i) && !HashBehindComment(text, i) ==>
      ScanAt(out, i).afterSpace == ScanAt(text, i).afterSpace
  {
    if i > 0 {
      BlankedAt(text, i - 1);
    }
  }

  lemma KeptFollowsOn(s: Scan, t: Scan, ch: char, next: char, later: char)
    requires Keeps(s, ch, next) && (later == next || later == Blank(next))
    requires t.mode == (if s.mode == Quoted then Quoted else Code)
    requires s.mode == Code || s.mode == Quoted ==> t.afterOddBackslashes == s.afterOddBackslashes
    requires t.lineStart ==> t.afterSpace
    requires s.mode == LineEnding ==> ch == '\n'
    requires s.mode == Code && ch == '#' ==> t.afterSpace == s.afterSpace
    ensures Keeps(t, ch, later)
    ensures var u, v := Step(s, ch, next), Step(t, ch, later);
      && v.mode == (if u.mode == Quoted then Quoted else Code)
      && (u.mode == Code || u.mode == Quoted ==> v.afterOddBackslashes == u.afterOddBackslashes)
      && (v.lineStart ==> v.afterSpace)
      && (u.mode == LineEnding ==> next == '\n')
      && u.mode !in {LineOpening, BlockOpening, BlockClosing}
  {
  }

  lemma RemovedFollowsOn(s: Scan, t: Scan, ch: char, next: char, later: char)
    requires !Keeps(s, ch, next) && t.mode == Code && (t.lineStart ==> t.afterSpace)
    requires s.mode == BlockClosing ==> ch == '/'
    ensures Keeps(t, Blank(ch), later)
    ensures var u, v := Step(s, ch, next), Step(t, Blank(ch), later);
      && v.mode == Code && u.mode != Quoted && u.mode != LineEnding
      && (u.mode == Code ==> v.afterOddBackslashes == u.afterOddBackslashes)
      && (v.lineStart ==> v.afterSpace)
      && (u.mode == BlockClosing || u.mode == LineOpening ==> next == '/')
      && (u.mode == BlockOpening ==> next == '*')
  {
  }

  lemma {:induction false} FollowsUpTo(text: string, out: string, n: nat)
    requires n <= |text| == |out| && out == Blanked(text)
    requires forall i :: 0 <= i < n ==> !HashBehindComment(text, i)
    ensures Follows(text, out, n) && forall i :: 0 <= i < n ==> KeptAt(out, i)
  {
    if n > 0 {
      FollowsUpTo(text, out, n - 1);
      FollowsOn(text, out, n - 1);
    }
  }

  /** The second pass takes the hash behind a comment for a comment of its own. */
  lemma HashOpensNow(text: string, out: string, i: nat)
    requires |text| == |out| && out == Blanked(text) && HashBehindComment(text, i) && Follows(text, out, i)
    requires ScanAt(text, i).mode == Code
    ensures out[i] == '#' && !KeptAt(out, i)
  {
    BlankedAt(text, i);
    BlankedAt(text, i - 1);
    assert ScanAt(out, i).afterSpace;
  }

  /** A removed character is followed by a kept hash only where a block comment has just closed. */
  lemma HashIsCode(text: string, i: nat)
    requires HashBehindComment(text, i)
    ensures ScanAt(text, i).mode == Code
  {
    ScanStep(text, i - 1);
    hide ScanAt;
  }

  lemma {:induction false} AllKept(text: string, n: nat, preserve: bool)
    requires n <= |text| && forall i :: 0 <= i < n ==> KeptAt(text, i)
    ensures Emitted(text, n, preserve) == text[..n]
  {
    if n > 0 {
      AllKept(text, n - 1, preserve);
      assert text[..n] == text[..n - 1] + [text[n - 1]];
    }
  }

  lemma {:induction false} FirstHash(text: string, i: nat) returns (j: nat)
    requires HashBehindComment(text, i)
    ensures j <= i && HashBehindComment(text, j) && forall k :: 0 <= k < j ==> !HashBehindComment(text, k)
    decreases i
  {
    if k :| 0 <= k < i && HashBehindComment(text, k) {
      j := FirstHash(text, k);
    } else {
      j := i;
    }
  }

  /** A second preserving pass changes nothing exactly when no hash was kept right behind a comment. */
  lemma SecondPassIsIdleExactlyWhen(text: string)
    ensures Blanked(Blanked(text)) == Blanked(text) <==>
            forall i :: 0 <= i < |text| ==> !HashBehindComment(text, i)
  {
    var out := Blanked(text);
    PreservingKeepsShape(text, |text|);
    if i :| 0 <= i < |text| && HashBehindComment(text, i) {
      var j := FirstHash(text, i);
      FollowsUpTo(text, out, j);
      HashIsCode(text, j);
      HashOpensNow(text, out, j);
      BlankedAt(out, j);
    } else {
      FollowsUpTo(text, out, |text|);
      AllKept(out, |out|, true);
      assert out[..|out|] == out;
    }
  }

  /** A concrete such text. */
  lemma SecondPassCanRemove()
    ensures var text := "a/**/#b"; Blanked(text) == "a    #b" && Blanked(Blanked(text)) != Blanked(text)
  {
    var text := "a/**/#b";
    assert ScanAt(text, 1) == Step(START, 'a', '/');
    BlockCommentExtent(text, 1, 3);
    assert ScanAt(text, 5).mode == Code && !ScanAt(text, 5).lineStart && !ScanAt(text, 5).afterSpace;
    assert ScanAt(text, 6) == Step(ScanAt(text, 5), '#', 'b');
    assert KeptAt(text, 0) && KeptAt(text, 5) && KeptAt(text, 6) && !KeptAt(text, 4);
    PreservingKeepsShape(text, |text|);
    hide KeptAt;
    assert Blanked(text) == "a    #b";
    SecondPassIsIdleExactlyWhen(text);
    assert HashBehindComment(text, 5);
  }
}
