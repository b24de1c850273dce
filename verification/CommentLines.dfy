/** What the scan's spans and comments are good for (comment_contract_lint.py:201-269, 413-439): the spans are in order
    and apart, the blanked code keeps its shape, and each comment's line and column are exact but for the newlines an
    ordinary literal's backslash steps over. */
module CommentLines {
  import opened Options
  import opened Strings
  import opened CommentScan
  import opened CommentLexer

  /* ---------------------------------------------------------------- spans in order */

  /** Spans from `from` on, none empty, each after the one before. */
  predicate Ordered(spans: seq<Span>, from: nat) {
    spans == [] || (from <= spans[0].start < spans[0].end && Ordered(spans[1..], spans[0].end))
  }

  lemma {:induction false} OrderedAfter(spans: seq<Span>, from: nat, k: nat)
    requires Ordered(spans, from) && k < |spans|
    ensures from <= spans[k].start < spans[k].end
  {
    if k > 0 { OrderedAfter(spans[1..], spans[0].end, k - 1); }
  }

  /** The run of a raw string's prefix does not reach back over a boundary. */
  lemma RunStaysAfter(text: string, pos: nat, start: nat)
    requires pos <= start < |text| && Boundary(text, pos) && WordChar(text[start])
    ensures pos <= RunStart(text, start)
  {
    RunStartIs(text, start);
  }

  lemma TurnOrdered(text: string, pos: nat, start: nat, line: nat, lineStart: nat, turn: Turn)
    requires pos <= start < |text| && start == NextToken(text, pos) && Boundary(text, pos)
    requires turn == TurnAt(text, start, line, lineStart)
    ensures |turn.spans| <= 1
    ensures turn.spans != [] ==> pos <= turn.spans[0].start <= start < turn.spans[0].end == turn.pos
    ensures turn.spans != [] ==> turn.spans[0].start < |text|
  {
    if turn.spans != [] && TokenAt(text, start).value.RawString? {
      RawHeadIs(text, start);
      RunStaysAfter(text, pos, start);
    }
  }

  /** THE SPANS ARE IN ORDER AND APART. */
  lemma {:induction false} SpansInOrder(text: string, pos: nat, line: nat, lineStart: nat)
    requires Boundary(text, pos)
    ensures Ordered(ScanFrom(text, pos, line, lineStart).spans, pos)
    decreases |text| - pos
  {
    if pos < |text| && NextToken(text, pos) < |text| {
      var start := NextToken(text, pos);
      var turn := TurnAt(text, start, line, lineStart);
      ScanStep(text, pos, line, lineStart, start, turn);
      TurnMarks(text, pos, start, line, lineStart, turn);
      TurnOrdered(text, pos, start, line, lineStart, turn);
      SpansInOrder(text, turn.pos, turn.line, turn.lineStart);
      var rest := ScanFrom(text, turn.pos, turn.line, turn.lineStart).spans;
      if turn.spans == [] {
        assert [] + rest == rest;
        OrderedFrom(rest, turn.pos, pos);
      } else {
        assert (turn.spans + rest)[1..] == rest;
      }
    }
  }

  lemma OrderedFrom(spans: seq<Span>, from: nat, earlier: nat)
    requires Ordered(spans, from) && earlier <= from
    ensures Ordered(spans, earlier)
  {
  }

  /* ---------------------------------------------------------------- the blanked code */

  predicate Covered(spans: seq<Span>, k: nat) {
    exists i :: 0 <= i < |spans| && spans[i].start <= k < spans[i].end
  }

  /** The text with every covered character blanked, but for newlines. */
  function Blanked(text: string, spans: seq<Span>): string {
    seq(|text|, k requires 0 <= k < |text| => if text[k] != '\n' && Covered(spans, k) then ' ' else text[k])
  }

  /** `code_only`: a list of the characters, overwritten span by span. */
  method CodeOnly(text: string, spans: seq<Span>) returns (code: string)
    ensures code == Blanked(text, spans)
  {
    var chars := new char[|text|](i requires 0 <= i < |text| => text[i]);
    assert chars[..] == Blanked(text, spans[..0]);
    for s := 0 to |spans|
      invariant chars[..] == Blanked(text, spans[..s])
    {
      BlankSpan(chars, text, spans, s);
    }
    assert spans[..|spans|] == spans;
    code := chars[..];
  }

  /** Covered by the first spans, or by the part of span `s` before `index`. */
  predicate CoveredUpTo(spans: seq<Span>, s: nat, index: nat, k: nat)
    requires s < |spans|
  {
    Covered(spans[..s], k) || spans[s].start <= k < index
  }

  method BlankSpan(chars: array<char>, text: string, spans: seq<Span>, s: nat)
    requires s < |spans| && chars[..] == Blanked(text, spans[..s])
    modifies chars
    ensures chars[..] == Blanked(text, spans[..s + 1])
  {
    var span := spans[s];
    var end := if span.end < chars.Length then span.end else chars.Length;
    var index := span.start;
    assert chars.Length == |chars[..]| == |text|;
    assert forall k :: 0 <= k < |text| ==> chars[..][k] == chars[k];
    while index < end
      invariant span.start <= index
      invariant index <= end || index == span.start
      invariant forall k :: 0 <= k < |text| ==>
                  chars[k] == if text[k] != '\n' && CoveredUpTo(spans, s, index, k) then ' ' else text[k]
    {
      if chars[index] != '\n' { chars[index] := ' '; }
      index := index + 1;
    }
    forall k: nat | k < |text|
      ensures Covered(spans[..s + 1], k) <==> CoveredUpTo(spans, s, index, k)
    {
      CoveredNext(spans, s, k);
    }
    assert forall k :: 0 <= k < |text| ==> chars[..][k] == chars[k];
  }

  lemma CoveredNext(spans: seq<Span>, s: nat, k: nat)
    requires s < |spans|
    ensures Covered(spans[..s + 1], k) <==> Covered(spans[..s], k) || spans[s].start <= k < spans[s].end
  {
    assert forall i :: 0 <= i < s ==> spans[..s + 1][i] == spans[..s][i] == spans[i];
    if spans[s].start <= k < spans[s].end { assert spans[..s + 1][s] == spans[s]; }
    if Covered(spans[..s], k) {
      var i :| 0 <= i < |spans[..s]| && spans[..s][i].start <= k < spans[..s][i].end;
      assert spans[..s + 1][i].start <= k < spans[..s + 1][i].end;
    }
  }

  /** THE CODE KEEPS ITS SHAPE: as long as the text, its newlines where they were, and of the rest exactly what the
      lexer reads as comment or literal is blank. */
  lemma CodeKeepsItsShape(text: string, k: nat)
    requires k < |text|
    ensures var code := Blanked(text, ScanFrom(text, 0, 1, 0).spans);
            |code| == |text| && (code[k] == '\n' <==> text[k] == '\n')
            && code[k] == if text[k] == '\n' || !Covered(LexCode(text, 0), k) then text[k] else ' '
  {
    var spans := ScanFrom(text, 0, 1, 0).spans;
    ScanMarksTheLexersSpans(text, 0, 1, 0);
    var clamped := Clamped(text, spans);
    assert forall i :: 0 <= i < |spans| ==>
             (spans[i].start <= k < spans[i].end <==> clamped[i].start <= k < clamped[i].end);
  }

  /* ---------------------------------------------------------------- lines */

  /** An ordinary literal: one that a quote opens, not a raw string. */
  predicate Ordinary(text: string, span: Span) {
    span.literal && span.start < |text| && (text[span.start] == '"' || text[span.start] == '\'')
  }

  /** The newlines inside ordinary literals that end by `limit`. */
  function Drift(text: string, spans: seq<Span>, limit: nat): nat {
    if spans == [] then 0
    else
      (if Ordinary(text, spans[0]) && spans[0].end <= limit then Count(text, spans[0].start, spans[0].end) else 0)
      + Drift(text, spans[1..], limit)
  }

  lemma {:induction false} NoDriftBefore(text: string, spans: seq<Span>, from: nat, limit: nat)
    requires Ordered(spans, from) && limit <= from
    ensures Drift(text, spans, limit) == 0
  {
    if spans != [] { NoDriftBefore(text, spans[1..], spans[0].end, limit); }
  }

  lemma {:induction false} CountSplit(text: string, from: nat, mid: nat, until: nat)
    requires from <= mid <= until
    ensures Count(text, from, until) == Count(text, from, mid) + Count(text, mid, until)
    decreases mid - from
  {
    if from < mid && from < |text| { CountSplit(text, from + 1, mid, until); }
    else if from < mid { CountPast(text, mid, until); CountPast(text, from, until); }
  }

  lemma CountPast(text: string, from: nat, until: nat)
    requires from >= |text|
    ensures Count(text, from, until) == 0
  {
  }

  lemma {:induction false} NoNewlines(text: string, from: nat, until: nat)
    requires from <= until <= |text| && forall k :: from <= k < until ==> text[k] != '\n'
    ensures Count(text, from, until) == 0
    decreases until - from
  {
    if from < until { NoNewlines(text, from + 1, until); }
  }

  /** Up to the next match there is no newline. */
  lemma PlainBeforeToken(text: string, pos: nat, start: nat)
    requires pos <= start <= |text| && start == NextToken(text, pos)
    ensures Count(text, 0, start) == Count(text, 0, pos)
  {
    forall k | pos <= k < start ensures text[k] != '\n' { assert TokenAt(text, k).None?; }
    NoNewlines(text, pos, start);
    CountSplit(text, 0, pos, start);
  }

  function SkippedBy(text: string, start: nat, turn: Turn): nat {
    if turn.spans != [] && Ordinary(text, turn.spans[0]) then Count(text, start, turn.pos) else 0
  }

  /** What a turn comments on. */
  lemma TurnComments(text: string, start: nat, line: nat, lineStart: nat, turn: Turn)
    requires start < |text| && TokenAt(text, start).Some? && turn == TurnAt(text, start, line, lineStart)
    ensures turn.comments != [] ==>
              |turn.comments| == 1 && turn.comments[0].line == line && turn.comments[0].start == start
              && turn.comments[0].col == start - lineStart + 1 && turn.spans == [Span(start, turn.pos, false)]
    ensures turn.spans != [] && Ordinary(text, turn.spans[0]) ==> turn.spans[0] == Span(start, turn.pos, true)
  {
    if TokenAt(text, start).value.RawString? { RawTurnLines(text, start, TokenAt(text, start).value.open); }
  }

  /** The newlines of one turn: counted, but for those of an ordinary literal. */
  lemma TurnLines(text: string, start: nat, line: nat, lineStart: nat, turn: Turn)
    requires start < |text| && TokenAt(text, start).Some? && turn == TurnAt(text, start, line, lineStart)
    ensures turn.line + SkippedBy(text, start, turn) == line + Count(text, start, turn.pos)
  {
    match TokenAt(text, start).value {
      case Newline => assert Count(text, start, start + 1) == 1 + Count(text, start + 1, start + 1);
      case RawString(open) => RawTurnLines(text, start, open);
      case Quote(quote) => NoNewlines(text, start, start + 1);
      case LineOpens => LineTurnLines(text, start);
      case BlockOpens =>
    }
  }

  lemma LineTurnLines(text: string, start: nat)
    requires start < |text| && TokenAt(text, start) == Some(LineOpens)
    ensures start + 2 <= |text| && Count(text, start, Find(text, start + 2, "\n")) == 0
  {
    AtChar(text, start, "//", 1);
    LineHasNone(text, start + 2);
    NoNewlines(text, start, start + 2);
    CountSplit(text, start, start + 2, Find(text, start + 2, "\n"));
  }

  /** A raw string's own start is no quote; a head that is not one holds no newline. */
  lemma RawTurnLines(text: string, start: nat, open: nat)
    requires start < |text| && RawHead(text, start) == Some(open)
    ensures !Ordinary(text, Span(RunStart(text, start), 0, true)) && Count(text, start, start + 1) == 0
  {
    RawHeadIs(text, start);
    RunStartIs(text, start);
    NoNewlines(text, start, start + 1);
  }

  lemma {:induction false} LineHasNone(text: string, pos: nat)
    requires pos <= |text|
    ensures Count(text, pos, Find(text, pos, "\n")) == 0
    decreases |text| - pos
  {
    if pos < |text| && !At(text, pos, "\n") {
      LineHasNone(text, pos + 1);
      assert text[pos] != '\n';
    }
  }

  /** The comment is on its own line, less the newlines of the ordinary literals among `spans` before it. */
  predicate LineLess(text: string, comment: Comment, drift: nat, spans: seq<Span>) {
    comment.line + drift + Drift(text, spans, comment.start) == 1 + Count(text, 0, comment.start)
  }

  /** THE LINES: from a position where the line is right but for `drift`, every comment's line is right but for that and
      the newlines inside the ordinary literals between. */
  lemma {:induction false} LinesLessLiterals(text: string, pos: nat, line: nat, lineStart: nat, drift: nat)
    requires Boundary(text, pos) && line + drift == 1 + Count(text, 0, pos)
    ensures var scanned := ScanFrom(text, pos, line, lineStart);
            forall c <- scanned.comments :: pos <= c.start && LineLess(text, c, drift, scanned.spans)
    decreases |text| - pos
  {
    if pos < |text| && NextToken(text, pos) < |text| {
      var start := NextToken(text, pos);
      var turn := TurnAt(text, start, line, lineStart);
      var skipped := SkippedBy(text, start, turn);
      ScanStep(text, pos, line, lineStart, start, turn);
      TurnMarks(text, pos, start, line, lineStart, turn);
      PlainBeforeToken(text, pos, start);
      TurnComments(text, start, line, lineStart, turn);
      TurnLines(text, start, line, lineStart, turn);
      TurnOrdered(text, pos, start, line, lineStart, turn);
      CountSplit(text, 0, start, turn.pos);
      LinesLessLiterals(text, turn.pos, turn.line, turn.lineStart, drift + skipped);
      SpansInOrder(text, turn.pos, turn.line, turn.lineStart);
      TurnAddsDrift(text, start, turn, ScanFrom(text, turn.pos, turn.line, turn.lineStart), drift, skipped);
    }
  }

  lemma TurnAddsDrift(text: string, start: nat, turn: Turn, rest: Scanned, drift: nat, skipped: nat)
    requires start < turn.pos && |turn.spans| <= 1 && Ordered(rest.spans, turn.pos)
    requires turn.spans != [] && Ordinary(text, turn.spans[0]) ==> turn.spans[0] == Span(start, turn.pos, true)
    requires skipped == SkippedBy(text, start, turn)
    requires turn.comments != [] ==>
               |turn.comments| == 1 && turn.comments[0].start == start && turn.spans == [Span(start, turn.pos, false)]
               && turn.comments[0].line + drift == 1 + Count(text, 0, start)
    requires forall c <- rest.comments :: turn.pos <= c.start && LineLess(text, c, drift + skipped, rest.spans)
    ensures forall c <- turn.comments + rest.comments ::
              start <= c.start && LineLess(text, c, drift, turn.spans + rest.spans)
  {
    assert turn.spans == [] ==> turn.spans + rest.spans == rest.spans;
    assert turn.spans != [] ==> (turn.spans + rest.spans)[0] == turn.spans[0] && (turn.spans + rest.spans)[1..] == rest.spans;
    forall c | c in turn.comments + rest.comments
      ensures start <= c.start && LineLess(text, c, drift, turn.spans + rest.spans)
    {
      if c in rest.comments {
        assert turn.pos <= c.start && LineLess(text, c, drift + skipped, rest.spans);
      } else {
        assert c == turn.comments[0];
        NoDriftBefore(text, rest.spans, turn.pos, start);
      }
    }
  }

  /** No ordinary literal that ends by `limit` holds a newline. */
  ghost predicate NoneBroken(text: string, spans: seq<Span>, limit: nat) {
    forall i :: 0 <= i < |spans| && Ordinary(text, spans[i]) && spans[i].end <= limit ==>
      Count(text, spans[i].start, spans[i].end) == 0
  }

  /** A COMMENT'S LINE IS EXACT if and only if no ordinary literal that the character-by-character lexer reads before it
      holds a newline. */
  lemma LineExactIff(text: string, comment: Comment)
    requires comment in ScanFrom(text, 0, 1, 0).comments
    ensures comment.line == 1 + Count(text, 0, comment.start) <==> NoneBroken(text, LexCode(text, 0), comment.start)
  {
    var scanned := ScanFrom(text, 0, 1, 0);
    CommentIsPlaced(text, comment, scanned);
    ScanMarksTheLexersSpans(text, 0, 1, 0);
    NoneBrokenClamped(text, scanned.spans, comment.start);
    LinesLessLiterals(text, 0, 1, 0, 0);
    assert LineLess(text, comment, 0, scanned.spans);
    DriftZeroIff(text, scanned.spans, comment.start);
  }

  lemma NoneBrokenClamped(text: string, spans: seq<Span>, limit: nat)
    requires limit < |text|
    ensures NoneBroken(text, spans, limit) <==> NoneBroken(text, Clamped(text, spans), limit)
  {
    var clamped := Clamped(text, spans);
    forall i | 0 <= i < |spans| && spans[i].end <= limit ensures clamped[i] == spans[i] {}
    forall i | 0 <= i < |spans| && clamped[i].end <= limit ensures clamped[i] == spans[i] {}
    forall i | 0 <= i < |spans| ensures Ordinary(text, clamped[i]) <==> Ordinary(text, spans[i]) {}
  }

  lemma {:induction false} DriftZeroIff(text: string, spans: seq<Span>, limit: nat)
    ensures Drift(text, spans, limit) == 0 <==> NoneBroken(text, spans, limit)
  {
    if spans != [] {
      var rest := spans[1..];
      DriftZeroIff(text, rest, limit);
      assert forall i :: 0 <= i < |rest| ==> rest[i] == spans[i + 1];
      assert NoneBroken(text, spans, limit) ==> NoneBroken(text, rest, limit);
      assert forall i :: 1 <= i < |spans| ==> spans[i] == rest[i - 1];
    }
  }

  /* ---------------------------------------------------------------- columns */

  predicate InOrdinary(text: string, spans: seq<Span>, k: nat) {
    exists i :: 0 <= i < |spans| && Ordinary(text, spans[i]) && spans[i].start <= k < spans[i].end
  }

  /** Where the scan takes the comment's line to start. */
  function StartOfLine(comment: Comment): int {
    comment.start + 1 - comment.col
  }

  predicate NewlineAt(text: string, k: nat) {
    k < |text| && text[k] == '\n'
  }

  /** The comment's line is taken to start at `lineStart`, or after a later newline that is in no ordinary literal; the
      newlines from there on are all in ordinary literals. */
  predicate Placed(text: string, spans: seq<Span>, pos: nat, lineStart: nat, comment: Comment) {
    var s := StartOfLine(comment);
    && pos <= comment.start < |text|
    && (s == lineStart || (pos < s <= comment.start && NewlineAt(text, s - 1) && !InOrdinary(text, spans, s - 1)))
    && forall k: nat :: pos <= k < comment.start && s <= k && NewlineAt(text, k) ==> InOrdinary(text, spans, k)
  }

  /** The line at `until` starts at `s`: at `start` when there is no newline from `from` on, or after the last one. */
  predicate IsLineStart(text: string, from: nat, until: nat, start: nat, s: nat) {
    (s == start || (from < s <= until && NewlineAt(text, s - 1)))
    && forall k: nat :: from <= k < until && (s == start || s <= k) ==> !NewlineAt(text, k)
  }

  lemma {:induction false} LineStartIs(text: string, from: nat, until: nat, start: nat)
    requires from <= until <= |text| && start <= from
    ensures IsLineStart(text, from, until, start, LineStart(text, from, until, start))
    decreases until - from
  {
    if from < until { LineStartIs(text, from + 1, until, if text[from] == '\n' then from + 1 else start); }
  }

  /** Where a turn leaves the start of the line: where it was, or after a newline of a span that is not ordinary. */
  predicate TurnStarts(text: string, start: nat, lineStart: nat, turn: Turn) {
    || (turn.lineStart == lineStart && forall k: nat :: start <= k < turn.pos && NewlineAt(text, k) ==>
          turn.spans != [] && Ordinary(text, turn.spans[0]))
    || (start < turn.lineStart <= turn.pos && NewlineAt(text, turn.lineStart - 1)
        && (turn.spans != [] ==> !Ordinary(text, turn.spans[0]))
        && forall k: nat :: turn.lineStart <= k < turn.pos ==> !NewlineAt(text, k))
  }

  lemma TurnLineStart(text: string, start: nat, line: nat, lineStart: nat, turn: Turn)
    requires start < |text| && TokenAt(text, start).Some? && turn == TurnAt(text, start, line, lineStart)
    requires lineStart <= start
    ensures TurnStarts(text, start, lineStart, turn)
  {
    hide RawHead, RawStop, SkipQuoted, Find, LineStart, Count;
    match TokenAt(text, start).value {
      case Newline =>
      case RawString(open) =>
        RawTurnLines(text, start, open);
        RawHeadIs(text, start);
        LineStartIs(text, start, RawStop(text, start, open), lineStart);
      case Quote(quote) =>
      case LineOpens =>
        AtChar(text, start, "//", 1);
        NoNewlineOnLine(text, start + 2);
      case BlockOpens =>
        AtChar(text, start, "/*", 1);
        LineStartIs(text, start, turn.pos, lineStart);
    }
  }

  lemma {:induction false} NoNewlineOnLine(text: string, pos: nat)
    requires pos <= |text|
    ensures forall k: nat :: pos <= k < Find(text, pos, "\n") ==> !NewlineAt(text, k)
    decreases |text| - pos
  {
    if pos < |text| && !At(text, pos, "\n") {
      NoNewlineOnLine(text, pos + 1);
      assert text[pos] != '\n';
    }
  }

  lemma InOrdinaryRest(text: string, spans: seq<Span>, rest: seq<Span>, k: nat)
    requires |spans| <= 1
    ensures InOrdinary(text, spans + rest, k) <==>
            (spans != [] && Ordinary(text, spans[0]) && spans[0].start <= k < spans[0].end) || InOrdinary(text, rest, k)
  {
    var all := spans + rest;
    assert forall i :: 0 <= i < |rest| ==> rest[i] == all[|spans| + i];
    if InOrdinary(text, all, k) {
      var i :| 0 <= i < |all| && Ordinary(text, all[i]) && all[i].start <= k < all[i].end;
      if i >= |spans| { assert rest[i - |spans|] == all[i]; }
    }
    if InOrdinary(text, rest, k) {
      var i :| 0 <= i < |rest| && Ordinary(text, rest[i]) && rest[i].start <= k < rest[i].end;
      assert all[|spans| + i] == rest[i];
    }
    if spans != [] { assert all[0] == spans[0]; }
  }

  lemma NotInLater(text: string, spans: seq<Span>, from: nat, k: nat)
    requires Ordered(spans, from) && k < from
    ensures !InOrdinary(text, spans, k)
  {
    forall i | 0 <= i < |spans| ensures k < spans[i].start { OrderedAfter(spans, from, i); }
  }

  /** THE COLUMNS: every comment is placed. */
  lemma {:induction false} CommentsArePlaced(text: string, pos: nat, line: nat, lineStart: nat)
    requires Boundary(text, pos) && lineStart <= pos
    ensures var scanned := ScanFrom(text, pos, line, lineStart);
            forall c <- scanned.comments :: Placed(text, scanned.spans, pos, lineStart, c)
    decreases |text| - pos
  {
    if pos < |text| && NextToken(text, pos) < |text| {
      var start := NextToken(text, pos);
      var turn := TurnAt(text, start, line, lineStart);
      ScanStep(text, pos, line, lineStart, start, turn);
      TurnMarks(text, pos, start, line, lineStart, turn);
      TurnLineStart(text, start, line, lineStart, turn);
      SpansInOrder(text, turn.pos, turn.line, turn.lineStart);
      CommentsArePlaced(text, turn.pos, turn.line, turn.lineStart);
      OneTurnPlaces(text, pos, start, line, lineStart, turn, ScanFrom(text, turn.pos, turn.line, turn.lineStart));
    }
  }

  lemma OneTurnPlaces(text: string, pos: nat, start: nat, line: nat, lineStart: nat, turn: Turn, rest: Scanned)
    requires Boundary(text, pos) && lineStart <= pos <= start < |text| && start == NextToken(text, pos)
    requires turn == TurnAt(text, start, line, lineStart) && TurnStarts(text, start, lineStart, turn)
    requires Ordered(rest.spans, turn.pos)
    requires forall c <- rest.comments :: Placed(text, rest.spans, turn.pos, turn.lineStart, c)
    ensures forall c <- turn.comments + rest.comments :: Placed(text, turn.spans + rest.spans, pos, lineStart, c)
  {
    TurnComments(text, start, line, lineStart, turn);
    TurnOrdered(text, pos, start, line, lineStart, turn);
    forall k: nat | pos <= k < start ensures !NewlineAt(text, k) { assert TokenAt(text, k).None?; }
    TurnPlaces(text, pos, start, lineStart, turn, rest);
  }

  lemma TurnPlaces(text: string, pos: nat, start: nat, lineStart: nat, turn: Turn, rest: Scanned)
    requires pos <= start < turn.pos && start < |text| && lineStart <= pos && TurnStarts(text, start, lineStart, turn)
    requires |turn.spans| <= 1 && Ordered(rest.spans, turn.pos)
    requires turn.spans != [] ==> turn.spans[0].start <= start && turn.spans[0].end == turn.pos
    requires forall k: nat :: pos <= k < start ==> !NewlineAt(text, k)
    requires turn.comments != [] ==>
               |turn.comments| == 1 && turn.comments[0].start == start && turn.comments[0].col == start - lineStart + 1
    requires forall c <- rest.comments :: Placed(text, rest.spans, turn.pos, turn.lineStart, c)
    ensures forall c <- turn.comments + rest.comments :: Placed(text, turn.spans + rest.spans, pos, lineStart, c)
  {
    forall c | c in turn.comments + rest.comments
      ensures Placed(text, turn.spans + rest.spans, pos, lineStart, c)
    {
      if c in rest.comments {
        LaterIsPlaced(text, pos, start, lineStart, turn, rest.spans, c);
      } else {
        assert c == turn.comments[0] && StartOfLine(c) == lineStart;
      }
    }
  }

  lemma LaterIsPlaced(text: string, pos: nat, start: nat, lineStart: nat, turn: Turn, rest: seq<Span>, c: Comment)
    requires pos <= start < turn.pos && lineStart <= pos && TurnStarts(text, start, lineStart, turn)
    requires |turn.spans| <= 1 && Ordered(rest, turn.pos)
    requires turn.spans != [] ==> turn.spans[0].start <= start && turn.spans[0].end == turn.pos
    requires forall k: nat :: pos <= k < start ==> !NewlineAt(text, k)
    requires Placed(text, rest, turn.pos, turn.lineStart, c)
    ensures Placed(text, turn.spans + rest, pos, lineStart, c)
  {
    var s := StartOfLine(c);
    forall k: nat | pos <= k < c.start && s <= k && NewlineAt(text, k) ensures InOrdinary(text, turn.spans + rest, k) {
      InOrdinaryRest(text, turn.spans, rest, k);
    }
    if s != lineStart {
      InOrdinaryRest(text, turn.spans, rest, s - 1);
      if s == turn.lineStart { NotInLater(text, rest, turn.pos, s - 1); }
    }
  }

  /** A COMMENT'S COLUMN IS EXACT if and only if the last newline before it, if any, is in no ordinary literal that the
      character-by-character lexer reads. */
  lemma ColumnExactIff(text: string, comment: Comment, lineStart: nat)
    requires comment in ScanFrom(text, 0, 1, 0).comments && lineStart == LineStart(text, 0, comment.start, 0)
    ensures comment.col == comment.start - lineStart + 1 <==>
            lineStart == 0 || !InOrdinary(text, LexCode(text, 0), lineStart - 1)
  {
    var scanned := ScanFrom(text, 0, 1, 0);
    CommentIsPlaced(text, comment, scanned);
    LineStartIs(text, 0, comment.start, 0);
    PlacedExactly(text, scanned.spans, comment, lineStart);
    ScanMarksTheLexersSpans(text, 0, 1, 0);
    if lineStart > 0 { InOrdinaryClamped(text, scanned.spans, lineStart - 1); }
  }

  lemma InOrdinaryClamped(text: string, spans: seq<Span>, k: nat)
    requires k < |text|
    ensures InOrdinary(text, spans, k) <==> InOrdinary(text, Clamped(text, spans), k)
  {
    var clamped := Clamped(text, spans);
    forall i | 0 <= i < |spans|
      ensures Ordinary(text, clamped[i]) && clamped[i].start <= k < clamped[i].end
              <==> Ordinary(text, spans[i]) && spans[i].start <= k < spans[i].end
    {
    }
  }

  lemma CommentIsPlaced(text: string, comment: Comment, scanned: Scanned)
    requires scanned == ScanFrom(text, 0, 1, 0) && comment in scanned.comments
    ensures Placed(text, scanned.spans, 0, 0, comment)
  {
    CommentsArePlaced(text, 0, 1, 0);
  }

  lemma PlacedExactly(text: string, spans: seq<Span>, comment: Comment, lineStart: nat)
    requires Placed(text, spans, 0, 0, comment) && IsLineStart(text, 0, comment.start, 0, lineStart)
    ensures StartOfLine(comment) == lineStart <==> lineStart == 0 || !InOrdinary(text, spans, lineStart - 1)
  {
    if lineStart > 0 { assert NewlineAt(text, lineStart - 1); }
  }

  /** The drift is real: after an ordinary literal that goes on past a backslash and a newline, a comment on line 2 is
      reported on line 1. */
  lemma LineCanDrift()
    ensures var text := "\"\\\n\"//";
            exists c :: c in ScanFrom(text, 0, 1, 0).comments && c.line == 1 && 1 + Count(text, 0, c.start) == 2
  {
    var text := "\"\\\n\"//";
    assert |text| == 6 && text[0] == '"' && text[1] == '\\' && text[2] == '\n' && text[3] == '"';
    assert RawHead(text, 0).None? && TokenAt(text, 0) == Some(Quote('"'));
    assert SkipQuoted(text, 3, '"') == 4 && SkipQuoted(text, 1, '"') == 4;
    var turn := TurnAt(text, 0, 1, 0);
    assert turn == Turn([], [Span(0, 4, true)], 4, 1, 0);
    ScanStep(text, 0, 1, 0, 0, turn);
    assert At(text, 5, "/") && "//"[1..] == "/";
    assert At(text, 4, "//") && RawHead(text, 4).None? && TokenAt(text, 4) == Some(LineOpens);
    var second := TurnAt(text, 4, 1, 0);
    ScanStep(text, 4, 1, 0, 4, second);
    var c := second.comments[0];
    assert c.line == 1 && c.start == 4;
    assert c in ScanFrom(text, 4, 1, 0).comments;
    assert ScanFrom(text, 0, 1, 0).comments == [] + ScanFrom(text, 4, 1, 0).comments;
    assert Count(text, 2, 4) == 1 + Count(text, 3, 4) && Count(text, 3, 4) == 0;
    assert Count(text, 0, 4) == Count(text, 1, 4) == Count(text, 2, 4);
  }
}
