/** A lexer of the same comments and literals that reads one character at a time, and the proof that the jumping scan
    marks exactly its spans (comment_contract_lint.py:165-269). */
module CommentLexer {
  import opened Options
  import opened Strings
  import opened CommentScan

  datatype State =
    | Code
    | Line
    | BlockOpening
    | Block(star: bool)
    | Quoted(quote: char)
    | Escaped(quote: char)
    | RawOpening(left: nat, close: string)
    | Raw(close: string)
    | RawClosing(left: nat)

  function RunEnd(text: string, pos: nat): (end: nat)
    requires pos <= |text|
    ensures pos <= end <= |text|
    decreases |text| - pos
  {
    if pos < |text| && WordChar(text[pos]) then RunEnd(text, pos + 1) else pos
  }

  /** Where the head of the raw string that starts at `pos`, prefix included, ends: a word that is a prefix and an R. */
  function RawAt(text: string, pos: nat): (open: Option<nat>)
    requires pos < |text|
    ensures open.Some? ==> pos + 3 <= open.value <= |text|
  {
    var end := RunEnd(text, pos);
    if (pos == 0 || !WordChar(text[pos - 1])) && pos < end && text[pos..end - 1] in RAW_PREFIXES
    then RawHead(text, end - 1) else None
  }

  /** The state in which a literal or comment that starts at `pos` goes on, or Code when none starts there. */
  function Starts(text: string, pos: nat): State
    requires pos < |text|
  {
    var raw, c := RawAt(text, pos), text[pos];
    if raw.Some? then
      var head := RunEnd(text, pos) - 1;
      RawOpening(raw.value - pos - 1, Closing(text[head + 2..raw.value - 1]))
    else if c == '"' || (c == '\'' && !DigitSeparator(text, pos)) then Quoted(c)
    else if At(text, pos, "//") then Line
    else if At(text, pos, "/*") then BlockOpening
    else Code
  }

  predicate Literal(state: State) {
    !state.Line? && !state.BlockOpening? && !state.Block?
  }

  /** What one character does inside a span: the next state, and the end of the span if it ends here. */
  function Inside(text: string, pos: nat, state: State): (State, Option<nat>)
    requires pos < |text| && state != Code
  {
    var c := text[pos];
    match state
    case Line => if c == '\n' then (Code, Some(pos)) else (Line, None)
    case BlockOpening => (Block(false), None)
    case Block(star) => if star && c == '/' then (Code, Some(pos + 1)) else (Block(c == '*'), None)
    case Quoted(quote) =>
      if c == '\\' then (Escaped(quote), None)
      else if c == quote then (Code, Some(pos + 1))
      else if c == '\n' then (Code, Some(pos))
      else (Quoted(quote), None)
    case Escaped(quote) => (Quoted(quote), None)
    case RawOpening(left, close) => (if left <= 1 then Raw(close) else RawOpening(left - 1, close), None)
    case Raw(close) => (if close != "" && At(text, pos, close) then RawClosing(|close| - 1) else Raw(close), None)
    case RawClosing(left) => if left <= 1 then (Code, Some(pos + 1)) else (RawClosing(left - 1), None)
  }

  /** THE LEXER: the spans from `pos` on, one character at a time; `start` is where the open span began. */
  function Lex(text: string, pos: nat, state: State, start: nat): seq<Span>
    decreases |text| - pos
  {
    if pos >= |text| then if state == Code then [] else [Span(start, |text|, Literal(state))]
    else if state == Code then Lex(text, pos + 1, Starts(text, pos), pos)
    else
      var (next, end) := Inside(text, pos, state);
      if end.Some? then [Span(start, end.value, Literal(state))] + Lex(text, pos + 1, Code, pos)
      else Lex(text, pos + 1, next, start)
  }

  /* ---------------------------------------------------------------- runs of code */

  /** In code the start does not matter. */
  lemma AnyStart(text: string, pos: nat, a: nat, b: nat)
    ensures Lex(text, pos, Code, a) == Lex(text, pos, Code, b)
  {
  }

  /** What follows a position in code. */
  function LexCode(text: string, pos: nat): seq<Span> {
    Lex(text, pos, Code, pos)
  }

  lemma {:induction false} CodeRuns(text: string, from: nat, until: nat)
    requires from <= until <= |text| && forall k :: from <= k < until ==> Starts(text, k) == Code
    ensures LexCode(text, from) == LexCode(text, until)
    decreases until - from
  {
    if from < until {
      AnyStart(text, from + 1, from, from + 1);
      CodeRuns(text, from + 1, until);
    }
  }

  /** One character of an open span. */
  lemma Stays(text: string, pos: nat, state: State, start: nat)
    requires pos < |text| && state != Code && Inside(text, pos, state).1.None?
    ensures Lex(text, pos, state, start) == Lex(text, pos + 1, Inside(text, pos, state).0, start)
  {
  }

  lemma Ends(text: string, pos: nat, state: State, start: nat)
    requires pos < |text| && state != Code && Inside(text, pos, state).1.Some?
    ensures Lex(text, pos, state, start)
            == [Span(start, Inside(text, pos, state).1.value, Literal(state))] + LexCode(text, pos + 1)
  {
    AnyStart(text, pos + 1, pos, pos + 1);
  }

  lemma NewlineIsCode(text: string, pos: nat)
    requires pos < |text| && text[pos] == '\n'
    ensures LexCode(text, pos) == LexCode(text, pos + 1)
  {
    assert Starts(text, pos) == Code;
    AnyStart(text, pos + 1, pos, pos + 1);
  }

  /* ---------------------------------------------------------------- each kind of span, jumped over */

  /** A span from `start` to `end`, then the rest. */
  function Jump(text: string, start: nat, end: nat, literal: bool): seq<Span> {
    [Span(start, end, literal)] + LexCode(text, end)
  }

  lemma {:induction false} LineJumps(text: string, pos: nat, start: nat)
    requires pos <= |text|
    ensures Lex(text, pos, Line, start) == Jump(text, start, Find(text, pos, "\n"), false)
    decreases |text| - pos
  {
    if pos < |text| {
      assert At(text, pos, "\n") <==> text[pos] == '\n';
      if text[pos] == '\n' {
        Ends(text, pos, Line, start);
        NewlineIsCode(text, pos);
      } else {
        LineJumps(text, pos + 1, start);
      }
    }
  }

  function BlockStop(text: string, from: nat): (stop: nat)
    requires from <= |text|
    ensures stop <= |text|
  {
    var close := Find(text, from, "*/");
    if close < |text| then close + 2 else |text|
  }

  lemma CloseAt(text: string, pos: nat)
    ensures At(text, pos, "*/") <==> pos + 1 < |text| && text[pos] == '*' && text[pos + 1] == '/'
  {
    assert "*/"[1..] == "/" && "/"[1..] == "";
    assert At(text, pos + 1, "/") <==> pos + 1 < |text| && text[pos + 1] == '/';
  }

  lemma {:induction false} BlockJumps(text: string, pos: nat, star: bool, start: nat)
    requires pos <= |text| && (star ==> pos > 0 && text[pos - 1] == '*')
    ensures Lex(text, pos, Block(star), start)
            == Jump(text, start, BlockStop(text, if star then pos - 1 else pos), false)
    decreases |text| - pos
  {
    CloseAt(text, pos);
    if star { CloseAt(text, pos - 1); }
    if pos < |text| {
      if star && text[pos] == '/' {
        Ends(text, pos, Block(star), start);
      } else {
        assert star ==> Find(text, pos - 1, "*/") == Find(text, pos, "*/");
        assert text[pos] != '*' ==> Find(text, pos, "*/") == Find(text, pos + 1, "*/");
        Stays(text, pos, Block(star), start);
        BlockJumps(text, pos + 1, text[pos] == '*', start);
      }
    }
  }

  function Min(a: nat, b: nat): nat {
    if a < b then a else b
  }

  lemma {:induction false} QuotedJumps(text: string, pos: nat, quote: char, start: nat)
    requires pos <= |text| && quote != '\\' && quote != '\n'
    ensures Lex(text, pos, Quoted(quote), start)
            == Jump(text, start, Min(SkipQuoted(text, pos, quote), |text|), true)
    decreases |text| - pos
  {
    if pos < |text| {
      if text[pos] == '\\' {
        Stays(text, pos, Quoted(quote), start);
        if pos + 1 < |text| {
          Stays(text, pos + 1, Escaped(quote), start);
          QuotedJumps(text, pos + 2, quote, start);
        }
      } else if text[pos] == quote {
        Ends(text, pos, Quoted(quote), start);
      } else if text[pos] == '\n' {
        Ends(text, pos, Quoted(quote), start);
        NewlineIsCode(text, pos);
      } else {
        Stays(text, pos, Quoted(quote), start);
        QuotedJumps(text, pos + 1, quote, start);
      }
    }
  }

  lemma {:induction false} RawOpeningJumps(text: string, pos: nat, left: nat, close: string, start: nat)
    requires 1 <= left && pos + left <= |text|
    ensures Lex(text, pos, RawOpening(left, close), start) == Lex(text, pos + left, Raw(close), start)
    decreases left
  {
    Stays(text, pos, RawOpening(left, close), start);
    if left > 1 { RawOpeningJumps(text, pos + 1, left - 1, close, start); }
  }

  lemma {:induction false} RawClosingJumps(text: string, pos: nat, left: nat, start: nat)
    requires 1 <= left && pos + left <= |text|
    ensures Lex(text, pos, RawClosing(left), start) == Jump(text, start, pos + left, true)
    decreases left
  {
    if left > 1 {
      Stays(text, pos, RawClosing(left), start);
      RawClosingJumps(text, pos + 1, left - 1, start);
    } else {
      Ends(text, pos, RawClosing(left), start);
    }
  }

  lemma {:induction false} RawJumps(text: string, pos: nat, close: string, start: nat)
    requires pos <= |text| && |close| >= 2
    ensures var end := Find(text, pos, close);
            Lex(text, pos, Raw(close), start)
            == Jump(text, start, if end < |text| then end + |close| else |text|, true)
    decreases |text| - pos
  {
    if pos < |text| {
      Stays(text, pos, Raw(close), start);
      if At(text, pos, close) {
        RawClosingJumps(text, pos + 1, |close| - 1, start);
      } else {
        RawJumps(text, pos + 1, close, start);
      }
    }
  }

  /* ---------------------------------------------------------------- where the scan can stand */

  /** No word reaches across `pos`. */
  predicate Boundary(text: string, pos: nat) {
    pos >= |text| || pos == 0 || !WordChar(text[pos - 1]) || !WordChar(text[pos])
  }

  lemma {:induction false} RunStartIs(text: string, pos: nat)
    requires pos <= |text|
    ensures var back := RunStart(text, pos);
            (forall k :: back <= k < pos ==> WordChar(text[k])) && (back == 0 || !WordChar(text[back - 1]))
  {
    if pos > 0 && WordChar(text[pos - 1]) { RunStartIs(text, pos - 1); }
  }

  lemma {:induction false} RunEndIs(text: string, pos: nat, end: nat)
    requires pos <= end <= |text| && (forall k :: pos <= k < end ==> WordChar(text[k]))
    requires end == |text| || !WordChar(text[end])
    ensures RunEnd(text, pos) == end
    decreases end - pos
  {
    if pos < end { RunEndIs(text, pos + 1, end); }
  }

  lemma {:induction false} RunEndWords(text: string, pos: nat)
    requires pos <= |text|
    ensures forall k :: pos <= k < RunEnd(text, pos) ==> WordChar(text[k])
    decreases |text| - pos
  {
    if pos < |text| && WordChar(text[pos]) { RunEndWords(text, pos + 1); }
  }

  /** A raw string head is an R before a quote. */
  lemma RawHeadIs(text: string, pos: nat)
    requires RawHead(text, pos).Some?
    ensures pos + 1 < |text| && text[pos] == 'R' && text[pos + 1] == '"'
  {
    assert "R\""[1..] == "\"";
  }

  /** Only the raw strings whose words hold the next match start before or at it. */
  lemma RawBeforeToken(text: string, pos: nat, start: nat, k: nat)
    requires pos <= k <= start < |text| && start == NextToken(text, pos) && RawAt(text, k).Some?
    ensures TokenAt(text, start).value.RawString? && k == RunStart(text, start) && text[k..start] in RAW_PREFIXES
    ensures RunEnd(text, k) == start + 1
  {
    var head := RunEnd(text, k) - 1;
    RunEndWords(text, k);
    RawHeadIs(text, head);
    assert TokenAt(text, head).Some? && head >= start;
    assert WordChar(text[start]);
    SlashIsNoWord(text, start);
    RawHeadIs(text, start);
    assert head == start;
    RunStartWithin(text, k, start);
  }

  lemma SlashIsNoWord(text: string, pos: nat)
    requires pos < |text| && TokenAt(text, pos).Some? && WordChar(text[pos])
    ensures TokenAt(text, pos).value.RawString?
  {
  }

  lemma {:induction false} RunStartWithin(text: string, from: nat, end: nat)
    requires from <= end <= |text| && (forall k :: from <= k < end ==> WordChar(text[k]))
    requires from == 0 || !WordChar(text[from - 1])
    ensures RunStart(text, end) == from
    decreases end
  {
    if from < end { RunStartWithin(text, from, end - 1); }
  }

  /* ---------------------------------------------------------------- one turn of the scan */

  /** Up to a match, and past it when the match starts nothing, the text is code. */
  lemma CodeBefore(text: string, pos: nat, start: nat, until: nat)
    requires pos <= until <= |text| && start == NextToken(text, pos) && until <= start + 1
    requires forall k :: pos <= k < until ==> RawAt(text, k).None?
    requires until == start + 1 ==> Starts(text, start) == Code
    ensures LexCode(text, pos) == LexCode(text, until)
  {
    forall k | pos <= k < until ensures Starts(text, k) == Code {
      if k < start { assert TokenAt(text, k).None?; }
    }
    CodeRuns(text, pos, until);
  }

  /** Nothing raw starts before a match that is not a raw string with a fit prefix. */
  lemma NoRaw(text: string, pos: nat, start: nat)
    requires pos <= start < |text| && start == NextToken(text, pos)
    requires TokenAt(text, start).value.RawString? ==> text[RunStart(text, start)..start] !in RAW_PREFIXES
    ensures forall k :: pos <= k <= start ==> RawAt(text, k).None?
  {
    forall k | pos <= k <= start ensures RawAt(text, k).None? {
      if RawAt(text, k).Some? { RawBeforeToken(text, pos, start, k); }
    }
  }

  /** What is marked, cut at the end of the text. */
  function Clamped(text: string, spans: seq<Span>): seq<Span> {
    seq(|spans|, i requires 0 <= i < |spans| =>
      spans[i].(end := if spans[i].end <= |text| then spans[i].end else |text|))
  }

  lemma ClampedJoin(text: string, a: seq<Span>, b: seq<Span>)
    ensures Clamped(text, a + b) == Clamped(text, a) + Clamped(text, b)
  {
  }

  lemma ClampedOne(text: string, start: nat, end: nat, literal: bool)
    ensures Clamped(text, [Span(start, end, literal)]) == [Span(start, Min(end, |text|), literal)]
  {
  }

  lemma RawTurn(text: string, pos: nat, start: nat, open: nat)
    requires pos <= start < |text| && start == NextToken(text, pos) && Boundary(text, pos)
    requires TokenAt(text, start) == Some(RawString(open)) && text[RunStart(text, start)..start] in RAW_PREFIXES
    ensures LexCode(text, pos) == Jump(text, RunStart(text, start), RawStop(text, start, open), true)
  {
    var back := RunStart(text, start);
    RunStartIs(text, start);
    RawHeadIs(text, start);
    forall k | pos <= k < back ensures RawAt(text, k).None? {
      if RawAt(text, k).Some? { RawBeforeToken(text, pos, start, k); }
    }
    CodeBefore(text, pos, start, back);
    RawBody(text, back, start, open);
  }

  lemma RawBody(text: string, back: nat, start: nat, open: nat)
    requires back <= start < |text| && back == RunStart(text, start)
    requires RawHead(text, start) == Some(open) && text[back..start] in RAW_PREFIXES
    ensures LexCode(text, back) == Jump(text, back, RawStop(text, start, open), true)
  {
    hide RawHead, RawStop, Lex, LexCode, Closing, RunStart, RunEnd;
    RawRun(text, back, start, open);
    var close := Closing(text[start + 2..open - 1]);
    RawOpens(text, back, start, open, close);
    RawOpeningJumps(text, back + 1, open - back - 1, close, back);
    RawTail(text, start, open, close, back);
  }

  lemma RawRun(text: string, back: nat, start: nat, open: nat)
    requires back <= start < |text| && back == RunStart(text, start) && RawHead(text, start) == Some(open)
    ensures RunEnd(text, back) == start + 1 && (back == 0 || !WordChar(text[back - 1]))
  {
    RunStartIs(text, start);
    RawHeadIs(text, start);
    RunEndIs(text, back, start + 1);
  }

  lemma RawTail(text: string, start: nat, open: nat, close: string, back: nat)
    requires start + 3 <= open <= |text| && close == Closing(text[start + 2..open - 1])
    ensures Lex(text, open, Raw(close), back) == Jump(text, back, RawStop(text, start, open), true)
  {
    RawJumps(text, open, close, back);
  }

  lemma RawOpens(text: string, back: nat, start: nat, open: nat, close: string)
    requires back <= start < |text| && RawHead(text, start) == Some(open) && text[back..start] in RAW_PREFIXES
    requires RunEnd(text, back) == start + 1 && (back == 0 || !WordChar(text[back - 1]))
    requires close == Closing(text[start + 2..open - 1])
    ensures LexCode(text, back) == Lex(text, back + 1, RawOpening(open - back - 1, close), back)
  {
    assert RawAt(text, back) == Some(open);
  }

  lemma RawStopBoundary(text: string, start: nat, open: nat)
    requires start + 3 <= open <= |text|
    ensures Boundary(text, RawStop(text, start, open))
  {
    var close := Closing(text[start + 2..open - 1]);
    var end := Find(text, open, close);
    if end < |text| {
      AtChar(text, end, close, |close| - 1);
      assert close[|close| - 1] == '"';
    }
  }

  /** A match that marks nothing: a newline, a digit separator, or a raw string head after an unfit prefix. */
  lemma EmptyTurn(text: string, pos: nat, start: nat, line: nat, lineStart: nat)
    requires pos <= start < |text| && start == NextToken(text, pos) && Boundary(text, pos)
    requires TurnAt(text, start, line, lineStart).spans == []
    ensures LexCode(text, pos) == LexCode(text, start + 1) && TurnAt(text, start, line, lineStart).pos == start + 1
    ensures Boundary(text, start + 1)
  {
    NoRaw(text, pos, start);
    if TokenAt(text, start).value.RawString? { RawHeadIs(text, start); }
    CodeBefore(text, pos, start, start + 1);
  }

  /** A literal or comment that is not raw. */
  lemma PlainTurn(text: string, pos: nat, start: nat, turn: Turn, line: nat, lineStart: nat)
    requires pos <= start < |text| && start == NextToken(text, pos) && Boundary(text, pos)
    requires turn == TurnAt(text, start, line, lineStart)
    requires !TokenAt(text, start).value.RawString? && turn.spans != []
    ensures turn.spans == [Span(start, turn.pos, TokenAt(text, start).value.Quote?)]
    ensures LexCode(text, pos) == Jump(text, start, Min(turn.pos, |text|), TokenAt(text, start).value.Quote?)
  {
    NoRaw(text, pos, start);
    CodeBefore(text, pos, start, start);
    PlainBody(text, start, turn, line, lineStart);
  }

  lemma PlainBody(text: string, start: nat, turn: Turn, line: nat, lineStart: nat)
    requires start < |text| && TokenAt(text, start).Some? && RawAt(text, start).None?
    requires turn == TurnAt(text, start, line, lineStart)
    requires !TokenAt(text, start).value.RawString? && turn.spans != []
    ensures LexCode(text, start) == Jump(text, start, Min(turn.pos, |text|), TokenAt(text, start).value.Quote?)
  {
    match TokenAt(text, start).value {
      case Quote(quote) => QuoteBody(text, start, quote);
      case LineOpens => LineBody(text, start);
      case BlockOpens => BlockBody(text, start);
    }
  }

  lemma QuoteBody(text: string, start: nat, quote: char)
    requires start < |text| && TokenAt(text, start) == Some(Quote(quote)) && RawAt(text, start).None?
    requires quote == '\'' ==> !DigitSeparator(text, start)
    ensures LexCode(text, start) == Jump(text, start, Min(SkipQuoted(text, start + 1, quote), |text|), true)
  {
    QuotedJumps(text, start + 1, quote, start);
  }

  lemma LineBody(text: string, start: nat)
    requires start < |text| && TokenAt(text, start) == Some(LineOpens) && RawAt(text, start).None?
    ensures start + 2 <= |text| && LexCode(text, start) == Jump(text, start, Find(text, start + 2, "\n"), false)
  {
    AtChar(text, start, "//", 1);
    Stays(text, start + 1, Line, start);
    LineJumps(text, start + 2, start);
  }

  lemma BlockBody(text: string, start: nat)
    requires start < |text| && TokenAt(text, start) == Some(BlockOpens) && RawAt(text, start).None?
    ensures start + 2 <= |text| && LexCode(text, start) == Jump(text, start, BlockStop(text, start + 2), false)
  {
    AtChar(text, start, "/*", 1);
    Stays(text, start + 1, BlockOpening, start);
    BlockJumps(text, start + 2, false, start);
  }

  lemma PlainTurnBoundary(text: string, start: nat, line: nat, lineStart: nat)
    requires start < |text| && TokenAt(text, start).Some?
    requires !TokenAt(text, start).value.RawString? && TurnAt(text, start, line, lineStart).spans != []
    ensures Boundary(text, TurnAt(text, start, line, lineStart).pos)
  {
    match TokenAt(text, start).value {
      case Quote(quote) => QuotedBoundary(text, start + 1, quote);
      case LineOpens =>
        var end := Find(text, start + 2, "\n");
        if end < |text| { AtChar(text, end, "\n", 0); }
      case BlockOpens =>
        var close := Find(text, start + 2, "*/");
        if close < |text| { AtChar(text, close, "*/", 1); }
    }
  }

  lemma {:induction false} QuotedBoundary(text: string, pos: nat, quote: char)
    requires !WordChar(quote)
    ensures Boundary(text, SkipQuoted(text, pos, quote))
    decreases |text| - pos
  {
    if pos < |text| && text[pos] == '\\' {
      QuotedBoundary(text, pos + 2, quote);
    } else if pos < |text| && text[pos] != quote && text[pos] != '\n' {
      QuotedBoundary(text, pos + 1, quote);
    }
  }

  /** THE SCAN MARKS WHAT THE LEXER MARKS: from any boundary the jumping scan lists exactly the spans the lexer lists
      that reads one character at a time, but that it lets a literal ended by a last backslash end past the text. */
  lemma {:induction false} ScanMarksTheLexersSpans(text: string, pos: nat, line: nat, lineStart: nat)
    requires Boundary(text, pos)
    ensures Clamped(text, ScanFrom(text, pos, line, lineStart).spans) == LexCode(text, pos)
    decreases |text| - pos
  {
    if pos < |text| {
      var start := NextToken(text, pos);
      if start == |text| {
        NothingLeft(text, pos);
      } else {
        var turn := TurnAt(text, start, line, lineStart);
        ScanStep(text, pos, line, lineStart, start, turn);
        TurnMarks(text, pos, start, line, lineStart, turn);
        ScanMarksTheLexersSpans(text, turn.pos, turn.line, turn.lineStart);
        ClampedJoin(text, turn.spans, ScanFrom(text, turn.pos, turn.line, turn.lineStart).spans);
      }
    }
  }

  lemma NothingLeft(text: string, pos: nat)
    requires pos < |text| && NextToken(text, pos) == |text|
    ensures LexCode(text, pos) == []
  {
    forall k | pos <= k < |text| ensures RawAt(text, k).None? {
      var head := RunEnd(text, k) - 1;
      if k <= head { assert TokenAt(text, head).None?; }
    }
    CodeBefore(text, pos, |text|, |text|);
  }

  lemma TurnMarks(text: string, pos: nat, start: nat, line: nat, lineStart: nat, turn: Turn)
    requires pos <= start < |text| && start == NextToken(text, pos) && Boundary(text, pos)
    requires turn == TurnAt(text, start, line, lineStart)
    ensures LexCode(text, pos) == Clamped(text, turn.spans) + LexCode(text, turn.pos) && Boundary(text, turn.pos)
  {
    if turn.spans == [] {
      EmptyTurn(text, pos, start, line, lineStart);
      assert [] + LexCode(text, turn.pos) == LexCode(text, turn.pos);
    } else if TokenAt(text, start).value.RawString? {
      RawTurn(text, pos, start, TokenAt(text, start).value.open);
      RawStopBoundary(text, start, TokenAt(text, start).value.open);
      ClampedOne(text, RunStart(text, start), turn.pos, true);
    } else {
      PlainTurn(text, pos, start, turn, line, lineStart);
      PlainTurnBoundary(text, start, line, lineStart);
      ClampedOne(text, start, turn.pos, turn.spans[0].literal);
    }
  }
}
