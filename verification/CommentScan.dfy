/** The scanner of C++ comments and literals (comment_contract_lint.py:165-269): the loop that jumps from one interesting
    character to the next, and the proof that it marks what a lexer that reads one character at a time marks. */
module CommentScan {
  import opened Options
  import opened Strings

  /* ---------------------------------------------------------------- characters */

  /** `str.isalnum` of one ASCII character. */
  predicate Alnum(c: char) {
    'a' <= c <= 'z' || 'A' <= c <= 'Z' || '0' <= c <= '9'
  }

  predicate WordChar(c: char) {
    Alnum(c) || c == '_'
  }

  predicate HexDigit(c: char) {
    '0' <= c <= '9' || 'a' <= c <= 'f' || 'A' <= c <= 'F'
  }

  /** A character of a raw string's delimiter. */
  predicate DelimChar(c: char) {
    !Space(c) && c != '(' && c != ')' && c != '\\' && c != '"'
  }

  const RAW_PREFIXES: set<string> := {"", "u8", "u", "U", "L"}

  /** A raw string's closing: a parenthesis, the delimiter, a quote. */
  function Closing(delim: string): string {
    ")" + delim + "\""
  }

  function DelimEnd(text: string, pos: nat): (end: nat)
    requires pos <= |text|
    ensures pos <= end <= |text|
    decreases |text| - pos
  {
    if pos < |text| && DelimChar(text[pos]) then DelimEnd(text, pos + 1) else pos
  }

  /** Where the raw string head at `pos` ends, past its parenthesis, if `R"delim(` stands there. */
  function RawHead(text: string, pos: nat): (open: Option<nat>)
    ensures open.Some? ==> pos + 3 <= open.value <= |text|
  {
    if !At(text, pos, "R\"") then None
    else
      var end := DelimEnd(text, pos + 2);
      if end < |text| && text[end] == '(' && end - (pos + 2) <= 16 then Some(end + 1) else None
  }

  /** The delimiter of a raw string head, and where its literal stops. */
  function RawStop(text: string, pos: nat, open: nat): (stop: nat)
    requires pos + 3 <= open <= |text|
    ensures open <= stop <= |text|
  {
    var delim := text[pos + 2..open - 1];
    var end := Find(text, open, Closing(delim));
    if end < |text| then end + |delim| + 2 else |text|
  }

  /* ---------------------------------------------------------------- the scan */

  datatype Span = Span(start: nat, end: nat, literal: bool)

  /** A comment with its line and column, its raw text, and the code before it and after it on its lines. */
  datatype Comment = Comment(isBlock: bool, line: nat, col: int, start: nat, raw: string, before: string, after: string)

  /** What the pattern can match at a position, in the order of its alternatives. */
  datatype Token = RawString(open: nat) | Quote(quote: char) | LineOpens | BlockOpens | Newline

  function TokenAt(text: string, pos: nat): Option<Token>
    requires pos < |text|
  {
    var c := text[pos];
    if RawHead(text, pos).Some? then Some(RawString(RawHead(text, pos).value))
    else if c == '"' || c == '\'' then Some(Quote(c))
    else if At(text, pos, "//") then Some(LineOpens)
    else if At(text, pos, "/*") then Some(BlockOpens)
    else if c == '\n' then Some(Newline)
    else None
  }

  /** Where the pattern next matches, or the length of the text. */
  function NextToken(text: string, pos: nat): (n: nat)
    requires pos <= |text|
    ensures pos <= n <= |text|
    ensures n < |text| ==> TokenAt(text, n).Some?
    ensures forall k :: pos <= k < n ==> TokenAt(text, k).None?
    decreases |text| - pos
  {
    if pos == |text| || TokenAt(text, pos).Some? then pos else NextToken(text, pos + 1)
  }

  /** `_skip_quoted`: past the closing quote, or at the newline that ends the line, or past the end of the text. */
  function SkipQuoted(text: string, pos: nat, quote: char): (end: nat)
    ensures end >= pos
    decreases |text| - pos
  {
    if pos >= |text| then pos
    else if text[pos] == '\\' then SkipQuoted(text, pos + 2, quote)
    else if text[pos] == quote then pos + 1
    else if text[pos] == '\n' then pos
    else SkipQuoted(text, pos + 1, quote)
  }

  /** Where the run of word characters that ends at `pos` starts. */
  function RunStart(text: string, pos: nat): (start: nat)
    requires pos <= |text|
    ensures start <= pos
  {
    if pos > 0 && WordChar(text[pos - 1]) then RunStart(text, pos - 1) else pos
  }

  /** A quote inside a number: `prev in "abcdefABCDEF"` holds of the empty string that stands before the text too. */
  predicate DigitSeparator(text: string, pos: nat)
    requires pos < |text| && text[pos] == '\''
  {
    (pos == 0 || HexDigit(text[pos - 1])) && pos + 1 < |text| && Alnum(text[pos + 1])
  }

  /** The start of the line at `to`, when newlines before `from` do not count and the line at `from` starts at `start`. */
  function LineStart(text: string, from: nat, to: nat, start: nat): nat
    decreases |text| - from
  {
    if from >= to || from >= |text| then start
    else LineStart(text, from + 1, to, if text[from] == '\n' then from + 1 else start)
  }

  datatype Scanned = Scanned(comments: seq<Comment>, spans: seq<Span>)

  function Add(comments: seq<Comment>, spans: seq<Span>, rest: Scanned): Scanned {
    Scanned(comments + rest.comments, spans + rest.spans)
  }

  /** What one match adds, and where the scan goes on: the position, the line, the start of the line. */
  datatype Turn = Turn(comments: seq<Comment>, spans: seq<Span>, pos: nat, line: nat, lineStart: nat)

  /** The loop body of `scan`, for the match at `start`. */
  function TurnAt(text: string, start: nat, line: nat, lineStart: nat): (turn: Turn)
    requires start < |text| && TokenAt(text, start).Some?
    ensures turn.pos > start
  {
    match TokenAt(text, start).value
    case Newline => Turn([], [], start + 1, line + 1, start + 1)
    case RawString(open) =>
      var back := RunStart(text, start);
      if text[back..start] in RAW_PREFIXES then
        var end := RawStop(text, start, open);
        Turn([], [Span(back, end, true)], end, line + Count(text, start, end), LineStart(text, start, end, lineStart))
      else Turn([], [], start + 1, line, lineStart)
    case Quote(quote) =>
      if quote == '\'' && DigitSeparator(text, start) then Turn([], [], start + 1, line, lineStart)
      else
        var end := SkipQuoted(text, start + 1, quote);
        Turn([], [Span(start, end, true)], end, line, lineStart)
    case LineOpens =>
      var end := Find(text, start + 2, "\n");
      Turn([Comment(false, line, start - lineStart + 1, start, Slice(text, start, end), Slice(text, lineStart, start), "")],
           [Span(start, end, false)], end, line, lineStart)
    case BlockOpens =>
      var close := Find(text, start + 2, "*/");
      var end := if close < |text| then close + 2 else |text|;
      Turn([Comment(true, line, start - lineStart + 1, start, Slice(text, start, end), Slice(text, lineStart, start),
                    Slice(text, end, Find(text, end, "\n")))],
           [Span(start, end, false)], end, line + Count(text, start, end), LineStart(text, start, end, lineStart))
  }

  /** `scan` from a position on. */
  function ScanFrom(text: string, pos: nat, line: nat, lineStart: nat): Scanned
    decreases |text| - pos
  {
    if pos >= |text| then Scanned([], [])
    else
      var start := NextToken(text, pos);
      if start == |text| then Scanned([], [])
      else
        var turn := TurnAt(text, start, line, lineStart);
        Add(turn.comments, turn.spans, ScanFrom(text, turn.pos, turn.line, turn.lineStart))
  }

  /* ---------------------------------------------------------------- the loops */

  method SkipQuotedLoop(text: string, start: nat, quote: char) returns (pos: nat)
    ensures pos == SkipQuoted(text, start, quote)
  {
    pos := start;
    while pos < |text|
      invariant SkipQuoted(text, pos, quote) == SkipQuoted(text, start, quote)
      decreases |text| - pos
    {
      var ch := text[pos];
      if ch == '\\' {
        pos := pos + 2;
        continue;
      }
      if ch == quote { return pos + 1; }
      if ch == '\n' { return pos; }
      pos := pos + 1;
    }
  }

  method RunStartLoop(text: string, start: nat) returns (back: nat)
    requires start <= |text|
    ensures back == RunStart(text, start)
  {
    back := start;
    while back > 0 && WordChar(text[back - 1])
      invariant back <= start && RunStart(text, back) == RunStart(text, start)
    {
      back := back - 1;
    }
  }

  /** The branches of the loop of `scan`. */
  method TakeTurn(text: string, start: nat, line: nat, lineStart: nat) returns (turn: Turn)
    requires start < |text| && TokenAt(text, start).Some?
    ensures turn == TurnAt(text, start, line, lineStart)
  {
    match TokenAt(text, start).value {
      case Newline => turn := Turn([], [], start + 1, line + 1, start + 1);
      case RawString(open) =>
        var back := RunStartLoop(text, start);
        if text[back..start] in RAW_PREFIXES {
          var end := RawStop(text, start, open);
          turn := Turn([], [Span(back, end, true)], end, line + Count(text, start, end),
                       LineStart(text, start, end, lineStart));
        } else {
          turn := Turn([], [], start + 1, line, lineStart);
        }
      case Quote(quote) =>
        if quote == '\'' && DigitSeparator(text, start) {
          turn := Turn([], [], start + 1, line, lineStart);
        } else {
          var end := SkipQuotedLoop(text, start + 1, quote);
          turn := Turn([], [Span(start, end, true)], end, line, lineStart);
        }
      case LineOpens => turn := TurnAt(text, start, line, lineStart);
      case BlockOpens => turn := TurnAt(text, start, line, lineStart);
    }
  }

  lemma AddAdds(sofar: Scanned, turn: Turn, rest: Scanned)
    ensures Add(sofar.comments, sofar.spans, Add(turn.comments, turn.spans, rest))
            == Add(sofar.comments + turn.comments, sofar.spans + turn.spans, rest)
  {
    assert sofar.comments + (turn.comments + rest.comments) == (sofar.comments + turn.comments) + rest.comments;
    assert sofar.spans + (turn.spans + rest.spans) == (sofar.spans + turn.spans) + rest.spans;
  }

  lemma ScanStep(text: string, pos: nat, line: nat, lineStart: nat, start: nat, turn: Turn)
    requires pos < |text| && start == NextToken(text, pos)
    requires start < |text| ==> turn == TurnAt(text, start, line, lineStart)
    ensures ScanFrom(text, pos, line, lineStart)
            == if start == |text| then Scanned([], [])
               else Add(turn.comments, turn.spans, ScanFrom(text, turn.pos, turn.line, turn.lineStart))
  {
  }

  /** `scan`. */
  method Scan(text: string) returns (comments: seq<Comment>, spans: seq<Span>)
    ensures Scanned(comments, spans) == ScanFrom(text, 0, 1, 0)
  {
    comments, spans := [], [];
    var pos: nat, line: nat, lineStart: nat := 0, 1, 0;
    while pos < |text|
      invariant Add(comments, spans, ScanFrom(text, pos, line, lineStart)) == ScanFrom(text, 0, 1, 0)
      decreases |text| - pos
    {
      var start := NextToken(text, pos);
      if start == |text| {
        assert comments + [] == comments && spans + [] == spans;
        return;
      }
      var turn := TakeTurn(text, start, line, lineStart);
      ScanStep(text, pos, line, lineStart, start, turn);
      AddAdds(Scanned(comments, spans), turn, ScanFrom(text, turn.pos, turn.line, turn.lineStart));
      comments, spans := comments + turn.comments, spans + turn.spans;
      pos, line, lineStart := turn.pos, turn.line, turn.lineStart;
    }
    assert comments + [] == comments && spans + [] == spans;
  }
}
