/** The CMake reader reads back what is laid out: any list of commands, its names, arguments, blanks and comments written
    in any legal way, with the line each command is on (platform_gate.py:50-132). */
module CMakeLayout {
  import opened Options
  import opened Strings
  import opened CMakeText

  /* ---------------------------------------------------------------- layouts */

  datatype Gap = Space(c: char) | LineComment(text: string) | BlockComment(level: nat, text: string)

  datatype Token = Open | Shut | Plain(text: string) | Quoted(body: string) | Bracket(level: nat, body: string)

  datatype LaidArg = LaidArg(gap: seq<Gap>, token: Token)

  /** A command as written: what stands before it, its name, the pad before its parenthesis, its arguments, and what
      stands before the closing parenthesis. */
  datatype Laid = Laid(before: seq<Gap>, name: string, pad: string, args: seq<LaidArg>, tail: seq<Gap>)

  function Opening(level: nat): string {
    "[" + Equals(level) + "["
  }

  function PieceText(gap: Gap): string {
    match gap
    case Space(c) => [c]
    case LineComment(text) => "#" + text
    case BlockComment(level, text) => "#" + (Opening(level) + (text + Closing(level)))
  }

  function GapText(gaps: seq<Gap>): string {
    if gaps == [] then "" else PieceText(gaps[0]) + GapText(gaps[1..])
  }

  function TokenText(token: Token): string {
    match token
    case Open => "("
    case Shut => ")"
    case Plain(text) => text
    case Quoted(body) => "\"" + (body + "\"")
    case Bracket(level, body) => Opening(level) + (body + Closing(level))
  }

  function ArgsText(args: seq<LaidArg>, tail: seq<Gap>): string {
    if args == [] then GapText(tail) + ")"
    else GapText(args[0].gap) + (TokenText(args[0].token) + ArgsText(args[1..], tail))
  }

  function CommandText(laid: Laid): string {
    laid.name + (laid.pad + ("(" + ArgsText(laid.args, laid.tail)))
  }

  /** The whole text: the commands, then what stands after the last. */
  function Text(laid: seq<Laid>, end: seq<Gap>): string {
    if laid == [] then GapText(end)
    else GapText(laid[0].before) + (CommandText(laid[0]) + Text(laid[1..], end))
  }

  /* ---------------------------------------------------------------- what is legal */

  /** No closing of the level stands in the body, nor across its end. */
  predicate Encloses(level: nat, body: string) {
    Find(body + Closing(level), 0, Closing(level)) == |body|
  }

  predicate LegalGap(gap: Gap) {
    match gap
    case Space(c) => Blank(c)
    case LineComment(text) => '\n' !in text && BracketOpen(text, 0).None?
    case BlockComment(level, text) => Encloses(level, text)
  }

  /** A line comment goes to the end of its line. */
  predicate LegalGaps(gaps: seq<Gap>) {
    gaps == []
    || (LegalGap(gaps[0]) && LegalGaps(gaps[1..])
        && (gaps[0].LineComment? ==> |gaps| >= 2 && gaps[1] == Space('\n')))
  }

  /** Nothing that ends an unquoted argument but what a backslash steps over, and no newline at all. */
  predicate PlainBody(s: string) {
    s == ""
    || (s[0] == '\\' && |s| >= 2 && s[1] != '\n' && PlainBody(s[2..]))
    || (s[0] != '\\' && !Special(s[0]) && PlainBody(s[1..]))
  }

  predicate QuotedBody(s: string) {
    s == ""
    || (s[0] == '\\' && |s| >= 2 && QuotedBody(s[2..]))
    || (s[0] != '\\' && s[0] != '"' && QuotedBody(s[1..]))
  }

  predicate LegalToken(token: Token) {
    match token
    case Plain(text) => text != "" && PlainBody(text) && BracketOpen(text, 0).None?
    case Quoted(body) => QuotedBody(body)
    case Bracket(level, body) => Encloses(level, body)
    case _ => true
  }

  /** What may follow an unquoted argument at once. */
  predicate StartsSpecial(args: seq<LaidArg>) {
    args == [] || args[0].gap != [] || args[0].token.Open? || args[0].token.Shut? || args[0].token.Quoted?
  }

  /** Legal arguments whose parentheses balance, `depth` of them being open already. */
  predicate LegalArgs(args: seq<LaidArg>, depth: nat) {
    if args == [] then depth == 0
    else
      var token := args[0].token;
      LegalGaps(args[0].gap) && LegalToken(token) && (token.Plain? ==> StartsSpecial(args[1..]))
      && (token.Shut? ==> depth > 0)
      && LegalArgs(args[1..], if token.Open? then depth + 1 else if token.Shut? then depth - 1 else depth)
  }

  predicate LegalCommand(laid: Laid) {
    LegalGaps(laid.before) && IsIdentifier(laid.name) && (forall c <- laid.pad :: c == ' ' || c == '\t')
    && LegalArgs(laid.args, 0) && LegalGaps(laid.tail)
  }

  predicate Legal(laid: seq<Laid>) {
    forall command <- laid :: LegalCommand(command)
  }

  /* ---------------------------------------------------------------- what it should read as */

  function Newlines(s: string): nat {
    if s == "" then 0 else (if s[0] == '\n' then 1 else 0) + Newlines(s[1..])
  }

  lemma {:induction false} NewlinesJoin(a: string, b: string)
    ensures Newlines(a + b) == Newlines(a) + Newlines(b)
  {
    if a == "" {
      assert a + b == b;
    } else {
      assert (a + b)[0] == a[0] && (a + b)[1..] == a[1..] + b;
      NewlinesJoin(a[1..], b);
    }
  }

  function ArgTexts(args: seq<LaidArg>): seq<string> {
    if args == [] then [] else [TokenText(args[0].token)] + ArgTexts(args[1..])
  }

  function CommandsOf(laid: seq<Laid>, line: nat): seq<Command> {
    if laid == [] then []
    else
      var at := line + Newlines(GapText(laid[0].before));
      [Command(Lower(laid[0].name), ArgTexts(laid[0].args), at)]
      + CommandsOf(laid[1..], at + Newlines(CommandText(laid[0])))
  }

  /* ---------------------------------------------------------------- lexical items in place */

  lemma {:induction false} CountAt(text: string, pos: nat, part: string)
    requires At(text, pos, part)
    ensures Count(text, pos, pos + |part|) == Newlines(part)
    decreases |part|
  {
    if part != "" {
      AtChar(text, pos, part, 0);
      AtRest(text, pos, part, 1);
      CountAt(text, pos + 1, part[1..]);
    }
  }

  lemma {:induction false} EqualsEndAt(text: string, pos: nat, level: nat)
    requires At(text, pos, Equals(level)) && (pos + level < |text| ==> text[pos + level] != '=')
    ensures EqualsEnd(text, pos) == pos + level
    decreases level
  {
    if level > 0 {
      AtSplit(text, pos, "=", Equals(level - 1));
      AtChar(text, pos, "=", 0);
      EqualsEndAt(text, pos + 1, level - 1);
    }
  }

  lemma BracketOpenAt(text: string, pos: nat, level: nat)
    requires At(text, pos, Opening(level))
    ensures BracketOpen(text, pos) == Some(pos + level + 2)
  {
    assert Opening(level) == "[" + (Equals(level) + "[");
    AtSplit(text, pos, "[", Equals(level) + "[");
    AtSplit(text, pos + 1, Equals(level), "[");
    AtChar(text, pos, "[", 0);
    AtChar(text, pos + 1 + level, "[", 0);
    EqualsEndAt(text, pos + 1, level);
  }

  /** The run of equal signs in a part is the text's, up to the part's end. */
  lemma {:induction false} EqualsEndWithin(text: string, pos: nat, part: string, k: nat)
    requires At(text, pos, part) && k <= |part| && (pos + |part| < |text| ==> text[pos + |part|] != '=')
    ensures EqualsEnd(text, pos + k) == pos + EqualsEnd(part, k)
    decreases |part| - k
  {
    if k < |part| {
      AtChar(text, pos, part, k);
      if part[k] == '=' { EqualsEndWithin(text, pos, part, k + 1); }
    }
  }

  lemma NoBracketAt(text: string, pos: nat, part: string)
    requires At(text, pos, part) && BracketOpen(part, 0).None?
    requires pos + |part| < |text| ==> text[pos + |part|] != '=' && text[pos + |part|] != '['
    ensures BracketOpen(text, pos).None?
  {
    if part != "" {
      AtChar(text, pos, part, 0);
      if part[0] == '[' {
        EqualsEndWithin(text, pos, part, 1);
        var end := EqualsEnd(part, 1);
        if end < |part| { AtChar(text, pos, part, end); }
      }
    }
  }

  lemma {:induction false} FindWithin(text: string, pos: nat, whole: string, part: string, k: nat)
    requires At(text, pos, whole) && k <= |whole| && Find(whole, k, part) + |part| <= |whole| && part != ""
    ensures At(whole, Find(whole, k, part), part) && Find(text, pos + k, part) == pos + Find(whole, k, part)
    decreases |whole| - k
  {
    AtTrans(text, pos, whole, k, part);
    if !At(whole, k, part) { FindWithin(text, pos, whole, part, k + 1); }
  }

  lemma BracketEndAt(text: string, pos: nat, level: nat, body: string)
    requires At(text, pos, Opening(level) + (body + Closing(level))) && Encloses(level, body)
    ensures BracketEnd(text, pos) == Some(pos + |Opening(level) + (body + Closing(level))|)
  {
    AtSplit(text, pos, Opening(level), body + Closing(level));
    BracketOpenAt(text, pos, level);
    FindWithin(text, pos + level + 2, body + Closing(level), Closing(level), 0);
  }

  lemma {:induction false} LineEndAt(text: string, pos: nat, part: string)
    requires At(text, pos, part) && '\n' !in part && pos + |part| < |text| && text[pos + |part|] == '\n'
    ensures LineEnd(text, pos) == pos + |part|
    decreases |part|
  {
    if part != "" {
      AtChar(text, pos, part, 0);
      AtRest(text, pos, part, 1);
      assert part[0] in part && forall c <- part[1..] :: c in part;
      LineEndAt(text, pos + 1, part[1..]);
    }
  }

  lemma {:induction false} QuotedEndAt(text: string, pos: nat, body: string)
    requires At(text, pos, body + "\"") && QuotedBody(body)
    ensures QuotedEnd(text, pos) == pos + |body|
    decreases |body|
  {
    AtChar(text, pos, body + "\"", 0);
    if body != "" {
      var step := if body[0] == '\\' then 2 else 1;
      AtRest(text, pos, body + "\"", step);
      assert (body + "\"")[step..] == body[step..] + "\"";
      QuotedEndAt(text, pos + step, body[step..]);
    }
  }

  lemma {:induction false} UnquotedEndAt(text: string, pos: nat, part: string)
    requires At(text, pos, part) && PlainBody(part) && (pos + |part| < |text| ==> Special(text[pos + |part|]))
    ensures UnquotedEnd(text, pos) == pos + |part|
    decreases |part|
  {
    if part != "" {
      AtChar(text, pos, part, 0);
      var step := if part[0] == '\\' then 2 else 1;
      AtRest(text, pos, part, step);
      UnquotedEndAt(text, pos + step, part[step..]);
    }
  }

  lemma {:induction false} PlainHasNoNewline(part: string)
    requires PlainBody(part)
    ensures Newlines(part) == 0
    decreases |part|
  {
    if part != "" {
      if part[0] == '\\' {
        assert part[1..][0] == part[1] && part[1..][1..] == part[2..];
        PlainHasNoNewline(part[2..]);
      } else {
        PlainHasNoNewline(part[1..]);
      }
    }
  }

  lemma {:induction false} IdentifierEndAt(text: string, pos: nat, name: string)
    requires At(text, pos, name) && (forall c <- name :: WordChar(c))
    requires pos + |name| < |text| ==> !WordChar(text[pos + |name|])
    ensures IdentifierEnd(text, pos) == pos + |name|
    decreases |name|
  {
    if name != "" {
      AtChar(text, pos, name, 0);
      AtRest(text, pos, name, 1);
      assert name[0] in name && forall c <- name[1..] :: c in name;
      IdentifierEndAt(text, pos + 1, name[1..]);
    }
  }

  lemma {:induction false} PadEndAt(text: string, pos: nat, pad: string, open: nat)
    requires At(text, pos, pad) && (forall c <- pad :: c == ' ' || c == '\t') && open == pos + |pad|
    requires open < |text| && text[open] == '('
    ensures PadEnd(text, pos) == open
    decreases |pad|
  {
    if pad != "" {
      assert pad[0] in pad && forall c <- pad[1..] :: c in pad;
      PadEndAt(text, pos + 1, pad[1..], open);
    }
  }

  /** Three parts in a row. */
  lemma AtThree(text: string, pos: nat, a: string, b: string, c: string, p: nat, q: nat)
    requires At(text, pos, a + (b + c)) && p == pos + |a| && q == p + |b|
    ensures At(text, pos, a) && At(text, p, b) && At(text, q, c) && |a + (b + c)| == q - pos + |c|
  {
    AtSplit(text, pos, a, b + c);
    AtSplit(text, p, b, c);
  }

  /** Four parts in a row. */
  lemma AtFour(text: string, pos: nat, a: string, b: string, c: string, d: string, p: nat, q: nat, r: nat)
    requires At(text, pos, a + (b + (c + d)))
    requires p == pos + |a| && q == p + |b| && r == q + |c|
    ensures At(text, pos, a) && At(text, p, b) && At(text, q, c) && At(text, r, d)
    ensures |a + (b + (c + d))| == r - pos + |d|
  {
    AtSplit(text, pos, a, b + (c + d));
    AtSplit(text, p, b, c + d);
    AtSplit(text, q, c, d);
  }

  /* ---------------------------------------------------------------- gaps, arguments, commands in place */

  lemma CommentAt(text: string, pos: nat, gap: Gap)
    requires At(text, pos, PieceText(gap)) && LegalGap(gap) && !gap.Space?
    requires gap.LineComment? ==> pos + |PieceText(gap)| < |text| && text[pos + |PieceText(gap)|] == '\n'
    ensures text[pos] == '#' && CommentEnd(text, pos) == pos + |PieceText(gap)|
  {
    AtChar(text, pos, PieceText(gap), 0);
    match gap {
      case LineComment(line) =>
        AtSplit(text, pos, "#", line);
        NoBracketAt(text, pos + 1, line);
        LineEndAt(text, pos + 1, line);
      case BlockComment(level, body) =>
        AtSplit(text, pos, "#", Opening(level) + (body + Closing(level)));
        BracketEndAt(text, pos + 1, level, body);
    }
  }

  /** A gap piece is skipped between arguments and passed between commands. */
  lemma GapAt(text: string, pos: nat, gap: Gap, depth: nat, line: nat, stop: nat)
    requires At(text, pos, PieceText(gap)) && LegalGap(gap) && stop == pos + |PieceText(gap)|
    requires gap.LineComment? ==> stop < |text| && text[stop] == '\n'
    ensures pos < |text| && ItemAt(text, pos, depth) == Skip(stop)
    ensures PieceAt(text, pos, line) == Passed(stop, line + Newlines(PieceText(gap)))
  {
    AtChar(text, pos, PieceText(gap), 0);
    CountAt(text, pos, PieceText(gap));
    if gap.Space? {
      assert Newlines([gap.c]) == if gap.c == '\n' then 1 else 0 by { assert [gap.c][1..] == ""; }
    } else {
      CommentAt(text, pos, gap);
    }
  }

  lemma AfterComment(text: string, pos: nat, gaps: seq<Gap>)
    requires gaps != [] && LegalGaps(gaps) && At(text, pos, GapText(gaps[1..]))
    ensures gaps[0].LineComment? ==> pos < |text| && text[pos] == '\n'
  {
    if gaps[0].LineComment? {
      assert gaps[1..][0] == Space('\n');
      assert GapText(gaps[1..])[0] == '\n';
      AtChar(text, pos, GapText(gaps[1..]), 0);
    }
  }

  /* In what follows the positions and lines an item leads to are parameters, fixed by the requires. */

  lemma GapsOpen(gaps: seq<Gap>)
    requires gaps != [] && LegalGaps(gaps)
    ensures GapText(gaps) == PieceText(gaps[0]) + GapText(gaps[1..]) && LegalGap(gaps[0])
  {
  }

  lemma FirstGap(text: string, pos: nat, gaps: seq<Gap>, depth: nat, line: nat, stop: nat, next: nat)
    requires gaps != [] && At(text, pos, GapText(gaps)) && LegalGaps(gaps)
    requires stop == pos + |PieceText(gaps[0])| && next == line + Newlines(PieceText(gaps[0]))
    ensures At(text, stop, GapText(gaps[1..]))
    ensures ArgsFrom(text, pos, depth, line) == ArgsFrom(text, stop, depth, next)
    ensures CommandsFrom(text, pos, line) == CommandsFrom(text, stop, next)
  {
    hide At, ArgsFrom, CommandsFrom, PieceText, GapText, LegalGaps, LegalGap, PieceAt, ItemAt, Newlines, Count;
    GapsOpen(gaps);
    AtSplit(text, pos, PieceText(gaps[0]), GapText(gaps[1..]));
    AfterComment(text, stop, gaps);
    GapAt(text, pos, gaps[0], depth, line, stop);
    CountAt(text, pos, PieceText(gaps[0]));
    ArgsSkip(text, pos, depth, line, Skip(stop), next);
    CommandsStep(text, pos, line, Passed(stop, next));
  }

  lemma {:induction false} GapsRead(text: string, pos: nat, gaps: seq<Gap>, depth: nat, line: nat, end: nat, after: nat)
    requires At(text, pos, GapText(gaps)) && LegalGaps(gaps)
    requires end == pos + |GapText(gaps)| && after == line + Newlines(GapText(gaps))
    ensures ArgsFrom(text, pos, depth, line) == ArgsFrom(text, end, depth, after)
    ensures CommandsFrom(text, pos, line) == CommandsFrom(text, end, after)
    decreases |gaps|
  {
    if gaps != [] {
      var stop, next := pos + |PieceText(gaps[0])|, line + Newlines(PieceText(gaps[0]));
      FirstGap(text, pos, gaps, depth, line, stop, next);
      NewlinesJoin(PieceText(gaps[0]), GapText(gaps[1..]));
      GapsRead(text, stop, gaps[1..], depth, next, end, after);
    }
  }

  lemma SliceAt(text: string, pos: nat, part: string)
    requires At(text, pos, part)
    ensures Slice(text, pos, pos + |part|) == part
  {
    AtSlice(text, pos, part);
  }

  lemma QuotedTokenAt(text: string, pos: nat, body: string)
    requires At(text, pos, "\"" + (body + "\"")) && LegalToken(Quoted(body))
    ensures QuotedEnd(text, pos + 1) == pos + 1 + |body|
    ensures Count(text, pos, pos + 1 + |body|) == Newlines("\"" + (body + "\""))
  {
    hide At, QuotedEnd;
    AtSplit(text, pos, "\"", body + "\"");
    QuotedEndAt(text, pos + 1, body);
    assert "\"" + (body + "\"") == ("\"" + body) + "\"";
    AtSplit(text, pos, "\"" + body, "\"");
    CountAt(text, pos, "\"" + body);
    NewlinesJoin("\"" + body, "\"");
  }

  /** An argument is read whole, with its newlines. */
  lemma TokenAt(text: string, pos: nat, token: Token, depth: nat, stop: nat)
    requires At(text, pos, TokenText(token)) && LegalToken(token) && stop == pos + |TokenText(token)|
    requires token.Plain? ==> stop < |text| && Special(text[stop])
    requires token.Shut? ==> depth > 0
    ensures pos < |text| && ItemAt(text, pos, depth).Arg? && ItemAt(text, pos, depth).stop == stop
    ensures ItemAt(text, pos, depth).depth == if token.Open? then depth + 1 else if token.Shut? then depth - 1 else depth
    ensures Count(text, pos, ItemAt(text, pos, depth).counted) == Newlines(TokenText(token))
  {
    hide At, QuotedEnd, UnquotedEnd, EqualsEnd, Find;
    AtChar(text, pos, TokenText(token), 0);
    match token {
      case Open =>
      case Shut =>
      case Plain(part) => PlainAt(text, pos, part);
      case Quoted(body) => QuotedTokenAt(text, pos, body);
      case Bracket(level, body) =>
        BracketEndAt(text, pos, level, body);
        CountAt(text, pos, TokenText(token));
    }
  }

  lemma PlainAt(text: string, pos: nat, part: string)
    requires At(text, pos, part) && LegalToken(Plain(part))
    requires pos + |part| < |text| && Special(text[pos + |part|])
    ensures !Special(text[pos]) && BracketEnd(text, pos).None? && UnquotedEnd(text, pos) == pos + |part|
    ensures Newlines(part) == 0
  {
    AtChar(text, pos, part, 0);
    NoBracketAt(text, pos, part);
    UnquotedEndAt(text, pos, part);
    PlainHasNoNewline(part);
  }

  /** After an unquoted argument comes something that ends it. */
  lemma EndsPlain(text: string, pos: nat, args: seq<LaidArg>, tail: seq<Gap>)
    requires At(text, pos, ArgsText(args, tail)) && StartsSpecial(args)
    requires if args == [] then LegalGaps(tail) else LegalGaps(args[0].gap)
    ensures pos < |text| && Special(text[pos])
  {
    var gaps := if args == [] then tail else args[0].gap;
    assert ArgsText(args, tail) != "";
    AtChar(text, pos, ArgsText(args, tail), 0);
    if gaps != [] {
      assert PieceText(gaps[0])[0] == GapText(gaps)[0];
      assert ArgsText(args, tail)[0] == GapText(gaps)[0];
    }
  }

  /** Where the parts of a non-empty argument list stand, and their newlines. */
  lemma ArgParts(text: string, pos: nat, args: seq<LaidArg>, tail: seq<Gap>, at: nat, stop: nat)
    requires args != [] && At(text, pos, ArgsText(args, tail))
    requires at == pos + |GapText(args[0].gap)| && stop == at + |TokenText(args[0].token)|
    ensures At(text, pos, GapText(args[0].gap)) && At(text, at, TokenText(args[0].token))
    ensures At(text, stop, ArgsText(args[1..], tail))
    ensures Newlines(ArgsText(args, tail)) == Newlines(GapText(args[0].gap)) + Newlines(TokenText(args[0].token))
                                              + Newlines(ArgsText(args[1..], tail))
    ensures |ArgsText(args, tail)| == stop - pos + |ArgsText(args[1..], tail)|
  {
    AtThree(text, pos, GapText(args[0].gap), TokenText(args[0].token), ArgsText(args[1..], tail), at, stop);
    NewlinesThree(GapText(args[0].gap), TokenText(args[0].token), ArgsText(args[1..], tail));
  }

  lemma NewlinesThree(a: string, b: string, c: string)
    ensures Newlines(a + (b + c)) == Newlines(a) + Newlines(b) + Newlines(c)
  {
    NewlinesJoin(a, b + c);
    NewlinesJoin(b, c);
  }

  /** THE ARGUMENTS: a legal argument list reads as its arguments, up to and past its closing parenthesis. */
  lemma {:induction false} ArgsRead(text: string, pos: nat, args: seq<LaidArg>, tail: seq<Gap>, depth: nat, line: nat,
                                    end: nat, after: nat)
    requires At(text, pos, ArgsText(args, tail)) && LegalArgs(args, depth) && LegalGaps(tail)
    requires end == pos + |ArgsText(args, tail)| && after == line + Newlines(ArgsText(args, tail))
    ensures ArgsFrom(text, pos, depth, line) == Args(ArgTexts(args), end, after)
    decreases |args|, 1
  {
    if args == [] {
      CloseRead(text, pos, tail, line, end, after);
    } else {
      var at, first := pos + |GapText(args[0].gap)|, line + Newlines(GapText(args[0].gap));
      var stop, next := at + |TokenText(args[0].token)|, first + Newlines(TokenText(args[0].token));
      ArgParts(text, pos, args, tail, at, stop);
      GapsRead(text, pos, args[0].gap, depth, line, at, first);
      TokenItem(text, at, args, tail, depth, stop);
      ArgRead(text, at, args, tail, depth, first, stop, next, end, after);
    }
  }

  lemma CloseRead(text: string, pos: nat, tail: seq<Gap>, line: nat, end: nat, after: nat)
    requires At(text, pos, GapText(tail) + ")") && LegalGaps(tail)
    requires end == pos + |GapText(tail) + ")"| && after == line + Newlines(GapText(tail) + ")")
    ensures ArgsFrom(text, pos, 0, line) == Args([], end, after)
  {
    hide At, ArgsFrom, GapText, LegalGaps;
    AtSplit(text, pos, GapText(tail), ")");
    NewlinesJoin(GapText(tail), ")");
    assert Newlines(")") == 0;
    GapsRead(text, pos, tail, 0, line, end - 1, after);
    AtChar(text, end - 1, ")", 0);
    CloseAt(text, end - 1, after);
  }

  lemma CloseAt(text: string, pos: nat, line: nat)
    requires pos < |text| && text[pos] == ')'
    ensures ArgsFrom(text, pos, 0, line) == Args([], pos + 1, line)
  {
  }

  lemma {:induction false} ArgRead(text: string, at: nat, args: seq<LaidArg>, tail: seq<Gap>, depth: nat, line: nat,
                                   stop: nat, next: nat, end: nat, after: nat)
    requires args != [] && LegalArgs(args, depth) && LegalGaps(tail) && at < |text|
    requires At(text, at, TokenText(args[0].token)) && stop == at + |TokenText(args[0].token)|
    requires At(text, stop, ArgsText(args[1..], tail)) && next == line + Newlines(TokenText(args[0].token))
    requires end == stop + |ArgsText(args[1..], tail)| && after == next + Newlines(ArgsText(args[1..], tail))
    ensures ArgsFrom(text, at, depth, line) == Args(ArgTexts(args), end, after)
    decreases |args|, 0
  {
    var token, item := args[0].token, ItemAt(text, at, depth);
    TokenItem(text, at, args, tail, depth, stop);
    ArgsRead(text, stop, args[1..], tail, item.depth, next, end, after);
    ReadOne(text, at, depth, line, item, TokenText(token), next);
  }

  lemma TokenItem(text: string, at: nat, args: seq<LaidArg>, tail: seq<Gap>, depth: nat, stop: nat)
    requires args != [] && LegalArgs(args, depth) && LegalGaps(tail)
    requires At(text, at, TokenText(args[0].token)) && stop == at + |TokenText(args[0].token)|
    requires At(text, stop, ArgsText(args[1..], tail))
    ensures at < |text|
    ensures var item := ItemAt(text, at, depth);
            item.Arg? && item.stop == stop && LegalArgs(args[1..], item.depth)
            && Slice(text, at, stop) == TokenText(args[0].token)
            && Count(text, at, item.counted) == Newlines(TokenText(args[0].token))
  {
    hide At, ItemAt, Slice, Count, Newlines, ArgsText, LegalGaps;
    var token := args[0].token;
    if token.Plain? { EndsPlain(text, stop, args[1..], tail); }
    TokenAt(text, at, token, depth, stop);
    SliceAt(text, at, TokenText(token));
  }

  lemma ReadOne(text: string, pos: nat, depth: nat, line: nat, item: Item, arg: string, next: nat)
    requires pos < |text| && item == ItemAt(text, pos, depth) && item.Arg?
    requires arg == Slice(text, pos, item.stop) && next == line + Count(text, pos, item.counted)
    ensures ArgsFrom(text, pos, depth, line) == Cons(arg, ArgsFrom(text, item.stop, item.depth, next))
  {
  }

  /** The name of a command, up to its parenthesis. */
  lemma NameRead(text: string, pos: nat, name: string, pad: string, stop: nat, open: nat)
    requires At(text, pos, name) && At(text, stop, pad) && At(text, open, "(") && IsIdentifier(name)
    requires (forall c <- pad :: c == ' ' || c == '\t') && stop == pos + |name| && open == stop + |pad|
    ensures pos < |text| && Letter(text[pos]) && IdentifierEnd(text, pos) == stop
    ensures PadEnd(text, stop) == open && open < |text| && text[open] == '('
  {
    AtChar(text, pos, name, 0);
    PadRead(text, stop, pad, open);
    IdentifierEndAt(text, pos, name);
  }

  lemma PadRead(text: string, stop: nat, pad: string, open: nat)
    requires At(text, stop, pad) && At(text, open, "(")
    requires (forall c <- pad :: c == ' ' || c == '\t') && open == stop + |pad|
    ensures PadEnd(text, stop) == open && stop <= open < |text| && text[open] == '(' && !WordChar(text[stop])
  {
    AtChar(text, open, "(", 0);
    PadEndAt(text, stop, pad, open);
    if pad != "" { assert pad[0] in pad; AtChar(text, stop, pad, 0); }
  }

  lemma CommandRead(text: string, pos: nat, laid: Laid, line: nat, end: nat, after: nat)
    requires At(text, pos, CommandText(laid)) && LegalCommand(laid)
    requires end == pos + |CommandText(laid)| && after == line + Newlines(CommandText(laid))
    ensures pos < |text|
    ensures PieceAt(text, pos, line) == Read(Command(Lower(laid.name), ArgTexts(laid.args), line), end, after)
  {
    hide At, PieceAt, ArgsFrom, LegalArgs, LegalGaps, CommandText, Lower, ArgTexts;
    var stop := pos + |laid.name|;
    var open := stop + |laid.pad|;
    NamePart(text, pos, laid, stop, open);
    ArgsRead(text, open + 1, laid.args, laid.tail, 0, line, end, after);
    PieceIs(text, pos, stop, open, laid.name, Args(ArgTexts(laid.args), end, after), line);
  }

  lemma NamePart(text: string, pos: nat, laid: Laid, stop: nat, open: nat)
    requires At(text, pos, CommandText(laid)) && LegalCommand(laid)
    requires stop == pos + |laid.name| && open == stop + |laid.pad|
    ensures At(text, pos, laid.name) && At(text, open + 1, ArgsText(laid.args, laid.tail))
    ensures pos < |text| && Letter(text[pos]) && IdentifierEnd(text, pos) == stop && text[pos..stop] == laid.name
    ensures PadEnd(text, stop) == open && open < |text| && text[open] == '('
    ensures |CommandText(laid)| == open + 1 - pos + |ArgsText(laid.args, laid.tail)|
    ensures Newlines(CommandText(laid)) == Newlines(ArgsText(laid.args, laid.tail))
  {
    hide At, LegalArgs, LegalGaps, ArgsText, Newlines, IdentifierEnd, PadEnd;
    AtFour(text, pos, laid.name, laid.pad, "(", ArgsText(laid.args, laid.tail), stop, open, open + 1);
    NameRead(text, pos, laid.name, laid.pad, stop, open);
    AtSlice(text, pos, laid.name);
    CommandLines(laid);
  }

  lemma PieceIs(text: string, pos: nat, stop: nat, open: nat, name: string, read: Args, line: nat)
    requires pos < |text| && Letter(text[pos]) && stop == IdentifierEnd(text, pos) && text[pos..stop] == name
    requires PadEnd(text, stop) == open
    requires open < |text| && text[open] == '(' && ArgsFrom(text, open + 1, 0, line) == read
    ensures PieceAt(text, pos, line) == Read(Command(Lower(name), read.args, line), read.pos, read.line)
  {
    hide ArgsFrom, PadEnd, IdentifierEnd, CommentEnd, Lower;
  }

  lemma CommandLines(laid: Laid)
    requires LegalCommand(laid)
    ensures Newlines(CommandText(laid)) == Newlines(ArgsText(laid.args, laid.tail))
  {
    var name, pad, args := laid.name, laid.pad, ArgsText(laid.args, laid.tail);
    NameHasNoNewline(name);
    NameHasNoNewline(pad);
    NewlinesJoin(name, pad + ("(" + args));
    NewlinesJoin(pad, "(" + args);
    NewlinesJoin("(", args);
    assert Newlines("(") == 0;
  }

  lemma {:induction false} NameHasNoNewline(name: string)
    requires forall c <- name :: c != '\n'
    ensures Newlines(name) == 0
  {
    if name != "" {
      assert name[0] in name && forall c <- name[1..] :: c in name;
      NameHasNoNewline(name[1..]);
    }
  }

  lemma CommandParts(text: string, pos: nat, laid: seq<Laid>, end: seq<Gap>, at: nat, stop: nat)
    requires laid != [] && At(text, pos, Text(laid, end))
    requires at == pos + |GapText(laid[0].before)| && stop == at + |CommandText(laid[0])|
    ensures At(text, pos, GapText(laid[0].before)) && At(text, at, CommandText(laid[0]))
    ensures At(text, stop, Text(laid[1..], end)) && |Text(laid, end)| == stop - pos + |Text(laid[1..], end)|
  {
    AtThree(text, pos, GapText(laid[0].before), CommandText(laid[0]), Text(laid[1..], end), at, stop);
  }

  lemma {:induction false} CommandsRead(text: string, pos: nat, laid: seq<Laid>, end: seq<Gap>, line: nat)
    requires At(text, pos, Text(laid, end)) && Legal(laid) && LegalGaps(end) && pos + |Text(laid, end)| == |text|
    ensures CommandsFrom(text, pos, line) == CommandsOf(laid, line)
    decreases |laid|, 1
  {
    if laid == [] {
      GapsRead(text, pos, end, 0, line, |text|, line + Newlines(GapText(end)));
    } else {
      assert laid[0] in laid;
      var before, command := GapText(laid[0].before), CommandText(laid[0]);
      var at, first := pos + |before|, line + Newlines(before);
      var stop, next := at + |command|, first + Newlines(command);
      CommandParts(text, pos, laid, end, at, stop);
      GapsRead(text, pos, laid[0].before, 0, line, at, first);
      CommandThenRest(text, at, laid, end, first, stop, next);
      CommandsOfFirst(laid, line, first, next);
    }
  }

  lemma CommandsOfFirst(laid: seq<Laid>, line: nat, first: nat, next: nat)
    requires laid != [] && first == line + Newlines(GapText(laid[0].before))
    requires next == first + Newlines(CommandText(laid[0]))
    ensures CommandsOf(laid, line)
            == [Command(Lower(laid[0].name), ArgTexts(laid[0].args), first)] + CommandsOf(laid[1..], next)
  {
    hide GapText, CommandText, Newlines, Lower, ArgTexts;
  }

  lemma {:induction false} CommandThenRest(text: string, at: nat, laid: seq<Laid>, end: seq<Gap>, line: nat, stop: nat,
                                           next: nat)
    requires laid != [] && Legal(laid) && LegalCommand(laid[0]) && LegalGaps(end)
    requires At(text, at, CommandText(laid[0])) && stop == at + |CommandText(laid[0])|
    requires At(text, stop, Text(laid[1..], end)) && next == line + Newlines(CommandText(laid[0]))
    requires stop + |Text(laid[1..], end)| == |text|
    ensures CommandsFrom(text, at, line)
            == [Command(Lower(laid[0].name), ArgTexts(laid[0].args), line)] + CommandsOf(laid[1..], next)
    decreases |laid|, 0
  {
    CommandRead(text, at, laid[0], line, stop, next);
    var piece := PieceAt(text, at, line);
    CommandsStep(text, at, line, piece);
    assert forall l <- laid[1..] :: l in laid;
    CommandsRead(text, stop, laid[1..], end, next);
  }

  /** THE READER READS BACK: whatever way a list of commands is legally laid out, the reader returns the commands, in
      order, each with its lower-cased name, its arguments and its line. */
  lemma LayoutReadsBack(laid: seq<Laid>, end: seq<Gap>)
    requires Legal(laid) && LegalGaps(end)
    ensures Commands(Text(laid, end)) == CommandsOf(laid, 1)
  {
    var text := Text(laid, end);
    AtWhole(text, 0);
    assert text[0..] == text;
    CommandsRead(text, 0, laid, end, 1);
  }

  /** A command's name is read without its case: no capital is left, and nothing but capitals changed, each to its own
      small letter. */
  lemma LowerIs(s: string, i: nat)
    requires i < |s|
    ensures |Lower(s)| == |s| && !('A' <= Lower(s)[i] <= 'Z')
    ensures if 'A' <= s[i] <= 'Z' then Lower(s)[i] - 'a' == s[i] - 'A' && 'a' <= Lower(s)[i] <= 'z' else Lower(s)[i] == s[i]
  {
  }
}
