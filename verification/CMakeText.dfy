/** The reader of CMake text (platform_gate.py:50-132): commands, arguments and comments, with their lines, each loop
    proved against what it reads. */
module CMakeText {
  import opened Options
  import opened Strings

  datatype Command = Command(name: string, args: seq<string>, line: nat)

  /* ---------------------------------------------------------------- strings */

  predicate Letter(c: char) {
    'a' <= c <= 'z' || 'A' <= c <= 'Z' || c == '_'
  }

  predicate WordChar(c: char) {
    Letter(c) || '0' <= c <= '9'
  }

  predicate IsIdentifier(s: string) {
    s != "" && Letter(s[0]) && forall c <- s :: WordChar(c)
  }

  function Lower(s: string): string {
    seq(|s|, i requires 0 <= i < |s| => if 'A' <= s[i] <= 'Z' then (s[i] as int + 32) as char else s[i])
  }

  /** `s.replace(part, with)`. */
  function Replace(s: string, part: string, with: string): string
    requires part != ""
  {
    if |s| < |part| then s
    else if s[..|part|] == part then with + Replace(s[|part|..], part, with)
    else [s[0]] + Replace(s[1..], part, with)
  }

  predicate Contains(s: string, part: string)
    requires part != ""
  {
    |s| >= |part| && (s[..|part|] == part || Contains(s[1..], part))
  }

  /** `s.strip('"')`. */
  function Unquote(s: string): string {
    if s != "" && s[0] == '"' then Unquote(s[1..])
    else if s != "" && s[|s| - 1] == '"' then Unquote(s[..|s| - 1])
    else s
  }

  /** `text.find("\n", pos)`, with the length of the text for "nowhere". */
  function LineEnd(text: string, pos: nat): (n: nat)
    requires pos <= |text|
    ensures pos <= n <= |text|
    decreases |text| - pos
  {
    if pos == |text| || text[pos] == '\n' then pos else LineEnd(text, pos + 1)
  }

  /* ---------------------------------------------------------------- lexical items */

  predicate Blank(c: char) {
    c == ' ' || c == '\t' || c == '\r' || c == '\n'
  }

  /** What ends an unquoted argument. */
  predicate Special(c: char) {
    Blank(c) || c == '(' || c == ')' || c == '"' || c == '#'
  }

  function EqualsEnd(text: string, pos: nat): (end: nat)
    requires pos <= |text|
    ensures pos <= end <= |text|
    decreases |text| - pos
  {
    if pos < |text| && text[pos] == '=' then EqualsEnd(text, pos + 1) else pos
  }

  /** Where the opening bracket at `pos` ends, if there is one. */
  function BracketOpen(text: string, pos: nat): (end: Option<nat>)
    ensures end.Some? ==> pos + 2 <= end.value <= |text|
  {
    if pos >= |text| || text[pos] != '[' then None
    else
      var end := EqualsEnd(text, pos + 1);
      if end < |text| && text[end] == '[' then Some(end + 1) else None
  }

  function Equals(n: nat): (s: string)
    ensures |s| == n
  {
    if n == 0 then "" else "=" + Equals(n - 1)
  }

  function Closing(level: nat): (s: string)
    ensures |s| == level + 2
  {
    "]" + Equals(level) + "]"
  }

  /** Where the bracket at `pos` stops: past its closing, and past the end of the text when it has none. */
  function BracketEnd(text: string, pos: nat): (stop: Option<nat>)
    ensures stop.Some? ==> stop.value > pos
  {
    var open := BracketOpen(text, pos);
    if open.None? then None
    else
      var level := open.value - pos - 2;
      Some(Find(text, open.value, Closing(level)) + level + 2)
  }

  /** Where the comment at `pos` stops. */
  function CommentEnd(text: string, pos: nat): (stop: nat)
    requires pos < |text| && text[pos] == '#'
    ensures stop > pos
  {
    var bracket := BracketEnd(text, pos + 1);
    if bracket.Some? then bracket.value else LineEnd(text, pos + 1)
  }

  /** The first quote from `pos` on that no backslash steps over. */
  function QuotedEnd(text: string, pos: nat): (end: nat)
    ensures end >= pos
    decreases |text| - pos
  {
    if pos >= |text| || text[pos] == '"' then pos else QuotedEnd(text, pos + if text[pos] == '\\' then 2 else 1)
  }

  function UnquotedEnd(text: string, pos: nat): (end: nat)
    ensures end >= pos && (pos < |text| && !Special(text[pos]) ==> end > pos)
    decreases |text| - pos
  {
    if pos >= |text| || Special(text[pos]) then pos else UnquotedEnd(text, pos + if text[pos] == '\\' then 2 else 1)
  }

  function IdentifierEnd(text: string, pos: nat): (end: nat)
    requires pos <= |text|
    ensures pos <= end <= |text|
    decreases |text| - pos
  {
    if pos < |text| && WordChar(text[pos]) then IdentifierEnd(text, pos + 1) else pos
  }

  function PadEnd(text: string, pos: nat): (end: nat)
    requires pos <= |text|
    ensures pos <= end <= |text|
    decreases |text| - pos
  {
    if pos < |text| && (text[pos] == ' ' || text[pos] == '\t') then PadEnd(text, pos + 1) else pos
  }

  /* ---------------------------------------------------------------- the reader */

  /** What an argument list has at some position: something skipped, an argument, or the closing parenthesis. It goes
      up to `stop`, and the newlines up to `counted` count. */
  datatype Item = Skip(stop: nat) | Arg(stop: nat, counted: nat, depth: nat) | Close

  function ItemAt(text: string, pos: nat, depth: nat): (item: Item)
    requires pos < |text|
    ensures !item.Close? ==> item.stop > pos
  {
    var c := text[pos];
    if Blank(c) then Skip(pos + 1)
    else if c == '#' then Skip(CommentEnd(text, pos))
    else if c == '(' then Arg(pos + 1, pos, depth + 1)
    else if c == ')' then if depth == 0 then Close else Arg(pos + 1, pos, depth - 1)
    else if c == '"' then
      var end := QuotedEnd(text, pos + 1);
      Arg(end + 1, end, depth)
    else
      var bracket := BracketEnd(text, pos);
      if bracket.Some? then Arg(bracket.value, bracket.value, depth) else Arg(UnquotedEnd(text, pos), pos, depth)
  }

  datatype Args = Args(args: seq<string>, pos: nat, line: nat)

  function Cons(arg: string, more: Args): Args {
    Args([arg] + more.args, more.pos, more.line)
  }

  /** `_parse_args` from position `pos` on. */
  function ArgsFrom(text: string, pos: nat, depth: nat, line: nat): (r: Args)
    ensures r.pos >= pos
    decreases |text| - pos
  {
    if pos >= |text| then Args([], pos, line)
    else
      match ItemAt(text, pos, depth)
      case Skip(stop) => ArgsFrom(text, stop, depth, line + Count(text, pos, stop))
      case Arg(stop, counted, deeper) =>
        Cons(Slice(text, pos, stop), ArgsFrom(text, stop, deeper, line + Count(text, pos, counted)))
      case Close => Args([], pos + 1, line)
  }

  /** What the text has at some position: something passed over, or a command and where it stops. */
  datatype Piece = Passed(stop: nat, line: nat) | Read(command: Command, stop: nat, line: nat)

  function PieceAt(text: string, pos: nat, line: nat): (piece: Piece)
    requires pos < |text|
    ensures piece.stop > pos
  {
    if text[pos] == '#' then Passed(CommentEnd(text, pos), line + Count(text, pos, CommentEnd(text, pos)))
    else if !Letter(text[pos]) then Passed(pos + 1, if text[pos] == '\n' then line + 1 else line)
    else
      var end := IdentifierEnd(text, pos);
      var open := PadEnd(text, end);
      if open == |text| || text[open] != '(' then Passed(end, line)
      else
        var read := ArgsFrom(text, open + 1, 0, line);
        Read(Command(Lower(text[pos..end]), read.args, line), read.pos, read.line)
  }

  /** `parse_commands` from position `pos` on. */
  function CommandsFrom(text: string, pos: nat, line: nat): seq<Command>
    decreases |text| - pos
  {
    if pos >= |text| then []
    else
      match PieceAt(text, pos, line)
      case Passed(stop, next) => CommandsFrom(text, stop, next)
      case Read(command, stop, next) => [command] + CommandsFrom(text, stop, next)
  }

  /** The commands of a text. */
  function Commands(text: string): seq<Command> {
    CommandsFrom(text, 0, 1)
  }

  /* ---------------------------------------------------------------- the loops */

  method FindQuotedEnd(text: string, pos: nat) returns (end: nat)
    ensures end == QuotedEnd(text, pos)
  {
    end := pos;
    while end < |text| && text[end] != '"'
      invariant QuotedEnd(text, end) == QuotedEnd(text, pos)
      decreases |text| - end
    {
      end := end + if text[end] == '\\' then 2 else 1;
    }
  }

  method FindUnquotedEnd(text: string, pos: nat) returns (end: nat)
    ensures end == UnquotedEnd(text, pos)
  {
    end := pos;
    while end < |text| && !Special(text[end])
      invariant UnquotedEnd(text, end) == UnquotedEnd(text, pos)
      decreases |text| - end
    {
      end := end + if text[end] == '\\' then 2 else 1;
    }
  }

  /** What is read when `args` was already read. */
  function After(args: seq<string>, more: Args): Args {
    Args(args + more.args, more.pos, more.line)
  }

  lemma AfterCons(args: seq<string>, arg: string, more: Args)
    ensures After(args, Cons(arg, more)) == After(args + [arg], more)
  {
    assert args + ([arg] + more.args) == (args + [arg]) + more.args;
  }

  /** The branches of the loop of `_parse_args`. */
  method ReadItem(text: string, pos: nat, depth: nat) returns (item: Item)
    requires pos < |text|
    ensures item == ItemAt(text, pos, depth)
  {
    var c := text[pos];
    if Blank(c) {
      item := Skip(pos + 1);
    } else if c == '#' {
      item := Skip(CommentEnd(text, pos));
    } else if c == '(' {
      item := Arg(pos + 1, pos, depth + 1);
    } else if c == ')' {
      item := if depth == 0 then Close else Arg(pos + 1, pos, depth - 1);
    } else if c == '"' {
      var end := FindQuotedEnd(text, pos + 1);
      item := Arg(end + 1, end, depth);
    } else {
      var bracket := BracketEnd(text, pos);
      if bracket.Some? {
        item := Arg(bracket.value, bracket.value, depth);
      } else {
        var end := FindUnquotedEnd(text, pos);
        item := Arg(end, pos, depth);
      }
    }
  }

  /* One turn of each loop, by what it finds. */

  lemma ArgsSkip(text: string, pos: nat, depth: nat, line: nat, item: Item, next: nat)
    requires pos < |text| && item == ItemAt(text, pos, depth) && item.Skip?
    requires next == line + Count(text, pos, item.stop)
    ensures ArgsFrom(text, pos, depth, line) == ArgsFrom(text, item.stop, depth, next)
  {
  }

  lemma ArgsArg(args: seq<string>, text: string, pos: nat, depth: nat, line: nat, item: Item, arg: string, next: nat)
    requires pos < |text| && item == ItemAt(text, pos, depth) && item.Arg?
    requires arg == Slice(text, pos, item.stop) && next == line + Count(text, pos, item.counted)
    ensures After(args, ArgsFrom(text, pos, depth, line))
            == After(args + [arg], ArgsFrom(text, item.stop, item.depth, next))
  {
    AfterCons(args, arg, ArgsFrom(text, item.stop, item.depth, next));
  }

  lemma ArgsClose(args: seq<string>, text: string, pos: nat, depth: nat, line: nat, item: Item)
    requires pos < |text| && item == ItemAt(text, pos, depth) && item.Close?
    ensures After(args, ArgsFrom(text, pos, depth, line)) == Args(args, pos + 1, line)
  {
    assert args + [] == args;
  }

  lemma CommandsStep(text: string, pos: nat, line: nat, piece: Piece)
    requires pos < |text| && piece == PieceAt(text, pos, line)
    ensures CommandsFrom(text, pos, line)
            == (if piece.Read? then [piece.command] else []) + CommandsFrom(text, piece.stop, piece.line)
  {
  }

  /** `_parse_args`: the arguments from `start` on, the position past the closing parenthesis, the line there. */
  method ParseArgs(text: string, start: nat, startLine: nat) returns (args: seq<string>, pos: nat, line: nat)
    ensures Args(args, pos, line) == ArgsFrom(text, start, 0, startLine)
  {
    args, pos, line := [], start, startLine;
    var depth: nat := 0;
    while pos < |text|
      invariant After(args, ArgsFrom(text, pos, depth, line)) == ArgsFrom(text, start, 0, startLine)
      decreases |text| - pos
    {
      var item := ReadItem(text, pos, depth);
      if item.Close? {
        ArgsClose(args, text, pos, depth, line, item);
        return args, pos + 1, line;
      }
      if item.Skip? {
        var next := line + Count(text, pos, item.stop);
        ArgsSkip(text, pos, depth, line, item, next);
        line, pos := next, item.stop;
      } else {
        var arg, next := Slice(text, pos, item.stop), line + Count(text, pos, item.counted);
        ArgsArg(args, text, pos, depth, line, item, arg, next);
        args, depth, line, pos := args + [arg], item.depth, next, item.stop;
      }
    }
    assert args + [] == args;
  }

  /** From an identifier on: a command if a parenthesis follows it, and nothing otherwise. */
  method ReadCommand(text: string, pos: nat, line: nat) returns (piece: Piece)
    requires pos < |text| && Letter(text[pos])
    ensures piece == PieceAt(text, pos, line)
  {
    hide ArgsFrom, IdentifierEnd, CommentEnd, Lower;
    var end := IdentifierEnd(text, pos);
    var open := end;
    while open < |text| && (text[open] == ' ' || text[open] == '\t')
      invariant end <= open <= |text|
      invariant PadEnd(text, open) == PadEnd(text, end)
    {
      open := open + 1;
    }
    if open >= |text| || text[open] != '(' { return Passed(end, line); }
    var args, stop, next := ParseArgs(text, open + 1, line);
    piece := Read(Command(Lower(text[pos..end]), args, line), stop, next);
  }

  /** `parse_commands`. */
  method ParseCommands(text: string) returns (commands: seq<Command>)
    ensures commands == Commands(text)
  {
    commands := [];
    var pos: nat, line: nat := 0, 1;
    while pos < |text|
      invariant commands + CommandsFrom(text, pos, line) == Commands(text)
      decreases |text| - pos
    {
      var piece;
      if text[pos] == '#' {
        var stop := CommentEnd(text, pos);
        piece := Passed(stop, line + Count(text, pos, stop));
      } else if !Letter(text[pos]) {
        piece := Passed(pos + 1, if text[pos] == '\n' then line + 1 else line);
      } else {
        piece := ReadCommand(text, pos, line);
      }
      CommandsStep(text, pos, line, piece);
      if piece.Read? { commands := commands + [piece.command]; }
      pos, line := piece.stop, piece.line;
    }
    assert commands + [] == commands;
  }
}
