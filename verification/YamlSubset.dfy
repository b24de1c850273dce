/** The strict YAML subset (codegen_common.py): quoting, comments, flow sequences, and the indentation-structured
    block parser. Each loop of the source is a method here, proved against the function its name specifies. */
module YamlSubset {
  import opened Options
  import opened Strings

  datatype Fault =
    | NonAscii | Tab | DanglingEscape | Unterminated | MalformedQuoted | UnsupportedEscape | QuoteInside
    | FlowInScalar | YamlFeature | NotPlain | FlowNotClosed | NestedFlow | EmptyBlock | ExpectedKey | BadKey
    | DuplicateKey | NoValue | MixedKinds | BareItem | BadIndent | EmptyDocument | TopIndent | Outside | TopNotMapping

  /** `fail` names a line, or none (0). */
  datatype Parsed<+T> = Ok(value: T) | Fail(line: nat, fault: Fault)

  /* ---------------------------------------------------------------- Python's string operations */

  function Lstrip(s: string): string {
    if s != "" && Space(s[0]) then Lstrip(s[1..]) else s
  }

  function Rstrip(s: string): string {
    if s != "" && Space(s[|s| - 1]) then Rstrip(s[..|s| - 1]) else s
  }

  function Strip(s: string): string {
    Lstrip(Rstrip(s))
  }

  /** Nothing for `strip` to take from either end. */
  predicate Trim(s: string) {
    s != "" && !Space(s[0]) && !Space(s[|s| - 1])
  }

  lemma StripTrim(s: string)
    requires Trim(s)
    ensures Rstrip(s) == s && Lstrip(s) == s && Strip(s) == s
  {
  }

  lemma {:induction false} StripPadded(pad: string, s: string)
    requires Trim(s) && forall c <- pad :: c == ' '
    ensures Rstrip(pad + s) == pad + s && Lstrip(pad + s) == s && Strip(pad + s) == s
  {
    assert (pad + s)[|pad + s| - 1] == s[|s| - 1];
    if pad != "" {
      assert pad[0] in pad && forall c <- pad[1..] :: c in pad;
      StripPadded(pad[1..], s);
      assert (pad + s)[1..] == pad[1..] + s;
    } else {
      assert pad + s == s;
    }
  }

  /** `text.split("\n")`. */
  function SplitLines(text: string): seq<string> {
    if text == "" then [""]
    else if text[0] == '\n' then [""] + SplitLines(text[1..])
    else
      var rest := SplitLines(text[1..]);
      [[text[0]] + rest[0]] + rest[1..]
  }

  /** The part of a line's text before its first colon, and after it. */
  function BeforeColon(text: string): string {
    if text == "" || text[0] == ':' then "" else [text[0]] + BeforeColon(text[1..])
  }

  function AfterColon(text: string): string {
    if text == "" then "" else if text[0] == ':' then text[1..] else AfterColon(text[1..])
  }

  predicate Letter(c: char) {
    'A' <= c <= 'Z' || 'a' <= c <= 'z'
  }

  predicate Digit(c: char) {
    '0' <= c <= '9'
  }

  predicate PlainFirst(c: char) {
    Letter(c) || Digit(c) || c in "_./:>=<+-"
  }

  predicate PlainNext(c: char) {
    PlainFirst(c) || c in " ()%"
  }

  /** `_PLAIN_SCALAR.fullmatch`. */
  predicate PlainScalar(token: string) {
    token != "" && PlainFirst(token[0]) && forall i :: 1 <= i < |token| ==> PlainNext(token[i])
  }

  /** `_KEY.fullmatch`. */
  predicate LegalKey(key: string) {
    key != "" && (Letter(key[0]) || key[0] == '_')
    && forall i :: 1 <= i < |key| ==> Letter(key[i]) || Digit(key[i]) || key[i] == '_'
  }

  /* ---------------------------------------------------------------- quoted spans: the comment stripper */

  function Prepend(front: string, rest: Parsed<string>): Parsed<string> {
    if rest.Ok? then Ok(front + rest.value) else rest
  }

  lemma PrependNone(rest: Parsed<string>)
    ensures Prepend("", rest) == rest
  {
    if rest.Ok? { assert "" + rest.value == rest.value; }
  }

  lemma PrependBoth(a: string, b: string, rest: Parsed<string>)
    ensures Prepend(a, Prepend(b, rest)) == Prepend(a + b, rest)
  {
    if rest.Ok? { assert a + (b + rest.value) == a + b + rest.value; }
  }

  /** What `_strip_comment` keeps of the rest of a line, `quote` the quotation it is inside. */
  function Kept(s: string, quote: Option<char>, line: nat): Parsed<string>
    decreases |s|
  {
    if s == "" then (if quote.Some? then Fail(line, Unterminated) else Ok(""))
    else if quote.Some? then
      if s[0] == '\\' && quote.value == '"' then
        (if |s| < 2 then Fail(line, DanglingEscape) else Prepend(s[..2], Kept(s[2..], quote, line)))
      else Prepend(s[..1], Kept(s[1..], if s[0] == quote.value then None else quote, line))
    else if s[0] == '\'' || s[0] == '"' then Prepend(s[..1], Kept(s[1..], Some(s[0]), line))
    else if s[0] == '#' then Ok("")
    else Prepend(s[..1], Kept(s[1..], None, line))
  }

  function Stripped(s: string, line: nat): Parsed<string> {
    var kept := Kept(s, None, line);
    if kept.Ok? then Ok(Rstrip(kept.value)) else kept
  }

  /** `_strip_comment`. */
  method StripComment(s: string, line: nat) returns (result: Parsed<string>)
    ensures result == Stripped(s, line)
  {
    var out: string, quote: Option<char>, index := "", None, 0;
    assert s[0..] == s;
    PrependNone(Kept(s, None, line));
    while index < |s|
      invariant 0 <= index <= |s|
      invariant Kept(s, None, line) == Prepend(out, Kept(s[index..], quote, line))
      decreases |s| - index
    {
      var ch := s[index];
      ghost var rest := s[index..];
      if quote.Some? {
        if ch == '\\' && quote.value == '"' {
          if index + 1 >= |s| { return Fail(line, DanglingEscape); }
          assert rest[2..] == s[index + 2..] && rest[..2] == [ch, s[index + 1]];
          PrependBoth(out, [ch, s[index + 1]], Kept(s[index + 2..], quote, line));
          out := out + [ch, s[index + 1]];
          index := index + 2;
          continue;
        }
        assert rest[1..] == s[index + 1..] && rest[..1] == [ch];
        if ch == quote.value { quote := None; }
        PrependBoth(out, [ch], Kept(s[index + 1..], quote, line));
        out := out + [ch];
        index := index + 1;
        continue;
      }
      assert rest[1..] == s[index + 1..] && rest[..1] == [ch];
      if ch == '\'' || ch == '"' {
        quote := Some(ch);
        PrependBoth(out, [ch], Kept(s[index + 1..], quote, line));
        out := out + [ch];
        index := index + 1;
        continue;
      }
      if ch == '#' { assert out + "" == out; return Ok(Rstrip(out)); }
      PrependBoth(out, [ch], Kept(s[index + 1..], None, line));
      out := out + [ch];
      index := index + 1;
    }
    if quote.Some? { return Fail(line, Unterminated); }
    assert out + "" == out;
    result := Ok(Rstrip(out));
  }

  /* ---------------------------------------------------------------- scalars */

  /** The body of a double-quoted scalar, unescaped. */
  function Unescaped(body: string, line: nat): Parsed<string>
    decreases |body|
  {
    if body == "" then Ok("")
    else if body[0] == '\\' then
      if |body| < 2 then Fail(line, DanglingEscape)
      else if body[1] != '"' && body[1] != '\\' then Fail(line, UnsupportedEscape)
      else Prepend(body[1..2], Unescaped(body[2..], line))
    else if body[0] == '"' then Fail(line, QuoteInside)
    else Prepend(body[..1], Unescaped(body[1..], line))
  }

  function ScalarOf(raw: string, line: nat): Parsed<string> {
    var token := Strip(raw);
    if token != "" && token[0] == '"' then
      if token[|token| - 1] != '"' || |token| < 2 then Fail(line, MalformedQuoted)
      else Unescaped(token[1..|token| - 1], line)
    else if token != "" && token[0] == '\'' then
      if token[|token| - 1] != '\'' || |token| < 2 then Fail(line, MalformedQuoted)
      else if '\'' in token[1..|token| - 1] then Fail(line, QuoteInside)
      else Ok(token[1..|token| - 1])
    else if token != "" && token[0] in "[{" then Fail(line, FlowInScalar)
    else if token != "" && token[0] in "&*!|>" then Fail(line, YamlFeature)
    else if !PlainScalar(token) then Fail(line, NotPlain)
    else Ok(token)
  }

  /** `parse_scalar`. */
  method ParseScalar(raw: string, line: nat) returns (result: Parsed<string>)
    ensures result == ScalarOf(raw, line)
  {
    var token := Strip(raw);
    if token != "" && token[0] == '"' {
      if token[|token| - 1] != '"' || |token| < 2 { return Fail(line, MalformedQuoted); }
      var body := token[1..|token| - 1];
      var out, index := "", 0;
      assert body[0..] == body;
      PrependNone(Unescaped(body, line));
      while index < |body|
        invariant 0 <= index <= |body|
        invariant Unescaped(body, line) == Prepend(out, Unescaped(body[index..], line))
        decreases |body| - index
      {
        var ch := body[index];
        var rest := body[index..];
        if ch == '\\' {
          if index + 1 >= |body| { return Fail(line, DanglingEscape); }
          var escaped := body[index + 1];
          if escaped != '"' && escaped != '\\' { return Fail(line, UnsupportedEscape); }
          assert rest[2..] == body[index + 2..] && rest[1..2] == [escaped];
          PrependBoth(out, [escaped], Unescaped(body[index + 2..], line));
          out := out + [escaped];
          index := index + 2;
          continue;
        }
        if ch == '"' { return Fail(line, QuoteInside); }
        assert rest[1..] == body[index + 1..] && rest[..1] == [ch];
        PrependBoth(out, [ch], Unescaped(body[index + 1..], line));
        out := out + [ch];
        index := index + 1;
      }
      assert out + "" == out;
      return Ok(out);
    }
    if token != "" && token[0] == '\'' {
      if token[|token| - 1] != '\'' || |token| < 2 { return Fail(line, MalformedQuoted); }
      var body := token[1..|token| - 1];
      if '\'' in body { return Fail(line, QuoteInside); }
      return Ok(body);
    }
    if token != "" && token[0] in "[{" { return Fail(line, FlowInScalar); }
    if token != "" && token[0] in "&*!|>" { return Fail(line, YamlFeature); }
    if !PlainScalar(token) { return Fail(line, NotPlain); }
    result := Ok(token);
  }

  /* ---------------------------------------------------------------- flow sequences */

  function PrependFirst(front: string, rest: Parsed<seq<string>>): Parsed<seq<string>> {
    if rest.Ok? && rest.value != [] then Ok([front + rest.value[0]] + rest.value[1..]) else rest
  }

  /** The pieces of the rest of a flow body, split on the commas outside quotes. */
  function Pieces(s: string, quote: Option<char>, line: nat): (r: Parsed<seq<string>>)
    ensures r.Ok? ==> r.value != []
    decreases |s|
  {
    if s == "" then (if quote.Some? then Fail(line, Unterminated) else Ok([""]))
    else if quote.Some? then
      if s[0] == '\\' && quote.value == '"' then
        (if |s| < 2 then Fail(line, DanglingEscape) else PrependFirst(s[..2], Pieces(s[2..], quote, line)))
      else PrependFirst(s[..1], Pieces(s[1..], if s[0] == quote.value then None else quote, line))
    else if s[0] == '\'' || s[0] == '"' then PrependFirst(s[..1], Pieces(s[1..], Some(s[0]), line))
    else if s[0] == ',' then
      var rest := Pieces(s[1..], None, line);
      if rest.Ok? then Ok([""] + rest.value) else rest
    else PrependFirst(s[..1], Pieces(s[1..], None, line))
  }

  function Concat(front: seq<string>, rest: Parsed<seq<string>>): Parsed<seq<string>> {
    if rest.Ok? then Ok(front + rest.value) else rest
  }

  lemma ConcatNone(rest: Parsed<seq<string>>)
    ensures Concat([], rest) == rest
  {
    if rest.Ok? { assert [] + rest.value == rest.value; }
  }

  lemma ConcatBoth(a: seq<string>, b: seq<string>, rest: Parsed<seq<string>>)
    ensures Concat(a, Concat(b, rest)) == Concat(a + b, rest)
  {
    if rest.Ok? { assert a + (b + rest.value) == a + b + rest.value; }
  }

  /** `_split_flow_items`. */
  method SplitFlowItems(s: string, line: nat) returns (result: Parsed<seq<string>>)
    ensures result == Pieces(s, None, line)
  {
    var items: seq<string>, current: string, quote: Option<char>, index := [], "", None, 0;
    assert s[0..] == s;
    PiecesStart(Pieces(s, None, line));
    while index < |s|
      invariant 0 <= index <= |s|
      invariant Pieces(s, None, line) == Concat(items, PrependFirst(current, Pieces(s[index..], quote, line)))
      decreases |s| - index
    {
      var ch := s[index];
      var rest := s[index..];
      if quote.Some? {
        if ch == '\\' && quote.value == '"' {
          if index + 1 >= |s| { return Fail(line, DanglingEscape); }
          assert rest[2..] == s[index + 2..] && rest[..2] == [ch] + [s[index + 1]];
          PrependTwice(current, [ch] + [s[index + 1]], Pieces(s[index + 2..], quote, line));
          current := current + ([ch] + [s[index + 1]]);
          index := index + 2;
          continue;
        }
        assert rest[1..] == s[index + 1..] && rest[..1] == [ch];
        if ch == quote.value { quote := None; }
        PrependTwice(current, [ch], Pieces(s[index + 1..], quote, line));
        current := current + [ch];
        index := index + 1;
        continue;
      }
      assert rest[1..] == s[index + 1..] && rest[..1] == [ch];
      if ch == '\'' || ch == '"' {
        quote := Some(ch);
        PrependTwice(current, [ch], Pieces(s[index + 1..], quote, line));
        current := current + [ch];
        index := index + 1;
        continue;
      }
      if ch == ',' {
        PieceEnds(items, current, Pieces(s[index + 1..], None, line));
        items := items + [current];
        current := "";
        index := index + 1;
        continue;
      }
      PrependTwice(current, [ch], Pieces(s[index + 1..], None, line));
      current := current + [ch];
      index := index + 1;
    }
    if quote.Some? { return Fail(line, Unterminated); }
    assert current + "" == current && [current] + [""][1..] == [current];
    result := Ok(items + [current]);
  }

  lemma PrependTwice(a: string, b: string, rest: Parsed<seq<string>>)
    requires rest.Ok? ==> rest.value != []
    ensures PrependFirst(a, PrependFirst(b, rest)) == PrependFirst(a + b, rest)
  {
    if rest.Ok? { assert a + (b + rest.value[0]) == a + b + rest.value[0]; }
  }

  lemma PiecesStart(rest: Parsed<seq<string>>)
    requires rest.Ok? ==> rest.value != []
    ensures PrependFirst("", rest) == rest && Concat([], PrependFirst("", rest)) == rest
  {
    if rest.Ok? {
      assert "" + rest.value[0] == rest.value[0];
      assert [rest.value[0]] + rest.value[1..] == rest.value;
      assert [] + rest.value == rest.value;
    }
  }

  lemma PieceEnds(items: seq<string>, current: string, rest: Parsed<seq<string>>)
    requires rest.Ok? ==> rest.value != []
    ensures Concat(items, PrependFirst(current, if rest.Ok? then Ok([""] + rest.value) else rest))
            == Concat(items + [current], PrependFirst("", rest))
  {
    if rest.Ok? {
      assert current + "" == current;
      assert ([""] + rest.value)[1..] == rest.value;
      assert items + ([current] + rest.value) == items + [current] + rest.value;
      PiecesStart(rest);
    }
  }

  predicate Bracket(c: char) {
    c in "[]{}"
  }

  /** One item of a flow sequence. */
  function FlowItem(raw: string, line: nat): Parsed<string> {
    var stripped := Strip(raw);
    if !(stripped != "" && stripped[0] in "'\"") && exists i :: 0 <= i < |stripped| && Bracket(stripped[i]) then
      Fail(line, NestedFlow)
    else ScalarOf(raw, line)
  }

  function FlowItems(pieces: seq<string>, line: nat): Parsed<seq<string>> {
    if pieces == [] then Ok([])
    else
      var first := FlowItem(pieces[0], line);
      if first.Fail? then Fail(first.line, first.fault)
      else Concat([first.value], FlowItems(pieces[1..], line))
  }

  function FlowOf(raw: string, line: nat): Parsed<seq<string>>
    requires Strip(raw) != "" && Strip(raw)[0] == '['
  {
    var body := Strip(raw);
    if body[|body| - 1] != ']' then Fail(line, FlowNotClosed)
    else
      var inner := Strip(body[1..|body| - 1]);
      if inner == "" then Ok([])
      else
        var pieces := Pieces(inner, None, line);
        if pieces.Ok? then FlowItems(pieces.value, line) else pieces
  }

  /** `_parse_flow_sequence`. */
  method ParseFlowSequence(raw: string, line: nat) returns (result: Parsed<seq<string>>)
    requires Strip(raw) != "" && Strip(raw)[0] == '['
    ensures result == FlowOf(raw, line)
  {
    var body := Strip(raw);
    if body[|body| - 1] != ']' { return Fail(line, FlowNotClosed); }
    var inner := Strip(body[1..|body| - 1]);
    if inner == "" { return Ok([]); }
    var pieces := SplitFlowItems(inner, line);
    if pieces.Fail? { return Fail(pieces.line, pieces.fault); }
    var items := [];
    assert pieces.value[0..] == pieces.value;
    ConcatNone(FlowItems(pieces.value, line));
    for i := 0 to |pieces.value|
      invariant FlowItems(pieces.value, line) == Concat(items, FlowItems(pieces.value[i..], line))
    {
      var raw := pieces.value[i];
      var stripped := Strip(raw);
      assert pieces.value[i..][1..] == pieces.value[i + 1..];
      if !(stripped != "" && stripped[0] in "'\"") && exists i :: 0 <= i < |stripped| && Bracket(stripped[i]) {
        return Fail(line, NestedFlow);
      }
      var scalar := ParseScalar(raw, line);
      if scalar.Fail? { return Fail(scalar.line, scalar.fault); }
      ConcatBoth(items, [scalar.value], FlowItems(pieces.value[i + 1..], line));
      items := items + [scalar.value];
    }
    assert items + [] == items;
    result := Ok(items);
  }

  /* ---------------------------------------------------------------- the line number only labels a failure */

  ghost predicate Alike<T(!new)>(a: Parsed<T>, b: Parsed<T>) {
    (a.Ok? <==> b.Ok?) && (a.Ok? ==> a.value == b.value)
  }

  lemma {:induction false} KeptAlike(s: string, quote: Option<char>, m: nat, n: nat)
    ensures Alike(Kept(s, quote, m), Kept(s, quote, n))
    decreases |s|
  {
    if s != "" {
      if quote.Some? {
        if s[0] == '\\' && quote.value == '"' {
          if |s| >= 2 { KeptAlike(s[2..], quote, m, n); }
        } else {
          KeptAlike(s[1..], if s[0] == quote.value then None else quote, m, n);
        }
      } else {
        KeptAlike(s[1..], if s[0] == '\'' || s[0] == '"' then Some(s[0]) else None, m, n);
      }
    }
  }

  lemma {:induction false} UnescapedAlike(body: string, m: nat, n: nat)
    ensures Alike(Unescaped(body, m), Unescaped(body, n))
    decreases |body|
  {
    if body != "" {
      if body[0] == '\\' { if |body| >= 2 { UnescapedAlike(body[2..], m, n); } }
      else { UnescapedAlike(body[1..], m, n); }
    }
  }

  lemma ScalarAlike(raw: string, m: nat, n: nat)
    ensures Alike(ScalarOf(raw, m), ScalarOf(raw, n))
  {
    var token := Strip(raw);
    if |token| >= 2 { UnescapedAlike(token[1..|token| - 1], m, n); }
  }

  lemma {:induction false} PiecesAlike(s: string, quote: Option<char>, m: nat, n: nat)
    ensures Alike(Pieces(s, quote, m), Pieces(s, quote, n))
    decreases |s|
  {
    if s != "" {
      if quote.Some? {
        if s[0] == '\\' && quote.value == '"' {
          if |s| >= 2 { PiecesAlike(s[2..], quote, m, n); }
        } else {
          PiecesAlike(s[1..], if s[0] == quote.value then None else quote, m, n);
        }
      } else {
        PiecesAlike(s[1..], if s[0] == '\'' || s[0] == '"' then Some(s[0]) else None, m, n);
      }
    }
  }

  lemma {:induction false} FlowItemsAlike(pieces: seq<string>, m: nat, n: nat)
    ensures Alike(FlowItems(pieces, m), FlowItems(pieces, n))
  {
    if pieces != [] {
      ScalarAlike(pieces[0], m, n);
      FlowItemsAlike(pieces[1..], m, n);
    }
  }

  lemma FlowAlike(raw: string, m: nat, n: nat)
    requires Strip(raw) != "" && Strip(raw)[0] == '['
    ensures Alike(FlowOf(raw, m), FlowOf(raw, n))
  {
    var body := Strip(raw);
    if body[|body| - 1] == ']' {
      var inner := Strip(body[1..|body| - 1]);
      PiecesAlike(inner, None, m, n);
      if Pieces(inner, None, m).Ok? { FlowItemsAlike(Pieces(inner, None, m).value, m, n); }
    }
  }
}
