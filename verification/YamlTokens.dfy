/** How the YAML subset writes a scalar (codegen_common.py:63, 95-219): plain, single-quoted or double-quoted. The comment
    stripper, the flow splitter and the scalar reader agree on every such token, and read nothing else. */
module YamlTokens {
  import opened Options
  import opened Strings
  import opened YamlSubset

  /* ---------------------------------------------------------------- the spellings of a scalar */

  /** Python's `str.replace` of one character. */
  function Replace(s: string, c: char, with: string): string {
    if s == "" then "" else (if s[0] == c then with else [s[0]]) + Replace(s[1..], c, with)
  }

  /** `cpp_escape`. */
  function CppEscape(value: string): string {
    Replace(Replace(value, '\\', "\\\\"), '"', "\\\"")
  }

  function Quoted(value: string): string {
    "\"" + CppEscape(value) + "\""
  }

  datatype Style = Plain | Single | Double

  /** A scalar and how it is written. */
  datatype Spelling = Spelling(text: string, style: Style)

  function Spell(t: Spelling): string {
    match t.style
    case Plain => t.text
    case Single => "'" + t.text + "'"
    case Double => Quoted(t.text)
  }

  /** What a plain scalar may begin with, and what it may go on with. */
  predicate OpensPlain(c: char) {
    'A' <= c <= 'Z' || 'a' <= c <= 'z' || '0' <= c <= '9' || c == '_' || c == '.' || c == '/' || c == ':' || c == '='
    || c == '<' || c == '+' || c == '-'
  }

  predicate InPlain(c: char) {
    OpensPlain(c) || c == '>' || c == ' ' || c == '(' || c == ')' || c == '%'
  }

  /** A plain scalar is of the plain characters, does not begin as a folded scalar does, and ends in no blank; a
      single-quoted one holds no single quote; a double-quoted one holds anything. */
  predicate Spellable(t: Spelling) {
    match t.style
    case Plain =>
      t.text != "" && OpensPlain(t.text[0]) && t.text[|t.text| - 1] != ' ' && forall c <- t.text :: InPlain(c)
    case Single => '\'' !in t.text
    case Double => true
  }

  /* ---------------------------------------------------------------- escapes */

  /** `cpp_escape`, one character at a time. */
  function Escaped(s: string): string {
    if s == "" then ""
    else (if s[0] == '\\' then "\\\\" else if s[0] == '"' then "\\\"" else [s[0]]) + Escaped(s[1..])
  }

  lemma {:induction false} ReplaceConcat(a: string, b: string, c: char, with: string)
    ensures Replace(a + b, c, with) == Replace(a, c, with) + Replace(b, c, with)
  {
    if a == "" {
      assert a + b == b;
    } else {
      assert (a + b)[1..] == a[1..] + b;
      ReplaceConcat(a[1..], b, c, with);
    }
  }

  lemma {:induction false} EscapeIsEscaped(s: string)
    ensures CppEscape(s) == Escaped(s)
  {
    if s != "" {
      var first := if s[0] == '\\' then "\\\\" else [s[0]];
      ReplaceConcat(first, Replace(s[1..], '\\', "\\\\"), '"', "\\\"");
      EscapeIsEscaped(s[1..]);
      if s[0] == '\\' {
        assert Replace("\\\\", '"', "\\\"") == "\\\\" by {
          assert "\\\\"[1..] == "\\" && "\\"[1..] == "";
        }
      } else {
        assert [s[0]][1..] == "";
      }
    }
  }

  lemma {:induction false} UnescapedEscaped(s: string, line: nat)
    ensures Unescaped(Escaped(s), line) == Ok(s)
  {
    if s != "" {
      UnescapedEscaped(s[1..], line);
      var rest := Escaped(s[1..]);
      if s[0] == '\\' {
        assert Escaped(s) == "\\\\" + rest && ("\\\\" + rest)[2..] == rest && ("\\\\" + rest)[1..2] == "\\";
      } else if s[0] == '"' {
        assert Escaped(s) == "\\\"" + rest && ("\\\"" + rest)[2..] == rest && ("\\\"" + rest)[1..2] == "\"";
      } else {
        assert Escaped(s) == [s[0]] + rest && ([s[0]] + rest)[1..] == rest && ([s[0]] + rest)[..1] == [s[0]];
      }
      assert [s[0]] + s[1..] == s;
    }
  }

  /** One character of a scalar, escaped, in front of the rest of its quoted span. */
  lemma EscapedStep(s: string, rest: string)
    requires s != ""
    ensures var front := if s[0] == '\\' || s[0] == '"' then ['\\', s[0]] else [s[0]];
            var all := Escaped(s) + "\"" + rest;
            && Escaped(s) == front + Escaped(s[1..])
            && |all| >= |front| && all[..|front|] == front && all[|front|..] == Escaped(s[1..]) + "\"" + rest
  {
    var front := if s[0] == '\\' || s[0] == '"' then ['\\', s[0]] else [s[0]];
    assert Escaped(s) == front + Escaped(s[1..]);
    Regroup(front, Escaped(s[1..]), "\"", rest);
  }

  lemma Regroup(a: string, b: string, c: string, d: string)
    ensures var all := a + b + c + d; |all| >= |a| && all[..|a|] == a && all[|a|..] == b + c + d
  {
  }

  lemma {:induction false} KeptInside(s: string, rest: string, line: nat)
    ensures Kept(Escaped(s) + "\"" + rest, Some('"'), line) == Prepend(Escaped(s) + "\"", Kept(rest, None, line))
  {
    if s == "" {
      var all := Escaped(s) + "\"" + rest;
      assert all[..1] == "\"" && all[1..] == rest;
    } else {
      EscapedStep(s, rest);
      KeptInside(s[1..], rest, line);
      var front := if s[0] == '\\' || s[0] == '"' then ['\\', s[0]] else [s[0]];
      PrependBoth(front, Escaped(s[1..]) + "\"", Kept(rest, None, line));
      assert front + (Escaped(s[1..]) + "\"") == Escaped(s) + "\"";
    }
  }

  /** The comment stripper passes over a quoted scalar whole. */
  lemma KeptQuoted(s: string, rest: string, line: nat)
    ensures Kept(Quoted(s) + rest, None, line) == Prepend(Quoted(s), Kept(rest, None, line))
  {
    EscapeIsEscaped(s);
    var all := Quoted(s) + rest;
    assert all[..1] == "\"" && all[1..] == Escaped(s) + "\"" + rest;
    KeptInside(s, rest, line);
    PrependBoth("\"", Escaped(s) + "\"", Kept(rest, None, line));
    assert "\"" + (Escaped(s) + "\"") == Quoted(s);
  }

  /** Nothing in `s` opens a quote or a comment. */
  predicate Quiet(s: string) {
    forall i :: 0 <= i < |s| ==> s[i] != '\'' && s[i] != '"' && s[i] != '#'
  }

  lemma {:induction false} KeptQuiet(s: string, rest: string, line: nat)
    requires Quiet(s)
    ensures Kept(s + rest, None, line) == Prepend(s, Kept(rest, None, line))
  {
    if s == "" {
      assert s + rest == rest;
      PrependNone(Kept(rest, None, line));
    } else {
      assert (s + rest)[..1] == [s[0]] && (s + rest)[1..] == s[1..] + rest;
      KeptQuiet(s[1..], rest, line);
      PrependBoth([s[0]], s[1..], Kept(rest, None, line));
      assert [s[0]] + s[1..] == s;
    }
  }

  lemma {:induction false} PiecesInside(s: string, rest: string, line: nat)
    ensures Pieces(Escaped(s) + "\"" + rest, Some('"'), line) == PrependFirst(Escaped(s) + "\"", Pieces(rest, None, line))
  {
    if s == "" {
      var all := Escaped(s) + "\"" + rest;
      assert all[..1] == "\"" && all[1..] == rest;
    } else {
      EscapedStep(s, rest);
      PiecesInside(s[1..], rest, line);
      var front := if s[0] == '\\' || s[0] == '"' then ['\\', s[0]] else [s[0]];
      PrependTwice(front, Escaped(s[1..]) + "\"", Pieces(rest, None, line));
      assert front + (Escaped(s[1..]) + "\"") == Escaped(s) + "\"";
    }
  }

  /** The flow splitter passes over a quoted scalar whole. */
  lemma PiecesQuoted(s: string, rest: string, line: nat)
    ensures Pieces(Quoted(s) + rest, None, line) == PrependFirst(Quoted(s), Pieces(rest, None, line))
  {
    EscapeIsEscaped(s);
    var all := Quoted(s) + rest;
    assert all[..1] == "\"" && all[1..] == Escaped(s) + "\"" + rest;
    PiecesInside(s, rest, line);
    PrependTwice("\"", Escaped(s) + "\"", Pieces(rest, None, line));
    assert "\"" + (Escaped(s) + "\"") == Quoted(s);
  }

  lemma QuotedTrim(s: string)
    ensures Trim(Quoted(s)) && |Quoted(s)| >= 2 && Quoted(s)[0] == '"' && Quoted(s)[|Quoted(s)| - 1] == '"'
    ensures Quoted(s)[1..|Quoted(s)| - 1] == CppEscape(s)
  {
  }

  /* ---------------------------------------------------------------- every spelling is read, and nothing else */

  /** The characters of the source's pattern, one by one. */
  lemma PlainClasses(c: char)
    ensures PlainFirst(c) <==> OpensPlain(c) || c == '>'
    ensures PlainNext(c) <==> InPlain(c)
    ensures InPlain(c) ==> c != ',' && c != '\'' && c != '"' && c != '#' && !Bracket(c) && (Space(c) ==> c == ' ')
    ensures OpensPlain(c) ==> !Space(c) && c !in "[{" && c !in "&*!|>"
  {
  }

  /** Stripped text is a plain scalar exactly when it can be spelled plain. */
  lemma PlainIs(text: string)
    requires Trim(text)
    ensures PlainScalar(text) && text[0] != '>' <==> Spellable(Spelling(text, Plain))
  {
    hide PlainFirst, PlainNext, OpensPlain, InPlain;
    forall i | 0 <= i < |text|
      ensures (PlainFirst(text[i]) <==> OpensPlain(text[i]) || text[i] == '>') && (PlainNext(text[i]) <==> InPlain(text[i]))
      ensures OpensPlain(text[i]) ==> InPlain(text[i]) && text[i] != '>'
    {
      PlainClasses(text[i]);
      if OpensPlain(text[i]) { OpensWithin(text[i]); }
    }
    if Spellable(Spelling(text, Plain)) {
      forall i | 0 <= i < |text| ensures InPlain(text[i]) { assert text[i] in text; }
    }
  }

  lemma OpensWithin(c: char)
    requires OpensPlain(c)
    ensures InPlain(c) && c != '>'
  {
  }

  lemma SpelledTrim(t: Spelling)
    requires Spellable(t)
    ensures Trim(Spell(t))
    ensures t.style.Plain? ==> Quiet(t.text) && forall c <- t.text :: c != ',' && !Bracket(c)
  {
    if t.style.Plain? {
      forall c | c in t.text ensures c != '\'' && c != '"' && c != '#' && c != ',' && !Bracket(c) && (Space(c) ==> c == ' ') {
        PlainClasses(c);
      }
      assert forall i :: 0 <= i < |t.text| ==> t.text[i] in t.text;
      PlainClasses(t.text[0]);
    } else if t.style.Double? {
      QuotedTrim(t.text);
    }
  }

  lemma {:induction false} KeptSingle(s: string, rest: string, line: nat)
    requires '\'' !in s
    ensures Kept(s + ("'" + rest), Some('\''), line) == Prepend(s + "'", Kept(rest, None, line))
  {
    var all := s + ("'" + rest);
    if s == "" {
      assert all == "'" + rest && all[..1] == "'" && all[1..] == rest && s + "'" == "'";
    } else {
      assert s[0] in s && forall c <- s[1..] :: c in s;
      assert all[..1] == [s[0]] && all[1..] == s[1..] + ("'" + rest);
      KeptSingle(s[1..], rest, line);
      PrependBoth([s[0]], s[1..] + "'", Kept(rest, None, line));
      assert [s[0]] + (s[1..] + "'") == s + "'";
    }
  }

  lemma KeptSingleQuoted(s: string, rest: string, line: nat)
    requires '\'' !in s
    ensures Kept("'" + s + "'" + rest, None, line) == Prepend("'" + s + "'", Kept(rest, None, line))
  {
    var inner := s + ("'" + rest);
    assert ("'" + inner)[..1] == "'" && ("'" + inner)[1..] == inner;
    assert Kept("'" + inner, None, line) == Prepend("'", Kept(inner, Some('\''), line));
    hide Kept;
    KeptSingle(s, rest, line);
    PrependBoth("'", s + "'", Kept(rest, None, line));
    assert "'" + (s + "'") == "'" + s + "'" && "'" + s + "'" + rest == "'" + inner;
  }

  /** THE COMMENT STRIPPER passes over every spelling whole. */
  lemma KeptSpelled(t: Spelling, rest: string, line: nat)
    requires Spellable(t)
    ensures Kept(Spell(t) + rest, None, line) == Prepend(Spell(t), Kept(rest, None, line))
  {
    match t.style
    case Plain =>
      SpelledTrim(t);
      KeptQuiet(t.text, rest, line);
    case Single => KeptSingleQuoted(t.text, rest, line);
    case Double => KeptQuoted(t.text, rest, line);
  }

  lemma {:induction false} PiecesSingle(s: string, rest: string, line: nat)
    requires '\'' !in s
    ensures Pieces(s + ("'" + rest), Some('\''), line) == PrependFirst(s + "'", Pieces(rest, None, line))
  {
    var all := s + ("'" + rest);
    if s == "" {
      assert all == "'" + rest && all[..1] == "'" && all[1..] == rest && s + "'" == "'";
    } else {
      assert s[0] in s && forall c <- s[1..] :: c in s;
      assert all[..1] == [s[0]] && all[1..] == s[1..] + ("'" + rest);
      PiecesSingle(s[1..], rest, line);
      PrependTwice([s[0]], s[1..] + "'", Pieces(rest, None, line));
      assert [s[0]] + (s[1..] + "'") == s + "'";
    }
  }

  lemma {:induction false} PiecesQuiet(s: string, rest: string, line: nat)
    requires Quiet(s) && ',' !in s
    ensures Pieces(s + rest, None, line) == PrependFirst(s, Pieces(rest, None, line))
  {
    if s == "" {
      assert s + rest == rest;
      PrependNothing(Pieces(rest, None, line));
    } else {
      assert s[0] in s && forall c <- s[1..] :: c in s;
      assert (s + rest)[..1] == [s[0]] && (s + rest)[1..] == s[1..] + rest;
      PiecesQuiet(s[1..], rest, line);
      PrependTwice([s[0]], s[1..], Pieces(rest, None, line));
      assert [s[0]] + s[1..] == s;
    }
  }

  lemma PrependNothing(rest: Parsed<seq<string>>)
    ensures PrependFirst("", rest) == rest
  {
    if rest.Ok? && rest.value != [] {
      assert "" + rest.value[0] == rest.value[0] && [rest.value[0]] + rest.value[1..] == rest.value;
    }
  }

  lemma PiecesSingleQuoted(s: string, rest: string, line: nat)
    requires '\'' !in s
    ensures Pieces("'" + s + "'" + rest, None, line) == PrependFirst("'" + s + "'", Pieces(rest, None, line))
  {
    var inner := s + ("'" + rest);
    assert ("'" + inner)[..1] == "'" && ("'" + inner)[1..] == inner;
    assert Pieces("'" + inner, None, line) == PrependFirst("'", Pieces(inner, Some('\''), line));
    hide Pieces;
    PiecesSingle(s, rest, line);
    PrependTwice("'", s + "'", Pieces(rest, None, line));
    assert "'" + (s + "'") == "'" + s + "'" && "'" + s + "'" + rest == "'" + inner;
  }

  /** THE FLOW SPLITTER passes over every spelling whole. */
  lemma PiecesSpelled(t: Spelling, rest: string, line: nat)
    requires Spellable(t)
    ensures Pieces(Spell(t) + rest, None, line) == PrependFirst(Spell(t), Pieces(rest, None, line))
  {
    match t.style
    case Plain =>
      SpelledTrim(t);
      PiecesQuiet(t.text, rest, line);
    case Single => PiecesSingleQuoted(t.text, rest, line);
    case Double => PiecesQuoted(t.text, rest, line);
  }

  lemma {:induction false} StripBlanks(before: string, s: string, after: string)
    requires Trim(s) && (forall c <- before :: Space(c)) && forall c <- after :: Space(c)
    ensures Strip(before + (s + after)) == s
    decreases |before| + |after|
  {
    var all := before + (s + after);
    if after != "" {
      var last := |after| - 1;
      assert after[last] in after && forall c <- after[..last] :: c in after;
      assert all[|all| - 1] == after[last] && all[..|all| - 1] == before + (s + after[..last]);
      StripBlanks(before, s, after[..last]);
    } else {
      assert s + after == s && all == before + s;
      assert all[|all| - 1] == s[|s| - 1];
      LstripBlanks(before, s);
    }
  }

  lemma {:induction false} LstripBlanks(before: string, s: string)
    requires Trim(s) && forall c <- before :: Space(c)
    ensures Lstrip(before + s) == s
  {
    if before == "" {
      assert before + s == s;
    } else {
      assert before[0] in before && forall c <- before[1..] :: c in before;
      assert (before + s)[1..] == before[1..] + s;
      LstripBlanks(before[1..], s);
    }
  }

  /** A SCALAR READS AS ITSELF, however it is spelled and whatever blanks are around it. */
  lemma SpelledReads(before: string, t: Spelling, after: string, line: nat)
    requires Spellable(t) && (forall c <- before :: Space(c)) && forall c <- after :: Space(c)
    ensures ScalarOf(before + (Spell(t) + after), line) == Ok(t.text)
  {
    hide ScalarOf, Spell, Spellable, Strip;
    SpelledTrim(t);
    StripBlanks(before, Spell(t), after);
    TokenReads(before + (Spell(t) + after), t, line);
  }

  /** The reader of a stripped token. */
  lemma TokenReads(raw: string, t: Spelling, line: nat)
    requires Spellable(t) && Strip(raw) == Spell(t)
    ensures ScalarOf(raw, line) == Ok(t.text)
  {
    hide Strip, Unescaped, PlainScalar, CppEscape;
    match t.style
    case Plain =>
      SpelledTrim(t);
      PlainIs(t.text);
      PlainClasses(t.text[0]);
    case Single =>
      assert Spell(t)[1..|Spell(t)| - 1] == t.text;
    case Double =>
      QuotedTrim(t.text);
      EscapeIsEscaped(t.text);
      UnescapedEscaped(t.text, line);
  }

  lemma {:induction false} EscapedUnescaped(body: string, line: nat)
    requires Unescaped(body, line).Ok?
    ensures body == Escaped(Unescaped(body, line).value)
    decreases |body|
  {
    if body != "" {
      var text := Unescaped(body, line).value;
      if body[0] == '\\' {
        EscapedUnescaped(body[2..], line);
        assert text[0] == body[1] && text[1..] == Unescaped(body[2..], line).value;
        assert body == [body[0], body[1]] + body[2..];
      } else {
        EscapedUnescaped(body[1..], line);
        assert text[0] == body[0] && text[1..] == Unescaped(body[1..], line).value;
        assert body == [body[0]] + body[1..];
      }
    }
  }

  /** WHAT IS READ AT ALL: the reader accepts a text, stripped, exactly when it is a spelling of some scalar, and then
      reads that scalar; every other text is refused. */
  lemma ReadIffSpelled(raw: string, line: nat, text: string)
    ensures ScalarOf(raw, line) == Ok(text) <==> exists t :: Spellable(t) && t.text == text && Strip(raw) == Spell(t)
  {
    if ScalarOf(raw, line) == Ok(text) {
      var t := SpellingOf(raw, line);
      assert Spellable(t) && t.text == text && Strip(raw) == Spell(t);
    }
    if t :| Spellable(t) && t.text == text && Strip(raw) == Spell(t) {
      TokenReads(raw, t, line);
    }
  }

  lemma SpellingOf(raw: string, line: nat) returns (t: Spelling)
    requires ScalarOf(raw, line).Ok?
    ensures Spellable(t) && t.text == ScalarOf(raw, line).value && Strip(raw) == Spell(t)
  {
    hide Strip, Unescaped, PlainScalar, Quoted, Spellable, Trim;
    var token := Strip(raw);
    if token != "" && token[0] == '"' {
      DoubleIs(token, line);
      t := Spelling(Unescaped(token[1..|token| - 1], line).value, Double);
    } else if token != "" && token[0] == '\'' {
      SingleIs(token);
      t := Spelling(token[1..|token| - 1], Single);
    } else {
      t := Spelling(token, Plain);
      StrippedIsTrim(raw);
      PlainTrims(token);
      PlainIs(token);
    }
  }

  lemma DoubleIs(token: string, line: nat)
    requires |token| >= 2 && token[0] == '"' && token[|token| - 1] == '"' && Unescaped(token[1..|token| - 1], line).Ok?
    ensures Quoted(Unescaped(token[1..|token| - 1], line).value) == token
    ensures Spellable(Spelling(Unescaped(token[1..|token| - 1], line).value, Double))
  {
    hide Unescaped, CppEscape;
    var body := token[1..|token| - 1];
    EscapedUnescaped(body, line);
    EscapeIsEscaped(Unescaped(body, line).value);
    assert token == "\"" + body + "\"";
  }

  lemma SingleIs(token: string)
    requires |token| >= 2 && token[0] == '\'' && token[|token| - 1] == '\'' && '\'' !in token[1..|token| - 1]
    ensures "'" + token[1..|token| - 1] + "'" == token && Spellable(Spelling(token[1..|token| - 1], Single))
  {
  }

  lemma PlainTrims(token: string)
    requires PlainScalar(token) && (token == "" || Trim(token))
    ensures Trim(token)
  {
  }

  lemma {:induction false} StrippedIsTrim(raw: string)
    ensures Strip(raw) == "" || Trim(Strip(raw))
  {
    RstripEnds(raw);
    LstripStarts(Rstrip(raw));
  }

  lemma {:induction false} RstripEnds(s: string)
    ensures Rstrip(s) == "" || !Space(Rstrip(s)[|Rstrip(s)| - 1])
  {
    if s != "" && Space(s[|s| - 1]) { RstripEnds(s[..|s| - 1]); }
  }

  lemma {:induction false} LstripStarts(s: string)
    ensures Lstrip(s) == "" || (!Space(Lstrip(s)[0]) && Lstrip(s)[|Lstrip(s)| - 1] == s[|s| - 1])
  {
    if s != "" && Space(s[0]) { LstripStarts(s[1..]); }
  }
}
