/** What a command's argument names (platform_gate.py:30, 135-143, 174-182): the directory words and the variables that
    resolve are put in, every other use stays, and a file is named when nothing unresolved is left. */
module GateTokens {
  import opened Options
  import opened CMakeText
  import opened PlatformGate

  /** An argument written as text and uses of variables. */
  datatype Piece = Lit(text: string) | Use(name: string)

  function UseText(name: string): string {
    "${" + name + "}"
  }

  function PieceText(piece: Piece): string {
    match piece
    case Lit(text) => text
    case Use(name) => UseText(name)
  }

  function TokenText(pieces: seq<Piece>): string {
    if pieces == [] then "" else PieceText(pieces[0]) + TokenText(pieces[1..])
  }

  /** Text that opens no use, whatever follows it. */
  predicate Shut(text: string) {
    text == "" || ((text[0] == '$' ==> |text| > 1 && text[1] != '{') && Shut(text[1..]))
  }

  predicate PlainName(name: string) {
    '$' !in name && '}' !in name
  }

  predicate LegalPiece(piece: Piece) {
    match piece
    case Lit(text) => Shut(text)
    case Use(name) => PlainName(name)
  }

  predicate LegalPieces(pieces: seq<Piece>) {
    pieces == [] || (LegalPiece(pieces[0]) && LegalPieces(pieces[1..]))
  }

  const SOURCE_DIR := "CMAKE_CURRENT_SOURCE_DIR"
  const LIST_DIR := "CMAKE_CURRENT_LIST_DIR"

  /** What a name stands for: the file's own directory for the two directory words, a variable's value if it has one. */
  function Meaning(name: string, base: string, variables: Variables): Option<string> {
    if name == SOURCE_DIR || name == LIST_DIR then Some(base) else Lookup(variables, name)
  }

  function Resolved(piece: Piece, base: string, variables: Variables): Piece {
    if piece.Use? && Meaning(piece.name, base, variables).Some? then Lit(Meaning(piece.name, base, variables).value)
    else piece
  }

  function AllResolved(pieces: seq<Piece>, base: string, variables: Variables): seq<Piece> {
    if pieces == [] then [] else [Resolved(pieces[0], base, variables)] + AllResolved(pieces[1..], base, variables)
  }

  /* ---------------------------------------------------------------- one replacement */

  function Put(piece: Piece, name: string, value: string): Piece {
    if piece == Use(name) then Lit(value) else piece
  }

  function PutAll(pieces: seq<Piece>, name: string, value: string): seq<Piece> {
    if pieces == [] then [] else [Put(pieces[0], name, value)] + PutAll(pieces[1..], name, value)
  }

  lemma {:induction false} ShutIsKept(text: string, rest: string, name: string, value: string)
    requires Shut(text)
    ensures Replace(text + rest, UseText(name), value) == text + Replace(rest, UseText(name), value)
  {
    var part := UseText(name);
    if text == "" {
      assert text + rest == rest;
    } else {
      var all := text + rest;
      assert all[0] == text[0] && all[1..] == text[1..] + rest;
      assert part[0] == '$' && part[1] == '{';
      ShutIsKept(text[1..], rest, name, value);
      if |all| >= |part| {
        Unlike(all, part, if text[0] == '$' then 1 else 0);
      }
      StepOver(all, part, value);
      assert [text[0]] + (text[1..] + Replace(rest, part, value)) == text + Replace(rest, part, value);
    }
  }

  lemma Unlike(s: string, part: string, k: nat)
    requires k < |part| <= |s| && s[k] != part[k]
    ensures s[..|part|] != part
  {
    assert s[..|part|][k] == s[k];
  }

  /** Where the part does not stand, one character is kept. */
  lemma StepOver(s: string, part: string, value: string)
    requires part != "" && s != "" && !(|s| >= |part| && s[..|part|] == part)
    ensures Replace(s, part, value) == [s[0]] + Replace(s[1..], part, value)
  {
    if |s| < |part| { assert s == [s[0]] + s[1..]; }
  }

  lemma {:induction false} NoDollarIsShut(text: string)
    requires '$' !in text
    ensures Shut(text)
  {
    if text != "" {
      assert text[0] in text && forall c <- text[1..] :: c in text;
      NoDollarIsShut(text[1..]);
    }
  }

  /** A name ended by a brace is told from every other. */
  lemma {:induction false} NamesApart(a: string, b: string, rest: string)
    requires '}' !in a && '}' !in b
    ensures a + "}" <= b + ("}" + rest) ==> a == b
  {
    var part, whole := a + "}", b + ("}" + rest);
    assert part[0] == if a == "" then '}' else a[0];
    assert whole[0] == if b == "" then '}' else b[0];
    if a != "" && b != "" {
      assert a[0] in a && b[0] in b && (forall c <- a[1..] :: c in a) && forall c <- b[1..] :: c in b;
      assert part[1..] == a[1..] + "}" && whole[1..] == b[1..] + ("}" + rest);
      NamesApart(a[1..], b[1..], rest);
      assert part <= whole ==> part[1..] <= whole[1..];
    } else if a != "" {
      assert a[0] in a;
    } else if b != "" {
      assert b[0] in b;
    }
  }

  lemma PastOpening(part: string, whole: string)
    ensures "${" + part <= "${" + whole ==> part <= whole
  {
    assert ("${" + part)[2..] == part && ("${" + whole)[2..] == whole;
  }

  lemma OtherUseStands(other: string, rest: string, name: string)
    requires PlainName(other) && PlainName(name) && other != name
    ensures !(UseText(name) <= UseText(other) + rest)
  {
    NamesApart(name, other, rest);
    PastOpening(name + "}", other + ("}" + rest));
    assert UseText(name) == "${" + (name + "}");
    assert UseText(other) + rest == "${" + (other + ("}" + rest));
  }

  lemma OtherUseIsKept(other: string, rest: string, name: string, value: string)
    requires PlainName(other) && PlainName(name) && other != name
    ensures Replace(UseText(other) + rest, UseText(name), value) == UseText(other) + Replace(rest, UseText(name), value)
  {
    hide Replace, Shut, UseText;
    var all, part, tail := UseText(other) + rest, UseText(name), "{" + other + "}";
    OtherUseStands(other, rest, name);
    UseParts(other, rest, tail);
    UseParts(name, "", "{" + name + "}");
    NotPrefix(part, all);
    StepOver(all, part, value);
    NoDollarIsShut(tail);
    ShutIsKept(tail, rest, name, value);
    Onward("$", tail, Replace(rest, part, value));
  }

  lemma NotPrefix(part: string, all: string)
    requires !(part <= all)
    ensures !(|all| >= |part| && all[..|part|] == part)
  {
  }

  lemma Onward(a: string, b: string, c: string)
    ensures a + (b + c) == (a + b) + c
  {
  }

  lemma UseParts(name: string, rest: string, tail: string)
    requires tail == "{" + name + "}"
    ensures UseText(name) == "$" + tail
    ensures (UseText(name) + rest)[0] == '$' && (UseText(name) + rest)[1..] == tail + rest
  {
  }

  lemma UseIsReplaced(name: string, rest: string, value: string)
    ensures Replace(UseText(name) + rest, UseText(name), value) == value + Replace(rest, UseText(name), value)
  {
    var all, part := UseText(name) + rest, UseText(name);
    assert all[..|part|] == part && all[|part|..] == rest;
  }

  /** ONE REPLACEMENT puts a value in for every use of its name and changes nothing else. */
  lemma {:induction false} ReplaceIsPut(pieces: seq<Piece>, name: string, value: string)
    requires LegalPieces(pieces) && PlainName(name) && Shut(value)
    ensures Replace(TokenText(pieces), UseText(name), value) == TokenText(PutAll(pieces, name, value))
    ensures LegalPieces(PutAll(pieces, name, value))
  {
    if pieces != [] {
      var piece, rest := pieces[0], TokenText(pieces[1..]);
      ReplaceIsPut(pieces[1..], name, value);
      assert PutAll(pieces, name, value)[1..] == PutAll(pieces[1..], name, value);
      match piece {
        case Lit(text) => ShutIsKept(text, rest, name, value);
        case Use(other) =>
          if other == name { UseIsReplaced(name, rest, value); } else { OtherUseIsKept(other, rest, name, value); }
      }
    }
  }

  /* ---------------------------------------------------------------- all replacements */

  /** Each name once, none of them hiding a use, and values that open none. */
  predicate Orderly(variables: Variables) {
    variables == []
    || (!Declared(variables[1..], variables[0].0) && PlainName(variables[0].0)
        && (variables[0].1.Some? ==> Shut(variables[0].1.value)) && Orderly(variables[1..]))
  }

  function Found(piece: Piece, variables: Variables): Piece {
    if piece.Use? && Lookup(variables, piece.name).Some? then Lit(Lookup(variables, piece.name).value) else piece
  }

  function AllFound(pieces: seq<Piece>, variables: Variables): seq<Piece> {
    if pieces == [] then [] else [Found(pieces[0], variables)] + AllFound(pieces[1..], variables)
  }

  lemma {:induction false} NoneFound(pieces: seq<Piece>)
    ensures AllFound(pieces, []) == pieces
  {
    if pieces != [] {
      NoneFound(pieces[1..]);
      assert [pieces[0]] + pieces[1..] == pieces;
    }
  }

  lemma {:induction false} UndeclaredIsNone(variables: Variables, name: string)
    requires !Declared(variables, name)
    ensures Lookup(variables, name) == None
  {
    if variables != [] {
      DeclaredSplit(variables, name);
      UndeclaredIsNone(variables[1..], name);
    }
  }

  lemma {:induction false} FoundNext(pieces: seq<Piece>, variables: Variables)
    requires variables != [] && !Declared(variables[1..], variables[0].0)
    ensures AllFound(if variables[0].1.Some? then PutAll(pieces, variables[0].0, variables[0].1.value) else pieces, variables[1..])
            == AllFound(pieces, variables)
  {
    if pieces != [] {
      var (name, value) := variables[0];
      FoundNext(pieces[1..], variables);
      UndeclaredIsNone(variables[1..], name);
      if value.Some? {
        assert PutAll(pieces, name, value.value)[0] == Put(pieces[0], name, value.value);
        assert PutAll(pieces, name, value.value)[1..] == PutAll(pieces[1..], name, value.value);
      }
    }
  }

  lemma {:induction false} SubstituteIs(pieces: seq<Piece>, variables: Variables)
    requires LegalPieces(pieces) && Orderly(variables)
    ensures SubstituteAll(TokenText(pieces), variables) == TokenText(AllFound(pieces, variables))
    ensures LegalPieces(AllFound(pieces, variables))
    decreases |variables|
  {
    if variables == [] {
      NoneFound(pieces);
    } else {
      hide TokenText, Replace, PutAll, AllFound;
      var (name, value) := variables[0];
      FoundNext(pieces, variables);
      if value.Some? {
        ReplaceIsPut(pieces, name, value.value);
        SubstituteIs(PutAll(pieces, name, value.value), variables[1..]);
      } else {
        SubstituteIs(pieces, variables[1..]);
      }
    }
  }

  lemma {:induction false} PutThenFound(pieces: seq<Piece>, base: string, variables: Variables)
    ensures AllFound(PutAll(PutAll(pieces, SOURCE_DIR, base), LIST_DIR, base), variables)
            == AllResolved(pieces, base, variables)
  {
    if pieces != [] {
      hide Lookup;
      PutThenFound(pieces[1..], base, variables);
      var once := PutAll(pieces, SOURCE_DIR, base);
      assert once[0] == Put(pieces[0], SOURCE_DIR, base) && once[1..] == PutAll(pieces[1..], SOURCE_DIR, base);
      var twice := PutAll(once, LIST_DIR, base);
      assert twice[0] == Put(once[0], LIST_DIR, base) && twice[1..] == PutAll(once[1..], LIST_DIR, base);
    }
  }

  lemma SourceWord()
    ensures UseText(SOURCE_DIR) == "${CMAKE_CURRENT_SOURCE_DIR}"
  {
  }

  lemma ListWord()
    ensures UseText(LIST_DIR) == "${CMAKE_CURRENT_LIST_DIR}"
  {
  }

  lemma SourceIsPlain()
    ensures PlainName(SOURCE_DIR)
  {
  }

  lemma ListIsPlain()
    ensures PlainName(LIST_DIR)
  {
  }

  /** WHAT AN ARGUMENT EXPANDS TO: its text, the file's directory for either directory word, each resolving variable's
      value, and every other use as it was written. */
  lemma ExpandIsResolved(pieces: seq<Piece>, base: string, variables: Variables)
    requires LegalPieces(pieces) && Shut(base) && Orderly(variables)
    ensures Expand(TokenText(pieces), base, variables) == TokenText(AllResolved(pieces, base, variables))
    ensures LegalPieces(AllResolved(pieces, base, variables))
  {
    hide TokenText, Replace, PutAll, AllFound, AllResolved, SubstituteAll, UseText;
    SourceWord();
    ListWord();
    SourceIsPlain();
    ListIsPlain();
    ReplaceIsPut(pieces, SOURCE_DIR, base);
    var once := PutAll(pieces, SOURCE_DIR, base);
    ReplaceIsPut(once, LIST_DIR, base);
    SubstituteIs(PutAll(once, LIST_DIR, base), variables);
    PutThenFound(pieces, base, variables);
  }

  /* ---------------------------------------------------------------- the file an argument names */

  /** A variable or directory word is left as written. */
  predicate SomeLeft(pieces: seq<Piece>, base: string, variables: Variables) {
    pieces != []
    && ((pieces[0].Use? && Meaning(pieces[0].name, base, variables).None?) || SomeLeft(pieces[1..], base, variables))
  }

  lemma {:induction false} ContainsAfter(front: string, rest: string, part: string)
    requires part != "" && Contains(rest, part)
    ensures Contains(front + rest, part)
  {
    if front == "" {
      assert front + rest == rest;
    } else {
      assert (front + rest)[1..] == front[1..] + rest;
      ContainsAfter(front[1..], rest, part);
    }
  }

  /** Text that opens no use contains none, unless what follows does. */
  lemma {:induction false} ShutContains(text: string, rest: string)
    requires Shut(text)
    ensures Contains(text + rest, "${") <==> Contains(rest, "${")
  {
    if text == "" {
      assert text + rest == rest;
    } else {
      var all := text + rest;
      assert all[0] == text[0] && all[1..] == text[1..] + rest;
      ShutContains(text[1..], rest);
      if |all| >= 2 { Unlike(all, "${", if text[0] == '$' then 1 else 0); } else { assert rest == ""; }
    }
  }

  lemma UseContains(name: string, rest: string)
    ensures Contains(UseText(name) + rest, "${")
  {
    assert (UseText(name) + rest)[..2] == "${";
  }

  lemma {:induction false} LeftIsSeen(pieces: seq<Piece>, base: string, variables: Variables)
    requires LegalPieces(AllResolved(pieces, base, variables))
    ensures Contains(TokenText(AllResolved(pieces, base, variables)), "${") <==> SomeLeft(pieces, base, variables)
  {
    if pieces != [] {
      var resolved := AllResolved(pieces, base, variables);
      assert resolved[0] == Resolved(pieces[0], base, variables) && resolved[1..] == AllResolved(pieces[1..], base, variables);
      LeftIsSeen(pieces[1..], base, variables);
      var rest := TokenText(resolved[1..]);
      match resolved[0] {
        case Lit(text) => ShutContains(text, rest);
        case Use(name) => UseContains(name, rest);
      }
    }
  }

  lemma {:induction false} UnquoteIs(text: string, before: string, after: string)
    requires text != "" ==> text[0] != '"' && text[|text| - 1] != '"'
    requires (forall c <- before :: c == '"') && forall c <- after :: c == '"'
    ensures Unquote(before + (text + after)) == text
    decreases |before| + |after|
  {
    var all := before + (text + after);
    if before != "" {
      assert before[0] in before && forall c <- before[1..] :: c in before;
      assert all[0] == before[0] && all[1..] == before[1..] + (text + after);
      UnquoteIs(text, before[1..], after);
    } else if after != "" && text == "" {
      assert all == after && after[0] in after && forall c <- after[1..] :: c in after;
      assert all[1..] == "" + ("" + after[1..]);
      UnquoteIs(text, "", after[1..]);
    } else if after != "" {
      var last := |after| - 1;
      assert after[last] in after && forall c <- after[..last] :: c in after;
      assert all[0] == text[0] && all[|all| - 1] == after[last] && all[..|all| - 1] == "" + (text + after[..last]);
      UnquoteIs(text, "", after[..last]);
    } else {
      assert all == text;
    }
  }

  /** WHAT AN ARGUMENT NAMES: written as text and uses, in quotes or not, it names a file exactly when every use resolves,
      something is left, and no generator expression is; and then the file at the resolved text. */
  lemma NamedIffResolved(pieces: seq<Piece>, before: string, after: string, base: string, variables: Variables,
                         resolve: (string, string) -> string)
    requires LegalPieces(pieces) && Shut(base) && Orderly(variables)
    requires TokenText(pieces) != "" ==> TokenText(pieces)[0] != '"' && TokenText(pieces)[|TokenText(pieces)| - 1] != '"'
    requires (forall c <- before :: c == '"') && forall c <- after :: c == '"'
    ensures var joined := TokenText(AllResolved(pieces, base, variables));
            Named(before + (TokenText(pieces) + after), base, variables, resolve)
            == if SomeLeft(pieces, base, variables) || joined == "" || Contains(joined, "$<") then None
               else Some(resolve(base, joined))
  {
    hide TokenText, AllResolved, Expand, Unquote, Contains, SomeLeft;
    UnquoteIs(TokenText(pieces), before, after);
    ExpandIsResolved(pieces, base, variables);
    LeftIsSeen(pieces, base, variables);
  }

  /* ---------------------------------------------------------------- the variables of a file */

  /** THE VARIABLES OF A FILE are named once, by identifiers, and no value holds the opening of a use. */
  ghost predicate Settled(variables: Variables) {
    (forall i, j :: 0 <= i < j < |variables| ==> variables[i].0 != variables[j].0)
    && forall v <- variables :: IsIdentifier(v.0) && (v.1.Some? ==> !Contains(v.1.value, "${"))
  }

  lemma {:induction false} AssignKeepsOthers(variables: Variables, name: string, value: Option<string>)
    ensures forall v <- Assign(variables, name, value) :: v == (name, value) || v in variables
  {
    if variables != [] && variables[0].0 != name {
      AssignKeepsOthers(variables[1..], name, value);
      assert variables == [variables[0]] + variables[1..];
    }
  }

  lemma {:induction false} AssignSettles(variables: Variables, name: string, value: Option<string>)
    requires Settled(variables) && IsIdentifier(name) && (value.Some? ==> !Contains(value.value, "${"))
    ensures Settled(Assign(variables, name, value))
  {
    hide IsIdentifier, Contains;
    if variables != [] && variables[0].0 != name {
      var first, rest := variables[0], variables[1..];
      SettledRest(variables);
      AssignSettles(rest, name, value);
      AssignKeepsOthers(rest, name, value);
      var after := Assign(rest, name, value);
      forall v | v in after ensures v.0 != first.0 {
        if v != (name, value) {
          var i :| 0 <= i < |rest| && rest[i] == v;
          assert variables[i + 1] == v;
        }
      }
      hide Assign;
      SettledWith(first, after);
    } else if variables != [] {
      SettledRest(variables);
      var rest := variables[1..];
      assert forall i :: 0 <= i < |rest| ==> rest[i] == variables[i + 1];
      assert forall v <- rest :: v.0 != name;
      hide Assign;
      SettledWith((name, value), rest);
    }
  }

  lemma SettledRest(variables: Variables)
    requires Settled(variables) && variables != []
    ensures Settled(variables[1..]) && variables[0] in variables
  {
    hide IsIdentifier, Contains;
    var rest := variables[1..];
    assert forall i :: 0 <= i < |rest| ==> rest[i] == variables[i + 1] && rest[i] in variables;
  }

  lemma SettledWith(first: (string, Option<string>), rest: Variables)
    requires Settled(rest) && IsIdentifier(first.0) && (first.1.Some? ==> !Contains(first.1.value, "${"))
    requires forall v <- rest :: v.0 != first.0
    ensures Settled([first] + rest)
  {
    hide IsIdentifier, Contains;
    var all := [first] + rest;
    assert forall i :: 1 <= i < |all| ==> all[i] == rest[i - 1] && all[i] in rest;
  }

  lemma {:induction false} VariablesSettle(commands: seq<Command>, base: string)
    ensures Settled(VariablesAfter(commands, base))
  {
    if commands != [] {
      var before, last := commands[..|commands| - 1], commands[|commands| - 1];
      VariablesSettle(before, base);
      if last.name == "set" && last.args != [] && IsIdentifier(last.args[0]) {
        hide Settled;
        AssignSettles(VariablesAfter(before, base), last.args[0],
                      ValueSet(StackAfter([], before), VariablesAfter(before, base), last, base));
      }
    }
  }

  /** So they are in order, where no value ends in a dollar sign that what follows could open a use with. */
  lemma {:induction false} SettledIsOrderly(variables: Variables)
    requires Settled(variables)
    requires forall v <- variables :: v.1.Some? ==> v.1.value == "" || v.1.value[|v.1.value| - 1] != '$'
    ensures Orderly(variables)
  {
    if variables != [] {
      var rest := variables[1..];
      assert forall i :: 0 <= i < |rest| ==> rest[i] == variables[i + 1] && rest[i] in variables;
      SettledIsOrderly(rest);
      assert variables[0] in variables && IsIdentifier(variables[0].0);
      assert PlainName(variables[0].0);
      if variables[0].1.Some? { FreeIsShut(variables[0].1.value); }
    }
  }

  lemma {:induction false} FreeIsShut(text: string)
    requires !Contains(text, "${") && (text == "" || text[|text| - 1] != '$')
    ensures Shut(text)
  {
    if text != "" {
      if |text| > 1 { assert text[..2] == "${" <==> text[0] == '$' && text[1] == '{'; }
      if |text| > 1 { FreeIsShut(text[1..]); }
    }
  }
}
