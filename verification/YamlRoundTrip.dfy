/** Printing a tree of the YAML subset and parsing it back: two-space indents, every scalar written plain, single-quoted or
    double-quoted, as chosen for it alone. The parse of a written tree is the tree. */
module YamlRoundTrip {
  import opened Options
  import opened Strings
  import opened YamlSubset
  import opened YamlBlocks
  import opened YamlTokens

  /* ---------------------------------------------------------------- written trees */

  /** A tree with a way to write each of its scalars. */
  datatype Written =
    | Word(token: Spelling)
    | List(tokens: seq<Spelling>)
    | Items(items: seq<Written>)
    | Table(members: seq<Member>)

  datatype Member = Member(key: string, value: Written)

  function TextsOf(tokens: seq<Spelling>): seq<string> {
    seq(|tokens|, i requires 0 <= i < |tokens| => tokens[i].text)
  }

  /** The tree that is written. */
  function TreeOf(w: Written): Tree {
    match w
    case Word(token) => Scalar(token.text)
    case List(tokens) => Flow(TextsOf(tokens))
    case Items(items) => Block(TreesOf(items))
    case Table(members) => Mapping(EntriesOf(members))
  }

  function EntryOf(member: Member): Entry {
    Entry(member.key, TreeOf(member.value))
  }

  function EntriesOf(members: seq<Member>): seq<Entry> {
    if members == [] then [] else [EntryOf(members[0])] + EntriesOf(members[1..])
  }

  function TreesOf(items: seq<Written>): seq<Tree> {
    if items == [] then [] else [TreeOf(items[0])] + TreesOf(items[1..])
  }

  /* ---------------------------------------------------------------- the printer */

  function JoinItems(tokens: seq<Spelling>): string {
    if tokens == [] then ""
    else if |tokens| == 1 then Spell(tokens[0])
    else Spell(tokens[0]) + ", " + JoinItems(tokens[1..])
  }

  function FlowText(tokens: seq<Spelling>): string {
    "[" + JoinItems(tokens) + "]"
  }

  function PrintEntries(members: seq<Member>, indent: nat): seq<Line> {
    if members == [] then [] else PrintEntry(members[0], indent) + PrintEntries(members[1..], indent)
  }

  function PrintEntry(member: Member, indent: nat): seq<Line> {
    match member.value
    case Word(token) => [Line(indent, member.key + ": " + Spell(token), 0)]
    case List(tokens) => [Line(indent, member.key + ": " + FlowText(tokens), 0)]
    case _ => [Line(indent, member.key + ":", 0)] + PrintTree(member.value, indent + 2)
  }

  function PrintTree(w: Written, indent: nat): seq<Line> {
    match w
    case Items(items) => PrintChildren(items, indent)
    case Table(members) => PrintEntries(members, indent)
    case _ => []
  }

  function PrintChildren(items: seq<Written>, indent: nat): seq<Line> {
    if items == [] then [] else PrintChild(items[0], indent) + PrintChildren(items[1..], indent)
  }

  function PrintChild(item: Written, indent: nat): seq<Line> {
    match item
    case Word(token) => [Line(indent, "- " + Spell(token), 0)]
    case Table(members) => Bulleted(PrintEntries(members, indent + 2), indent)
    case _ => []
  }

  /** The lines of an inline mapping item: its first key on the dash's own line. */
  function Bulleted(lines: seq<Line>, indent: nat): seq<Line> {
    if lines == [] then [] else [Line(indent, "- " + lines[0].text, 0)] + lines[1..]
  }

  function Spaces(n: nat): string {
    seq(n, i => ' ')
  }

  function RawLines(lines: seq<Line>): seq<string> {
    seq(|lines|, i requires 0 <= i < |lines| => Spaces(lines[i].indent) + lines[i].text)
  }

  function JoinLines(raw: seq<string>): string {
    if raw == [] then "" else if |raw| == 1 then raw[0] else raw[0] + "\n" + JoinLines(raw[1..])
  }

  /** The document written. */
  function TextOf(w: Written): string {
    JoinLines(RawLines(PrintTree(w, 0)))
  }

  /* ---------------------------------------------------------------- the trees of the subset */

  /** A scalar the subset can hold: one line, no tab, and printable ASCII where the document is. */
  predicate Holdable(text: string, asciiOnly: bool) {
    forall i :: 0 <= i < |text| ==>
      text[i] != '\n' && text[i] != '\t' && (asciiOnly ==> 0x20 <= text[i] as int <= 0x7E)
  }

  predicate SubsetTree(tree: Tree, asciiOnly: bool)
    decreases tree, 0
  {
    match tree
    case Scalar(text) => Holdable(text, asciiOnly)
    case Flow(items) => forall i :: 0 <= i < |items| ==> Holdable(items[i], asciiOnly)
    case Block(children) => children != [] && SubsetChildren(children, asciiOnly)
    case Mapping(entries) => entries != [] && SubsetEntries(entries, asciiOnly)
  }

  predicate SubsetEntries(entries: seq<Entry>, asciiOnly: bool)
    decreases entries, 0
  {
    entries == []
    || (SubsetEntry(entries[0], asciiOnly) && !HasKey(entries[1..], entries[0].key) && SubsetEntries(entries[1..], asciiOnly))
  }

  predicate SubsetEntry(entry: Entry, asciiOnly: bool)
    decreases entry, 0
  {
    LegalKey(entry.key) && SubsetTree(entry.value, asciiOnly)
  }

  predicate SubsetChildren(children: seq<Tree>, asciiOnly: bool)
    decreases children, 0
  {
    children == [] || (SubsetChild(children[0], asciiOnly) && SubsetChildren(children[1..], asciiOnly))
  }

  /** A block sequence holds scalars and mappings. */
  predicate SubsetChild(child: Tree, asciiOnly: bool)
    decreases child, 1
  {
    (child.Scalar? || child.Mapping?) && SubsetTree(child, asciiOnly)
  }

  predicate LegalToken(token: Spelling, asciiOnly: bool) {
    Spellable(token) && Holdable(token.text, asciiOnly)
  }

  predicate LegalTree(w: Written, asciiOnly: bool)
    decreases w, 0
  {
    match w
    case Word(token) => LegalToken(token, asciiOnly)
    case List(tokens) => forall i :: 0 <= i < |tokens| ==> LegalToken(tokens[i], asciiOnly)
    case Items(items) => items != [] && LegalChildren(items, asciiOnly)
    case Table(members) => members != [] && LegalEntries(members, asciiOnly)
  }

  predicate LegalEntries(members: seq<Member>, asciiOnly: bool)
    decreases members, 0
  {
    members == []
    || (LegalEntry(members[0], asciiOnly) && !HasKey(EntriesOf(members[1..]), members[0].key)
        && LegalEntries(members[1..], asciiOnly))
  }

  predicate LegalEntry(member: Member, asciiOnly: bool)
    decreases member, 0
  {
    LegalKey(member.key) && LegalTree(member.value, asciiOnly)
  }

  predicate LegalChildren(items: seq<Written>, asciiOnly: bool)
    decreases items, 0
  {
    items == [] || (LegalChild(items[0], asciiOnly) && LegalChildren(items[1..], asciiOnly))
  }

  /** A block sequence holds scalars and mappings. A plain scalar there must not read as a key and a colon. */
  predicate LegalChild(item: Written, asciiOnly: bool)
    decreases item, 1
  {
    (item.Word? || item.Table?) && LegalTree(item, asciiOnly)
    && (item.Word? && item.token.style.Plain? ==> !OpensMapping(item.token.text))
  }

  /* ---------------------------------------------------------------- flow sequences */

  /** The pieces of a printed flow body. */
  function PrintedPieces(tokens: seq<Spelling>): seq<string>
    requires tokens != []
  {
    [Spell(tokens[0])] + seq(|tokens| - 1, i requires 0 <= i < |tokens| - 1 => " " + Spell(tokens[i + 1]))
  }

  /** A comma and a space before pieces start a new first piece. */
  lemma PiecesAfterComma(tail: string, rest: seq<string>, line: nat)
    requires rest != [] && Pieces(tail, None, line) == Ok(rest)
    ensures Pieces(", " + tail, None, line) == Ok([""] + ([" " + rest[0]] + rest[1..]))
  {
    assert (", " + tail)[1..] == " " + tail;
    assert (" " + tail)[..1] == " " && (" " + tail)[1..] == tail;
    assert Pieces(" " + tail, None, line) == Ok([" " + rest[0]] + rest[1..]);
  }

  lemma PiecesBefore(front: string, rest: seq<string>)
    ensures PrependFirst(front, Ok([""] + rest)) == Ok([front] + rest)
  {
    assert front + "" == front && ([""] + rest)[1..] == rest;
  }

  lemma PrintedPiecesFirst(tokens: seq<Spelling>)
    requires |tokens| > 1
    ensures var rest := PrintedPieces(tokens[1..]);
            PrintedPieces(tokens) == [Spell(tokens[0])] + ([" " + rest[0]] + rest[1..])
  {
  }

  ghost predicate AllSpellable(tokens: seq<Spelling>) {
    forall i :: 0 <= i < |tokens| ==> Spellable(tokens[i])
  }

  lemma {:induction false} JoinItemsPieces(tokens: seq<Spelling>, line: nat)
    requires tokens != [] && AllSpellable(tokens)
    ensures Pieces(JoinItems(tokens), None, line) == Ok(PrintedPieces(tokens))
  {
    if |tokens| == 1 {
      PiecesSpelled(tokens[0], "", line);
      assert Spell(tokens[0]) + "" == Spell(tokens[0]);
      assert PrintedPieces(tokens) == [Spell(tokens[0])];
    } else {
      hide Pieces, Spell, Spellable, PrintedPieces;
      var tail, rest := JoinItems(tokens[1..]), PrintedPieces(tokens[1..]);
      JoinItemsPieces(tokens[1..], line);
      PiecesAfterComma(tail, rest, line);
      PiecesSpelled(tokens[0], ", " + tail, line);
      PiecesBefore(Spell(tokens[0]), [" " + rest[0]] + rest[1..]);
      PrintedPiecesFirst(tokens);
      assert JoinItems(tokens) == Spell(tokens[0]) + (", " + tail);
    }
  }

  lemma TextsFirst(tokens: seq<Spelling>)
    requires tokens != []
    ensures TextsOf(tokens) == [tokens[0].text] + TextsOf(tokens[1..])
  {
  }

  lemma {:induction false} PaddedItems(tokens: seq<Spelling>, line: nat)
    requires AllSpellable(tokens)
    ensures FlowItems(seq(|tokens|, i requires 0 <= i < |tokens| => " " + Spell(tokens[i])), line) == Ok(TextsOf(tokens))
  {
    hide Spell, Spellable, ScalarOf;
    if tokens == [] {
      assert TextsOf(tokens) == [];
    } else {
      var pieces := seq(|tokens|, i requires 0 <= i < |tokens| => " " + Spell(tokens[i]));
      FlowItemRoundTrip(" ", tokens[0], line);
      PaddedItems(tokens[1..], line);
      assert pieces[1..] == seq(|tokens[1..]|, i requires 0 <= i < |tokens[1..]| => " " + Spell(tokens[1..][i]));
      TextsFirst(tokens);
    }
  }

  lemma FlowItemRoundTrip(pad: string, token: Spelling, line: nat)
    requires Spellable(token) && forall c <- pad :: c == ' '
    ensures FlowItem(pad + Spell(token), line) == Ok(token.text)
  {
    hide ScalarOf, Strip;
    assert pad + Spell(token) == pad + (Spell(token) + "");
    SpelledReads(pad, token, "", line);
    SpelledTrim(token);
    StripPadded(pad, Spell(token));
    if token.style.Plain? { assert forall i :: 0 <= i < |token.text| ==> token.text[i] in token.text; }
  }

  lemma FlowItemsRoundTrip(tokens: seq<Spelling>, line: nat)
    requires tokens != [] && AllSpellable(tokens)
    ensures FlowItems(PrintedPieces(tokens), line) == Ok(TextsOf(tokens))
  {
    hide Spell, Spellable, ScalarOf;
    FlowItemRoundTrip("", tokens[0], line);
    assert "" + Spell(tokens[0]) == Spell(tokens[0]);
    PaddedItems(tokens[1..], line);
    assert PrintedPieces(tokens)[1..] == seq(|tokens[1..]|, i requires 0 <= i < |tokens[1..]| => " " + Spell(tokens[1..][i]));
    TextsFirst(tokens);
  }

  lemma {:induction false} JoinItemsTrim(tokens: seq<Spelling>)
    requires tokens != [] && AllSpellable(tokens)
    ensures Trim(JoinItems(tokens))
  {
    hide Spell, Spellable;
    SpelledTrim(tokens[0]);
    if |tokens| > 1 {
      JoinItemsTrim(tokens[1..]);
      assert JoinItems(tokens)[|JoinItems(tokens)| - 1] == JoinItems(tokens[1..])[|JoinItems(tokens[1..])| - 1];
    }
  }

  lemma FlowRoundTrip(tokens: seq<Spelling>, line: nat)
    requires AllSpellable(tokens)
    ensures Trim(FlowText(tokens)) && FlowOf(FlowText(tokens), line) == Ok(TextsOf(tokens))
  {
    var text := FlowText(tokens);
    StripTrim(text);
    assert text[1..|text| - 1] == JoinItems(tokens);
    if tokens == [] {
      assert TextsOf(tokens) == [];
    } else {
      JoinItemsTrim(tokens);
      StripTrim(JoinItems(tokens));
      JoinItemsPieces(tokens, line);
      FlowItemsRoundTrip(tokens, line);
    }
  }

  /* ---------------------------------------------------------------- what every printed line is */

  /** A line's text that the comment stripper keeps whole and `strip` leaves alone. */
  ghost predicate Stable(text: string, asciiOnly: bool) {
    Trim(text) && Holdable(text, asciiOnly) && forall n: nat :: Kept(text, None, n) == Ok(text)
  }

  /** Lines at `indent` or deeper, the first exactly at it, every text stable. */
  ghost predicate Printed(lines: seq<Line>, indent: nat, asciiOnly: bool) {
    && (lines != [] ==> lines[0].indent == indent)
    && forall i :: 0 <= i < |lines| ==> lines[i].indent >= indent && Stable(lines[i].text, asciiOnly)
  }

  lemma {:induction false} HoldableEscaped(s: string, asciiOnly: bool)
    requires Holdable(s, asciiOnly)
    ensures Holdable(Escaped(s), asciiOnly)
  {
    if s != "" { HoldableEscaped(s[1..], asciiOnly); }
  }

  lemma SpelledStable(token: Spelling, asciiOnly: bool)
    requires LegalToken(token, asciiOnly)
    ensures Stable(Spell(token), asciiOnly)
  {
    hide Kept, Escaped, CppEscape;
    SpelledTrim(token);
    EscapeIsEscaped(token.text);
    HoldableEscaped(token.text, asciiOnly);
    forall n: nat ensures Kept(Spell(token), None, n) == Ok(Spell(token)) {
      KeptSpelled(token, "", n);
      assert Spell(token) + "" == Spell(token);
      KeptNothing(n);
    }
  }

  lemma KeptNothing(n: nat)
    ensures Kept("", None, n) == Ok("")
  {
  }

  /** A quiet prefix in front of a stable text is stable. */
  lemma QuietThenStable(front: string, text: string, asciiOnly: bool)
    requires front != "" && Quiet(front) && Holdable(front, asciiOnly) && !Space(front[0]) && Stable(text, asciiOnly)
    ensures Stable(front + text, asciiOnly)
  {
    forall n: nat ensures Kept(front + text, None, n) == Ok(front + text) { KeptQuiet(front, text, n); }
    assert (front + text)[|front + text| - 1] == text[|text| - 1];
  }

  lemma QuietStable(text: string, asciiOnly: bool)
    requires Trim(text) && Quiet(text) && Holdable(text, asciiOnly)
    ensures Stable(text, asciiOnly)
  {
    forall n: nat ensures Kept(text, None, n) == Ok(text) {
      KeptQuiet(text, "", n);
      assert text + "" == text;
    }
  }

  lemma {:induction false} JoinItemsKept(tokens: seq<Spelling>, rest: string, line: nat)
    requires AllSpellable(tokens)
    ensures Kept(JoinItems(tokens) + rest, None, line) == Prepend(JoinItems(tokens), Kept(rest, None, line))
  {
    hide Kept, Spell, Spellable;
    if tokens == [] {
      assert JoinItems(tokens) + rest == rest;
      PrependNone(Kept(rest, None, line));
    } else if |tokens| == 1 {
      KeptSpelled(tokens[0], rest, line);
    } else {
      var tail := JoinItems(tokens[1..]);
      assert JoinItems(tokens) + rest == Spell(tokens[0]) + (", " + (tail + rest));
      KeptSpelled(tokens[0], ", " + (tail + rest), line);
      KeptQuiet(", ", tail + rest, line);
      JoinItemsKept(tokens[1..], rest, line);
      PrependBoth(", ", tail, Kept(rest, None, line));
      PrependBoth(Spell(tokens[0]), ", " + tail, Kept(rest, None, line));
      assert Spell(tokens[0]) + (", " + tail) == JoinItems(tokens);
    }
  }

  lemma {:induction false} JoinItemsHoldable(tokens: seq<Spelling>, asciiOnly: bool)
    requires forall i :: 0 <= i < |tokens| ==> LegalToken(tokens[i], asciiOnly)
    ensures Holdable(JoinItems(tokens), asciiOnly)
  {
    hide LegalToken, Spell;
    if tokens != [] {
      SpelledStable(tokens[0], asciiOnly);
      JoinItemsHoldable(tokens[1..], asciiOnly);
    }
  }

  lemma FlowStable(tokens: seq<Spelling>, asciiOnly: bool)
    requires forall i :: 0 <= i < |tokens| ==> LegalToken(tokens[i], asciiOnly)
    ensures Stable(FlowText(tokens), asciiOnly)
  {
    JoinItemsHoldable(tokens, asciiOnly);
    hide Kept, Spell, Spellable, JoinItems;
    forall n: nat ensures Kept(FlowText(tokens), None, n) == Ok(FlowText(tokens)) {
      assert FlowText(tokens) == "[" + (JoinItems(tokens) + "]");
      KeptQuiet("[", JoinItems(tokens) + "]", n);
      JoinItemsKept(tokens, "]", n);
      KeptQuiet("]", "", n);
      assert "]" + "" == "]";
      KeptNothing(n);
    }
  }

  lemma KeyQuiet(key: string, asciiOnly: bool)
    requires LegalKey(key)
    ensures Trim(key) && Quiet(key) && Holdable(key, asciiOnly) && ':' !in key
  {
    assert forall i :: 0 <= i < |key| ==> Letter(key[i]) || Digit(key[i]) || key[i] == '_';
  }

  lemma KeyThenStable(key: string, text: string, asciiOnly: bool)
    requires LegalKey(key) && Stable(text, asciiOnly)
    ensures Stable(key + ": " + text, asciiOnly)
  {
    KeyQuiet(key, asciiOnly);
    QuietThenStable(key + ": ", text, asciiOnly);
  }

  lemma {:induction false} EntriesPrinted(members: seq<Member>, indent: nat, asciiOnly: bool)
    requires LegalEntries(members, asciiOnly)
    ensures Printed(PrintEntries(members, indent), indent, asciiOnly)
    ensures members != [] ==> PrintEntries(members, indent) != []
    decreases members
  {
    if members != [] {
      EntryPrinted(members[0], indent, asciiOnly);
      EntriesPrinted(members[1..], indent, asciiOnly);
    }
  }

  lemma {:induction false} EntryPrinted(member: Member, indent: nat, asciiOnly: bool)
    requires LegalEntry(member, asciiOnly)
    ensures PrintEntry(member, indent) != [] && Printed(PrintEntry(member, indent), indent, asciiOnly)
    decreases member
  {
    match member.value
    case Word(token) =>
      SpelledStable(token, asciiOnly);
      KeyThenStable(member.key, Spell(token), asciiOnly);
    case List(tokens) =>
      FlowStable(tokens, asciiOnly);
      KeyThenStable(member.key, FlowText(tokens), asciiOnly);
    case _ =>
      KeyQuiet(member.key, asciiOnly);
      QuietStable(member.key + ":", asciiOnly);
      TreePrinted(member.value, indent + 2, asciiOnly);
  }

  lemma {:induction false} TreePrinted(w: Written, indent: nat, asciiOnly: bool)
    requires LegalTree(w, asciiOnly)
    ensures Printed(PrintTree(w, indent), indent, asciiOnly)
    ensures w.Items? || w.Table? ==> PrintTree(w, indent) != []
    decreases w
  {
    match w
    case Items(items) => ChildrenPrinted(items, indent, asciiOnly);
    case Table(members) => EntriesPrinted(members, indent, asciiOnly);
    case _ =>
  }

  lemma {:induction false} ChildrenPrinted(items: seq<Written>, indent: nat, asciiOnly: bool)
    requires LegalChildren(items, asciiOnly)
    ensures Printed(PrintChildren(items, indent), indent, asciiOnly)
    ensures items != [] ==> PrintChildren(items, indent) != []
    decreases items
  {
    if items != [] {
      ChildPrinted(items[0], indent, asciiOnly);
      ChildrenPrinted(items[1..], indent, asciiOnly);
    }
  }

  lemma {:induction false} ChildPrinted(item: Written, indent: nat, asciiOnly: bool)
    requires LegalChild(item, asciiOnly)
    ensures PrintChild(item, indent) != [] && Printed(PrintChild(item, indent), indent, asciiOnly)
    decreases item
  {
    match item
    case Word(token) =>
      SpelledStable(token, asciiOnly);
      QuietThenStable("- ", Spell(token), asciiOnly);
    case Table(members) =>
      EntriesPrinted(members, indent + 2, asciiOnly);
      QuietThenStable("- ", PrintEntries(members, indent + 2)[0].text, asciiOnly);
  }

  /* ---------------------------------------------------------------- the printed lines are the logical lines */

  ghost predicate SameText(a: seq<Line>, b: seq<Line>) {
    |a| == |b| && forall i :: 0 <= i < |a| ==> a[i].indent == b[i].indent && a[i].text == b[i].text
  }

  lemma {:induction false} SpacesCounted(n: nat, text: string)
    requires Trim(text)
    ensures SpacesAt(Spaces(n) + text) == n
  {
    if n > 0 {
      assert (Spaces(n) + text)[1..] == Spaces(n - 1) + text;
      SpacesCounted(n - 1, text);
    } else {
      assert Spaces(0) + text == text;
    }
  }

  lemma RawLineRead(line: Line, asciiOnly: bool, number: nat)
    requires Stable(line.text, asciiOnly)
    ensures var raw := Spaces(line.indent) + line.text;
            && '\t' !in raw && Stripped(raw, number) == Ok(raw)
            && Strip(raw) == line.text && SpacesAt(raw) == line.indent
  {
    var pad := Spaces(line.indent);
    StripPadded(pad, line.text);
    KeptQuiet(pad, line.text, number);
    SpacesCounted(line.indent, line.text);
    assert Kept(line.text, None, number) == Ok(line.text);
  }

  lemma {:induction false} PrintedLinesRead(lines: seq<Line>, asciiOnly: bool, number: nat)
    requires forall i :: 0 <= i < |lines| ==> Stable(lines[i].text, asciiOnly)
    ensures LogicalFrom(RawLines(lines), number).Ok? && SameText(LogicalFrom(RawLines(lines), number).value, lines)
  {
    if lines != [] {
      RawLineRead(lines[0], asciiOnly, number);
      assert RawLines(lines)[1..] == RawLines(lines[1..]);
      PrintedLinesRead(lines[1..], asciiOnly, number + 1);
    }
  }

  lemma {:induction false} SplitOne(line: string)
    requires '\n' !in line
    ensures SplitLines(line) == [line]
  {
    if line != "" {
      SplitOne(line[1..]);
      assert [line[0]] + line[1..] == line;
    }
  }

  lemma {:induction false} SplitFirst(line: string, rest: string)
    requires '\n' !in line
    ensures SplitLines(line + "\n" + rest) == [line] + SplitLines(rest)
  {
    var all := line + "\n" + rest;
    if line == "" {
      assert all[0] == '\n' && all[1..] == rest;
    } else {
      assert all[0] == line[0] && all[1..] == line[1..] + "\n" + rest;
      SplitFirst(line[1..], rest);
      assert [line[0]] + line[1..] == line;
      assert ([line[1..]] + SplitLines(rest))[1..] == SplitLines(rest);
    }
  }

  lemma {:induction false} SplitJoined(raw: seq<string>)
    requires raw != [] && forall i :: 0 <= i < |raw| ==> '\n' !in raw[i]
    ensures SplitLines(JoinLines(raw)) == raw
  {
    if |raw| == 1 {
      SplitOne(raw[0]);
    } else {
      SplitFirst(raw[0], JoinLines(raw[1..]));
      SplitJoined(raw[1..]);
      assert [raw[0]] + raw[1..] == raw;
    }
  }

  lemma {:induction false} PrintedIsAscii(lines: seq<Line>, number: nat)
    requires forall i :: 0 <= i < |lines| ==> Stable(lines[i].text, true)
    ensures NonAsciiLine(RawLines(lines), number) == 0
  {
    if lines != [] {
      assert RawLines(lines)[1..] == RawLines(lines[1..]);
      PrintedIsAscii(lines[1..], number + 1);
      assert Holdable(lines[0].text, true);
    }
  }

  /* ---------------------------------------------------------------- the block parser reads them back */

  /** `printed` stands in `lines` at `pos`. */
  ghost predicate StandsAt(lines: seq<Line>, pos: nat, printed: seq<Line>)
    ensures StandsAt(lines, pos, printed) ==> pos + |printed| <= |lines|
    decreases |printed|
  {
    if printed == [] then pos <= |lines|
    else
      pos < |lines| && lines[pos].indent == printed[0].indent && lines[pos].text == printed[0].text
      && StandsAt(lines, pos + 1, printed[1..])
  }

  /** Nothing at `pos` goes on with a block at `indent`. */
  predicate Ends(lines: seq<Line>, pos: nat, indent: nat) {
    pos == |lines| || (pos < |lines| && lines[pos].indent < indent)
  }

  lemma {:induction false} AtSplit(lines: seq<Line>, pos: nat, a: seq<Line>, b: seq<Line>)
    requires StandsAt(lines, pos, a + b)
    ensures StandsAt(lines, pos, a) && StandsAt(lines, pos + |a|, b)
    decreases |a|
  {
    if a == [] {
      assert a + b == b;
    } else {
      assert (a + b)[0] == a[0] && (a + b)[1..] == a[1..] + b;
      AtSplit(lines, pos + 1, a[1..], b);
    }
  }

  lemma AtFirst(lines: seq<Line>, pos: nat, printed: seq<Line>)
    requires StandsAt(lines, pos, printed) && printed != []
    ensures pos < |lines| && lines[pos].indent == printed[0].indent && lines[pos].text == printed[0].text
  {
  }

  /** The same lines stand in both lists, for `count` lines. */
  ghost predicate Copied(lines: seq<Line>, pos: nat, copy: seq<Line>, at: nat, count: nat)
    decreases count
  {
    count == 0
    || (pos < |lines| && at < |copy| && copy[at] == lines[pos] && Copied(lines, pos + 1, copy, at + 1, count - 1))
  }

  lemma {:induction false} AtCopied(lines: seq<Line>, pos: nat, copy: seq<Line>, at: nat, printed: seq<Line>)
    requires StandsAt(lines, pos, printed) && at + |printed| <= |copy| && Copied(lines, pos, copy, at, |printed|)
    ensures StandsAt(copy, at, printed)
    decreases |printed|
  {
    if printed != [] { AtCopied(lines, pos + 1, copy, at + 1, printed[1..]); }
  }

  lemma {:induction false} CopiedAfterHead(lines: seq<Line>, pos: nat, end: nat, head: Line, at: nat)
    requires pos <= end <= |lines| && at <= end - pos
    ensures Copied(lines, pos + at, [head] + lines[pos..end], 1 + at, end - pos - at)
    decreases end - pos - at
  {
    if at < end - pos { CopiedAfterHead(lines, pos, end, head, at + 1); }
  }

  lemma {:induction false} AtWhole(lines: seq<Line>, printed: seq<Line>, pos: nat)
    requires SameText(lines, printed) && pos <= |lines|
    ensures StandsAt(lines, pos, printed[pos..])
    decreases |lines| - pos
  {
    if pos < |lines| {
      AtWhole(lines, printed, pos + 1);
      assert printed[pos..][0] == printed[pos] && printed[pos..][1..] == printed[pos + 1..];
    }
  }

  lemma {:induction false} ColonSplits(key: string, rest: string)
    requires ':' !in key
    ensures BeforeColon(key + ":" + rest) == key && AfterColon(key + ":" + rest) == rest
  {
    if key == "" {
      assert key + ":" + rest == ":" + rest;
      assert (":" + rest)[1..] == rest;
    } else {
      assert (key + ":" + rest)[1..] == key[1..] + ":" + rest;
      ColonSplits(key[1..], rest);
    }
  }

  /** What a mapping reads on a key's line. */
  lemma KeyLine(key: string, rest: string)
    requires LegalKey(key)
    ensures var text := key + ":" + rest;
            && ':' in text && Strip(BeforeColon(text)) == key && AfterColon(text) == rest && !Dash(text)
  {
    KeyQuiet(key, true);
    ColonSplits(key, rest);
    StripTrim(key);
    assert (key + ":" + rest)[|key|] == ':';
    assert (key + ":" + rest)[0] == key[0];
  }

  /** AN INLINE VALUE READS BACK, however its scalars are written. */
  lemma InlineRoundTrip(w: Written, ascii: bool, line: nat)
    requires (w.Word? || w.List?) && LegalTree(w, ascii)
    ensures var text := InlineText(w);
            Strip(" " + text) == text && Strip(text) == text && text != "" && InlineValue(text, line) == Ok(TreeOf(w))
  {
    if w.Word? {
      WordRoundTrip(w.token, line);
    } else {
      FlowRoundTrip(w.tokens, line);
      StripPadded(" ", FlowText(w.tokens));
      StripTrim(FlowText(w.tokens));
    }
  }

  lemma WordRoundTrip(token: Spelling, line: nat)
    requires Spellable(token)
    ensures var text := Spell(token);
            Strip(" " + text) == text && Strip(text) == text && text != "" && InlineValue(text, line) == Ok(Scalar(token.text))
  {
    hide Spell, ScalarOf, Spellable;
    var text := Spell(token);
    SpelledTrim(token);
    StripPadded(" ", text);
    StripTrim(text);
    assert "" + (text + "") == text;
    SpelledReads("", token, "", line);
    SpelledIsNoList(token);
  }

  lemma SpelledIsNoList(token: Spelling)
    requires Spellable(token)
    ensures Spell(token) != "" && Spell(token)[0] != '['
  {
    if token.style.Plain? { PlainClasses(token.text[0]); }
  }

  /** The text of a value on its key's line. */
  function InlineText(w: Written): string
    requires w.Word? || w.List?
  {
    if w.Word? then Spell(w.token) else FlowText(w.tokens)
  }

  lemma SpaceAfterColon(key: string, rest: string)
    ensures key + ": " + rest == key + ":" + (" " + rest)
  {
  }

  lemma InlineEntryParses(member: Member, ascii: bool, lines: seq<Line>, pos: nat, indent: nat, sofar: seq<Entry>)
    requires LegalEntry(member, ascii) && !HasKey(sofar, member.key) && (member.value.Word? || member.value.List?)
    requires pos < |lines| && lines[pos].indent == indent && lines[pos].text == member.key + ": " + InlineText(member.value)
    ensures MappingAt(lines, pos, indent) && MemberAt(lines, pos, indent, sofar) == Ok((EntryOf(member), pos + 1))
  {
    hide InlineValue, HasKey, LegalKey, BeforeColon, AfterColon, Strip, Spell, FlowText, Dash, BlockFrom, TreeOf, LegalTree;
    SpaceAfterColon(member.key, InlineText(member.value));
    KeyLine(member.key, " " + InlineText(member.value));
    InlineRoundTrip(member.value, ascii, lines[pos].number);
  }

  lemma OpeningEntryParses(member: Member, lines: seq<Line>, pos: nat, indent: nat, sofar: seq<Entry>, next: nat)
    requires LegalKey(member.key) && !HasKey(sofar, member.key)
    requires pos + 1 < |lines| && lines[pos].indent == indent && lines[pos].text == member.key + ":"
    requires lines[pos + 1].indent == indent + 2 && BlockFrom(lines, pos + 1, indent + 2) == Ok((TreeOf(member.value), next))
    ensures MappingAt(lines, pos, indent) && MemberAt(lines, pos, indent, sofar) == Ok((EntryOf(member), next))
  {
    hide TreeOf;
    assert lines[pos].text == member.key + ":" + "";
    KeyLine(member.key, "");
  }

  /** One turn of the mapping loop over a printed entry. */
  lemma {:induction false} EntryParses(member: Member, lines: seq<Line>, pos: nat, indent: nat, sofar: seq<Entry>, next: nat, ascii: bool)
    requires LegalEntry(member, ascii) && !HasKey(sofar, member.key)
    requires StandsAt(lines, pos, PrintEntry(member, indent)) && next == pos + |PrintEntry(member, indent)|
    requires Ends(lines, next, indent + 1)
    ensures MappingAt(lines, pos, indent) && MemberAt(lines, pos, indent, sofar) == Ok((EntryOf(member), next))
    decreases member
  {
    hide MappingAt, MemberAt, BlockFrom;
    if member.value.Word? || member.value.List? {
      AtFirst(lines, pos, PrintEntry(member, indent));
      InlineEntryParses(member, ascii, lines, pos, indent, sofar);
    } else {
      NestedStands(member, lines, pos, indent, next, ascii);
      BlockParses(member.value, lines, pos + 1, indent + 2, next, ascii);
      OpeningEntryParses(member, lines, pos, indent, sofar, next);
    }
  }

  lemma NestedStands(member: Member, lines: seq<Line>, pos: nat, indent: nat, next: nat, ascii: bool)
    requires LegalEntry(member, ascii) && (member.value.Items? || member.value.Table?)
    requires StandsAt(lines, pos, PrintEntry(member, indent)) && next == pos + |PrintEntry(member, indent)|
    ensures var nested := PrintTree(member.value, indent + 2);
            && StandsAt(lines, pos + 1, nested) && next == pos + 1 + |nested|
            && pos + 1 < |lines| && lines[pos + 1].indent == indent + 2
            && lines[pos].indent == indent && lines[pos].text == member.key + ":"
  {
    var nested := PrintTree(member.value, indent + 2);
    TreePrinted(member.value, indent + 2, ascii);
    AtSplit(lines, pos, [Line(indent, member.key + ":", 0)], nested);
    AtFirst(lines, pos, [Line(indent, member.key + ":", 0)]);
    AtFirst(lines, pos + 1, nested);
  }

  lemma {:induction false} HasKeyAppend(entries: seq<Entry>, entry: Entry, key: string)
    ensures HasKey(entries + [entry], key) <==> HasKey(entries, key) || entry.key == key
  {
    if i: int :| 0 <= i < |entries| && entries[i].key == key { assert (entries + [entry])[i].key == key; }
    if entry.key == key { assert (entries + [entry])[|entries|].key == key; }
  }

  /** The keys still to come are not among the keys read. */
  ghost predicate Fresh(entries: seq<Entry>, sofar: seq<Entry>) {
    forall i :: 0 <= i < |entries| ==> !HasKey(sofar, entries[i].key)
  }

  lemma FreshNext(entries: seq<Entry>, sofar: seq<Entry>)
    requires entries != [] && Fresh(entries, sofar) && !HasKey(entries[1..], entries[0].key)
    ensures Fresh(entries[1..], sofar + [entries[0]])
  {
    forall i | 0 <= i < |entries[1..]| ensures !HasKey(sofar + [entries[0]], entries[1..][i].key) {
      HasKeyAppend(sofar, entries[0], entries[1..][i].key);
      assert entries[1..][i] == entries[i + 1];
    }
  }

  lemma Regroups<T>(sofar: seq<T>, more: seq<T>)
    requires more != []
    ensures sofar + [more[0]] + more[1..] == sofar + more
  {
  }

  /** The two parts of a printed block, where they stand, and what ends the first. */
  lemma PartsStand(lines: seq<Line>, pos: nat, indent: nat, first: seq<Line>, rest: seq<Line>)
    requires StandsAt(lines, pos, first + rest) && Ends(lines, pos + |first| + |rest|, indent)
    requires rest != [] ==> rest[0].indent == indent
    ensures StandsAt(lines, pos, first) && Ends(lines, pos + |first|, indent + 1) && StandsAt(lines, pos + |first|, rest)
  {
    AtSplit(lines, pos, first, rest);
    if rest != [] { AtFirst(lines, pos + |first|, rest); }
  }

  lemma {:induction false} MappingParses(members: seq<Member>, lines: seq<Line>, pos: nat, indent: nat, sofar: seq<Entry>,
                                        end: nat, ascii: bool)
    requires LegalEntries(members, ascii) && Fresh(EntriesOf(members), sofar)
    requires StandsAt(lines, pos, PrintEntries(members, indent)) && end == pos + |PrintEntries(members, indent)|
    requires Ends(lines, end, indent)
    ensures MappingFrom(lines, pos, indent, sofar) == Ok((sofar + EntriesOf(members), end))
    decreases members
  {
    if members == [] {
      assert sofar + [] == sofar;
    } else {
      var next := pos + |PrintEntry(members[0], indent)|;
      var entries := EntriesOf(members);
      EntriesFirst(members);
      EntriesStand(members, lines, pos, indent, next, end, ascii);
      assert !HasKey(sofar, entries[0].key);
      EntryParses(members[0], lines, pos, indent, sofar, next, ascii);
      FreshNext(entries, sofar);
      MappingParses(members[1..], lines, next, indent, sofar + [entries[0]], end, ascii);
      MappingGoesOn(entries, lines, pos, indent, sofar, next, end);
    }
  }

  lemma EntriesFirst(members: seq<Member>)
    requires members != []
    ensures EntriesOf(members) != [] && EntriesOf(members)[0] == EntryOf(members[0])
    ensures EntriesOf(members)[1..] == EntriesOf(members[1..])
  {
    hide EntryOf;
  }

  lemma TreesFirst(items: seq<Written>)
    requires items != []
    ensures TreesOf(items) != [] && TreesOf(items)[0] == TreeOf(items[0]) && TreesOf(items)[1..] == TreesOf(items[1..])
  {
    hide TreeOf;
  }

  lemma MappingGoesOn(entries: seq<Entry>, lines: seq<Line>, pos: nat, indent: nat, sofar: seq<Entry>, next: nat, end: nat)
    requires entries != [] && next <= |lines|
    requires MappingAt(lines, pos, indent) && MemberAt(lines, pos, indent, sofar) == Ok((entries[0], next))
    requires MappingFrom(lines, next, indent, sofar + [entries[0]]) == Ok((sofar + [entries[0]] + entries[1..], end))
    ensures MappingFrom(lines, pos, indent, sofar) == Ok((sofar + entries, end))
  {
    Regroups(sofar, entries);
  }

  lemma EntriesStand(members: seq<Member>, lines: seq<Line>, pos: nat, indent: nat, next: nat, end: nat, ascii: bool)
    requires members != [] && LegalEntries(members, ascii)
    requires StandsAt(lines, pos, PrintEntries(members, indent)) && end == pos + |PrintEntries(members, indent)|
    requires Ends(lines, end, indent) && next == pos + |PrintEntry(members[0], indent)|
    ensures LegalEntry(members[0], ascii) && LegalEntries(members[1..], ascii)
    ensures StandsAt(lines, pos, PrintEntry(members[0], indent)) && Ends(lines, next, indent + 1)
    ensures StandsAt(lines, next, PrintEntries(members[1..], indent)) && end == next + |PrintEntries(members[1..], indent)|
  {
    EntriesPrinted(members[1..], indent, ascii);
    PartsStand(lines, pos, indent, PrintEntry(members[0], indent), PrintEntries(members[1..], indent));
  }

  lemma {:induction false} BlockParses(w: Written, lines: seq<Line>, pos: nat, indent: nat, end: nat, ascii: bool)
    requires LegalTree(w, ascii) && (w.Items? || w.Table?)
    requires StandsAt(lines, pos, PrintTree(w, indent)) && end == pos + |PrintTree(w, indent)| && Ends(lines, end, indent)
    ensures BlockFrom(lines, pos, indent) == Ok((TreeOf(w), end))
    decreases w
  {
    var printed := PrintTree(w, indent);
    match w
    case Items(items) =>
      FirstChildDashes(items, indent, ascii);
      AtFirst(lines, pos, printed);
      ChildrenParse(items, lines, pos, indent, [], end, ascii);
      assert [] + TreesOf(items) == TreesOf(items);
    case Table(members) =>
      FirstEntryKeys(members, indent, ascii);
      AtFirst(lines, pos, printed);
      MappingParses(members, lines, pos, indent, [], end, ascii);
      assert [] + EntriesOf(members) == EntriesOf(members);
  }

  lemma FirstChildDashes(items: seq<Written>, indent: nat, ascii: bool)
    requires items != [] && LegalChildren(items, ascii)
    ensures var printed := PrintChildren(items, indent);
            printed != [] && Dash(printed[0].text) && printed[0].indent == indent
  {
    ChildDashes(items[0], indent, ascii);
  }

  lemma ChildDashes(item: Written, indent: nat, ascii: bool)
    requires LegalChild(item, ascii)
    ensures var printed := PrintChild(item, indent);
            printed != [] && Dash(printed[0].text) && printed[0].indent == indent
  {
    if item.Table? { EntriesPrinted(item.members, indent + 2, ascii); }
  }

  lemma KeyOpens(key: string, rest: string)
    requires LegalKey(key)
    ensures !Dash(key + ":" + rest) && OpensMapping(key + ":" + rest)
  {
    KeyLine(key, rest);
  }

  /** The first line of a printed mapping opens with its first key. */
  lemma FirstEntryKeys(members: seq<Member>, indent: nat, ascii: bool)
    requires members != [] && LegalEntries(members, ascii)
    ensures var printed := PrintEntries(members, indent);
            printed != [] && printed[0].indent == indent && !Dash(printed[0].text) && OpensMapping(printed[0].text)
  {
    var member := members[0];
    var first := PrintEntry(member, indent)[0].text;
    if member.value.Word? || member.value.List? {
      assert first == member.key + ":" + (" " + InlineText(member.value));
      KeyOpens(member.key, " " + InlineText(member.value));
    } else {
      assert first == member.key + ":" + "";
      KeyOpens(member.key, "");
    }
  }

  /** A quoted scalar never opens an inline mapping, whatever colons it holds. */
  lemma QuotedOpensNothing(token: Spelling)
    requires !token.style.Plain?
    ensures !OpensMapping(Spell(token))
  {
    var text := Spell(token);
    assert text[0] == '"' || text[0] == '\'';
    assert BeforeColon(text)[0] == text[0];
    FirstSurvivesStrip(BeforeColon(text));
  }

  lemma {:induction false} ChildrenParse(items: seq<Written>, lines: seq<Line>, pos: nat, indent: nat, sofar: seq<Tree>,
                                        end: nat, ascii: bool)
    requires LegalChildren(items, ascii)
    requires StandsAt(lines, pos, PrintChildren(items, indent)) && end == pos + |PrintChildren(items, indent)|
    requires Ends(lines, end, indent)
    ensures SequenceFrom(lines, pos, indent, sofar) == Ok((sofar + TreesOf(items), end))
    decreases items
  {
    if items == [] {
      assert sofar + [] == sofar;
    } else {
      var next := pos + |PrintChild(items[0], indent)|;
      var children := TreesOf(items);
      TreesFirst(items);
      ChildrenStand(items, lines, pos, indent, next, end, ascii);
      ChildParses(items[0], lines, pos, indent, next, ascii);
      ChildrenParse(items[1..], lines, next, indent, sofar + [children[0]], end, ascii);
      SequenceGoesOnFrom(children, lines, pos, indent, sofar, next, end);
    }
  }

  lemma SequenceGoesOnFrom(children: seq<Tree>, lines: seq<Line>, pos: nat, indent: nat, sofar: seq<Tree>, next: nat, end: nat)
    requires children != [] && next <= |lines|
    requires SequenceAt(lines, pos, indent) && ItemAt(lines, pos, indent) == Ok((children[0], next))
    requires SequenceFrom(lines, next, indent, sofar + [children[0]]) == Ok((sofar + [children[0]] + children[1..], end))
    ensures SequenceFrom(lines, pos, indent, sofar) == Ok((sofar + children, end))
  {
    Regroups(sofar, children);
  }

  lemma ChildrenStand(items: seq<Written>, lines: seq<Line>, pos: nat, indent: nat, next: nat, end: nat, ascii: bool)
    requires items != [] && LegalChildren(items, ascii)
    requires StandsAt(lines, pos, PrintChildren(items, indent)) && end == pos + |PrintChildren(items, indent)|
    requires Ends(lines, end, indent) && next == pos + |PrintChild(items[0], indent)|
    ensures LegalChild(items[0], ascii) && LegalChildren(items[1..], ascii)
    ensures SequenceAt(lines, pos, indent) && StandsAt(lines, pos, PrintChild(items[0], indent)) && Ends(lines, next, indent + 1)
    ensures StandsAt(lines, next, PrintChildren(items[1..], indent)) && end == next + |PrintChildren(items[1..], indent)|
  {
    var first, rest := PrintChild(items[0], indent), PrintChildren(items[1..], indent);
    ChildrenPrinted(items[1..], indent, ascii);
    PartsStand(lines, pos, indent, first, rest);
    ChildStarts(items[0], lines, pos, indent, ascii);
  }

  lemma ChildStarts(item: Written, lines: seq<Line>, pos: nat, indent: nat, ascii: bool)
    requires LegalChild(item, ascii) && StandsAt(lines, pos, PrintChild(item, indent))
    ensures SequenceAt(lines, pos, indent)
  {
    ChildDashes(item, indent, ascii);
    AtFirst(lines, pos, PrintChild(item, indent));
  }

  lemma ScalarChildParses(token: Spelling, lines: seq<Line>, pos: nat, indent: nat)
    requires Spellable(token) && (token.style.Plain? ==> !OpensMapping(token.text))
    requires SequenceAt(lines, pos, indent) && lines[pos].text == "- " + Spell(token)
    ensures ItemAt(lines, pos, indent) == Ok((Scalar(token.text), pos + 1))
  {
    hide ScalarOf, Spellable, OpensMapping;
    var text := Spell(token);
    assert lines[pos].text[2..] == text;
    SpelledTrim(token);
    StripTrim(text);
    if !token.style.Plain? { QuotedOpensNothing(token); }
    assert "" + (text + "") == text;
    SpelledReads("", token, "", lines[pos].number);
  }

  lemma {:induction false} ChildParses(item: Written, lines: seq<Line>, pos: nat, indent: nat, end: nat, ascii: bool)
    requires LegalChild(item, ascii) && SequenceAt(lines, pos, indent)
    requires StandsAt(lines, pos, PrintChild(item, indent)) && end == pos + |PrintChild(item, indent)|
    requires Ends(lines, end, indent + 1)
    ensures ItemAt(lines, pos, indent) == Ok((TreeOf(item), end))
    decreases item
  {
    hide ItemAt, MappingFrom, ItemLines, OpensMapping, Strip, Spell, Spellable, StandsAt, Ends, PrintEntries, LegalEntries;
    match item
    case Word(token) =>
      AtFirst(lines, pos, PrintChild(item, indent));
      ScalarChildParses(token, lines, pos, indent);
    case Table(members) =>
      var printed := PrintEntries(members, indent + 2);
      ItemStands(members, lines, pos, indent, ascii);
      var gathered := ItemLines(lines, pos, indent, printed[0].text);
      MappingParses(members, gathered, 0, indent + 2, [], |printed|, ascii);
      assert [] + EntriesOf(members) == EntriesOf(members);
      MappingItemIs(EntriesOf(members), lines, pos, indent, printed[0].text);
  }

  lemma MappingItemIs(entries: seq<Entry>, lines: seq<Line>, pos: nat, indent: nat, head: string)
    requires SequenceAt(lines, pos, indent) && head == Strip(lines[pos].text[2..]) && head != "" && OpensMapping(head)
    requires var item := ItemLines(lines, pos, indent, head);
             MappingFrom(item, 0, indent + 2, []) == Ok((entries, |item|))
    ensures ItemAt(lines, pos, indent) == Ok((Mapping(entries), pos + |ItemLines(lines, pos, indent, head)|))
  {
    hide ItemLines, MappingFrom, OpensMapping, Strip;
  }

  /** A bulleted block stands as its dashed head and the rest of its lines. */
  lemma BulletStands(printed: seq<Line>, lines: seq<Line>, pos: nat, indent: nat)
    requires printed != [] && pos < |lines| && Trim(printed[0].text) && StandsAt(lines, pos, Bulleted(printed, indent))
    ensures |Bulleted(printed, indent)| == |printed| && StandsAt(lines, pos + 1, printed[1..])
    ensures |lines[pos].text| >= 2 && Strip(lines[pos].text[2..]) == printed[0].text
  {
    hide StandsAt, Strip, Trim;
    var bullet, head := Bulleted(printed, indent), printed[0].text;
    StripTrim(head);
    AtFirst(lines, pos, bullet);
    assert ("- " + head)[2..] == head;
    assert bullet == [bullet[0]] + printed[1..];
    AtSplit(lines, pos, [bullet[0]], printed[1..]);
  }

  /** The lines gathered for a printed item are its mapping's own printed lines, and all of them. */
  lemma ItemStands(members: seq<Member>, lines: seq<Line>, pos: nat, indent: nat, ascii: bool)
    requires members != [] && LegalEntries(members, ascii) && pos < |lines|
    requires var bullet := Bulleted(PrintEntries(members, indent + 2), indent);
             StandsAt(lines, pos, bullet) && Ends(lines, pos + |bullet|, indent + 1)
    ensures var printed := PrintEntries(members, indent + 2);
            && printed != [] && |Bulleted(printed, indent)| == |printed|
            && Strip(lines[pos].text[2..]) == printed[0].text && OpensMapping(printed[0].text) && printed[0].text != ""
            && var item := ItemLines(lines, pos, indent, printed[0].text);
               |item| == |printed| && StandsAt(item, 0, printed) && Ends(item, |printed|, indent + 2)
  {
    hide StandsAt, PrintEntries, ItemLines, LegalEntries, OpensMapping, ItemEnd, Bulleted, Strip, Holdable, Kept;
    var printed := PrintEntries(members, indent + 2);
    EntriesPrinted(members, indent + 2, ascii);
    FirstEntryKeys(members, indent + 2, ascii);
    var head := printed[0].text;
    assert Stable(head, ascii);
    BulletStands(printed, lines, pos, indent);
    ItemEndsWhereItsLinesDo(lines, pos + 1, pos + |printed|, indent, printed[1..]);
    ItemIsPrinted(lines, pos, indent, head, printed);
  }

  /** The continuation of an item is every deeper line, up to the next item or the end of the block. */
  lemma {:induction false} ItemEndsWhereItsLinesDo(lines: seq<Line>, probe: nat, end: nat, indent: nat, rest: seq<Line>)
    requires StandsAt(lines, probe, rest) && probe + |rest| == end
    requires forall i :: 0 <= i < |rest| ==> rest[i].indent >= indent + 2
    requires Ends(lines, end, indent + 1)
    ensures ItemEnd(lines, probe, indent + 2, indent) == end
    decreases |rest|
  {
    if rest != [] {
      assert forall i :: 0 <= i < |rest[1..]| ==> rest[1..][i] == rest[i + 1];
      ItemEndsWhereItsLinesDo(lines, probe + 1, end, indent, rest[1..]);
    }
  }

  lemma ItemIsPrinted(lines: seq<Line>, pos: nat, indent: nat, head: string, printed: seq<Line>)
    requires pos < |lines| && printed != [] && head == printed[0].text && printed[0].indent == indent + 2
    requires StandsAt(lines, pos + 1, printed[1..])
    requires ItemEnd(lines, pos + 1, indent + 2, indent) == pos + |printed|
    ensures var item := ItemLines(lines, pos, indent, head); |item| == |printed| && StandsAt(item, 0, printed)
  {
    hide ItemEnd, StandsAt, Copied, ItemLines;
    var item := ItemLines(lines, pos, indent, head);
    ItemIs(lines, pos, indent, head, item[0], pos + |printed|);
    ItemCopies(lines, pos, pos + |printed|, item);
    AtHeadAndCopy(lines, pos + 1, item, printed);
  }

  lemma ItemCopies(lines: seq<Line>, pos: nat, end: nat, item: seq<Line>)
    requires pos + 1 <= end <= |lines| && item != [] && item == [item[0]] + lines[pos + 1..end]
    ensures |item| == end - pos && Copied(lines, pos + 1, item, 1, end - pos - 1)
  {
    hide Copied;
    CopiedAfterHead(lines, pos + 1, end, item[0], 0);
  }

  lemma ItemIs(lines: seq<Line>, pos: nat, indent: nat, head: string, first: Line, end: nat)
    requires pos < |lines| && first == ItemLines(lines, pos, indent, head)[0]
    requires end == ItemEnd(lines, pos + 1, indent + 2, indent)
    ensures pos + 1 <= end <= |lines| && first.indent == indent + 2 && first.text == head
    ensures ItemLines(lines, pos, indent, head) == [first] + lines[pos + 1..end]
  {
    hide ItemEnd;
  }

  lemma AtHeadAndCopy(lines: seq<Line>, pos: nat, item: seq<Line>, printed: seq<Line>)
    requires printed != [] && |item| == |printed|
    requires item[0].indent == printed[0].indent && item[0].text == printed[0].text
    requires StandsAt(lines, pos, printed[1..]) && Copied(lines, pos, item, 1, |printed| - 1)
    ensures StandsAt(item, 0, printed)
  {
    AtCopied(lines, pos, item, 1, printed[1..]);
  }

  /** ROUND TRIP: every mapping of the subset, each of its scalars written plain where it can be, single-quoted where it
      can be, or double-quoted, in flow lists too, is parsed to itself. */
  lemma ParsePrinted(w: Written, asciiOnly: bool)
    requires w.Table? && LegalTree(w, asciiOnly)
    ensures Document(SplitLines(TextOf(w)), asciiOnly) == Ok(TreeOf(w))
  {
    hide TreeOf;
    var printed := PrintTree(w, 0);
    TreePrinted(w, 0, asciiOnly);
    var raw := RawLines(printed);
    forall i | 0 <= i < |raw| ensures '\n' !in raw[i] {
      assert Stable(printed[i].text, asciiOnly);
    }
    SplitJoined(raw);
    if asciiOnly { PrintedIsAscii(printed, 1); }
    PrintedLinesRead(printed, asciiOnly, 1);
    var lines := LogicalFrom(raw, 1).value;
    AtWhole(lines, printed, 0);
    assert printed[0..] == printed;
    BlockParses(w, lines, 0, 0, |printed|, asciiOnly);
    TableIsMapping(w);
  }

  lemma TableIsMapping(w: Written)
    requires w.Table?
    ensures TreeOf(w).Mapping?
  {
  }

  /* ---------------------------------------------------------------- every tree can be written */

  /** The tree with every scalar double-quoted. */
  function Doubled(tree: Tree): Written {
    match tree
    case Scalar(text) => Word(Spelling(text, Double))
    case Flow(items) => List(seq(|items|, i requires 0 <= i < |items| => Spelling(items[i], Double)))
    case Block(children) => Items(DoubledTrees(children))
    case Mapping(entries) => Table(DoubledEntries(entries))
  }

  function DoubledTrees(children: seq<Tree>): seq<Written> {
    if children == [] then [] else [Doubled(children[0])] + DoubledTrees(children[1..])
  }

  function DoubledEntries(entries: seq<Entry>): seq<Member> {
    if entries == [] then [] else [Member(entries[0].key, Doubled(entries[0].value))] + DoubledEntries(entries[1..])
  }

  /** EVERY TREE OF THE SUBSET CAN BE WRITTEN, and so is some document's parse. */
  lemma {:induction false} EveryTreeIsWritten(tree: Tree, asciiOnly: bool)
    requires SubsetTree(tree, asciiOnly)
    ensures TreeOf(Doubled(tree)) == tree && LegalTree(Doubled(tree), asciiOnly)
    decreases tree, 0
  {
    match tree
    case Scalar(_) =>
    case Flow(items) => assert TextsOf(Doubled(tree).tokens) == items;
    case Block(children) => EveryTreesAreWritten(children, asciiOnly);
    case Mapping(entries) => EveryEntryIsWritten(entries, asciiOnly);
  }

  lemma {:induction false} EveryTreesAreWritten(children: seq<Tree>, asciiOnly: bool)
    requires SubsetChildren(children, asciiOnly)
    ensures TreesOf(DoubledTrees(children)) == children && LegalChildren(DoubledTrees(children), asciiOnly)
    decreases children, 0
  {
    if children != [] {
      EveryTreeIsWritten(children[0], asciiOnly);
      EveryTreesAreWritten(children[1..], asciiOnly);
      assert DoubledTrees(children)[1..] == DoubledTrees(children[1..]);
      assert [children[0]] + children[1..] == children;
    }
  }

  lemma {:induction false} EveryEntryIsWritten(entries: seq<Entry>, asciiOnly: bool)
    requires SubsetEntries(entries, asciiOnly)
    ensures EntriesOf(DoubledEntries(entries)) == entries && LegalEntries(DoubledEntries(entries), asciiOnly)
    decreases entries, 0
  {
    if entries != [] {
      EveryTreeIsWritten(entries[0].value, asciiOnly);
      EveryEntryIsWritten(entries[1..], asciiOnly);
      assert DoubledEntries(entries)[1..] == DoubledEntries(entries[1..]);
      assert [entries[0]] + entries[1..] == entries;
    }
  }
}
