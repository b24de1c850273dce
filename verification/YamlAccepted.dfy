/** What the YAML subset accepts (codegen_common.py:95-343): the trees that some document parses to are exactly the trees
    of the subset, so a repeated or illegal key, an empty block or a bad character is refused wherever it stands. */
module YamlAccepted {
  import opened Options
  import opened Strings
  import opened YamlSubset
  import opened YamlBlocks
  import opened YamlTokens
  import opened YamlRoundTrip

  /* ---------------------------------------------------------------- nothing is read that was not written */

  /** Every character of the part is one of the whole's. */
  predicate From(part: string, whole: string) {
    forall c <- part :: c in whole
  }

  lemma FromHoldable(part: string, whole: string, ascii: bool)
    requires From(part, whole) && Holdable(whole, ascii)
    ensures Holdable(part, ascii)
  {
    forall i | 0 <= i < |part|
      ensures part[i] != '\n' && part[i] != '\t' && (ascii ==> 0x20 <= part[i] as int <= 0x7E)
    {
      assert part[i] in part;
    }
  }

  lemma {:induction false} StripFrom(s: string)
    ensures From(Strip(s), s)
  {
    RstripFrom(s);
    LstripFrom(Rstrip(s));
  }

  lemma {:induction false} RstripFrom(s: string)
    ensures From(Rstrip(s), s)
  {
    if s != "" && Space(s[|s| - 1]) { RstripFrom(s[..|s| - 1]); }
  }

  lemma {:induction false} LstripFrom(s: string)
    ensures From(Lstrip(s), s)
  {
    if s != "" && Space(s[0]) { LstripFrom(s[1..]); }
  }

  lemma {:induction false} ColonFrom(text: string)
    ensures From(BeforeColon(text), text) && From(AfterColon(text), text)
  {
    if text != "" { ColonFrom(text[1..]); }
  }

  lemma {:induction false} UnescapedFrom(body: string, line: nat)
    requires Unescaped(body, line).Ok?
    ensures From(Unescaped(body, line).value, body)
    decreases |body|
  {
    if body != "" {
      if body[0] == '\\' {
        UnescapedFrom(body[2..], line);
        assert Unescaped(body, line).value == body[1..2] + Unescaped(body[2..], line).value;
      } else {
        UnescapedFrom(body[1..], line);
        assert Unescaped(body, line).value == body[..1] + Unescaped(body[1..], line).value;
      }
    }
  }

  lemma ScalarFrom(raw: string, line: nat)
    requires ScalarOf(raw, line).Ok?
    ensures From(ScalarOf(raw, line).value, raw)
  {
    hide Strip, Unescaped, PlainScalar;
    StripFrom(raw);
    var token := Strip(raw);
    if token != "" && token[0] == '"' {
      UnescapedFrom(token[1..|token| - 1], line);
    }
  }

  lemma {:induction false} PiecesFrom(s: string, quote: Option<char>, line: nat)
    requires Pieces(s, quote, line).Ok?
    ensures forall piece <- Pieces(s, quote, line).value :: From(piece, s)
    decreases |s|
  {
    if s != "" {
      var quoted := quote.Some?;
      if quoted && s[0] == '\\' && quote.value == '"' {
        FrontFrom(s, 2, quote, line);
      } else if quoted {
        FrontFrom(s, 1, if s[0] == quote.value then None else quote, line);
      } else if s[0] == '\'' || s[0] == '"' {
        FrontFrom(s, 1, Some(s[0]), line);
      } else if s[0] == ',' {
        PiecesFrom(s[1..], None, line);
      } else {
        FrontFrom(s, 1, None, line);
      }
    }
  }

  lemma {:induction false} FrontFrom(s: string, n: nat, quote: Option<char>, line: nat)
    requires 0 < n <= |s| && Pieces(s[n..], quote, line).Ok?
    ensures forall piece <- PrependFirst(s[..n], Pieces(s[n..], quote, line)).value :: From(piece, s)
    decreases |s|, 0
  {
    PiecesFrom(s[n..], quote, line);
    var rest := Pieces(s[n..], quote, line).value;
    hide Pieces;
    var all := [s[..n] + rest[0]] + rest[1..];
    forall piece | piece in all ensures From(piece, s) {
      assert rest[0] in rest && forall p <- rest[1..] :: p in rest;
    }
  }

  lemma {:induction false} ItemsFrom(pieces: seq<string>, line: nat, whole: string)
    requires FlowItems(pieces, line).Ok? && forall piece <- pieces :: From(piece, whole)
    ensures forall item <- FlowItems(pieces, line).value :: From(item, whole)
    decreases |pieces|
  {
    hide ScalarOf;
    if pieces != [] {
      assert pieces[0] in pieces && forall p <- pieces[1..] :: p in pieces;
      ScalarFrom(pieces[0], line);
      ItemsFrom(pieces[1..], line, whole);
    }
  }

  lemma FlowFrom(raw: string, line: nat)
    requires Strip(raw) != "" && Strip(raw)[0] == '[' && FlowOf(raw, line).Ok?
    ensures forall item <- FlowOf(raw, line).value :: From(item, raw)
  {
    hide Strip, Pieces, FlowItems;
    var body := Strip(raw);
    StripFrom(raw);
    var inside := body[1..|body| - 1];
    var inner := Strip(inside);
    StripFrom(inside);
    if inner != "" {
      PiecesFrom(inner, None, line);
      var pieces := Pieces(inner, None, line).value;
      forall piece | piece in pieces ensures From(piece, raw) {
        assert From(piece, inner) && From(inner, inside) && From(inside, body);
      }
      ItemsFrom(pieces, line, raw);
    }
  }

  lemma InlineIsSubset(rest: string, line: nat, ascii: bool)
    requires rest == Strip(rest) && rest != "" && InlineValue(rest, line).Ok? && Holdable(rest, ascii)
    ensures SubsetTree(InlineValue(rest, line).value, ascii)
  {
    hide Strip, ScalarOf, FlowOf, Holdable;
    if rest[0] == '[' {
      FlowFrom(rest, line);
      var items := FlowOf(rest, line).value;
      forall i | 0 <= i < |items| ensures Holdable(items[i], ascii) {
        assert items[i] in items;
        FromHoldable(items[i], rest, ascii);
      }
    } else {
      ScalarFrom(rest, line);
      FromHoldable(ScalarOf(rest, line).value, rest, ascii);
    }
  }

  /* ---------------------------------------------------------------- what the block parser makes */

  predicate HoldLines(lines: seq<Line>, ascii: bool) {
    forall i :: 0 <= i < |lines| ==> Holdable(lines[i].text, ascii)
  }

  /** Members of the subset, no two under one key. */
  predicate GoodEntries(entries: seq<Entry>, ascii: bool) {
    (forall i :: 0 <= i < |entries| ==> SubsetEntry(entries[i], ascii))
    && forall i, j :: 0 <= i < j < |entries| ==> entries[i].key != entries[j].key
  }

  lemma {:induction false} GoodIsSubset(entries: seq<Entry>, ascii: bool)
    requires GoodEntries(entries, ascii)
    ensures SubsetEntries(entries, ascii)
    decreases |entries|
  {
    hide SubsetEntry;
    if entries != [] {
      assert forall i :: 0 <= i < |entries[1..]| ==> entries[1..][i] == entries[i + 1];
      GoodIsSubset(entries[1..], ascii);
    }
  }

  predicate GoodChildren(children: seq<Tree>, ascii: bool) {
    forall i :: 0 <= i < |children| ==> SubsetChild(children[i], ascii)
  }

  lemma {:induction false} GoodAreSubset(children: seq<Tree>, ascii: bool)
    requires GoodChildren(children, ascii)
    ensures SubsetChildren(children, ascii)
    decreases |children|
  {
    hide SubsetChild;
    if children != [] {
      assert forall i :: 0 <= i < |children[1..]| ==> children[1..][i] == children[i + 1];
      GoodAreSubset(children[1..], ascii);
    }
  }

  lemma {:induction false} BlockIsSubset(lines: seq<Line>, pos: nat, indent: nat, ascii: bool)
    requires pos <= |lines| && HoldLines(lines, ascii) && BlockFrom(lines, pos, indent).Ok?
    ensures SubsetTree(BlockFrom(lines, pos, indent).value.0, ascii)
    decreases |lines| - pos, 4
  {
    hide SequenceFrom, MappingFrom, HoldLines;
    if Dash(lines[pos].text) {
      SequenceIsGood(lines, pos, indent, [], ascii);
      GoodAreSubset(SequenceFrom(lines, pos, indent, []).value.0, ascii);
    } else {
      MappingIsGood(lines, pos, indent, [], ascii);
      GoodIsSubset(MappingFrom(lines, pos, indent, []).value.0, ascii);
    }
  }

  lemma {:induction false} MemberIsSubset(lines: seq<Line>, pos: nat, indent: nat, sofar: seq<Entry>, ascii: bool)
    requires MappingAt(lines, pos, indent) && HoldLines(lines, ascii) && MemberAt(lines, pos, indent, sofar).Ok?
    ensures var entry := MemberAt(lines, pos, indent, sofar).value.0;
            SubsetEntry(entry, ascii) && !HasKey(sofar, entry.key)
    decreases |lines| - pos, 0
  {
    hide BlockFrom, Strip, BeforeColon, AfterColon, InlineValue, Holdable, SubsetTree;
    var line := lines[pos];
    var rest := Strip(AfterColon(line.text));
    if rest != "" {
      StripTwice(AfterColon(line.text));
      ColonFrom(line.text);
      StripFrom(AfterColon(line.text));
      FromHoldable(rest, line.text, ascii);
      InlineIsSubset(rest, line.number, ascii);
    } else {
      BlockIsSubset(lines, pos + 1, lines[pos + 1].indent, ascii);
    }
  }

  lemma {:induction false} MappingIsGood(lines: seq<Line>, pos: nat, indent: nat, sofar: seq<Entry>, ascii: bool)
    requires pos <= |lines| && HoldLines(lines, ascii) && MappingFrom(lines, pos, indent, sofar).Ok? && GoodEntries(sofar, ascii)
    ensures GoodEntries(MappingFrom(lines, pos, indent, sofar).value.0, ascii)
    ensures sofar != [] || MappingAt(lines, pos, indent) ==> MappingFrom(lines, pos, indent, sofar).value.0 != []
    decreases |lines| - pos, 1
  {
    hide MemberAt, SubsetEntry, HoldLines;
    if MappingAt(lines, pos, indent) {
      var (entry, next) := MemberAt(lines, pos, indent, sofar).value;
      MemberIsSubset(lines, pos, indent, sofar, ascii);
      GoodNext(sofar, entry, ascii);
      MappingIsGood(lines, next, indent, sofar + [entry], ascii);
    }
  }

  lemma GoodNext(sofar: seq<Entry>, entry: Entry, ascii: bool)
    requires GoodEntries(sofar, ascii) && SubsetEntry(entry, ascii) && !HasKey(sofar, entry.key)
    ensures GoodEntries(sofar + [entry], ascii)
  {
    hide SubsetEntry;
  }

  lemma {:induction false} ItemIsSubset(lines: seq<Line>, pos: nat, indent: nat, ascii: bool)
    requires SequenceAt(lines, pos, indent) && HoldLines(lines, ascii) && ItemAt(lines, pos, indent).Ok?
    ensures SubsetChild(ItemAt(lines, pos, indent).value.0, ascii)
    decreases |lines| - pos, 2
  {
    hide MappingFrom, Strip, ScalarOf, Holdable, OpensMapping, ItemLines, SubsetEntry;
    var head := Strip(lines[pos].text[2..]);
    StripFrom(lines[pos].text[2..]);
    FromHoldable(head, lines[pos].text, ascii);
    if OpensMapping(head) {
      var item := ItemLines(lines, pos, indent, head);
      ItemHolds(lines, pos, indent, head, ascii);
      MappingIsGood(item, 0, indent + 2, [], ascii);
      GoodIsSubset(MappingFrom(item, 0, indent + 2, []).value.0, ascii);
    } else {
      ScalarFrom(head, lines[pos].number);
      FromHoldable(ScalarOf(head, lines[pos].number).value, head, ascii);
    }
  }

  lemma ItemHolds(lines: seq<Line>, pos: nat, indent: nat, head: string, ascii: bool)
    requires pos < |lines| && HoldLines(lines, ascii) && Holdable(head, ascii) && OpensMapping(head)
    ensures HoldLines(ItemLines(lines, pos, indent, head), ascii) && MappingAt(ItemLines(lines, pos, indent, head), 0, indent + 2)
  {
    hide Holdable, Strip;
    var item := ItemLines(lines, pos, indent, head);
    assert item[0] == Line(indent + 2, head, lines[pos].number);
    HeadIsNoDash(head);
    forall i | 0 < i < |item| ensures Holdable(item[i].text, ascii) { assert item[i] == lines[pos + i]; }
  }

  lemma HeadIsNoDash(head: string)
    requires OpensMapping(head)
    ensures !Dash(head)
  {
    if Dash(head) {
      assert BeforeColon(head)[0] == '-';
      FirstSurvivesStrip(BeforeColon(head));
    }
  }

  lemma {:induction false} SequenceIsGood(lines: seq<Line>, pos: nat, indent: nat, sofar: seq<Tree>, ascii: bool)
    requires pos <= |lines| && HoldLines(lines, ascii) && SequenceFrom(lines, pos, indent, sofar).Ok? && GoodChildren(sofar, ascii)
    ensures GoodChildren(SequenceFrom(lines, pos, indent, sofar).value.0, ascii)
    ensures sofar != [] || SequenceAt(lines, pos, indent) ==> SequenceFrom(lines, pos, indent, sofar).value.0 != []
    decreases |lines| - pos, 3
  {
    hide ItemAt, SubsetChild, HoldLines;
    if SequenceAt(lines, pos, indent) {
      var (item, next) := ItemAt(lines, pos, indent).value;
      ItemIsSubset(lines, pos, indent, ascii);
      SequenceIsGood(lines, next, indent, sofar + [item], ascii);
    }
  }

  /* ---------------------------------------------------------------- whole documents */

  lemma {:induction false} KeptFrom(s: string, quote: Option<char>, line: nat)
    requires Kept(s, quote, line).Ok?
    ensures From(Kept(s, quote, line).value, s)
    decreases |s|
  {
    if s != "" {
      if quote.Some? {
        if s[0] == '\\' && quote.value == '"' {
          KeptFrom(s[2..], quote, line);
        } else {
          KeptFrom(s[1..], if s[0] == quote.value then None else quote, line);
        }
      } else if s[0] == '\'' || s[0] == '"' {
        KeptFrom(s[1..], Some(s[0]), line);
      } else if s[0] != '#' {
        KeptFrom(s[1..], None, line);
      }
    }
  }

  lemma {:induction false} LogicalHold(raw: seq<string>, number: nat, ascii: bool)
    requires LogicalFrom(raw, number).Ok? && (forall line <- raw :: '\n' !in line) && (ascii ==> NonAsciiLine(raw, number) == 0)
    requires number > 0
    ensures HoldLines(LogicalFrom(raw, number).value, ascii)
    decreases |raw|
  {
    hide Stripped, Strip, SpacesAt, Holdable;
    if raw != [] {
      assert raw[0] in raw && forall line <- raw[1..] :: line in raw;
      LogicalHold(raw[1..], number + 1, ascii);
      var kept := Stripped(raw[0], number);
      LineHolds(raw[0], number, ascii);
    }
  }

  lemma LineHolds(line: string, number: nat, ascii: bool)
    requires Stripped(line, number).Ok? && '\n' !in line && '\t' !in line
    requires ascii ==> forall i :: 0 <= i < |line| ==> line[i] == '\t' || 0x20 <= line[i] as int <= 0x7E
    ensures Holdable(Strip(Stripped(line, number).value), ascii)
  {
    hide Strip, Kept;
    KeptFrom(line, None, number);
    var kept := Kept(line, None, number).value;
    RstripFrom(kept);
    StripFrom(Rstrip(kept));
    assert Holdable(line, ascii) by { assert forall i :: 0 <= i < |line| ==> line[i] in line; }
    FromHoldable(Strip(Rstrip(kept)), line, ascii);
  }

  lemma {:induction false} SplitIsClean(text: string)
    ensures forall line <- SplitLines(text) :: '\n' !in line
  {
    if text != "" {
      SplitIsClean(text[1..]);
      if text[0] != '\n' {
        var rest := SplitLines(text[1..]);
        assert rest[0] in rest && forall line <- rest[1..] :: line in rest;
      }
    }
  }

  /** WHAT IS ACCEPTED is of the subset: legal keys, none of them twice in one mapping, no empty block, no list of lists,
      scalars of one line and of the document's characters. */
  lemma ParsedIsSubset(text: string, ascii: bool)
    requires Document(SplitLines(text), ascii).Ok?
    ensures var tree := Document(SplitLines(text), ascii).value; tree.Mapping? && SubsetTree(tree, ascii)
  {
    hide LogicalFrom, BlockFrom, SplitLines, SubsetTree;
    SplitIsClean(text);
    var lines := LogicalFrom(SplitLines(text), 1).value;
    LogicalHold(SplitLines(text), 1, ascii);
    BlockIsSubset(lines, 0, 0, ascii);
  }

  /** THE SUBSET, exactly: a tree is some document's parse if and only if it is a mapping of the subset. */
  lemma AcceptedIff(tree: Tree, ascii: bool)
    ensures (exists text :: Document(SplitLines(text), ascii) == Ok(tree)) <==> tree.Mapping? && SubsetTree(tree, ascii)
  {
    hide Document, SplitLines, SubsetTree, TreeOf, LegalTree;
    if text :| Document(SplitLines(text), ascii) == Ok(tree) { ParsedIsSubset(text, ascii); }
    if tree.Mapping? && SubsetTree(tree, ascii) {
      EveryTreeIsWritten(tree, ascii);
      ParsePrinted(Doubled(tree), ascii);
      assert Document(SplitLines(TextOf(Doubled(tree))), ascii) == Ok(tree);
    }
  }
}
