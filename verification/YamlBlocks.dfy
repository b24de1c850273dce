/** The block parser of the YAML subset (codegen_common.py, `_logical_lines` to `parse_subset_yaml`): its functions,
    the methods that compute them, and that a parse reads every logical line exactly once, in order. */
module YamlBlocks {
  import opened Strings
  import opened YamlSubset

  datatype Line = Line(indent: nat, text: string, number: nat)

  /** What a document parses to. The source's result forgets whether a list was a flow or a block; `Value` below
      forgets it too. */
  datatype Tree =
    | Scalar(text: string)
    | Flow(items: seq<string>)
    | Block(children: seq<Tree>)
    | Mapping(entries: seq<Entry>)

  datatype Entry = Entry(key: string, value: Tree)

  predicate Dash(text: string) {
    |text| >= 2 && text[0] == '-' && text[1] == ' '
  }

  predicate HasKey(entries: seq<Entry>, key: string) {
    exists i :: 0 <= i < |entries| && entries[i].key == key
  }

  /* ---------------------------------------------------------------- logical lines */

  function SpacesAt(s: string): nat {
    if s != "" && s[0] == ' ' then 1 + SpacesAt(s[1..]) else 0
  }

  /** The logical lines of the rest of a text, its first line numbered `number`. */
  function LogicalFrom(raw: seq<string>, number: nat): Parsed<seq<Line>> {
    if raw == [] then Ok([])
    else if '\t' in raw[0] then Fail(number, Tab)
    else
      var stripped := Stripped(raw[0], number);
      if stripped.Fail? then Fail(stripped.line, stripped.fault)
      else
        var rest := LogicalFrom(raw[1..], number + 1);
        if rest.Fail? || Strip(stripped.value) == "" then rest
        else Ok([Line(SpacesAt(stripped.value), Strip(stripped.value), number)] + rest.value)
  }

  function Joined(lines: seq<Line>, rest: Parsed<seq<Line>>): Parsed<seq<Line>> {
    if rest.Ok? then Ok(lines + rest.value) else rest
  }

  /** `_logical_lines`. */
  method LogicalLines(text: string) returns (result: Parsed<seq<Line>>)
    ensures result == LogicalFrom(SplitLines(text), 1)
  {
    hide SplitLines, Stripped, Strip, SpacesAt, Kept;
    var raw := SplitLines(text);
    var lines: seq<Line> := [];
    assert raw[0..] == raw;
    assert Joined([], LogicalFrom(raw, 1)) == LogicalFrom(raw, 1) by {
      if LogicalFrom(raw, 1).Ok? { assert [] + LogicalFrom(raw, 1).value == LogicalFrom(raw, 1).value; }
    }
    for i := 0 to |raw|
      invariant LogicalFrom(raw, 1) == Joined(lines, LogicalFrom(raw[i..], 1 + i))
    {
      assert raw[i..][0] == raw[i] && raw[i..][1..] == raw[i + 1..];
      if '\t' in raw[i] { return Fail(i + 1, Tab); }
      var stripped := StripComment(raw[i], i + 1);
      if stripped.Fail? { return Fail(stripped.line, stripped.fault); }
      if Strip(stripped.value) == "" { continue; }
      var line := Line(SpacesAt(stripped.value), Strip(stripped.value), i + 1);
      ghost var rest := LogicalFrom(raw[i + 1..], i + 2);
      if rest.Ok? { assert lines + ([line] + rest.value) == lines + [line] + rest.value; }
      lines := lines + [line];
    }
    assert lines + [] == lines;
    result := Ok(lines);
  }

  /* ---------------------------------------------------------------- the parser */

  /** The value on a key's own line. */
  function InlineValue(rest: string, line: nat): Parsed<Tree>
    requires rest == Strip(rest) && rest != ""
  {
    if rest[0] == '[' then
      var flow := FlowOf(rest, line);
      if flow.Ok? then Ok(Flow(flow.value)) else Fail(flow.line, flow.fault)
    else
      var scalar := ScalarOf(rest, line);
      if scalar.Ok? then Ok(Scalar(scalar.value)) else Fail(scalar.line, scalar.fault)
  }

  lemma {:induction false} RstripTwice(s: string)
    ensures Rstrip(Rstrip(s)) == Rstrip(s)
    ensures Rstrip(s) != "" ==> !Space(Rstrip(s)[|Rstrip(s)| - 1])
  {
    if s != "" && Space(s[|s| - 1]) { RstripTwice(s[..|s| - 1]); }
  }

  lemma {:induction false} LstripTwice(s: string)
    ensures Lstrip(s) == "" || (!Space(Lstrip(s)[0]) && s != "" && Lstrip(s)[|Lstrip(s)| - 1] == s[|s| - 1])
  {
    if s != "" && Space(s[0]) { LstripTwice(s[1..]); }
  }

  lemma StripTwice(s: string)
    ensures Strip(Strip(s)) == Strip(s)
    ensures Strip(s) == "" || Trim(Strip(s))
  {
    RstripTwice(s);
    LstripTwice(Rstrip(s));
    if Strip(s) != "" { StripTrim(Strip(s)); }
  }

  /** An item whose text opens an inline mapping. */
  predicate OpensMapping(head: string) {
    ':' in head && LegalKey(Strip(BeforeColon(head)))
  }

  /** Where the lines of a `- key:` item end. */
  function ItemEnd(lines: seq<Line>, probe: nat, item: nat, indent: nat): (end: nat)
    requires probe <= |lines|
    ensures probe <= end <= |lines|
    decreases |lines| - probe
  {
    if probe < |lines| && lines[probe].indent >= item && !(lines[probe].indent == indent && Dash(lines[probe].text))
    then ItemEnd(lines, probe + 1, item, indent)
    else probe
  }

  predicate MappingAt(lines: seq<Line>, pos: nat, indent: nat) {
    pos < |lines| && lines[pos].indent == indent && !Dash(lines[pos].text)
  }

  predicate SequenceAt(lines: seq<Line>, pos: nat, indent: nat) {
    pos < |lines| && lines[pos].indent == indent && Dash(lines[pos].text)
  }

  function NumberBefore(lines: seq<Line>, pos: nat): nat {
    if 0 < pos <= |lines| then lines[pos - 1].number else 0
  }

  function BlockFrom(lines: seq<Line>, pos: nat, indent: nat): (r: Parsed<(Tree, nat)>)
    requires pos <= |lines|
    ensures r.Ok? ==> pos < r.value.1 <= |lines|
    decreases |lines| - pos, 4
  {
    if pos >= |lines| || lines[pos].indent != indent then Fail(NumberBefore(lines, pos), EmptyBlock)
    else if Dash(lines[pos].text) then
      var block := SequenceFrom(lines, pos, indent, []);
      if block.Ok? then Ok((Block(block.value.0), block.value.1)) else Fail(block.line, block.fault)
    else
      var mapping := MappingFrom(lines, pos, indent, []);
      if mapping.Ok? then Ok((Mapping(mapping.value.0), mapping.value.1)) else Fail(mapping.line, mapping.fault)
  }

  /** One turn of the loop of `_parse_mapping`: a member, and where the next begins. `sofar`: the members read. */
  function MemberAt(lines: seq<Line>, pos: nat, indent: nat, sofar: seq<Entry>): (r: Parsed<(Entry, nat)>)
    requires MappingAt(lines, pos, indent)
    ensures r.Ok? ==> pos < r.value.1 <= |lines|
    decreases |lines| - pos, 0
  {
    var line := lines[pos];
    var key, rest := Strip(BeforeColon(line.text)), Strip(AfterColon(line.text));
    if ':' !in line.text then Fail(line.number, ExpectedKey)
    else if !LegalKey(key) then Fail(line.number, BadKey)
    else if HasKey(sofar, key) then Fail(line.number, DuplicateKey)
    else if rest != "" then
      StripTwice(AfterColon(line.text));
      var value := InlineValue(rest, line.number);
      if value.Fail? then Fail(value.line, value.fault) else Ok((Entry(key, value.value), pos + 1))
    else if pos + 1 >= |lines| || lines[pos + 1].indent <= indent then Fail(line.number, NoValue)
    else
      var nested := BlockFrom(lines, pos + 1, lines[pos + 1].indent);
      if nested.Fail? then Fail(nested.line, nested.fault) else Ok((Entry(key, nested.value.0), nested.value.1))
  }

  /** The loop of `_parse_mapping`. */
  function MappingFrom(lines: seq<Line>, pos: nat, indent: nat, sofar: seq<Entry>): (r: Parsed<(seq<Entry>, nat)>)
    requires pos <= |lines|
    ensures r.Ok? ==> pos <= r.value.1 <= |lines|
    ensures r.Ok? && MappingAt(lines, pos, indent) ==> pos < r.value.1
    decreases |lines| - pos, 1
  {
    if !MappingAt(lines, pos, indent) then
      if SequenceAt(lines, pos, indent) then Fail(lines[pos].number, MixedKinds) else Ok((sofar, pos))
    else
      var member := MemberAt(lines, pos, indent, sofar);
      if member.Fail? then Fail(member.line, member.fault)
      else MappingFrom(lines, member.value.1, indent, sofar + [member.value.0])
  }

  /** The lines a `- key:` item is parsed from: its head as a line of its own, then its continuation. */
  function ItemLines(lines: seq<Line>, pos: nat, indent: nat, head: string): (item: seq<Line>)
    requires pos < |lines|
    ensures 0 < |item| <= |lines| - pos
  {
    [Line(indent + 2, head, lines[pos].number)] + lines[pos + 1..ItemEnd(lines, pos + 1, indent + 2, indent)]
  }

  /** One turn of the loop of `_parse_sequence`: an item, and where the next begins. */
  function ItemAt(lines: seq<Line>, pos: nat, indent: nat): (r: Parsed<(Tree, nat)>)
    requires SequenceAt(lines, pos, indent)
    ensures r.Ok? ==> pos < r.value.1 <= |lines|
    decreases |lines| - pos, 2
  {
    var head := Strip(lines[pos].text[2..]);
    if head == "" then Fail(lines[pos].number, BareItem)
    else if OpensMapping(head) then
      var item := ItemLines(lines, pos, indent, head);
      var parsed := MappingFrom(item, 0, indent + 2, []);
      if parsed.Fail? then Fail(parsed.line, parsed.fault)
      else if parsed.value.1 != |item| then Fail(item[parsed.value.1].number, BadIndent)
      else Ok((Mapping(parsed.value.0), pos + |item|))
    else
      var scalar := ScalarOf(head, lines[pos].number);
      if scalar.Fail? then Fail(scalar.line, scalar.fault) else Ok((Scalar(scalar.value), pos + 1))
  }

  /** The loop of `_parse_sequence`. */
  function SequenceFrom(lines: seq<Line>, pos: nat, indent: nat, sofar: seq<Tree>): (r: Parsed<(seq<Tree>, nat)>)
    requires pos <= |lines|
    ensures r.Ok? ==> pos <= r.value.1 <= |lines|
    ensures r.Ok? && SequenceAt(lines, pos, indent) ==> pos < r.value.1
    decreases |lines| - pos, 3
  {
    if !SequenceAt(lines, pos, indent) then Ok((sofar, pos))
    else
      var item := ItemAt(lines, pos, indent);
      if item.Fail? then Fail(item.line, item.fault)
      else SequenceFrom(lines, item.value.1, indent, sofar + [item.value.0])
  }

  /** `_parse_block`. */
  method ParseBlock(lines: seq<Line>, pos: nat, indent: nat) returns (r: Parsed<(Tree, nat)>)
    requires pos <= |lines|
    ensures r == BlockFrom(lines, pos, indent)
    decreases |lines| - pos, 2
  {
    if pos >= |lines| || lines[pos].indent != indent { return Fail(NumberBefore(lines, pos), EmptyBlock); }
    if Dash(lines[pos].text) {
      var block := ParseSequence(lines, pos, indent);
      return if block.Ok? then Ok((Block(block.value.0), block.value.1)) else Fail(block.line, block.fault);
    }
    var mapping := ParseMapping(lines, pos, indent);
    r := if mapping.Ok? then Ok((Mapping(mapping.value.0), mapping.value.1)) else Fail(mapping.line, mapping.fault);
  }

  /** The value on a key's own line, as `_parse_mapping` reads it. */
  method ParseInline(rest: string, line: nat) returns (r: Parsed<Tree>)
    requires rest == Strip(rest) && rest != ""
    ensures r == InlineValue(rest, line)
  {
    if rest[0] == '[' {
      var flow := ParseFlowSequence(rest, line);
      if flow.Fail? { return Fail(flow.line, flow.fault); }
      return Ok(Flow(flow.value));
    }
    var scalar := ParseScalar(rest, line);
    if scalar.Fail? { return Fail(scalar.line, scalar.fault); }
    r := Ok(Scalar(scalar.value));
  }

  /** `_parse_mapping`. */
  method ParseMapping(lines: seq<Line>, start: nat, indent: nat) returns (r: Parsed<(seq<Entry>, nat)>)
    requires start <= |lines|
    ensures r == MappingFrom(lines, start, indent, [])
    decreases |lines| - start, 0
  {
    hide BlockFrom, InlineValue, LegalKey;
    var mapping: seq<Entry>, pos := [], start;
    while MappingAt(lines, pos, indent)
      invariant start <= pos <= |lines|
      invariant MappingFrom(lines, start, indent, []) == MappingFrom(lines, pos, indent, mapping)
      decreases |lines| - pos
    {
      var line := lines[pos];
      if ':' !in line.text { return Fail(line.number, ExpectedKey); }
      var key, rest := Strip(BeforeColon(line.text)), Strip(AfterColon(line.text));
      if !LegalKey(key) { return Fail(line.number, BadKey); }
      if HasKey(mapping, key) { return Fail(line.number, DuplicateKey); }
      if rest != "" {
        StripTwice(AfterColon(line.text));
        var value := ParseInline(rest, line.number);
        if value.Fail? { return Fail(value.line, value.fault); }
        mapping, pos := mapping + [Entry(key, value.value)], pos + 1;
        continue;
      }
      if pos + 1 >= |lines| || lines[pos + 1].indent <= indent { return Fail(line.number, NoValue); }
      var nested := ParseBlock(lines, pos + 1, lines[pos + 1].indent);
      if nested.Fail? { return Fail(nested.line, nested.fault); }
      mapping, pos := mapping + [Entry(key, nested.value.0)], nested.value.1;
    }
    if SequenceAt(lines, pos, indent) { return Fail(lines[pos].number, MixedKinds); }
    r := Ok((mapping, pos));
  }

  /** The probe loop of `_parse_sequence`. */
  method GatherItem(lines: seq<Line>, pos: nat, indent: nat, head: string) returns (synthetic: seq<Line>)
    requires pos < |lines|
    ensures synthetic == ItemLines(lines, pos, indent, head)
  {
    var probe := pos + 1;
    synthetic := [Line(indent + 2, head, lines[pos].number)];
    while probe < |lines| && lines[probe].indent >= indent + 2
          && !(lines[probe].indent == indent && Dash(lines[probe].text))
      invariant pos + 1 <= probe <= |lines|
      invariant synthetic == [Line(indent + 2, head, lines[pos].number)] + lines[pos + 1..probe]
      invariant ItemEnd(lines, pos + 1, indent + 2, indent) == ItemEnd(lines, probe, indent + 2, indent)
    {
      synthetic, probe := synthetic + [lines[probe]], probe + 1;
    }
  }

  /** `_parse_sequence`. */
  method ParseSequence(lines: seq<Line>, start: nat, indent: nat) returns (r: Parsed<(seq<Tree>, nat)>)
    requires start <= |lines|
    ensures r == SequenceFrom(lines, start, indent, [])
    decreases |lines| - start, 1
  {
    hide OpensMapping, ItemEnd, ItemLines, MappingFrom, BlockFrom;
    var sequence: seq<Tree>, pos := [], start;
    while SequenceAt(lines, pos, indent)
      invariant start <= pos <= |lines|
      invariant SequenceFrom(lines, start, indent, []) == SequenceFrom(lines, pos, indent, sequence)
      decreases |lines| - pos
    {
      var line := lines[pos];
      var head := Strip(line.text[2..]);
      if head == "" { return Fail(line.number, BareItem); }
      if OpensMapping(head) {
        var synthetic := GatherItem(lines, pos, indent, head);
        var item := ParseMapping(synthetic, 0, indent + 2);
        if item.Fail? { return Fail(item.line, item.fault); }
        if item.value.1 != |synthetic| { return Fail(synthetic[item.value.1].number, BadIndent); }
        sequence, pos := sequence + [Mapping(item.value.0)], pos + |synthetic|;
        continue;
      }
      var scalar := ParseScalar(head, line.number);
      if scalar.Fail? { return Fail(scalar.line, scalar.fault); }
      sequence, pos := sequence + [Scalar(scalar.value)], pos + 1;
    }
    r := Ok((sequence, pos));
  }

  /** The first line holding a character outside printable ASCII, a tab apart; 0 when there is none. */
  function NonAsciiLine(raw: seq<string>, number: nat): nat {
    if raw == [] then 0
    else if exists i :: 0 <= i < |raw[0]| && raw[0][i] != '\t' && !(0x20 <= raw[0][i] as int <= 0x7E) then number
    else NonAsciiLine(raw[1..], number + 1)
  }

  /** What `parse_subset_yaml` makes of the logical lines. */
  function Rooted(lines: seq<Line>): Parsed<Tree> {
    if lines == [] then Fail(0, EmptyDocument)
    else if lines[0].indent != 0 then Fail(lines[0].number, TopIndent)
    else
      var node := BlockFrom(lines, 0, 0);
      if node.Fail? then Fail(node.line, node.fault)
      else if node.value.1 != |lines| then Fail(lines[node.value.1].number, Outside)
      else if !node.value.0.Mapping? then Fail(lines[0].number, TopNotMapping)
      else Ok(node.value.0)
  }

  function Document(raw: seq<string>, asciiOnly: bool): Parsed<Tree> {
    if asciiOnly && NonAsciiLine(raw, 1) != 0 then Fail(NonAsciiLine(raw, 1), NonAscii)
    else
      var lines := LogicalFrom(raw, 1);
      if lines.Fail? then Fail(lines.line, lines.fault) else Rooted(lines.value)
  }

  /** `parse_subset_yaml`. */
  method ParseSubsetYaml(text: string, asciiOnly: bool) returns (r: Parsed<Tree>)
    ensures r == Document(SplitLines(text), asciiOnly)
  {
    if asciiOnly {
      var fault := NonAsciiLine(SplitLines(text), 1);
      if fault != 0 { return Fail(fault, NonAscii); }
    }
    var lines := LogicalLines(text);
    if lines.Fail? { return Fail(lines.line, lines.fault); }
    if lines.value == [] { return Fail(0, EmptyDocument); }
    if lines.value[0].indent != 0 { return Fail(lines.value[0].number, TopIndent); }
    var node := ParseBlock(lines.value, 0, 0);
    if node.Fail? { return Fail(node.line, node.fault); }
    if node.value.1 != |lines.value| { return Fail(lines.value[node.value.1].number, Outside); }
    if !node.value.0.Mapping? { return Fail(lines.value[0].number, TopNotMapping); }
    r := Ok(node.value.0);
  }

  /* ---------------------------------------------------------------- every line is read once, in order */

  /** What one logical line says by itself. */
  datatype Token =
    | KeyValue(key: string, value: Tree)
    | KeyOpens(key: string)
    | Item(text: string)
    | ItemOpens(first: Token)
    | Unreadable

  function TextToken(text: string): Token {
    var key, rest := Strip(BeforeColon(text)), Strip(AfterColon(text));
    if ':' !in text || !LegalKey(key) then Unreadable
    else if rest == "" then KeyOpens(key)
    else
      StripTwice(AfterColon(text));
      var value := InlineValue(rest, 0);
      if value.Ok? then KeyValue(key, value.value) else Unreadable
  }

  function LineToken(text: string): Token {
    if !Dash(text) then TextToken(text)
    else
      var head := Strip(text[2..]);
      if OpensMapping(head) then ItemOpens(TextToken(head))
      else
        var scalar := ScalarOf(head, 0);
        if scalar.Ok? then Item(scalar.value) else Unreadable
  }

  /** The tokens of a tree, in document order. */
  function Tokens(tree: Tree): seq<Token> {
    match tree
    case Block(children) => ChildTokens(children)
    case Mapping(entries) => EntryTokens(entries)
    case _ => []
  }

  function EntryTokens(entries: seq<Entry>): seq<Token> {
    if entries == [] then [] else OneEntry(entries[0]) + EntryTokens(entries[1..])
  }

  function OneEntry(entry: Entry): seq<Token> {
    if entry.value.Scalar? || entry.value.Flow? then [KeyValue(entry.key, entry.value)]
    else [KeyOpens(entry.key)] + Tokens(entry.value)
  }

  function ChildTokens(children: seq<Tree>): seq<Token> {
    if children == [] then [] else OneChild(children[0]) + ChildTokens(children[1..])
  }

  function OneChild(child: Tree): seq<Token> {
    match child
    case Scalar(text) => [Item(text)]
    case Mapping(entries) =>
      var tokens := EntryTokens(entries);
      if tokens == [] then [] else [ItemOpens(tokens[0])] + tokens[1..]
    case _ => [Unreadable]
  }

  function LineTokens(lines: seq<Line>): seq<Token> {
    seq(|lines|, i requires 0 <= i < |lines| => LineToken(lines[i].text))
  }

  lemma LineTokensJoin(lines: seq<Line>, a: nat, b: nat, c: nat)
    requires a <= b <= c <= |lines|
    ensures LineTokens(lines[a..c]) == LineTokens(lines[a..b]) + LineTokens(lines[b..c])
  {
    assert lines[a..c] == lines[a..b] + lines[b..c];
  }

  lemma {:induction false} EntryTokensJoin(a: seq<Entry>, b: seq<Entry>)
    ensures EntryTokens(a + b) == EntryTokens(a) + EntryTokens(b)
  {
    if a == [] {
      assert a + b == b;
    } else {
      assert (a + b)[0] == a[0] && (a + b)[1..] == a[1..] + b;
      EntryTokensJoin(a[1..], b);
    }
  }

  lemma {:induction false} ChildTokensJoin(a: seq<Tree>, b: seq<Tree>)
    ensures ChildTokens(a + b) == ChildTokens(a) + ChildTokens(b)
  {
    if a == [] {
      assert a + b == b;
    } else {
      assert (a + b)[0] == a[0] && (a + b)[1..] == a[1..] + b;
      ChildTokensJoin(a[1..], b);
    }
  }

  lemma OneEntryTokens(entry: Entry)
    ensures EntryTokens([entry]) == OneEntry(entry)
  {
    assert OneEntry(entry) + [] == OneEntry(entry);
  }

  lemma OneChildTokens(child: Tree)
    ensures ChildTokens([child]) == OneChild(child)
  {
    assert OneChild(child) + [] == OneChild(child);
  }

  /** A line on which a mapping reads a key, read by itself. */
  lemma KeyLineToken(line: Line)
    requires !Dash(line.text) && ':' in line.text && LegalKey(Strip(BeforeColon(line.text)))
    ensures var key, rest := Strip(BeforeColon(line.text)), Strip(AfterColon(line.text));
            if rest == "" then LineToken(line.text) == KeyOpens(key)
            else rest == Strip(rest)
                 && (InlineValue(rest, line.number).Ok? ==>
                       LineToken(line.text) == KeyValue(key, InlineValue(rest, line.number).value))
  {
    var rest := Strip(AfterColon(line.text));
    StripTwice(AfterColon(line.text));
    if rest != "" {
      if rest[0] == '[' { FlowAlike(rest, line.number, 0); } else { ScalarAlike(rest, line.number, 0); }
    }
  }

  lemma {:induction false} BlockReadsEveryLine(lines: seq<Line>, pos: nat, indent: nat)
    requires pos <= |lines| && BlockFrom(lines, pos, indent).Ok?
    ensures var (tree, next) := BlockFrom(lines, pos, indent).value;
            (tree.Block? || tree.Mapping?) && Tokens(tree) == LineTokens(lines[pos..next])
    decreases |lines| - pos, 2
  {
    if Dash(lines[pos].text) { SequenceReadsEveryLine(lines, pos, indent, []); }
    else { MappingReadsEveryLine(lines, pos, indent, []); }
  }

  lemma {:induction false} MappingReadsEveryLine(lines: seq<Line>, pos: nat, indent: nat, sofar: seq<Entry>)
    requires pos <= |lines| && MappingFrom(lines, pos, indent, sofar).Ok?
    ensures var (entries, next) := MappingFrom(lines, pos, indent, sofar).value;
            EntryTokens(entries) == EntryTokens(sofar) + LineTokens(lines[pos..next])
    decreases |lines| - pos, 0, 1
  {
    if MappingAt(lines, pos, indent) {
      var next := MappingFrom(lines, pos, indent, sofar).value.1;
      var (entry, after) := MemberAt(lines, pos, indent, sofar).value;
      MemberReadsItsLines(lines, pos, indent, sofar);
      MappingReadsEveryLine(lines, after, indent, sofar + [entry]);
      EntryTokensJoin(sofar, [entry]);
      OneEntryTokens(entry);
      LineTokensJoin(lines, pos, after, next);
    } else {
      assert lines[pos..pos] == [];
    }
  }

  lemma {:induction false} MemberReadsItsLines(lines: seq<Line>, pos: nat, indent: nat, sofar: seq<Entry>)
    requires MappingAt(lines, pos, indent) && MemberAt(lines, pos, indent, sofar).Ok?
    ensures var (entry, after) := MemberAt(lines, pos, indent, sofar).value;
            OneEntry(entry) == LineTokens(lines[pos..after])
    decreases |lines| - pos, 0, 0
  {
    var line := lines[pos];
    KeyLineToken(line);
    var (entry, after) := MemberAt(lines, pos, indent, sofar).value;
    FirstToken(lines, pos, after);
    if Strip(AfterColon(line.text)) == "" {
      BlockReadsEveryLine(lines, pos + 1, lines[pos + 1].indent);
    } else {
      assert lines[pos + 1..after] == [];
    }
  }

  lemma {:induction false} SequenceReadsEveryLine(lines: seq<Line>, pos: nat, indent: nat, sofar: seq<Tree>)
    requires pos <= |lines| && SequenceFrom(lines, pos, indent, sofar).Ok?
    ensures var (children, next) := SequenceFrom(lines, pos, indent, sofar).value;
            ChildTokens(children) == ChildTokens(sofar) + LineTokens(lines[pos..next])
    decreases |lines| - pos, 1, 1
  {
    if SequenceAt(lines, pos, indent) {
      var head := Strip(lines[pos].text[2..]);
      var next := SequenceFrom(lines, pos, indent, sofar).value.1;
      var (child, after) := ItemAt(lines, pos, indent).value;
      if OpensMapping(head) {
        MappingItemReads(lines, pos, indent, head);
      } else {
        ScalarItemReads(lines, pos, head);
      }
      SequenceReadsEveryLine(lines, after, indent, sofar + [child]);
      SequenceGoesOn(lines, sofar, child, pos, after, next);
    } else {
      assert lines[pos..pos] == [];
    }
  }

  lemma SequenceGoesOn(lines: seq<Line>, sofar: seq<Tree>, child: Tree, pos: nat, after: nat, next: nat)
    requires pos <= after <= next <= |lines| && OneChild(child) == LineTokens(lines[pos..after])
    ensures ChildTokens(sofar + [child]) + LineTokens(lines[after..next]) == ChildTokens(sofar) + LineTokens(lines[pos..next])
  {
    hide ChildTokens, LineTokens, OneChild;
    ChildTokensJoin(sofar, [child]);
    OneChildTokens(child);
    LineTokensJoin(lines, pos, after, next);
  }

  lemma ScalarItemReads(lines: seq<Line>, pos: nat, head: string)
    requires pos < |lines| && Dash(lines[pos].text) && head == Strip(lines[pos].text[2..]) && !OpensMapping(head)
    requires ScalarOf(head, lines[pos].number).Ok?
    ensures OneChild(Scalar(ScalarOf(head, lines[pos].number).value)) == LineTokens(lines[pos..pos + 1])
  {
    ScalarAlike(head, lines[pos].number, 0);
    assert LineTokens(lines[pos..pos + 1]) == [LineToken(lines[pos].text)];
  }

  lemma {:induction false} MappingItemReads(lines: seq<Line>, pos: nat, indent: nat, head: string)
    requires SequenceAt(lines, pos, indent) && head == Strip(lines[pos].text[2..]) && OpensMapping(head)
    requires var item := ItemLines(lines, pos, indent, head);
             var parsed := MappingFrom(item, 0, indent + 2, []); parsed.Ok? && parsed.value.1 == |item|
    ensures var item := ItemLines(lines, pos, indent, head);
            OneChild(Mapping(MappingFrom(item, 0, indent + 2, []).value.0)) == LineTokens(lines[pos..pos + |item|])
    decreases |lines| - pos, 1, 0
  {
    var item := ItemLines(lines, pos, indent, head);
    MappingReadsEveryLine(item, 0, indent + 2, []);
    ItemTokens(lines, pos, indent, head, MappingFrom(item, 0, indent + 2, []).value.0);
  }

  /** An item's rewritten head and its continuation are its own lines, the first read as an opening item. */
  lemma ItemTokens(lines: seq<Line>, pos: nat, indent: nat, head: string, entries: seq<Entry>)
    requires SequenceAt(lines, pos, indent) && head == Strip(lines[pos].text[2..]) && OpensMapping(head)
    requires var item := ItemLines(lines, pos, indent, head); EntryTokens(entries) == LineTokens(item[0..|item|])
    ensures OneChild(Mapping(entries)) == LineTokens(lines[pos..pos + |ItemLines(lines, pos, indent, head)|])
  {
    hide TextToken, EntryTokens, OneChild, ItemEnd, OpensMapping;
    var item := ItemLines(lines, pos, indent, head);
    StripTwice(lines[pos].text[2..]);
    HeadIsNoDash(head);
    assert item[0..|item|] == item;
    FirstToken(item, 0, |item|);
    FirstToken(lines, pos, pos + |item|);
    assert item[1..|item|] == lines[pos + 1..pos + |item|];
    assert LineToken(item[0].text) == TextToken(head);
    OpeningItem(entries, TextToken(head), LineTokens(item[1..|item|]));
  }

  lemma OpeningItem(entries: seq<Entry>, first: Token, rest: seq<Token>)
    requires EntryTokens(entries) == [first] + rest
    ensures OneChild(Mapping(entries)) == [ItemOpens(first)] + rest
  {
    assert EntryTokens(entries)[0] == first && EntryTokens(entries)[1..] == rest;
  }

  lemma FirstToken(lines: seq<Line>, a: nat, b: nat)
    requires a < b <= |lines|
    ensures LineTokens(lines[a..b]) == [LineToken(lines[a].text)] + LineTokens(lines[a + 1..b])
  {
    hide LineToken;
  }

  lemma HeadIsNoDash(head: string)
    requires head == Strip(head) && OpensMapping(head)
    ensures !Dash(head)
  {
    if Dash(head) {
      assert BeforeColon(head) == [head[0]] + BeforeColon(head[1..]);
      FirstSurvivesStrip(BeforeColon(head));
    }
  }

  lemma FirstSurvivesStrip(s: string)
    requires s != "" && !Space(s[0])
    ensures Strip(s) != "" && Strip(s)[0] == s[0]
  {
    RstripKeepsFirst(s);
  }

  lemma {:induction false} RstripKeepsFirst(s: string)
    requires s != "" && !Space(s[0])
    ensures Rstrip(s) != "" && Rstrip(s)[0] == s[0]
  {
    if Space(s[|s| - 1]) { RstripKeepsFirst(s[..|s| - 1]); }
  }

  /** EVERY LINE IS READ ONCE, IN ORDER: the tokens of a parsed document are its logical lines, each read by itself,
      one for one; nothing is skipped, repeated or read out of order by the rewriting of `- key:` items. */
  lemma DocumentReadsEveryLine(raw: seq<string>, asciiOnly: bool)
    requires Document(raw, asciiOnly).Ok?
    ensures LogicalFrom(raw, 1).Ok? && Tokens(Document(raw, asciiOnly).value) == LineTokens(LogicalFrom(raw, 1).value)
  {
    var lines := LogicalFrom(raw, 1).value;
    BlockReadsEveryLine(lines, 0, 0);
    assert lines[0..|lines|] == lines;
  }
}
