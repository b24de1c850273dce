/** What the layout of a YAML-subset document cannot change (codegen_common.py): blank lines, trailing spaces and
    comments outside quotes leave the parse alone; and what `key_line` finds in a document that parses. */
module YamlLayout {
  import opened Options
  import opened YamlSubset
  import opened YamlBlocks
  import opened YamlRoundTrip

  /* ---------------------------------------------------------------- one line */

  predicate AllSpaces(s: string) {
    forall i :: 0 <= i < |s| ==> s[i] == ' '
  }

  /** Spaces, then nothing or a comment. */
  predicate Trail(s: string) {
    '\t' !in s && exists n :: 0 <= n <= |s| && AllSpaces(s[..n]) && (n == |s| || s[n] == '#')
  }

  /** The stripper either stops inside `s` or passes it whole and goes on with what follows. */
  lemma {:induction false} KeptThen(s: string, quote: Option<char>, tail: string, n: nat)
    requires Kept(s, quote, n).Ok?
    ensures Kept(s + tail, quote, n) == Kept(s, quote, n)
            || (Kept(s, quote, n) == Ok(s) && Kept(s + tail, quote, n) == Prepend(s, Kept(tail, None, n)))
    decreases |s|
  {
    if s == "" {
      assert s + tail == tail;
      PrependNone(Kept(tail, None, n));
    } else if quote.Some? && s[0] == '\\' && quote.value == '"' {
      assert (s + tail)[..2] == s[..2] && (s + tail)[2..] == s[2..] + tail && s[..2] + s[2..] == s;
      KeptThen(s[2..], quote, tail, n);
      PrependBoth(s[..2], s[2..], Kept(tail, None, n));
    } else {
      var next := if quote.Some? then (if s[0] == quote.value then None else quote)
                  else if s[0] == '\'' || s[0] == '"' then Some(s[0]) else None;
      assert (s + tail)[..1] == s[..1] && (s + tail)[1..] == s[1..] + tail && s[..1] + s[1..] == s;
      if quote.Some? || s[0] != '#' {
        KeptThen(s[1..], next, tail, n);
        PrependBoth(s[..1], s[1..], Kept(tail, None, n));
      }
    }
  }

  lemma {:induction false} KeptTrail(s: string, n: nat, k: nat)
    requires k <= |s| && AllSpaces(s[..k]) && (k == |s| || s[k] == '#')
    ensures Kept(s, None, n) == Ok(s[..k])
    decreases k
  {
    if k > 0 {
      assert s[..k][0] == s[0];
      assert s[1..][..k - 1] == s[..k][1..];
      KeptTrail(s[1..], n, k - 1);
      assert s[..1] + s[1..][..k - 1] == s[..k];
    } else {
      assert s[..0] == "";
    }
  }

  lemma {:induction false} RstripSpaces(s: string, pad: string)
    requires AllSpaces(pad)
    ensures Rstrip(s + pad) == Rstrip(s)
    decreases |pad|
  {
    if pad == "" {
      assert s + pad == s;
    } else {
      assert (s + pad)[..|s + pad| - 1] == s + pad[..|pad| - 1];
      RstripSpaces(s, pad[..|pad| - 1]);
    }
  }

  /** Trailing spaces and a trailing comment are nothing to a line that is well quoted. */
  lemma TrailIsNothing(line: string, trail: string, n: nat)
    requires Stripped(line, n).Ok? && Trail(trail)
    ensures Stripped(line + trail, n) == Stripped(line, n)
  {
    KeptThen(line, None, trail, n);
    var k :| 0 <= k <= |trail| && AllSpaces(trail[..k]) && (k == |trail| || trail[k] == '#');
    KeptTrail(trail, n, k);
    RstripSpaces(line, trail[..k]);
  }

  lemma BlankIsNothing(trail: string, n: nat)
    requires Trail(trail)
    ensures Stripped(trail, n) == Ok("")
  {
    var k :| 0 <= k <= |trail| && AllSpaces(trail[..k]) && (k == |trail| || trail[k] == '#');
    KeptTrail(trail, n, k);
    RstripSpaces("", trail[..k]);
    assert "" + trail[..k] == trail[..k];
  }

  lemma StrippedAlike(line: string, m: nat, n: nat)
    ensures Alike(Stripped(line, m), Stripped(line, n))
  {
    KeptAlike(line, None, m, n);
  }

  /* ---------------------------------------------------------------- a document's lines */

  /** `dressed` is `raw` with blank or comment lines put in, and spaces or comments put after lines. */
  ghost predicate Dressed(raw: seq<string>, dressed: seq<string>)
    decreases |dressed|
  {
    if dressed == [] then raw == []
    else
      || (Trail(dressed[0]) && Dressed(raw, dressed[1..]))
      || (raw != [] && |raw[0]| <= |dressed[0]| && dressed[0][..|raw[0]|] == raw[0] && Trail(dressed[0][|raw[0]|..])
          && Dressed(raw[1..], dressed[1..]))
  }

  lemma {:induction false} DressedLogicalLines(raw: seq<string>, dressed: seq<string>, m: nat, n: nat)
    requires Dressed(raw, dressed) && LogicalFrom(raw, m).Ok?
    ensures LogicalFrom(dressed, n).Ok? && SameText(LogicalFrom(raw, m).value, LogicalFrom(dressed, n).value)
    decreases |dressed|
  {
    if dressed != [] {
      if Trail(dressed[0]) && Dressed(raw, dressed[1..]) {
        BlankIsNothing(dressed[0], n);
        DressedLogicalLines(raw, dressed[1..], m, n + 1);
      } else {
        var line, trail := raw[0], dressed[0][|raw[0]|..];
        assert dressed[0] == line + trail;
        StrippedAlike(line, m, n);
        TrailIsNothing(line, trail, n);
        DressedLogicalLines(raw[1..], dressed[1..], m + 1, n + 1);
      }
    }
  }

  /* ---------------------------------------------------------------- the parser sees indents and texts only */

  lemma SameSlice(a: seq<Line>, b: seq<Line>, from: nat, to: nat)
    requires SameText(a, b) && from <= to <= |a|
    ensures SameText(a[from..to], b[from..to])
  {
  }

  lemma {:induction false} ItemEndAlike(a: seq<Line>, b: seq<Line>, probe: nat, item: nat, indent: nat)
    requires SameText(a, b) && probe <= |a|
    ensures ItemEnd(a, probe, item, indent) == ItemEnd(b, probe, item, indent)
    decreases |a| - probe
  {
    if probe < |a| && a[probe].indent >= item && !(a[probe].indent == indent && Dash(a[probe].text)) {
      ItemEndAlike(a, b, probe + 1, item, indent);
    }
  }

  lemma ItemLinesAlike(a: seq<Line>, b: seq<Line>, pos: nat, indent: nat, head: string)
    requires SameText(a, b) && pos < |a|
    ensures SameText(ItemLines(a, pos, indent, head), ItemLines(b, pos, indent, head))
  {
    ItemEndAlike(a, b, pos + 1, indent + 2, indent);
    SameSlice(a, b, pos + 1, ItemEnd(a, pos + 1, indent + 2, indent));
  }

  lemma InlineAlike(rest: string, m: nat, n: nat)
    requires rest == Strip(rest) && rest != ""
    ensures Alike(InlineValue(rest, m), InlineValue(rest, n))
  {
    if rest[0] == '[' { FlowAlike(rest, m, n); } else { ScalarAlike(rest, m, n); }
  }

  lemma {:induction false} BlockAlike(a: seq<Line>, b: seq<Line>, pos: nat, indent: nat)
    requires SameText(a, b) && pos <= |a|
    ensures Alike(BlockFrom(a, pos, indent), BlockFrom(b, pos, indent))
    decreases |a| - pos, 4
  {
    if pos < |a| && a[pos].indent == indent {
      if Dash(a[pos].text) { SequenceAlike(a, b, pos, indent, []); } else { MappingAlike(a, b, pos, indent, []); }
    }
  }

  lemma {:induction false} MemberAlike(a: seq<Line>, b: seq<Line>, pos: nat, indent: nat, sofar: seq<Entry>)
    requires SameText(a, b) && MappingAt(a, pos, indent)
    ensures MappingAt(b, pos, indent) && Alike(MemberAt(a, pos, indent, sofar), MemberAt(b, pos, indent, sofar))
    decreases |a| - pos, 0
  {
    var rest := Strip(AfterColon(a[pos].text));
    if rest != "" {
      StripTwice(AfterColon(a[pos].text));
      InlineAlike(rest, a[pos].number, b[pos].number);
    } else if pos + 1 < |a| {
      BlockAlike(a, b, pos + 1, a[pos + 1].indent);
    }
  }

  lemma {:induction false} MappingAlike(a: seq<Line>, b: seq<Line>, pos: nat, indent: nat, sofar: seq<Entry>)
    requires SameText(a, b) && pos <= |a|
    ensures Alike(MappingFrom(a, pos, indent, sofar), MappingFrom(b, pos, indent, sofar))
    decreases |a| - pos, 1
  {
    if MappingAt(a, pos, indent) {
      MemberAlike(a, b, pos, indent, sofar);
      var member := MemberAt(a, pos, indent, sofar);
      if member.Ok? { MappingAlike(a, b, member.value.1, indent, sofar + [member.value.0]); }
    }
  }

  lemma {:induction false} ItemAlike(a: seq<Line>, b: seq<Line>, pos: nat, indent: nat)
    requires SameText(a, b) && SequenceAt(a, pos, indent)
    ensures SequenceAt(b, pos, indent) && Alike(ItemAt(a, pos, indent), ItemAt(b, pos, indent))
    decreases |a| - pos, 2
  {
    var head := Strip(a[pos].text[2..]);
    if head != "" {
      if OpensMapping(head) {
        ItemLinesAlike(a, b, pos, indent, head);
        MappingAlike(ItemLines(a, pos, indent, head), ItemLines(b, pos, indent, head), 0, indent + 2, []);
      } else {
        ScalarAlike(head, a[pos].number, b[pos].number);
      }
    }
  }

  lemma {:induction false} SequenceAlike(a: seq<Line>, b: seq<Line>, pos: nat, indent: nat, sofar: seq<Tree>)
    requires SameText(a, b) && pos <= |a|
    ensures Alike(SequenceFrom(a, pos, indent, sofar), SequenceFrom(b, pos, indent, sofar))
    decreases |a| - pos, 3
  {
    if SequenceAt(a, pos, indent) {
      ItemAlike(a, b, pos, indent);
      var item := ItemAt(a, pos, indent);
      if item.Ok? { SequenceAlike(a, b, item.value.1, indent, sofar + [item.value.0]); }
    }
  }

  /** LAYOUT IS NO CONTENT: a document whose lines are well quoted parses to the same tree, or fails alike, when blank
      lines, trailing spaces and comments are put into it. */
  lemma DressingChangesNothing(raw: seq<string>, dressed: seq<string>, asciiOnly: bool)
    requires Dressed(raw, dressed) && LogicalFrom(raw, 1).Ok?
    requires asciiOnly ==> NonAsciiLine(raw, 1) == 0 && NonAsciiLine(dressed, 1) == 0
    ensures Alike(Document(raw, asciiOnly), Document(dressed, asciiOnly))
  {
    DressedLogicalLines(raw, dressed, 1, 1);
    BlockAlike(LogicalFrom(raw, 1).value, LogicalFrom(dressed, 1).value, 0, 0);
  }

  /* ---------------------------------------------------------------- key_line */

  /** The loop of `key_line` over the logical lines. */
  function KeyLineOf(lines: seq<Line>, key: string): Option<nat> {
    if lines == [] then None
    else if ':' in lines[0].text && Strip(BeforeColon(lines[0].text)) == key then Some(lines[0].number)
    else KeyLineOf(lines[1..], key)
  }

  /** `key_line`. */
  method FindKeyLine(text: string, key: string) returns (line: Parsed<Option<nat>>)
    ensures var lines := LogicalFrom(SplitLines(text), 1);
            line == if lines.Ok? then Ok(KeyLineOf(lines.value, key)) else Fail(lines.line, lines.fault)
  {
    var lines := LogicalLines(text);
    if lines.Fail? { return Fail(lines.line, lines.fault); }
    assert lines.value[0..] == lines.value;
    for i := 0 to |lines.value|
      invariant KeyLineOf(lines.value, key) == KeyLineOf(lines.value[i..], key)
    {
      assert lines.value[i..][1..] == lines.value[i + 1..];
      if ':' in lines.value[i].text && Strip(BeforeColon(lines.value[i].text)) == key {
        return Ok(Some(lines.value[i].number));
      }
    }
    line := Ok(None);
  }

  /** A line on which the parse reads this key, other than as the head of a `- key:` item. */
  predicate Writes(token: Token, key: string) {
    (token.KeyValue? && token.key == key) || (token.KeyOpens? && token.key == key)
  }

  lemma MatchesWhatItWrites(text: string, key: string)
    requires LegalKey(key) && LineToken(text) != Unreadable
    ensures ':' in text && Strip(BeforeColon(text)) == key <==> Writes(LineToken(text), key)
  {
    if Dash(text) && ':' in text {
      assert BeforeColon(text)[0] == '-' by { assert BeforeColon(text) == [text[0]] + BeforeColon(text[1..]); }
      FirstSurvivesStrip(BeforeColon(text));
    }
  }

  lemma {:induction false} KeyLineIsFirst(lines: seq<Line>, key: string)
    requires LegalKey(key) && forall i :: 0 <= i < |lines| ==> LineToken(lines[i].text) != Unreadable
    ensures match KeyLineOf(lines, key)
            case None => forall i :: 0 <= i < |lines| ==> !Writes(LineToken(lines[i].text), key)
            case Some(number) => exists i :: FirstWriting(lines, key, i) && lines[i].number == number
  {
    if lines != [] {
      MatchesWhatItWrites(lines[0].text, key);
      if Writes(LineToken(lines[0].text), key) {
        assert FirstWriting(lines, key, 0);
      } else {
        var rest := lines[1..];
        assert forall i :: 1 <= i < |lines| ==> lines[i] == rest[i - 1];
        KeyLineIsFirst(rest, key);
        if KeyLineOf(rest, key).Some? {
          var i :| FirstWriting(rest, key, i) && rest[i].number == KeyLineOf(rest, key).value;
          assert FirstWriting(lines, key, i + 1) && lines[i + 1].number == rest[i].number;
        }
      }
    }
  }

  ghost predicate FirstWriting(lines: seq<Line>, key: string, i: int) {
    0 <= i < |lines| && Writes(LineToken(lines[i].text), key)
    && forall j :: 0 <= j < i ==> !Writes(LineToken(lines[j].text), key)
  }

  lemma {:induction false} TreeTokensReadable(tree: Tree)
    requires TypicalTree(tree)
    ensures Unreadable !in Tokens(tree)
    decreases tree
  {
    match tree
    case Block(children) => ChildTokensReadable(children);
    case Mapping(entries) => EntryTokensReadable(entries);
    case _ =>
  }

  lemma {:induction false} EntryTokensReadable(entries: seq<Entry>)
    requires TypicalEntries(entries)
    ensures Unreadable !in EntryTokens(entries)
    decreases entries
  {
    if entries != [] {
      OneEntryReadable(entries[0]);
      EntryTokensReadable(entries[1..]);
    }
  }

  lemma {:induction false} OneEntryReadable(entry: Entry)
    requires TypicalEntry(entry)
    ensures Unreadable !in OneEntry(entry)
    decreases entry
  {
    if entry.value.Block? || entry.value.Mapping? { TreeTokensReadable(entry.value); }
  }

  lemma {:induction false} ChildTokensReadable(children: seq<Tree>)
    requires TypicalChildren(children)
    ensures Unreadable !in ChildTokens(children)
    decreases children
  {
    if children != [] {
      OneChildReadable(children[0]);
      ChildTokensReadable(children[1..]);
    }
  }

  lemma {:induction false} OneChildReadable(child: Tree)
    requires TypicalChild(child)
    ensures Unreadable !in OneChild(child)
    decreases child, 1
  {
    if child.Mapping? {
      EntryTokensReadable(child.entries);
      var tokens := EntryTokens(child.entries);
      if tokens != [] { assert forall token <- tokens[1..] :: token in tokens; }
    }
  }

  /** The shape of everything the parser returns: a block sequence holds scalars and mappings. */
  predicate TypicalTree(tree: Tree)
    decreases tree, 0
  {
    match tree
    case Block(children) => TypicalChildren(children)
    case Mapping(entries) => TypicalEntries(entries)
    case _ => true
  }

  predicate TypicalEntries(entries: seq<Entry>)
    decreases entries, 0
  {
    entries == [] || (TypicalEntry(entries[0]) && TypicalEntries(entries[1..]))
  }

  predicate TypicalEntry(entry: Entry)
    decreases entry, 0
  {
    TypicalTree(entry.value)
  }

  predicate TypicalChildren(children: seq<Tree>)
    decreases children, 0
  {
    children == [] || (TypicalChild(children[0]) && TypicalChildren(children[1..]))
  }

  predicate TypicalChild(child: Tree)
    decreases child, 1
  {
    (child.Scalar? || child.Mapping?) && TypicalTree(child)
  }

  lemma TypicalOfOne(entry: Entry)
    requires TypicalEntry(entry)
    ensures TypicalEntries([entry])
  {
    var rest := [entry][1..];
    assert rest == [] && TypicalEntries(rest);
  }

  lemma {:induction false} TypicalEntriesJoin(a: seq<Entry>, b: seq<Entry>)
    requires TypicalEntries(a) && TypicalEntries(b)
    ensures TypicalEntries(a + b)
  {
    if a == [] { assert a + b == b; }
    else { assert (a + b)[0] == a[0] && (a + b)[1..] == a[1..] + b; TypicalEntriesJoin(a[1..], b); }
  }

  lemma {:induction false} TypicalChildrenJoin(a: seq<Tree>, b: seq<Tree>)
    requires TypicalChildren(a) && TypicalChildren(b)
    ensures TypicalChildren(a + b)
  {
    if a == [] { assert a + b == b; }
    else { assert (a + b)[0] == a[0] && (a + b)[1..] == a[1..] + b; TypicalChildrenJoin(a[1..], b); }
  }

  lemma {:induction false} BlockTypical(lines: seq<Line>, pos: nat, indent: nat)
    requires pos <= |lines| && BlockFrom(lines, pos, indent).Ok?
    ensures TypicalTree(BlockFrom(lines, pos, indent).value.0)
    decreases |lines| - pos, 4
  {
    if Dash(lines[pos].text) { SequenceTypical(lines, pos, indent, []); } else { MappingTypical(lines, pos, indent, []); }
  }

  lemma {:induction false} MappingTypical(lines: seq<Line>, pos: nat, indent: nat, sofar: seq<Entry>)
    requires pos <= |lines| && MappingFrom(lines, pos, indent, sofar).Ok? && TypicalEntries(sofar)
    ensures TypicalEntries(MappingFrom(lines, pos, indent, sofar).value.0)
    decreases |lines| - pos, 1
  {
    if MappingAt(lines, pos, indent) {
      var (entry, next) := MemberAt(lines, pos, indent, sofar).value;
      if Strip(AfterColon(lines[pos].text)) == "" { BlockTypical(lines, pos + 1, lines[pos + 1].indent); }
      TypicalOfOne(entry);
      TypicalEntriesJoin(sofar, [entry]);
      MappingTypical(lines, next, indent, sofar + [entry]);
    }
  }

  lemma {:induction false} SequenceTypical(lines: seq<Line>, pos: nat, indent: nat, sofar: seq<Tree>)
    requires pos <= |lines| && SequenceFrom(lines, pos, indent, sofar).Ok? && TypicalChildren(sofar)
    ensures TypicalChildren(SequenceFrom(lines, pos, indent, sofar).value.0)
    decreases |lines| - pos, 3
  {
    if SequenceAt(lines, pos, indent) {
      var (child, next) := ItemAt(lines, pos, indent).value;
      ItemTypical(lines, pos, indent);
      TypicalChildrenJoin(sofar, [child]);
      SequenceTypical(lines, next, indent, sofar + [child]);
    }
  }

  lemma {:induction false} ItemTypical(lines: seq<Line>, pos: nat, indent: nat)
    requires SequenceAt(lines, pos, indent) && ItemAt(lines, pos, indent).Ok?
    ensures TypicalChild(ItemAt(lines, pos, indent).value.0)
    decreases |lines| - pos, 2
  {
    var head := Strip(lines[pos].text[2..]);
    if OpensMapping(head) { MappingTypical(ItemLines(lines, pos, indent, head), 0, indent + 2, []); }
  }

  /** WHAT `key_line` FINDS: in a document that parses, the first line on which the parse reads the key as a member of
      a mapping, the heads of `- key:` items left out; None exactly when the key is written nowhere else. */
  lemma KeyLineFindsMembers(raw: seq<string>, asciiOnly: bool, key: string)
    requires Document(raw, asciiOnly).Ok? && LegalKey(key)
    ensures LogicalFrom(raw, 1).Ok?
    ensures KeyLineOf(LogicalFrom(raw, 1).value, key).None? <==>
            forall token <- Tokens(Document(raw, asciiOnly).value) :: !Writes(token, key)
    ensures KeyLineOf(LogicalFrom(raw, 1).value, key).Some? ==>
            exists i :: FirstWriting(LogicalFrom(raw, 1).value, key, i)
                        && LogicalFrom(raw, 1).value[i].number == KeyLineOf(LogicalFrom(raw, 1).value, key).value
  {
    DocumentReadsEveryLine(raw, asciiOnly);
    var lines, tree := LogicalFrom(raw, 1).value, Document(raw, asciiOnly).value;
    BlockTypical(lines, 0, 0);
    TreeTokensReadable(tree);
    assert |Tokens(tree)| == |lines|;
    forall i | 0 <= i < |lines| ensures LineToken(lines[i].text) != Unreadable {
      assert LineTokens(lines)[i] in Tokens(tree);
    }
    KeyLineIsFirst(lines, key);
    if KeyLineOf(lines, key).Some? {
      var i :| FirstWriting(lines, key, i);
      assert LineTokens(lines)[i] in Tokens(tree);
    }
  }

  /** A line on which the parse reads this key in any position, the head of a `- key:` item included. */
  predicate Reads(token: Token, key: string) {
    Writes(token, key) || (token.ItemOpens? && Writes(token.first, key))
  }

  ghost predicate FirstReading(tokens: seq<Token>, key: string, i: int) {
    0 <= i < |tokens| && Reads(tokens[i], key) && forall j :: 0 <= j < i ==> !Reads(tokens[j], key)
  }

  /** What the documentation of `key_line` promises: the number of the first line on which the parse, whose tokens are
      given line by line, reads the key, and none exactly when it reads it nowhere. */
  ghost predicate AgreesWithParse(found: Option<nat>, lines: seq<Line>, tokens: seq<Token>, key: string)
    requires |tokens| == |lines|
  {
    match found
    case None => forall i :: 0 <= i < |tokens| ==> !Reads(tokens[i], key)
    case Some(number) => exists i :: FirstReading(tokens, key, i) && lines[i].number == number
  }

  /** Logical lines are numbered in order. */
  ghost predicate Numbered(lines: seq<Line>, from: nat) {
    (forall i :: 0 <= i < |lines| ==> from <= lines[i].number)
    && forall i, j :: 0 <= i < j < |lines| ==> lines[i].number < lines[j].number
  }

  lemma {:induction false} LogicalLinesNumbered(raw: seq<string>, number: nat)
    requires LogicalFrom(raw, number).Ok?
    ensures Numbered(LogicalFrom(raw, number).value, number)
    decreases |raw|
  {
    if raw != [] {
      LogicalLinesNumbered(raw[1..], number + 1);
    }
  }

  /** WHEN `key_line` KEEPS ITS PROMISE: over a document that parses, and for a legal key, if and only if the first line on
      which the parse reads the key, should there be one, is no item's head. */
  lemma KeyLineAgreesIff(raw: seq<string>, asciiOnly: bool, key: string)
    requires Document(raw, asciiOnly).Ok? && LegalKey(key)
    ensures LogicalFrom(raw, 1).Ok? && |Tokens(Document(raw, asciiOnly).value)| == |LogicalFrom(raw, 1).value|
    ensures var lines, tokens := LogicalFrom(raw, 1).value, Tokens(Document(raw, asciiOnly).value);
            AgreesWithParse(KeyLineOf(lines, key), lines, tokens, key)
            <==> forall i :: FirstReading(tokens, key, i) ==> !Dash(lines[i].text)
  {
    DocumentReadsEveryLine(raw, asciiOnly);
    var lines, tree := LogicalFrom(raw, 1).value, Document(raw, asciiOnly).value;
    BlockTypical(lines, 0, 0);
    TreeTokensReadable(tree);
    LogicalLinesNumbered(raw, 1);
    LinesAgreeIff(lines, Tokens(tree), key);
  }

  lemma LinesAgreeIff(lines: seq<Line>, tokens: seq<Token>, key: string)
    requires LegalKey(key) && tokens == LineTokens(lines) && Unreadable !in tokens && Numbered(lines, 1)
    ensures AgreesWithParse(KeyLineOf(lines, key), lines, tokens, key)
            <==> forall i :: FirstReading(tokens, key, i) ==> !Dash(lines[i].text)
  {
    forall i | 0 <= i < |lines| ensures tokens[i] == LineToken(lines[i].text) != Unreadable {
      assert tokens[i] in tokens;
    }
    KeyLineIsFirst(lines, key);
    if i :| FirstReading(tokens, key, i) {
      if Dash(lines[i].text) {
        assert tokens[i].ItemOpens? && !Writes(tokens[i], key);
      } else {
        assert FirstWriting(lines, key, i);
      }
    } else {
      FirstIsRead(tokens, key, |tokens|);
    }
  }

  /** Where no line is the first on which the key is read, none is. */
  lemma {:induction false} FirstIsRead(tokens: seq<Token>, key: string, count: nat)
    requires count <= |tokens| && forall i :: !FirstReading(tokens, key, i)
    ensures forall i :: 0 <= i < count ==> !Reads(tokens[i], key)
  {
    if count > 0 {
      FirstIsRead(tokens, key, count - 1);
      assert !FirstReading(tokens, key, count - 1);
    }
  }

  /** THE PARSE AND `key_line` CAN DISAGREE: a document that parses, whose parse reads `dialect` as the head of an item, and
      in which `key_line` finds no `dialect`. */
  lemma ItemHeadIsNotFound()
    ensures var tree := Mapping([Entry("rows", Block([Mapping([Entry("dialect", Scalar("x"))])]))]);
            var raw := SplitLines(TextOf(Doubled(tree)));
            Document(raw, true) == Ok(tree) && LogicalFrom(raw, 1).Ok?
            && KeyLineOf(LogicalFrom(raw, 1).value, "dialect") == None
            && |Tokens(tree)| == 2 && Reads(Tokens(tree)[1], "dialect")
  {
    hide Document, LogicalFrom, TextOf, KeyLineOf, SplitLines, SubsetTree, Tokens, TreeOf, LegalTree;
    var tree := Mapping([Entry("rows", Block([Mapping([Entry("dialect", Scalar("x"))])]))]);
    var raw := SplitLines(TextOf(Doubled(tree)));
    HeadedTree(tree);
    EveryTreeIsWritten(tree, true);
    ParsePrinted(Doubled(tree), true);
    assert LegalKey("dialect");
    KeyLineFindsMembers(raw, true, "dialect");
  }

  lemma HeadedTree(tree: Tree)
    requires tree == Mapping([Entry("rows", Block([Mapping([Entry("dialect", Scalar("x"))])]))])
    ensures SubsetTree(tree, true)
    ensures Tokens(tree) == [Token.KeyOpens("rows"), ItemOpens(KeyValue("dialect", Scalar("x")))]
  {
    var item := Mapping([Entry("dialect", Scalar("x"))]);
    assert LegalKey("rows") && LegalKey("dialect");
    SubsetOfOne(Entry("dialect", Scalar("x")));
    assert SubsetChild(item, true) && [item][1..] == [];
    assert SubsetChildren([item], true);
    SubsetOfOne(Entry("rows", Block([item])));
    OneEntryTokens(Entry("dialect", Scalar("x")));
    OneChildTokens(item);
    OneEntryTokens(Entry("rows", Block([item])));
    assert OneChild(item) == [ItemOpens(KeyValue("dialect", Scalar("x")))];
  }

  lemma SubsetOfOne(entry: Entry)
    requires SubsetEntry(entry, true)
    ensures SubsetTree(Mapping([entry]), true)
  {
    assert [entry][0] == entry && [entry][1..] == [];
    assert SubsetEntries([entry], true);
  }
}
