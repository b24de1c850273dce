/** Variables in a manifest (ninja_deps_guard.py:58-59, 123-171): a top-level binding gives its name its value from there
    on, and an output's name is its text with every use replaced by the value bound so far. */
module NinjaVariables {
  import opened Options
  import opened Strings
  import opened NinjaManifest
  import opened NinjaLayout

  /** A part of an output's name: text, written with its escapes, or a use in either form. */
  datatype Part = Text(text: string) | Braced(name: string) | Bare(name: string)

  function PartText(part: Part): string {
    match part
    case Text(text) => Escaped(text)
    case Braced(name) => "${" + (name + "}")
    case Bare(name) => "$" + name
  }

  function PartsText(parts: seq<Part>): string {
    if parts == [] then "" else PartText(parts[0]) + PartsText(parts[1..])
  }

  function PartValue(part: Part, variables: map<string, string>): string {
    match part
    case Text(text) => text
    case Braced(name) => if name in variables then variables[name] else ""
    case Bare(name) => if name in variables then variables[name] else ""
  }

  /** What the parts stand for: an unbound variable is empty. */
  function PartsValue(parts: seq<Part>, variables: map<string, string>): string {
    if parts == [] then "" else PartValue(parts[0], variables) + PartsValue(parts[1..], variables)
  }

  /** Letters, digits, underscores and dashes, and dots within braces and in a binding. */
  predicate IsName(name: string, dots: bool) {
    name != "" && forall c <- name :: NameChar(c) || (dots && c == '.')
  }

  /** A bare use ends where no character follows that could go on with its name. */
  predicate LegalParts(parts: seq<Part>) {
    parts == [] || (LegalPart(parts[0], PartsText(parts[1..])) && LegalParts(parts[1..]))
  }

  predicate LegalPart(part: Part, rest: string) {
    match part
    case Text(text) => '|' !in text
    case Braced(name) => IsName(name, true)
    case Bare(name) => IsName(name, false) && (rest != "" ==> !NameChar(rest[0]))
  }

  lemma {:induction false} RunPast(text: string, pos: nat, name: string, dots: bool)
    requires At(text, pos, name) && forall c <- name :: NameChar(c) || (dots && c == '.')
    requires var end := pos + |name|; end < |text| ==> !NameChar(text[end]) && !(dots && text[end] == '.')
    ensures RunEnd(text, pos, dots) == pos + |name|
    decreases |name|
  {
    if name != "" {
      assert name[0] in name && forall c <- name[1..] :: c in name;
      RunPast(text, pos + 1, name[1..], dots);
    }
  }

  lemma BracedReads(text: string, pos: nat, name: string, rest: string, current: string, tokens: seq<string>,
                    variables: map<string, string>, next: nat)
    requires At(text, pos, "${" + (name + "}") + rest) && IsName(name, true) && next == pos + |name| + 3
    ensures At(text, next, rest)
    ensures FirstFrom(text, pos, current, tokens, variables)
            == FirstFrom(text, next, current + Value(variables, name), tokens, variables)
  {
    hide FirstFrom, At, RunEnd, NameChar;
    var end := pos + 2 + |name|;
    AtSplit(text, pos, "${" + (name + "}"), rest);
    AtSplit(text, pos, "${", name + "}");
    AtSplit(text, pos + 2, name, "}");
    AtChar(text, pos, "${", 0);
    AtChar(text, pos, "${", 1);
    AtChar(text, end, "}", 0);
    BraceIsNone();
    RunPast(text, pos + 2, name, true);
    AtSlice(text, pos + 2, name);
    assert UseAt(text, pos) == Some(Use(name, next));
    FirstStep(text, pos, current, tokens, variables, Add(Value(variables, name), next));
  }

  lemma BraceIsNone()
    ensures !NameChar('}') && !NameChar('{') && !NameChar(' ') && !NameChar(':') && !NameChar('$') && !NameChar('|')
  {
  }

  lemma BareUse(text: string, pos: nat, name: string, next: nat)
    requires name != "" && pos + 1 < |text| && text[pos + 1] == name[0] && NameChar(name[0])
    requires RunEnd(text, pos + 1, false) == next && next == pos + |name| + 1 <= |text| && text[pos + 1..next] == name
    ensures UseAt(text, pos) == Some(Use(name, next)) && text[pos + 1] !in " :$"
  {
    hide RunEnd;
    BraceIsNone();
  }

  lemma BareReads(text: string, pos: nat, name: string, current: string, tokens: seq<string>,
                  variables: map<string, string>, next: nat)
    requires At(text, pos, "$" + name) && IsName(name, false) && next == pos + |name| + 1
    requires next < |text| && !NameChar(text[next])
    ensures FirstFrom(text, pos, current, tokens, variables)
            == FirstFrom(text, next, current + Value(variables, name), tokens, variables)
  {
    hide FirstFrom, At, RunEnd, NameChar, UseAt;
    AtSplit(text, pos, "$", name);
    AtChar(text, pos, "$", 0);
    AtChar(text, pos + 1, name, 0);
    assert name[0] in name;
    RunPast(text, pos + 1, name, false);
    AtSlice(text, pos + 1, name);
    BareUse(text, pos, name, next);
    FirstStep(text, pos, current, tokens, variables, Add(Value(variables, name), next));
  }

  /** One part of a name. */
  lemma PartReads(text: string, pos: nat, part: Part, rest: string, current: string, tokens: seq<string>,
                  variables: map<string, string>, next: nat, end: nat)
    requires At(text, pos, PartText(part) + rest) && LegalPart(part, rest) && next == pos + |PartText(part)|
    requires end == next + |rest| && end < |text| && !NameChar(text[end])
    ensures At(text, next, rest)
    ensures FirstFrom(text, pos, current, tokens, variables)
            == FirstFrom(text, next, current + PartValue(part, variables), tokens, variables)
  {
    hide FirstFrom, At, NameChar, Escaped, IsName;
    AtSplit(text, pos, PartText(part), rest);
    match part
    case Text(part) => NameReads(text, pos, part, current, tokens, variables, next);
    case Braced(name) => BracedReads(text, pos, name, rest, current, tokens, variables, next);
    case Bare(name) =>
      if rest != "" { AtChar(text, next, rest, 0); }
      BareReads(text, pos, name, current, tokens, variables, next);
  }

  /** Up to the end of the name, its value is gathered. */
  lemma {:induction false} PartsRead(text: string, pos: nat, parts: seq<Part>, current: string, tokens: seq<string>,
                                     variables: map<string, string>, end: nat)
    requires At(text, pos, PartsText(parts)) && LegalParts(parts) && end == pos + |PartsText(parts)|
    requires end < |text| && !NameChar(text[end])
    ensures FirstFrom(text, pos, current, tokens, variables)
            == FirstFrom(text, end, current + PartsValue(parts, variables), tokens, variables)
    decreases |parts|
  {
    hide FirstFrom, At, NameChar, PartText, PartValue, LegalPart;
    if parts == [] {
      assert current + "" == current;
    } else {
      var rest, value := PartsText(parts[1..]), PartValue(parts[0], variables);
      var next := pos + |PartText(parts[0])|;
      PartReads(text, pos, parts[0], rest, current, tokens, variables, next, end);
      PartsRead(text, next, parts[1..], current + value, tokens, variables, end);
      assert (current + value) + PartsValue(parts[1..], variables) == current + (value + PartsValue(parts[1..], variables));
    }
  }

  /** An edge whose first output is written in parts. */
  function EdgeOfParts(parts: seq<Part>, gap: string, outs: seq<Out>, tail: string): string {
    "build " + (PartsText(parts) + (gap + (OutsText(outs) + (":" + tail))))
  }

  predicate IsGap(gap: string) {
    forall c <- gap :: c == ' ' || c == '|'
  }

  /** AN OUTPUT'S NAME IS ITS TEXT AND ITS VARIABLES' VALUES, each as bound so far, an unbound one empty. */
  lemma UsesRead(parts: seq<Part>, gap: string, outs: seq<Out>, tail: string, variables: map<string, string>)
    requires LegalParts(parts) && LegalOuts(outs) && IsGap(gap) && (gap == "" ==> outs == [])
    requires PartsValue(parts, variables) != ""
    ensures FirstOutput(EdgeOfParts(parts, gap, outs, tail), variables)
            == if FirstWord(tail, 0).None? then None
               else Some(BuildEdge(PartsValue(parts, variables), FirstWord(tail, 0).value))
  {
    hide FirstFrom, At, PartsText, OutsText, LegalOuts, LegalParts, FirstWord, PartsValue, NameChar;
    var text, value := EdgeOfParts(parts, gap, outs, tail), PartsValue(parts, variables);
    var a := 6 + |PartsText(parts)|;
    var b := a + |gap|;
    var c := b + |OutsText(outs)|;
    PartsStand(parts, gap, outs, tail, a, b, c);
    AfterPartsIsPlain(text, gap, outs, a, b, c);
    PartsRead(text, 6, parts, "", [], variables, a);
    assert "" + value == value && Pushed([], value) == [value];
    if gap != "" {
      GapReads(text, a, gap, value, [], variables, b);
      OutsRead(text, b, outs, [value], variables, c);
    } else {
      NoOuts(outs);
      ColonReads(text, a, value, [], variables);
    }
    RuleReads(text, c + 1, tail);
  }

  lemma NoOuts(outs: seq<Out>)
    requires outs == []
    ensures OutsText(outs) == ""
  {
  }

  lemma PartsStand(parts: seq<Part>, gap: string, outs: seq<Out>, tail: string, a: nat, b: nat, c: nat)
    requires a == 6 + |PartsText(parts)| && b == a + |gap| && c == b + |OutsText(outs)|
    ensures var text := EdgeOfParts(parts, gap, outs, tail);
            At(text, 6, PartsText(parts)) && At(text, a, gap) && At(text, b, OutsText(outs)) && c < |text| && text[c] == ':'
            && At(text, c + 1, tail) && c + 1 + |tail| == |text|
  {
    hide At, PartsText, OutsText;
    var text := EdgeOfParts(parts, gap, outs, tail);
    AtWhole(text, 0);
    assert text[0..] == text;
    AtSplit(text, 0, "build ", PartsText(parts) + (gap + (OutsText(outs) + (":" + tail))));
    AtSplit(text, 6, PartsText(parts), gap + (OutsText(outs) + (":" + tail)));
    AtSplit(text, a, gap, OutsText(outs) + (":" + tail));
    AtSplit(text, b, OutsText(outs), ":" + tail);
    AtSplit(text, c, ":", tail);
    AtChar(text, c, ":", 0);
  }

  lemma AfterPartsIsPlain(text: string, gap: string, outs: seq<Out>, a: nat, b: nat, c: nat)
    requires At(text, a, gap) && IsGap(gap) && b == a + |gap| && c == b + |OutsText(outs)| && (gap == "" ==> outs == [])
    requires c < |text| && text[c] == ':'
    ensures a < |text| && !NameChar(text[a])
  {
    BraceIsNone();
    hide NameChar;
    if gap != "" {
      AtChar(text, a, gap, 0);
      assert gap[0] in gap;
    } else {
      NoOuts(outs);
    }
  }

  /* ---------------------------------------------------------------- bindings */

  /** A binding as written: the name, blanks, an equals sign, at most one blank, the value. */
  function BindingText(name: string, before: string, sep: string, value: string): string {
    name + (before + ("=" + (sep + value)))
  }

  /** A line that opens a declaration binds nothing at the top level, whatever follows. */
  predicate Declares(line: string) {
    exists word <- ["rule ", "pool ", "default ", "include ", "subninja "] :: StartsWith(line, word)
  }

  lemma DeclaresIsReserved(line: string)
    ensures Declares(line) <==> Reserved(line)
  {
    hide StartsWith;
    var words := ["rule ", "pool ", "default ", "include ", "subninja "];
    assert words[0] in words && words[1] in words && words[2] in words && words[3] in words && words[4] in words;
  }

  lemma DeclarationBindsNothing(line: string, variables: map<string, string>)
    requires Declares(line)
    ensures Bound(variables, line) == variables
  {
    DeclaresIsReserved(line);
  }

  predicate LegalBinding(name: string, before: string, sep: string, value: string) {
    IsName(name, true) && (forall c <- before :: Space(c)) && |sep| <= 1 && (forall c <- sep :: Space(c))
    && (sep == "" && value != "" ==> !Space(value[0]))
    && !Declares(BindingText(name, before, sep, value))
  }

  lemma {:induction false} BlanksPast(text: string, pos: nat, gap: string)
    requires At(text, pos, gap) && forall c <- gap :: Space(c)
    requires pos + |gap| < |text| && !Space(text[pos + |gap|])
    ensures WordStart(text, pos) == pos + |gap|
    decreases |gap|
  {
    if gap != "" {
      assert gap[0] in gap && forall c <- gap[1..] :: c in gap;
      BlanksPast(text, pos + 1, gap[1..]);
    }
  }

  lemma SpacesAreNoNames(c: char)
    ensures Space(c) || c == '=' ==> !NameChar(c) && c != '.'
    ensures !Space('=')
  {
  }

  lemma BindingStands(name: string, before: string, sep: string, value: string, a: nat, b: nat)
    requires a == |name| && b == a + |before|
    ensures var line := BindingText(name, before, sep, value);
            At(line, 0, name) && At(line, a, before) && b < |line| && line[b] == '=' && At(line, b + 1, sep)
            && At(line, b + 1 + |sep|, value) && b + 1 + |sep| + |value| == |line|
  {
    hide At;
    var line := BindingText(name, before, sep, value);
    AtWhole(line, 0);
    assert line[0..] == line;
    AtSplit(line, 0, name, before + ("=" + (sep + value)));
    AtSplit(line, a, before, "=" + (sep + value));
    AtSplit(line, b, "=", sep + value);
    AtSplit(line, b + 1, sep, value);
    AtChar(line, b, "=", 0);
  }

  /** A BINDING IS READ: from its line on the name has the value, whatever it had before. */
  lemma BindingReads(name: string, before: string, sep: string, value: string, variables: map<string, string>)
    requires LegalBinding(name, before, sep, value)
    ensures Bound(variables, BindingText(name, before, sep, value)) == variables[name := value]
  {
    hide At, RunEnd, WordStart, Space, NameChar, Reserved, BindingText, Declares;
    var line := BindingText(name, before, sep, value);
    var a := |name|;
    var b := a + |before|;
    BindingStands(name, before, sep, value, a, b);
    if before != "" {
      AtChar(line, a, before, 0);
      assert before[0] in before;
    }
    SpacesAreNoNames(line[a]);
    SpacesAreNoNames('=');
    RunPast(line, 0, name, true);
    BlanksPast(line, a, before);
    AtSlice(line, 0, name);
    ValueStands(line, b + 1, sep, value);
    BindingIs(line, name, value, a, b);
    DeclaresIsReserved(line);
  }

  lemma BindingIs(line: string, name: string, value: string, end: nat, equals: nat)
    requires end <= equals < |line| && end > 0 && line[equals] == '=' && RunEnd(line, 0, true) == end
    requires WordStart(line, end) == equals && line[..end] == name
    requires var start := if equals + 1 < |line| && Space(line[equals + 1]) then equals + 2 else equals + 1;
             start <= |line| && line[start..] == value
    ensures BindingOf(line) == Some(Binding(name, value))
  {
  }

  lemma ValueStands(line: string, pos: nat, sep: string, value: string)
    requires At(line, pos, sep) && At(line, pos + |sep|, value) && pos + |sep| + |value| == |line|
    requires |sep| <= 1 && (forall c <- sep :: Space(c)) && (sep == "" && value != "" ==> !Space(value[0]))
    ensures var start := if pos < |line| && Space(line[pos]) then pos + 1 else pos;
            start <= |line| && line[start..] == value
  {
    if sep != "" {
      AtChar(line, pos, sep, 0);
      assert sep[0] in sep;
    } else if value != "" {
      AtChar(line, pos, value, 0);
    }
    AtSlice(line, pos + |sep|, value);
  }

  /** A binding, then an edge that uses it: the value bound is in the output listed. */
  lemma BoundThenUsed(name: string, before: string, sep: string, value: string, parts: seq<Part>, gap: string,
                      outs: seq<Out>, tail: string, variables: map<string, string>, rules: set<string>)
    requires LegalBinding(name, before, sep, value) && LegalParts(parts) && LegalOuts(outs) && IsGap(gap)
    requires (gap == "" ==> outs == []) && PartsValue(parts, variables[name := value]) != ""
    requires !StartsWith(BindingText(name, before, sep, value), "build ")
    requires FirstWord(tail, 0).Some? && FirstWord(tail, 0).value in rules
    ensures EdgesFrom([BindingText(name, before, sep, value), EdgeOfParts(parts, gap, outs, tail)], variables, rules)
            == [PartsValue(parts, variables[name := value])]
  {
    var line, edge := BindingText(name, before, sep, value), EdgeOfParts(parts, gap, outs, tail);
    BindingReads(name, before, sep, value, variables);
    UsesRead(parts, gap, outs, tail, variables[name := value]);
    EdgeStarts(parts, gap, outs, tail);
    hide StartsWith, FirstOutput, Bound, EdgeOfParts, BindingText, FirstWord, PartsValue;
    assert [line, edge][1..] == [edge] && [edge][1..] == [];
    var listed := [PartsValue(parts, variables[name := value])];
    assert EdgesFrom([edge], variables[name := value], rules) == EdgeOutput(edge, variables[name := value], rules) + [];
    assert listed + [] == listed;
  }

  lemma EdgeStarts(parts: seq<Part>, gap: string, outs: seq<Out>, tail: string)
    ensures StartsWith(EdgeOfParts(parts, gap, outs, tail), "build ")
  {
    hide At, PartsText, OutsText;
    var text := EdgeOfParts(parts, gap, outs, tail);
    AtWhole(text, 0);
    assert text[0..] == text;
    AtSplit(text, 0, "build ", PartsText(parts) + (gap + (OutsText(outs) + (":" + tail))));
  }
}
