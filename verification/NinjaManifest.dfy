/** The reader of ninja manifests (ninja_deps_guard.py:63-84, 107-171): logical lines, the first output and rule of an
    edge, and the outputs of the edges whose rule binds `deps`. */
module NinjaManifest {
  import opened Options
  import opened Strings

  /** Where `str.splitlines` ends a line, in text whose carriage returns were already read as newlines. */
  predicate Boundary(c: char) {
    c == '\n' || c as int == 0x0B || c as int == 0x0C || 0x1C <= c as int <= 0x1E || c as int == 0x85
    || c as int == 0x2028 || c as int == 0x2029
  }

  predicate NameChar(c: char) {
    'a' <= c <= 'z' || 'A' <= c <= 'Z' || '0' <= c <= '9' || c == '_' || c == '-'
  }

  /* ---------------------------------------------------------------- lines */

  function LineEnd(s: string): (n: nat)
    ensures n <= |s|
  {
    if s == "" || Boundary(s[0]) then 0 else 1 + LineEnd(s[1..])
  }

  /** `text.splitlines()`. */
  function Lines(s: string): seq<string>
    decreases |s|
  {
    if s == "" then []
    else
      var n := LineEnd(s);
      [s[..n]] + if n < |s| then Lines(s[n + 1..]) else []
  }

  /** The number of dollar signs a line ends with. */
  function Trailing(s: string): nat {
    if s != "" && s[|s| - 1] == '$' then 1 + Trailing(s[..|s| - 1]) else 0
  }

  /** The lines with their continuations joined, `pending` being what went before. */
  function Logical(raws: seq<string>, pending: string): seq<string> {
    if raws == [] then if pending == "" then [] else [pending]
    else if Trailing(raws[0]) % 2 == 1 then Logical(raws[1..], pending + raws[0][..|raws[0]| - 1])
    else [pending + raws[0]] + Logical(raws[1..], "")
  }

  /** `logical_lines`. */
  method LogicalLines(raws: seq<string>) returns (lines: seq<string>)
    ensures lines == Logical(raws, "")
  {
    lines := [];
    var pending := "";
    for i := 0 to |raws|
      invariant lines + Logical(raws[i..], pending) == Logical(raws, "")
    {
      var raw := raws[i];
      assert raws[i..][0] == raw && raws[i..][1..] == raws[i + 1..];
      var trailing := Trailing(raw);
      if trailing % 2 == 1 {
        pending := pending + raw[..|raw| - 1];
        continue;
      }
      lines, pending := lines + [pending + raw], "";
    }
    if pending != "" { lines := lines + [pending]; } else { assert lines + [] == lines; }
  }

  /* ---------------------------------------------------------------- the first output and the rule */

  function RunEnd(text: string, pos: nat, dots: bool): (end: nat)
    requires pos <= |text|
    ensures pos <= end <= |text|
    decreases |text| - pos
  {
    if pos < |text| && (NameChar(text[pos]) || (dots && text[pos] == '.')) then RunEnd(text, pos + 1, dots) else pos
  }

  /** A variable used at a dollar sign: its name, and where the use ends. */
  datatype Use = Use(name: string, end: nat)

  function UseAt(text: string, pos: nat): (use: Option<Use>)
    requires pos + 1 < |text|
    ensures use.Some? ==> use.value.end > pos
  {
    var braced, bare := RunEnd(text, pos + 2, true), RunEnd(text, pos + 1, false);
    if text[pos + 1] == '{' && braced > pos + 2 && braced < |text| && text[braced] == '}' then
      Some(Use(text[pos + 2..braced], braced + 1))
    else if bare > pos + 1 then Some(Use(text[pos + 1..bare], bare))
    else None
  }

  /** The first word from `pos` on, if any. */
  function WordStart(text: string, pos: nat): (start: nat)
    requires pos <= |text|
    ensures pos <= start <= |text|
    decreases |text| - pos
  {
    if pos < |text| && Space(text[pos]) then WordStart(text, pos + 1) else pos
  }

  function WordEnd(text: string, pos: nat): (end: nat)
    requires pos <= |text|
    ensures pos <= end <= |text|
    decreases |text| - pos
  {
    if pos < |text| && !Space(text[pos]) then WordEnd(text, pos + 1) else pos
  }

  function FirstWord(text: string, pos: nat): Option<string>
    requires pos <= |text|
  {
    var start := WordStart(text, pos);
    if start == |text| then None else Some(text[start..WordEnd(text, start)])
  }

  function Value(variables: map<string, string>, name: string): string {
    if name in variables then variables[name] else ""
  }

  function Pushed(tokens: seq<string>, current: string): seq<string> {
    if current == "" then tokens else tokens + [current]
  }

  /** What one turn of the loop of `first_output` does: a character or a variable's value added, a separator, the colon
      that ends the outputs. */
  datatype Step = Add(part: string, next: nat) | Separate | Colon

  function StepAt(text: string, index: nat, variables: map<string, string>): (step: Step)
    requires index < |text|
    ensures step.Add? ==> step.next > index
  {
    var c := text[index];
    if c == '$' && index + 1 < |text| && text[index + 1] in " :$" then Add([text[index + 1]], index + 2)
    else if c == '$' && index + 1 < |text| && UseAt(text, index).Some? then
      Add(Value(variables, UseAt(text, index).value.name), UseAt(text, index).value.end)
    else if c == ':' then Colon
    else if c == ' ' || c == '|' then Separate
    else Add([c], index + 1)
  }

  datatype BuildEdge = BuildEdge(output: string, rule: string)

  function FirstFrom(text: string, index: nat, current: string, tokens: seq<string>, variables: map<string, string>)
    : Option<BuildEdge>
    decreases |text| - index
  {
    if index >= |text| then None
    else
      match StepAt(text, index, variables)
      case Add(part, next) => FirstFrom(text, next, current + part, tokens, variables)
      case Separate => FirstFrom(text, index + 1, "", Pushed(tokens, current), variables)
      case Colon =>
        var all, rule := Pushed(tokens, current), FirstWord(text, index + 1);
        if all == [] || rule.None? then None else Some(BuildEdge(all[0], rule.value))
  }

  /** `first_output`, on a line that starts with `build ` (six characters). */
  function FirstOutput(line: string, variables: map<string, string>): Option<BuildEdge> {
    FirstFrom(line, 6, "", [], variables)
  }

  method ReadStep(text: string, index: nat, variables: map<string, string>) returns (step: Step)
    requires index < |text|
    ensures step == StepAt(text, index, variables)
  {
    var c := text[index];
    if c == '$' && index + 1 < |text| {
      var following := text[index + 1];
      if following in " :$" { return Add([following], index + 2); }
      var used := UseAt(text, index);
      if used.Some? { return Add(Value(variables, used.value.name), used.value.end); }
    }
    if c == ':' { return Colon; }
    if c == ' ' || c == '|' { return Separate; }
    step := Add([c], index + 1);
  }

  /** One turn of the loop, by what it finds. */
  lemma FirstStep(text: string, index: nat, current: string, tokens: seq<string>, variables: map<string, string>,
                  step: Step)
    requires index < |text| && step == StepAt(text, index, variables)
    ensures FirstFrom(text, index, current, tokens, variables)
            == match step
               case Add(part, next) => FirstFrom(text, next, current + part, tokens, variables)
               case Separate => FirstFrom(text, index + 1, "", Pushed(tokens, current), variables)
               case Colon =>
                 var all, rule := Pushed(tokens, current), FirstWord(text, index + 1);
                 if all == [] || rule.None? then None else Some(BuildEdge(all[0], rule.value))
  {
  }

  method ReadFirstOutput(line: string, variables: map<string, string>) returns (edge: Option<BuildEdge>)
    ensures edge == FirstOutput(line, variables)
  {
    hide StepAt, FirstWord;
    var tokens: seq<string>, current: string, index: nat := [], "", 6;
    while index < |line|
      invariant FirstFrom(line, index, current, tokens, variables) == FirstOutput(line, variables)
      decreases |line| - index
    {
      var step := ReadStep(line, index, variables);
      FirstStep(line, index, current, tokens, variables, step);
      match step {
        case Add(part, next) =>
          current, index := current + part, next;
        case Separate =>
          tokens, current, index := Pushed(tokens, current), "", index + 1;
        case Colon =>
          tokens := Pushed(tokens, current);
          var rule := FirstWord(line, index + 1);
          return if tokens == [] || rule.None? then None else Some(BuildEdge(tokens[0], rule.value));
      }
    }
    return None;
  }

  /* ---------------------------------------------------------------- the edges of a manifest */

  predicate StartsWith(line: string, part: string) {
    At(line, 0, part)
  }

  /** A top-level binding: a name, blanks, an equals sign, at most one blank, the value. */
  datatype Binding = Binding(name: string, value: string)

  function BindingOf(line: string): Option<Binding> {
    var end := RunEnd(line, 0, true);
    var equals := WordStart(line, end);
    if end == 0 || equals == |line| || line[equals] != '=' then None
    else
      var start := if equals + 1 < |line| && Space(line[equals + 1]) then equals + 2 else equals + 1;
      Some(Binding(line[..end], line[start..]))
  }

  predicate Reserved(line: string) {
    StartsWith(line, "rule ") || StartsWith(line, "pool ") || StartsWith(line, "default ")
    || StartsWith(line, "include ") || StartsWith(line, "subninja ")
  }

  function Bound(variables: map<string, string>, line: string): map<string, string> {
    var binding := BindingOf(line);
    if binding.Some? && !Reserved(line) then variables[binding.value.name := binding.value.value] else variables
  }

  function EdgeOutput(line: string, variables: map<string, string>, rules: set<string>): seq<string> {
    var edge := FirstOutput(line, variables);
    if edge.Some? && edge.value.rule in rules then [edge.value.output] else []
  }

  /** The outputs of the lines, the variables being those bound so far. */
  function EdgesFrom(lines: seq<string>, variables: map<string, string>, rules: set<string>): seq<string> {
    if lines == [] then []
    else if StartsWith(lines[0], "build ") then
      EdgeOutput(lines[0], variables, rules) + EdgesFrom(lines[1..], variables, rules)
    else EdgesFrom(lines[1..], Bound(variables, lines[0]), rules)
  }

  /** `deps_edges`, of the manifest's text. */
  function DepsEdges(text: string, rules: set<string>): seq<string> {
    EdgesFrom(Logical(Lines(text), ""), map[], rules)
  }

  method ReadDepsEdges(text: string, rules: set<string>) returns (outputs: seq<string>)
    ensures outputs == DepsEdges(text, rules)
  {
    hide FirstOutput, StartsWith, BindingOf;
    var lines := LogicalLines(Lines(text));
    outputs := [];
    var variables := map[];
    for i := 0 to |lines|
      invariant outputs + EdgesFrom(lines[i..], variables, rules) == EdgesFrom(lines, map[], rules)
    {
      var line := lines[i];
      assert lines[i..][0] == line && lines[i..][1..] == lines[i + 1..];
      if StartsWith(line, "build ") {
        var edge := ReadFirstOutput(line, variables);
        if edge.Some? && edge.value.rule in rules { outputs := outputs + [edge.value.output]; }
        continue;
      }
      var binding := BindingOf(line);
      if binding.Some? && !Reserved(line) { variables := variables[binding.value.name := binding.value.value]; }
    }
    assert outputs + [] == outputs;
  }
}
