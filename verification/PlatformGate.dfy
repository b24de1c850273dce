/** Which uncovered sources the build itself gates off this host (platform_gate.py): the linear frame stack of
    `mentions`, the verdict, and why a refused file is named by nothing that runs. */
module PlatformGate {
  import opened Options
  import opened CMakeText

  const PLATFORM_WORDS: set<string> := {
    "WIN32", "UNIX", "APPLE", "LINUX",
    "CMAKE_HOST_WIN32", "CMAKE_HOST_UNIX", "CMAKE_HOST_APPLE", "CMAKE_HOST_LINUX"
  }
  const OPERATOR_WORDS: set<string> := {"NOT", "AND", "OR", "(", ")"}

  /** What `mentions` copies of a frame when it reports one. */
  datatype FrameValue = FrameValue(conditions: seq<seq<string>>, branch: nat, line: nat)

  /** A file named by a command: the path, the command's line, the frames around it. */
  datatype Mention = Mention(path: string, line: nat, frames: seq<FrameValue>)

  /* ---------------------------------------------------------------- frames */

  /** One open `if`, edited in place as its branches go by. */
  class Frame {
    var conditions: seq<seq<string>>
    var branch: nat
    const line: nat

    constructor (condition: seq<string>, line: nat)
      ensures Value() == FrameValue([condition], 0, line)
    {
      this.conditions, this.branch, this.line := [condition], 0, line;
    }

    ghost function Value(): FrameValue
      reads this
    {
      FrameValue(conditions, branch, line)
    }

    method NextBranch(condition: seq<string>)
      modifies this
      ensures Value() == OnElseif(old(Value()), condition)
    {
      conditions, branch := conditions + [condition], branch + 1;
    }

    method LastBranch()
      modifies this
      ensures Value() == OnElse(old(Value()))
    {
      branch := |conditions|;
    }

    method Copy() returns (value: FrameValue)
      ensures value == Value()
    {
      value := FrameValue(conditions, branch, line);
    }
  }

  function OnElseif(frame: FrameValue, condition: seq<string>): FrameValue {
    FrameValue(frame.conditions + [condition], frame.branch + 1, frame.line)
  }

  function OnElse(frame: FrameValue): FrameValue {
    FrameValue(frame.conditions, |frame.conditions|, frame.line)
  }

  predicate Conditional(stack: seq<FrameValue>, command: Command) {
    command.name == "if" || (command.name in {"elseif", "else", "endif"} && stack != [])
  }

  /** What one command does to the stack. */
  function Step(stack: seq<FrameValue>, command: Command): seq<FrameValue> {
    var top := |stack| - 1;
    if command.name == "if" then stack + [FrameValue([command.args], 0, command.line)]
    else if stack == [] then stack
    else if command.name == "elseif" then stack[..top] + [OnElseif(stack[top], command.args)]
    else if command.name == "else" then stack[..top] + [OnElse(stack[top])]
    else if command.name == "endif" then stack[..top]
    else stack
  }

  function StackAfter(stack: seq<FrameValue>, commands: seq<Command>): seq<FrameValue> {
    if commands == [] then stack
    else Step(StackAfter(stack, commands[..|commands| - 1]), commands[|commands| - 1])
  }

  lemma {:induction false} StackAfterJoin(stack: seq<FrameValue>, a: seq<Command>, b: seq<Command>)
    ensures StackAfter(stack, a + b) == StackAfter(StackAfter(stack, a), b)
  {
    if b == [] {
      assert a + b == a;
    } else {
      assert (a + b)[..|a + b| - 1] == a + b[..|b| - 1];
      StackAfterJoin(stack, a, b[..|b| - 1]);
    }
  }

  lemma StackAfterOne(stack: seq<FrameValue>, command: Command)
    ensures StackAfter(stack, [command]) == Step(stack, command)
  {
    assert [command][..0] == [];
  }

  /* ---------------------------------------------------------------- variables */

  /** The variables in the order they were first set; None is "resolves to nothing". */
  type Variables = seq<(string, Option<string>)>

  predicate Declared(variables: Variables, name: string) {
    exists k :: 0 <= k < |variables| && variables[k].0 == name
  }

  function Assign(variables: Variables, name: string, value: Option<string>): Variables {
    if variables == [] then [(name, value)]
    else if variables[0].0 == name then [(name, value)] + variables[1..]
    else [variables[0]] + Assign(variables[1..], name, value)
  }

  function Lookup(variables: Variables, name: string): Option<string> {
    if variables == [] then None
    else if variables[0].0 == name then variables[0].1
    else Lookup(variables[1..], name)
  }

  function SubstituteAll(token: string, variables: Variables): string
    decreases |variables|
  {
    if variables == [] then token
    else
      var (name, value) := variables[0];
      SubstituteAll(if value.Some? then Replace(token, "${" + name + "}", value.value) else token, variables[1..])
  }

  function Expand(token: string, base: string, variables: Variables): string {
    SubstituteAll(Replace(Replace(token, "${CMAKE_CURRENT_SOURCE_DIR}", base), "${CMAKE_CURRENT_LIST_DIR}", base),
                  variables)
  }

  method ExpandToken(token: string, base: string, variables: Variables) returns (r: string)
    ensures r == Expand(token, base, variables)
  {
    r := Replace(token, "${CMAKE_CURRENT_SOURCE_DIR}", base);
    r := Replace(r, "${CMAKE_CURRENT_LIST_DIR}", base);
    var i := 0;
    while i < |variables|
      invariant 0 <= i <= |variables|
      invariant SubstituteAll(r, variables[i..]) == Expand(token, base, variables)
    {
      var (name, value) := variables[i];
      if value.Some? { r := Replace(r, "${" + name + "}", value.value); }
      i := i + 1;
    }
  }

  predicate Sets(command: Command, name: string) {
    command.name == "set" && command.args != [] && IsIdentifier(command.args[0]) && command.args[0] == name
  }

  /** The value a `set` gives its variable: one value, outside every if, for the first time, wholly resolved. */
  function ValueSet(stack: seq<FrameValue>, variables: Variables, command: Command, base: string): Option<string>
    requires command.args != []
  {
    if |command.args| != 2 || stack != [] || Declared(variables, command.args[0]) then None
    else
      var value := Expand(Unquote(command.args[1]), base, variables);
      if Contains(value, "${") then None else Some(value)
  }

  function Updated(stack: seq<FrameValue>, variables: Variables, command: Command, base: string): Variables {
    if command.name == "set" && command.args != [] && IsIdentifier(command.args[0])
    then Assign(variables, command.args[0], ValueSet(stack, variables, command, base))
    else variables
  }

  function VariablesAfter(commands: seq<Command>, base: string): Variables {
    if commands == [] then []
    else
      var before := commands[..|commands| - 1];
      Updated(StackAfter([], before), VariablesAfter(before, base), commands[|commands| - 1], base)
  }

  lemma {:induction false} AssignLookup(variables: Variables, name: string, value: Option<string>, other: string)
    ensures Lookup(Assign(variables, name, value), other) == if other == name then value else Lookup(variables, other)
    ensures Declared(Assign(variables, name, value), other) <==> other == name || Declared(variables, other)
  {
    var after := Assign(variables, name, value);
    if variables != [] {
      AssignLookup(variables[1..], name, value, other);
      assert Declared(variables, other) <==> variables[0].0 == other || Declared(variables[1..], other) by {
        DeclaredSplit(variables, other);
      }
      DeclaredSplit(after, other);
      assert after[1..] == if variables[0].0 == name then variables[1..] else Assign(variables[1..], name, value);
    } else {
      assert after[0].0 == name;
    }
  }

  lemma DeclaredSplit(variables: Variables, name: string)
    requires variables != []
    ensures Declared(variables, name) <==> variables[0].0 == name || Declared(variables[1..], name)
  {
    if Declared(variables, name) {
      var k :| 0 <= k < |variables| && variables[k].0 == name;
      if k > 0 { assert variables[1..][k - 1].0 == name; }
    }
    if Declared(variables[1..], name) {
      var k :| 0 <= k < |variables[1..]| && variables[1..][k].0 == name;
      assert variables[k + 1].0 == name;
    }
  }

  /** Position `p` is the one `set` of `name` among the commands. */
  predicate OnlySet(commands: seq<Command>, name: string, p: nat) {
    p < |commands| && Sets(commands[p], name)
    && forall q :: 0 <= q < |commands| && Sets(commands[q], name) ==> q == p
  }

  /** `name` has one unconditional value: set once, with one value, outside every if, to something wholly resolved. */
  predicate SingleValued(commands: seq<Command>, base: string, name: string, p: nat) {
    OnlySet(commands, name, p) && |commands[p].args| == 2 && StackAfter([], commands[..p]) == []
    && !Contains(Expand(Unquote(commands[p].args[1]), base, VariablesAfter(commands[..p], base)), "${")
  }

  lemma {:induction false} DeclaredIffSet(commands: seq<Command>, base: string, name: string)
    ensures Declared(VariablesAfter(commands, base), name) <==>
            exists p :: 0 <= p < |commands| && Sets(commands[p], name)
  {
    hide ValueSet, StackAfter, Assign, Expand;
    if commands != [] {
      var n := |commands| - 1;
      var before := commands[..n];
      DeclaredIffSet(before, base, name);
      assert forall p :: 0 <= p < n ==> before[p] == commands[p];
      var last := commands[n];
      if last.name == "set" && last.args != [] && IsIdentifier(last.args[0]) {
        AssignLookup(VariablesAfter(before, base), last.args[0],
                     ValueSet(StackAfter([], before), VariablesAfter(before, base), last, base), name);
      }
    }
  }

  /** A VARIABLE RESOLVES exactly when the commands so far give it one unconditional value, and then to that value. */
  lemma {:induction false} ResolvesIffSingleValued(commands: seq<Command>, base: string, name: string)
    ensures Lookup(VariablesAfter(commands, base), name).Some? <==> exists p: nat :: SingleValued(commands, base, name, p)
    ensures forall p: nat :: SingleValued(commands, base, name, p) ==>
              Lookup(VariablesAfter(commands, base), name)
              == Some(Expand(Unquote(commands[p].args[1]), base, VariablesAfter(commands[..p], base)))
  {
    if commands != [] {
      var n := |commands| - 1;
      var before, last := commands[..n], commands[n];
      ResolvesIffSingleValued(before, base, name);
      DeclaredIffSet(before, base, name);
      forall p | 0 <= p < n ensures before[..p] == commands[..p] && before[p] == commands[p] {}
      if last.name == "set" && last.args != [] && IsIdentifier(last.args[0]) {
        AssignLookup(VariablesAfter(before, base), last.args[0],
                     ValueSet(StackAfter([], before), VariablesAfter(before, base), last, base), name);
      }
      if Sets(last, name) {
        SetLastSingle(commands, base, name);
      } else {
        forall p: nat ensures SingleValued(commands, base, name, p) <==> SingleValued(before, base, name, p) {
          OnlySetBefore(commands, name, p);
        }
      }
    }
  }

  lemma OnlySetBefore(commands: seq<Command>, name: string, p: nat)
    requires commands != [] && !Sets(commands[|commands| - 1], name)
    ensures OnlySet(commands, name, p) <==> OnlySet(commands[..|commands| - 1], name, p)
  {
    var before := commands[..|commands| - 1];
    if OnlySet(before, name, p) {
      forall q | 0 <= q < |commands| && Sets(commands[q], name) ensures q == p { assert before[q] == commands[q]; }
    }
    if OnlySet(commands, name, p) {
      assert before[p] == commands[p];
    }
  }

  lemma SetLastSingle(commands: seq<Command>, base: string, name: string)
    requires commands != [] && Sets(commands[|commands| - 1], name)
    ensures var n := |commands| - 1;
            (exists p: nat :: SingleValued(commands, base, name, p)) <==>
            ValueSet(StackAfter([], commands[..n]), VariablesAfter(commands[..n], base), commands[n], base).Some?
    ensures forall p: nat :: SingleValued(commands, base, name, p) ==> p == |commands| - 1
  {
    var n := |commands| - 1;
    DeclaredIffSet(commands[..n], base, name);
    assert forall p: nat :: SingleValued(commands, base, name, p) ==> p == n;
    if ValueSet(StackAfter([], commands[..n]), VariablesAfter(commands[..n], base), commands[n], base).Some? {
      forall q | 0 <= q < n ensures !Sets(commands[q], name) { assert commands[..n][q] == commands[q]; }
      assert SingleValued(commands, base, name, n);
    }
    if SingleValued(commands, base, name, n) {
      forall q | 0 <= q < n ensures !Sets(commands[..n][q], name) { assert commands[..n][q] == commands[q]; }
    }
  }

  /* ---------------------------------------------------------------- mentions */

  /** The file a command's argument names, if the tool can tell: Some(path) with every variable resolved. */
  function Named(arg: string, base: string, variables: Variables, resolve: (string, string) -> string): Option<string> {
    var token := Expand(Unquote(arg), base, variables);
    if token == "" || Contains(token, "${") || Contains(token, "$<") then None else Some(resolve(base, token))
  }

  function MentionsInArgs(args: seq<string>, line: nat, frames: seq<FrameValue>, base: string, variables: Variables,
                          targets: set<string>, resolve: (string, string) -> string): seq<Mention>
  {
    if args == [] then []
    else
      var last := |args| - 1;
      var named := Named(args[last], base, variables, resolve);
      MentionsInArgs(args[..last], line, frames, base, variables, targets, resolve)
      + if named.Some? && named.value in targets then [Mention(named.value, line, frames)] else []
  }

  function MentionsOf(commands: seq<Command>, base: string, targets: set<string>, resolve: (string, string) -> string): seq<Mention> {
    if commands == [] then []
    else
      var before, last := commands[..|commands| - 1], commands[|commands| - 1];
      var stack := StackAfter([], before);
      MentionsOf(before, base, targets, resolve)
      + if Conditional(stack, last) then []
        else MentionsInArgs(last.args, last.line, stack, base, VariablesAfter(commands, base), targets, resolve)
  }

  ghost predicate FramesAre(stack: seq<Frame>, values: seq<FrameValue>)
    reads stack
  {
    && |stack| == |values|
    && (forall k :: 0 <= k < |stack| ==> stack[k].Value() == values[k])
    && (forall j, k :: 0 <= j < k < |stack| ==> stack[j] != stack[k])
  }

  method SnapshotOf(stack: seq<Frame>, ghost values: seq<FrameValue>) returns (copy: seq<FrameValue>)
    requires FramesAre(stack, values)
    ensures copy == values
  {
    copy := [];
    for i := 0 to |stack|
      invariant copy == values[..i]
    {
      var value := stack[i].Copy();
      copy := copy + [value];
    }
  }

  method MentionsInCommand(command: Command, stack: seq<Frame>, ghost frames: seq<FrameValue>, base: string,
                           variables: Variables, targets: set<string>, resolve: (string, string) -> string)
    returns (found: seq<Mention>)
    requires FramesAre(stack, frames)
    ensures found == MentionsInArgs(command.args, command.line, frames, base, variables, targets, resolve)
  {
    found := [];
    for i := 0 to |command.args|
      invariant found == MentionsInArgs(command.args[..i], command.line, frames, base, variables, targets, resolve)
    {
      assert command.args[..i + 1][..i] == command.args[..i];
      var token := ExpandToken(Unquote(command.args[i]), base, variables);
      if token == "" || Contains(token, "${") || Contains(token, "$<") { continue; }
      var path := resolve(base, token);
      if path in targets {
        var snapshot := SnapshotOf(stack, frames);
        found := found + [Mention(path, command.line, snapshot)];
      }
    }
    assert command.args[..|command.args|] == command.args;
  }

  /** The `set` branch of the loop: a variable is given its one value, or made to resolve to nothing. */
  method Setting(command: Command, stack: seq<Frame>, ghost frames: seq<FrameValue>, base: string, variables: Variables)
    returns (r: Variables)
    requires |stack| == |frames|
    ensures r == Updated(frames, variables, command, base)
  {
    r := variables;
    if command.name == "set" && command.args != [] && IsIdentifier(command.args[0]) {
      var value := None;
      if |command.args| == 2 && stack == [] && !Declared(variables, command.args[0]) {
        var expanded := ExpandToken(Unquote(command.args[1]), base, variables);
        if !Contains(expanded, "${") { value := Some(expanded); }
      }
      r := Assign(variables, command.args[0], value);
    }
  }

  /** The four conditional branches of the loop: the frame on top is edited in place. */
  method Move(command: Command, stack: seq<Frame>, ghost frames: seq<FrameValue>)
    returns (after: seq<Frame>, conditional: bool)
    requires FramesAre(stack, frames)
    modifies stack
    ensures FramesAre(after, Step(frames, command)) && conditional == Conditional(frames, command)
    ensures forall k :: 0 <= k < |after| ==> after[k] in stack || fresh(after[k])
  {
    var top := |stack| - 1;
    after, conditional := stack, true;
    if command.name == "if" {
      var frame := new Frame(command.args, command.line);
      after := stack + [frame];
    } else if command.name == "elseif" && stack != [] {
      stack[top].NextBranch(command.args);
    } else if command.name == "else" && stack != [] {
      stack[top].LastBranch();
    } else if command.name == "endif" && stack != [] {
      after := stack[..top];
    } else {
      conditional := false;
    }
  }

  method Mentions(commands: seq<Command>, base: string, targets: set<string>, resolve: (string, string) -> string)
    returns (found: seq<Mention>)
    ensures found == MentionsOf(commands, base, targets, resolve)
  {
    var stack: seq<Frame> := [];
    var variables: Variables := [];
    found := [];
    for i := 0 to |commands|
      invariant forall k :: 0 <= k < |stack| ==> fresh(stack[k])
      invariant FramesAre(stack, StackAfter([], commands[..i]))
      invariant variables == VariablesAfter(commands[..i], base)
      invariant found == MentionsOf(commands[..i], base, targets, resolve)
    {
      assert commands[..i + 1][..i] == commands[..i];
      ghost var frames := StackAfter([], commands[..i]);
      variables := Setting(commands[i], stack, frames, base, variables);
      var after, conditional := Move(commands[i], stack, frames);
      stack := after;
      if !conditional {
        var more := MentionsInCommand(commands[i], stack, frames, base, variables, targets, resolve);
        found := found + more;
      }
    }
    assert commands[..|commands|] == commands;
  }

  ghost predicate ArgNames(args: seq<string>, base: string, variables: Variables, resolve: (string, string) -> string,
                           path: string)
  {
    exists k :: 0 <= k < |args| && Named(args[k], base, variables, resolve) == Some(path)
  }

  /** Command `i` is not conditional, and an argument of it resolves to `path`. */
  ghost predicate Names(commands: seq<Command>, base: string, resolve: (string, string) -> string, i: nat, path: string)
    requires i < |commands|
  {
    !Conditional(StackAfter([], commands[..i]), commands[i])
    && ArgNames(commands[i].args, base, VariablesAfter(commands[..i + 1], base), resolve, path)
  }

  lemma ArgNamesLast(args: seq<string>, base: string, variables: Variables, resolve: (string, string) -> string,
                     path: string)
    requires args != []
    ensures ArgNames(args, base, variables, resolve, path) <==>
            ArgNames(args[..|args| - 1], base, variables, resolve, path)
            || Named(args[|args| - 1], base, variables, resolve) == Some(path)
  {
    var n := |args| - 1;
    assert forall k :: 0 <= k < n ==> args[..n][k] == args[k];
  }

  lemma {:induction false} MentionsInArgsAre(args: seq<string>, line: nat, frames: seq<FrameValue>, base: string,
                                             variables: Variables, targets: set<string>,
                                             resolve: (string, string) -> string, m: Mention)
    ensures m in MentionsInArgs(args, line, frames, base, variables, targets, resolve) <==>
            m.line == line && m.frames == frames && m.path in targets
            && ArgNames(args, base, variables, resolve, m.path)
  {
    if args != [] {
      MentionsInArgsAre(args[..|args| - 1], line, frames, base, variables, targets, resolve, m);
      ArgNamesLast(args, base, variables, resolve, m.path);
    }
  }

  /** `m` is what command `i` makes the tool report. */
  ghost predicate Reports(commands: seq<Command>, base: string, resolve: (string, string) -> string, i: nat, m: Mention) {
    i < |commands| && Names(commands, base, resolve, i, m.path)
    && m.line == commands[i].line && m.frames == StackAfter([], commands[..i])
  }

  lemma ReportsBefore(commands: seq<Command>, base: string, resolve: (string, string) -> string, i: nat, m: Mention)
    requires i < |commands| - 1
    ensures Reports(commands[..|commands| - 1], base, resolve, i, m) <==> Reports(commands, base, resolve, i, m)
  {
    var before := commands[..|commands| - 1];
    assert before[..i] == commands[..i] && before[..i + 1] == commands[..i + 1] && before[i] == commands[i];
  }

  lemma ReportsLast(commands: seq<Command>, base: string, targets: set<string>, resolve: (string, string) -> string, m: Mention)
    requires commands != []
    ensures m.path in targets && Reports(commands, base, resolve, |commands| - 1, m) <==>
            var n := |commands| - 1;
            var stack := StackAfter([], commands[..n]);
            !Conditional(stack, commands[n])
            && m in MentionsInArgs(commands[n].args, commands[n].line, stack, base, VariablesAfter(commands, base),
                                   targets, resolve)
  {
    var n := |commands| - 1;
    assert commands[..n + 1] == commands;
    MentionsInArgsAre(commands[n].args, commands[n].line, StackAfter([], commands[..n]), base,
                      VariablesAfter(commands, base), targets, resolve, m);
  }

  lemma MentionsOfLast(commands: seq<Command>, base: string, targets: set<string>, resolve: (string, string) -> string, m: Mention)
    requires commands != []
    ensures m in MentionsOf(commands, base, targets, resolve) <==>
            m in MentionsOf(commands[..|commands| - 1], base, targets, resolve)
            || (m.path in targets && Reports(commands, base, resolve, |commands| - 1, m))
  {
    ReportsLast(commands, base, targets, resolve, m);
  }

  ghost predicate Reported(commands: seq<Command>, base: string, resolve: (string, string) -> string, m: Mention) {
    exists i: nat :: Reports(commands, base, resolve, i, m)
  }

  lemma ReportedLast(commands: seq<Command>, base: string, resolve: (string, string) -> string, m: Mention)
    requires commands != []
    ensures Reported(commands, base, resolve, m) <==>
            Reported(commands[..|commands| - 1], base, resolve, m) || Reports(commands, base, resolve, |commands| - 1, m)
  {
    var before := commands[..|commands| - 1];
    if Reported(before, base, resolve, m) {
      var i: nat :| Reports(before, base, resolve, i, m);
      ReportsBefore(commands, base, resolve, i, m);
    }
    if Reported(commands, base, resolve, m) {
      var i: nat :| Reports(commands, base, resolve, i, m);
      if i < |before| { ReportsBefore(commands, base, resolve, i, m); }
    }
  }

  /** WHAT IS REPORTED: exactly the targets a non-conditional command names, with the frames open at that command. */
  lemma {:induction false} MentionsAreTheNamed(commands: seq<Command>, base: string, targets: set<string>,
                                               resolve: (string, string) -> string, m: Mention)
    ensures m in MentionsOf(commands, base, targets, resolve) <==>
            m.path in targets && Reported(commands, base, resolve, m)
  {
    if commands != [] {
      MentionsAreTheNamed(commands[..|commands| - 1], base, targets, resolve, m);
      MentionsOfLast(commands, base, targets, resolve, m);
      ReportedLast(commands, base, resolve, m);
    }
  }

  /* ---------------------------------------------------------------- verdicts */

  predicate Judgeable(condition: seq<string>) {
    forall word <- condition :: word in PLATFORM_WORDS || word in OPERATOR_WORDS
  }

  /** The conditions up to the frame's own branch. */
  function Judged(frame: FrameValue): seq<seq<string>> {
    if frame.branch < |frame.conditions| then frame.conditions[..frame.branch + 1] else frame.conditions
  }

  predicate PlatformOnly(frame: FrameValue) {
    forall condition <- Judged(frame) :: Judgeable(condition)
  }

  function FirstTrue(conditions: seq<seq<string>>, host: seq<string> -> bool, from: nat): int
    requires from <= |conditions|
    decreases |conditions| - from
  {
    if from == |conditions| then -1
    else if host(conditions[from]) then from
    else FirstTrue(conditions, host, from + 1)
  }

  /** What the probe script reports: the first judged condition the host finds true, or -1. */
  function TakenBranch(frame: FrameValue, host: seq<string> -> bool): int {
    FirstTrue(Judged(frame), host, 0)
  }

  function OwnBranch(frame: FrameValue): int {
    if frame.branch < |frame.conditions| then frame.branch else -1
  }

  predicate Gate(frame: FrameValue, host: seq<string> -> bool) {
    PlatformOnly(frame) && TakenBranch(frame, host) != OwnBranch(frame)
  }

  predicate Gated(m: Mention, host: seq<string> -> bool) {
    exists frame <- m.frames :: Gate(frame, host)
  }

  /** A tracked CMake file: its directory and its commands. */
  datatype BuildFile = BuildFile(base: string, commands: seq<Command>)

  /** Every mention of `path`, file by file. */
  function MentionsOfPath(files: seq<BuildFile>, targets: set<string>, resolve: (string, string) -> string,
                          path: string): seq<Mention>
  {
    if files == [] then []
    else
      var last := files[|files| - 1];
      MentionsOfPath(files[..|files| - 1], targets, resolve, path)
      + Only(MentionsOf(last.commands, last.base, targets, resolve), path)
  }

  function Only(mentions: seq<Mention>, path: string): seq<Mention> {
    if mentions == [] then []
    else
      var last := mentions[|mentions| - 1];
      Only(mentions[..|mentions| - 1], path) + if last.path == path then [last] else []
  }

  /** A file is refused when something names it and every mention of it sits under a gate. */
  predicate Refused(files: seq<BuildFile>, targets: set<string>, resolve: (string, string) -> string,
                    host: seq<string> -> bool, path: string)
  {
    var mentions := MentionsOfPath(files, targets, resolve, path);
    mentions != [] && forall m <- mentions :: Gated(m, host)
  }

  /** The first gate among a mention's frames, if any. */
  method FindGate(m: Mention, host: seq<string> -> bool) returns (found: bool)
    ensures found <==> Gated(m, host)
  {
    for i := 0 to |m.frames|
      invariant forall frame <- m.frames[..i] :: !Gate(frame, host)
    {
      if Gate(m.frames[i], host) { return true; }
    }
    assert m.frames[..|m.frames|] == m.frames;
    return false;
  }

  method Verdict(mentions: seq<Mention>, host: seq<string> -> bool) returns (refused: bool)
    ensures refused <==> mentions != [] && forall m <- mentions :: Gated(m, host)
  {
    var reasons: seq<Mention> := [];
    for i := 0 to |mentions|
      invariant reasons == mentions[..i]
      invariant forall m <- mentions[..i] :: Gated(m, host)
    {
      var gate := FindGate(mentions[i], host);
      if !gate {
        reasons := [];
        return false;
      }
      reasons := reasons + [mentions[i]];
    }
    assert mentions[..|mentions|] == mentions;
    refused := reasons != [];
  }

  lemma OnlyNext(mentions: seq<Mention>, k: nat, path: string)
    requires k < |mentions|
    ensures Only(mentions[..k + 1], path) == Only(mentions[..k], path) + if mentions[k].path == path then [mentions[k]] else []
  {
    assert mentions[..k + 1][..k] == mentions[..k];
  }

  ghost predicate Gathered(found: map<string, seq<Mention>>, before: map<string, seq<Mention>>, mentions: seq<Mention>) {
    found.Keys == before.Keys && forall path <- before.Keys :: found[path] == before[path] + Only(mentions, path)
  }

  /** The mentions of one file, added path by path. */
  method GatherFile(before: map<string, seq<Mention>>, mentions: seq<Mention>) returns (found: map<string, seq<Mention>>)
    requires forall m <- mentions :: m.path in before.Keys
    ensures Gathered(found, before, mentions)
  {
    found := before;
    assert mentions[..0] == [];
    for k := 0 to |mentions|
      invariant Gathered(found, before, mentions[..k])
    {
      var m := mentions[k];
      assert m in mentions;
      forall path ensures Only(mentions[..k + 1], path)
                          == Only(mentions[..k], path) + if m.path == path then [m] else [] {
        OnlyNext(mentions, k, path);
      }
      found := found[m.path := found[m.path] + [m]];
    }
    assert mentions[..|mentions|] == mentions;
  }

  /** Every mention gathered by path. */
  method Gather(files: seq<BuildFile>, targets: set<string>, resolve: (string, string) -> string)
    returns (found: map<string, seq<Mention>>)
    ensures found == map path | path in targets :: MentionsOfPath(files, targets, resolve, path)
  {
    found := map path | path in targets :: [];
    for i := 0 to |files|
      invariant found == map path | path in targets :: MentionsOfPath(files[..i], targets, resolve, path)
    {
      assert files[..i + 1][..i] == files[..i];
      var mentions := Mentions(files[i].commands, files[i].base, targets, resolve);
      forall m | m in mentions ensures m.path in targets {
        MentionsAreTheNamed(files[i].commands, files[i].base, targets, resolve, m);
      }
      found := GatherFile(found, mentions);
    }
    assert files[..|files|] == files;
  }

  /** A file to judge: its resolved path, and how it was asked for. */
  datatype Target = Target(path: string, original: string)

  /** A Python dict's assignment: a key that is there keeps its place and takes the new value. */
  function Put(targets: seq<Target>, path: string, original: string): seq<Target> {
    if targets == [] then [Target(path, original)]
    else if targets[0].path == path then [Target(path, original)] + targets[1..]
    else [targets[0]] + Put(targets[1..], path, original)
  }

  /** The files asked for, one for each resolved path. */
  function TargetsOf(asked: seq<string>, realpath: string -> string): seq<Target> {
    if asked == [] then []
    else Put(TargetsOf(asked[..|asked| - 1], realpath), realpath(asked[|asked| - 1]), asked[|asked| - 1])
  }

  function Paths(targets: seq<Target>): set<string> {
    if targets == [] then {} else {targets[0].path} + Paths(targets[1..])
  }

  /** No two targets share a path. */
  predicate OnePath(targets: seq<Target>) {
    targets == [] || (targets[0].path !in Paths(targets[1..]) && OnePath(targets[1..]))
  }

  lemma {:induction false} PathAt(targets: seq<Target>, k: nat)
    requires k < |targets|
    ensures targets[k].path in Paths(targets)
  {
    if k > 0 { PathAt(targets[1..], k - 1); }
  }

  lemma {:induction false} PutKeepsOnePath(targets: seq<Target>, path: string, original: string)
    requires OnePath(targets)
    ensures OnePath(Put(targets, path, original)) && Paths(Put(targets, path, original)) == Paths(targets) + {path}
    ensures forall target <- Put(targets, path, original) :: target in targets || target == Target(path, original)
  {
    if targets != [] {
      var first, rest := targets[0], targets[1..];
      PutKeepsOnePath(rest, path, original);
      var all := Put(targets, path, original);
      assert all[1..] == if first.path == path then rest else Put(rest, path, original);
    }
  }

  /** EACH FILE IS JUDGED ONCE: the targets have a path each, the paths are those of the files asked for, and each target
      is asked for by its own name. */
  lemma {:induction false} TargetsAreTheAsked(asked: seq<string>, realpath: string -> string)
    ensures OnePath(TargetsOf(asked, realpath))
    ensures Paths(TargetsOf(asked, realpath)) == set file <- asked :: realpath(file)
    ensures forall target <- TargetsOf(asked, realpath) :: target.original in asked && realpath(target.original) == target.path
  {
    if asked != [] {
      hide OnePath, Paths, Put;
      var front, last := asked[..|asked| - 1], asked[|asked| - 1];
      TargetsAreTheAsked(front, realpath);
      PutKeepsOnePath(TargetsOf(front, realpath), realpath(last), last);
      assert asked == front + [last];
    }
  }

  datatype Answer = Answer(file: string, refused: bool)

  /** The loop of `verdicts` over the targets. */
  method Judge(files: seq<BuildFile>, targets: seq<Target>, resolve: (string, string) -> string,
               host: seq<string> -> bool)
    returns (out: seq<Answer>)
    ensures |out| == |targets|
    ensures forall k :: 0 <= k < |targets| ==>
              out[k] == Answer(targets[k].original, Refused(files, Paths(targets), resolve, host, targets[k].path))
  {
    var found := Gather(files, Paths(targets), resolve);
    out := [];
    for i := 0 to |targets|
      invariant |out| == i
      invariant forall k :: 0 <= k < i ==>
        out[k] == Answer(targets[k].original, Refused(files, Paths(targets), resolve, host, targets[k].path))
    {
      PathAt(targets, i);
      var refused := Verdict(found[targets[i].path], host);
      out := out + [Answer(targets[i].original, refused)];
    }
  }

  /** `verdicts`: one for each resolved path, in the order first asked for; a cross-compiling database refuses nothing. */
  method Verdicts(cross: bool, files: seq<BuildFile>, asked: seq<string>, realpath: string -> string,
                  resolve: (string, string) -> string, host: seq<string> -> bool)
    returns (out: seq<Answer>)
    ensures cross ==> |out| == |asked| && forall k :: 0 <= k < |asked| ==> out[k] == Answer(asked[k], false)
    ensures var targets := TargetsOf(asked, realpath);
            !cross ==> |out| == |targets|
                       && forall k :: 0 <= k < |targets| ==>
                            out[k] == Answer(targets[k].original,
                                             Refused(files, Paths(targets), resolve, host, targets[k].path))
  {
    if cross { return seq(|asked|, k requires 0 <= k < |asked| => Answer(asked[k], false)); }
    hide Refused, TargetsOf, Paths;
    out := Judge(files, TargetsOf(asked, realpath), resolve, host);
  }

  /** `m` is reported by one of the files. */
  ghost predicate ReportedBySome(files: seq<BuildFile>, resolve: (string, string) -> string, m: Mention) {
    exists f :: 0 <= f < |files| && Reported(files[f].commands, files[f].base, resolve, m)
  }

  lemma {:induction false} OnlyAre(mentions: seq<Mention>, path: string, m: Mention)
    ensures m in Only(mentions, path) <==> m in mentions && m.path == path
  {
    if mentions != [] {
      OnlyAre(mentions[..|mentions| - 1], path, m);
      assert mentions == mentions[..|mentions| - 1] + [mentions[|mentions| - 1]];
    }
  }

  lemma {:induction false} MentionsOfPathAre(files: seq<BuildFile>, targets: set<string>,
                                             resolve: (string, string) -> string, path: string, m: Mention)
    ensures m in MentionsOfPath(files, targets, resolve, path) <==>
            m.path == path && path in targets && ReportedBySome(files, resolve, m)
  {
    hide MentionsOf, Reported, Only;
    if files != [] {
      var n := |files| - 1;
      MentionsOfPathAre(files[..n], targets, resolve, path, m);
      OnlyAre(MentionsOf(files[n].commands, files[n].base, targets, resolve), path, m);
      MentionsAreTheNamed(files[n].commands, files[n].base, targets, resolve, m);
      assert forall f :: 0 <= f < n ==> files[..n][f] == files[f];
    }
  }
}
