/** What the platform gate's verdict means for a run of the build (platform_gate.py:146-247): the linear stack of frames
    is the path of enclosing branches of the nested text, and a refused file is named by nothing that runs. */
module DeadBranches {
  import opened Options
  import opened CMakeText
  import opened PlatformGate

  /* ---------------------------------------------------------------- nested text and its runs */

  datatype Stmt = Simple(command: Command) | If(chain: Chain)

  /** An `if` chain from some branch on: the branch's head and body, then the rest. */
  datatype Chain =
    | Branch(head: Command, body: seq<Stmt>, rest: Chain)
    | Else(head: Command, body: seq<Stmt>, end: Command)
    | End(end: Command)

  const BRANCH_WORDS: set<string> := {"if", "elseif", "else", "endif"}

  function Flatten(stmts: seq<Stmt>): seq<Command> {
    if stmts == [] then [] else FlattenStmt(stmts[0]) + Flatten(stmts[1..])
  }

  function FlattenStmt(stmt: Stmt): seq<Command> {
    match stmt
    case Simple(command) => [command]
    case If(chain) => FlattenChain(chain)
  }

  function FlattenChain(chain: Chain): seq<Command> {
    match chain
    case Branch(head, body, rest) => [head] + Flatten(body) + FlattenChain(rest)
    case Else(head, body, end) => [head] + Flatten(body) + [end]
    case End(end) => [end]
  }

  predicate WellNested(stmts: seq<Stmt>) {
    stmts == [] || (WellNestedStmt(stmts[0]) && WellNested(stmts[1..]))
  }

  predicate WellNestedStmt(stmt: Stmt) {
    match stmt
    case Simple(command) => command.name !in BRANCH_WORDS
    case If(chain) => chain.Branch? && chain.head.name == "if" && WellNested(chain.body) && WellNestedRest(chain.rest)
  }

  predicate WellNestedRest(chain: Chain) {
    match chain
    case Branch(head, body, rest) => head.name == "elseif" && WellNested(body) && WellNestedRest(rest)
    case Else(head, body, end) => head.name == "else" && WellNested(body) && end.name == "endif"
    case End(end) => end.name == "endif"
  }

  /** THE RUN: the positions of the simple commands that execute, where `truth` says what the condition at each
      position evaluates to. `at` is the position of the first command. */
  function Execute(stmts: seq<Stmt>, at: nat, truth: nat -> bool): set<nat> {
    if stmts == [] then {}
    else ExecuteStmt(stmts[0], at, truth) + Execute(stmts[1..], at + |FlattenStmt(stmts[0])|, truth)
  }

  function ExecuteStmt(stmt: Stmt, at: nat, truth: nat -> bool): set<nat> {
    match stmt
    case Simple(_) => {at}
    case If(chain) => ExecuteChain(chain, at, truth)
  }

  function ExecuteChain(chain: Chain, at: nat, truth: nat -> bool): set<nat> {
    match chain
    case Branch(_, body, rest) =>
      if truth(at) then Execute(body, at + 1, truth) else ExecuteChain(rest, at + 1 + |Flatten(body)|, truth)
    case Else(_, body, _) => Execute(body, at + 1, truth)
    case End(_) => {}
  }

  predicate Condition(command: Command) {
    command.name == "if" || command.name == "elseif"
  }

  /** The run agrees with the host wherever a condition is made of platform words alone. */
  ghost predicate Agrees(commands: seq<Command>, at: nat, truth: nat -> bool, host: seq<string> -> bool) {
    forall k :: 0 <= k < |commands| && Condition(commands[k]) && Judgeable(commands[k].args) ==>
                  truth(at + k) == host(commands[k].args)
  }

  /* ---------------------------------------------------------------- the path of enclosing branches */

  /** The branches around position `i`, outermost first. */
  function Path(stmts: seq<Stmt>, i: nat): seq<FrameValue>
    requires i < |Flatten(stmts)|
  {
    var first := |FlattenStmt(stmts[0])|;
    if i < first then PathStmt(stmts[0], i) else Path(stmts[1..], i - first)
  }

  function PathStmt(stmt: Stmt, i: nat): seq<FrameValue>
    requires i < |FlattenStmt(stmt)|
  {
    match stmt
    case Simple(_) => []
    case If(chain) => PathChain(chain, [], FlattenChain(chain)[0].line, i)
  }

  /** The same inside a chain, where `conditions` are those of the branches before and `line` is that of the `if`. */
  function PathChain(chain: Chain, conditions: seq<seq<string>>, line: nat, i: nat): seq<FrameValue>
    requires i < |FlattenChain(chain)|
  {
    match chain
    case Branch(head, body, rest) =>
      var all := conditions + [head.args];
      if i == 0 then []
      else if i <= |Flatten(body)| then [FrameValue(all, |conditions|, line)] + Path(body, i - 1)
      else PathChain(rest, all, line, i - 1 - |Flatten(body)|)
    case Else(head, body, _) =>
      if 1 <= i <= |Flatten(body)| then [FrameValue(conditions, |conditions|, line)] + Path(body, i - 1) else []
    case End(_) => []
  }

  /* ---------------------------------------------------------------- the stack is the path */

  lemma IntoBody(stack: seq<FrameValue>, head: Command, body: seq<Command>, rest: seq<Command>, i: nat)
    requires 1 <= i <= |body|
    ensures ([head] + body + rest)[i] == body[i - 1]
    ensures StackAfter(stack, ([head] + body + rest)[..i]) == StackAfter(Step(stack, head), body[..i - 1])
  {
    assert ([head] + body + rest)[..i] == [head] + body[..i - 1];
    StackAfterJoin(stack, [head], body[..i - 1]);
    StackAfterOne(stack, head);
  }

  lemma PastBody(stack: seq<FrameValue>, head: Command, body: seq<Command>, rest: seq<Command>, i: nat)
    requires 1 + |body| <= i <= 1 + |body| + |rest|
    ensures i < 1 + |body| + |rest| ==> ([head] + body + rest)[i] == rest[i - 1 - |body|]
    ensures StackAfter(stack, ([head] + body + rest)[..i])
            == StackAfter(StackAfter(Step(stack, head), body), rest[..i - 1 - |body|])
  {
    assert ([head] + body + rest)[..i] == ([head] + body) + rest[..i - 1 - |body|];
    StackAfterJoin(stack, [head] + body, rest[..i - 1 - |body|]);
    StackAfterJoin(stack, [head], body);
    StackAfterOne(stack, head);
  }

  lemma Whole(stack: seq<FrameValue>, head: Command, body: seq<Command>, rest: seq<Command>)
    ensures StackAfter(stack, [head] + body + rest) == StackAfter(StackAfter(Step(stack, head), body), rest)
  {
    var all, n := [head] + body + rest, 1 + |body| + |rest|;
    PastBody(stack, head, body, rest, n);
    assert all[..n] == all && rest[..|rest|] == rest;
  }

  /** The frame on top of the stack, after a head of the chain. */
  function Turned(frame: FrameValue, head: Command): FrameValue {
    if head.name == "elseif" then OnElseif(frame, head.args) else OnElse(frame)
  }

  lemma TurnTop(stack: seq<FrameValue>, frame: FrameValue, head: Command)
    ensures head.name in {"elseif", "else"} ==> Step(stack + [frame], head) == stack + [Turned(frame, head)]
    ensures head.name == "endif" ==> Step(stack + [frame], head) == stack
  {
    assert (stack + [frame])[..|stack|] == stack;
  }

  function Opened(head: Command): FrameValue {
    FrameValue([head.args], 0, head.line)
  }

  /** Well-nested text leaves the stack as it was. */
  lemma {:induction false} BalancedKeepsStack(stack: seq<FrameValue>, stmts: seq<Stmt>)
    requires WellNested(stmts)
    ensures StackAfter(stack, Flatten(stmts)) == stack
    decreases stmts
  {
    if stmts != [] {
      StmtKeepsStack(stack, stmts[0]);
      StackAfterJoin(stack, FlattenStmt(stmts[0]), Flatten(stmts[1..]));
      BalancedKeepsStack(stack, stmts[1..]);
    }
  }

  lemma {:induction false} StmtKeepsStack(stack: seq<FrameValue>, stmt: Stmt)
    requires WellNestedStmt(stmt)
    ensures StackAfter(stack, FlattenStmt(stmt)) == stack
    decreases stmt
  {
    match stmt {
      case Simple(command) => StackAfterOne(stack, command);
      case If(chain) =>
        var frame := Opened(chain.head);
        BalancedKeepsStack(stack + [frame], chain.body);
        ChainPops(stack, frame, chain.rest);
        Whole(stack, chain.head, Flatten(chain.body), FlattenChain(chain.rest));
    }
  }

  /** The rest of a chain, with the chain's frame on top, pops that frame. */
  lemma {:induction false} ChainPops(stack: seq<FrameValue>, frame: FrameValue, chain: Chain)
    requires WellNestedRest(chain)
    ensures StackAfter(stack + [frame], FlattenChain(chain)) == stack
    decreases chain
  {
    match chain {
      case End(end) =>
        TurnTop(stack, frame, end);
        StackAfterOne(stack + [frame], end);
      case Branch(head, body, rest) =>
        var next := Turned(frame, head);
        TurnTop(stack, frame, head);
        BalancedKeepsStack(stack + [next], body);
        ChainPops(stack, next, rest);
        Whole(stack + [frame], head, Flatten(body), FlattenChain(rest));
      case Else(head, body, end) =>
        var next := Turned(frame, head);
        TurnTop(stack, frame, head);
        BalancedKeepsStack(stack + [next], body);
        TurnTop(stack, next, end);
        StackAfterOne(stack + [next], end);
        Whole(stack + [frame], head, Flatten(body), [end]);
    }
  }

  /** THE STACK IS THE PATH: at every simple command of well-nested text the linear stack of frames, branches and
      conditions included, is the path of the branches around that command. */
  lemma {:induction false} StackIsPath(stack: seq<FrameValue>, stmts: seq<Stmt>, i: nat)
    requires WellNested(stmts) && i < |Flatten(stmts)| && Flatten(stmts)[i].name !in BRANCH_WORDS
    ensures StackAfter(stack, Flatten(stmts)[..i]) == stack + Path(stmts, i)
    decreases stmts, 0
  {
    var first, rest := FlattenStmt(stmts[0]), Flatten(stmts[1..]);
    if i < |first| {
      assert (first + rest)[..i] == first[..i] && (first + rest)[i] == first[i];
      StmtStackIsPath(stack, stmts[0], i);
    } else {
      assert (first + rest)[..i] == first + rest[..i - |first|];
      StackAfterJoin(stack, first, rest[..i - |first|]);
      StmtKeepsStack(stack, stmts[0]);
      StackIsPath(stack, stmts[1..], i - |first|);
    }
  }

  lemma {:induction false} StmtStackIsPath(stack: seq<FrameValue>, stmt: Stmt, i: nat)
    requires WellNestedStmt(stmt) && i < |FlattenStmt(stmt)| && FlattenStmt(stmt)[i].name !in BRANCH_WORDS
    ensures StackAfter(stack, FlattenStmt(stmt)[..i]) == stack + PathStmt(stmt, i)
    decreases stmt
  {
    if stmt.If? {
      var chain := stmt.chain;
      assert [] + [chain.head.args] == [chain.head.args];
      assert FlattenChain(chain)[0] == chain.head;
      if i <= |Flatten(chain.body)| {
        IntoBody(stack, chain.head, Flatten(chain.body), FlattenChain(chain.rest), i);
        StackIsPath(stack + [Opened(chain.head)], chain.body, i - 1);
      } else {
        PastBody(stack, chain.head, Flatten(chain.body), FlattenChain(chain.rest), i);
        BalancedKeepsStack(stack + [Opened(chain.head)], chain.body);
        RestStackIsPath(stack, Opened(chain.head), chain.rest, i - 1 - |Flatten(chain.body)|);
      }
    }
  }

  lemma {:induction false} RestStackIsPath(stack: seq<FrameValue>, frame: FrameValue, chain: Chain, i: nat)
    requires WellNestedRest(chain) && i < |FlattenChain(chain)| && FlattenChain(chain)[i].name !in BRANCH_WORDS
    requires frame.branch + 1 == |frame.conditions|
    ensures StackAfter(stack + [frame], FlattenChain(chain)[..i])
            == stack + PathChain(chain, frame.conditions, frame.line, i)
    decreases chain
  {
    hide StackAfter, Path, Step;
    match chain {
      case Branch(head, body, rest) =>
        if i > |Flatten(body)| {
          var next := Turned(frame, head);
          TurnTop(stack, frame, head);
          PastBody(stack + [frame], head, Flatten(body), FlattenChain(rest), i);
          BalancedKeepsStack(stack + [next], body);
          RestStackIsPath(stack, next, rest, i - 1 - |Flatten(body)|);
        } else {
          BodyStackIsPath(stack, frame, head, body, FlattenChain(rest), i);
        }
      case Else(head, body, end) =>
        BodyStackIsPath(stack, frame, head, body, [end], i);
    }
  }

  /** Inside a further branch of a chain. */
  lemma {:induction false} BodyStackIsPath(stack: seq<FrameValue>, frame: FrameValue, head: Command, body: seq<Stmt>,
                                           rest: seq<Command>, i: nat)
    requires head.name in {"elseif", "else"} && WellNested(body) && 1 <= i <= |Flatten(body)|
    requires ([head] + Flatten(body) + rest)[i].name !in BRANCH_WORDS
    ensures StackAfter(stack + [frame], ([head] + Flatten(body) + rest)[..i])
            == stack + ([Turned(frame, head)] + Path(body, i - 1))
    decreases body, 1
  {
    hide StackAfter, Path, Turned, Flatten, WellNested;
    TurnTop(stack, frame, head);
    IntoBody(stack + [frame], head, Flatten(body), rest, i);
    StackIsPath(stack + [Turned(frame, head)], body, i - 1);
    assert stack + ([Turned(frame, head)] + Path(body, i - 1)) == (stack + [Turned(frame, head)]) + Path(body, i - 1);
  }

  /* ---------------------------------------------------------------- what can run */

  /** The host lets a run enter the frame's branch: no earlier condition it can judge is true, and its own is not
      judged false. */
  predicate Passable(frame: FrameValue, host: seq<string> -> bool) {
    && (forall j :: 0 <= j < |frame.conditions| && j < frame.branch && Judgeable(frame.conditions[j]) ==>
                      !host(frame.conditions[j]))
    && (frame.branch < |frame.conditions| && Judgeable(frame.conditions[frame.branch]) ==>
          host(frame.conditions[frame.branch]))
  }

  predicate AllPassable(frames: seq<FrameValue>, host: seq<string> -> bool) {
    forall frame <- frames :: Passable(frame, host)
  }

  lemma AllPassableCons(frame: FrameValue, frames: seq<FrameValue>, host: seq<string> -> bool)
    ensures AllPassable([frame] + frames, host) <==> Passable(frame, host) && AllPassable(frames, host)
  {
    assert frame in [frame] + frames;
    assert forall f <- frames :: f in [frame] + frames;
  }

  predicate NoneTrue(conditions: seq<seq<string>>, host: seq<string> -> bool) {
    forall j :: 0 <= j < |conditions| && Judgeable(conditions[j]) ==> !host(conditions[j])
  }

  lemma {:induction false} FirstTrueIs(conditions: seq<seq<string>>, host: seq<string> -> bool, from: nat)
    requires from <= |conditions|
    ensures var r := FirstTrue(conditions, host, from);
            (r == -1 && forall j :: from <= j < |conditions| ==> !host(conditions[j]))
            || (from <= r < |conditions| && host(conditions[r]) && forall j :: from <= j < r ==> !host(conditions[j]))
    decreases |conditions| - from
  {
    if from < |conditions| && !host(conditions[from]) { FirstTrueIs(conditions, host, from + 1); }
  }

  /** A frame of platform words alone is a gate exactly when the host lets no run into it. */
  lemma GateIffImpassable(frame: FrameValue, host: seq<string> -> bool)
    requires PlatformOnly(frame) && frame.branch <= |frame.conditions|
    ensures Gate(frame, host) <==> !Passable(frame, host)
  {
    var judged := Judged(frame);
    assert forall j :: 0 <= j < |judged| ==> judged[j] == frame.conditions[j] && judged[j] in judged;
    FirstTrueIs(judged, host, 0);
  }

  lemma AgreesPart(a: seq<Command>, b: seq<Command>, c: seq<Command>, at: nat, truth: nat -> bool,
                   host: seq<string> -> bool)
    requires Agrees(a + b + c, at, truth, host)
    ensures Agrees(b, at + |a|, truth, host)
  {
    forall k | 0 <= k < |b| && Condition(b[k]) && Judgeable(b[k].args)
      ensures truth(at + |a| + k) == host(b[k].args)
    {
      assert (a + b + c)[|a| + k] == b[k];
    }
  }

  /** A position of a run is a simple command of the text. */
  lemma {:induction false} ExecutedIn(stmts: seq<Stmt>, at: nat, truth: nat -> bool, p: nat)
    requires WellNested(stmts) && p in Execute(stmts, at, truth)
    ensures at <= p < at + |Flatten(stmts)| && Flatten(stmts)[p - at].name !in BRANCH_WORDS
    decreases stmts
  {
    var first := FlattenStmt(stmts[0]);
    if p in ExecuteStmt(stmts[0], at, truth) {
      ExecutedInStmt(stmts[0], at, truth, p);
    } else {
      ExecutedIn(stmts[1..], at + |first|, truth, p);
    }
  }

  lemma {:induction false} ExecutedInStmt(stmt: Stmt, at: nat, truth: nat -> bool, p: nat)
    requires WellNestedStmt(stmt) && p in ExecuteStmt(stmt, at, truth)
    ensures at <= p < at + |FlattenStmt(stmt)| && FlattenStmt(stmt)[p - at].name !in BRANCH_WORDS
    decreases stmt
  {
    if stmt.If? {
      if truth(at) { ExecutedIn(stmt.chain.body, at + 1, truth, p); }
      else { ExecutedInRest(stmt.chain.rest, at + 1 + |Flatten(stmt.chain.body)|, truth, p); }
    }
  }

  lemma {:induction false} ExecutedInRest(chain: Chain, at: nat, truth: nat -> bool, p: nat)
    requires WellNestedRest(chain) && p in ExecuteChain(chain, at, truth)
    ensures at < p < at + |FlattenChain(chain)| && FlattenChain(chain)[p - at].name !in BRANCH_WORDS
    decreases chain
  {
    match chain {
      case Branch(_, body, rest) =>
        if truth(at) { ExecutedIn(body, at + 1, truth, p); }
        else { ExecutedInRest(rest, at + 1 + |Flatten(body)|, truth, p); }
      case Else(_, body, _) => ExecutedIn(body, at + 1, truth, p);
    }
  }

  /** Whatever executes sits in branches the host lets a run into. */
  lemma {:induction false} ExecutedIsPassable(stmts: seq<Stmt>, at: nat, truth: nat -> bool, host: seq<string> -> bool,
                                              p: nat)
    requires WellNested(stmts) && Agrees(Flatten(stmts), at, truth, host) && p in Execute(stmts, at, truth)
    ensures at <= p < at + |Flatten(stmts)| && AllPassable(Path(stmts, p - at), host)
    decreases stmts
  {
    ExecutedIn(stmts, at, truth, p);
    var first, rest := FlattenStmt(stmts[0]), Flatten(stmts[1..]);
    if p in ExecuteStmt(stmts[0], at, truth) {
      ExecutedInStmt(stmts[0], at, truth, p);
      assert [] + first + rest == first + rest;
      AgreesPart([], first, rest, at, truth, host);
      StmtIsPassable(stmts[0], at, truth, host, p);
    } else {
      ExecutedIn(stmts[1..], at + |first|, truth, p);
      assert first + rest + [] == first + rest;
      AgreesPart(first, rest, [], at, truth, host);
      ExecutedIsPassable(stmts[1..], at + |first|, truth, host, p);
    }
  }

  lemma {:induction false} StmtIsPassable(stmt: Stmt, at: nat, truth: nat -> bool, host: seq<string> -> bool, p: nat)
    requires WellNestedStmt(stmt) && Agrees(FlattenStmt(stmt), at, truth, host) && p in ExecuteStmt(stmt, at, truth)
    ensures at <= p < at + |FlattenStmt(stmt)| && AllPassable(PathStmt(stmt, p - at), host)
    decreases stmt
  {
    ExecutedInStmt(stmt, at, truth, p);
    if stmt.If? {
      ChainIsPassable(stmt.chain, [], stmt.chain.head.line, at, truth, host, p);
    }
  }

  lemma {:induction false} ChainIsPassable(chain: Chain, conditions: seq<seq<string>>, line: nat, at: nat,
                                           truth: nat -> bool, host: seq<string> -> bool, p: nat)
    requires chain.Branch? ==> Condition(chain.head) && WellNested(chain.body) && WellNestedRest(chain.rest)
    requires !chain.Branch? ==> WellNestedRest(chain)
    requires Agrees(FlattenChain(chain), at, truth, host) && NoneTrue(conditions, host)
    requires p in ExecuteChain(chain, at, truth)
    ensures at < p < at + |FlattenChain(chain)| && AllPassable(PathChain(chain, conditions, line, p - at), host)
    decreases chain
  {
    hide Flatten, Path, Execute;
    match chain {
      case Branch(head, body, rest) =>
        var flat := Flatten(body);
        assert FlattenChain(chain)[0] == head;
        if truth(at) {
          ExecutedIn(body, at + 1, truth, p);
          AgreesPart([head], flat, FlattenChain(rest), at, truth, host);
          ExecutedIsPassable(body, at + 1, truth, host, p);
          AllPassableCons(FrameValue(conditions + [head.args], |conditions|, line), Path(body, p - at - 1), host);
        } else {
          assert [head] + flat + FlattenChain(rest) == ([head] + flat) + FlattenChain(rest) + [];
          AgreesPart([head] + flat, FlattenChain(rest), [], at, truth, host);
          ChainIsPassable(rest, conditions + [head.args], line, at + 1 + |flat|, truth, host, p);
        }
      case Else(head, body, end) =>
        ExecutedIn(body, at + 1, truth, p);
        AgreesPart([head], Flatten(body), [end], at, truth, host);
        ExecutedIsPassable(body, at + 1, truth, host, p);
        AllPassableCons(FrameValue(conditions, |conditions|, line), Path(body, p - at - 1), host);
    }
  }

  /* ---------------------------------------------------------------- a run that enters every passable branch */

  /** The positions of the conditions of the branches around position `i`. */
  function OwnHeads(stmts: seq<Stmt>, at: nat, i: nat): set<nat>
    requires i < |Flatten(stmts)|
  {
    var first := |FlattenStmt(stmts[0])|;
    if i < first then OwnHeadsStmt(stmts[0], at, i) else OwnHeads(stmts[1..], at + first, i - first)
  }

  function OwnHeadsStmt(stmt: Stmt, at: nat, i: nat): set<nat>
    requires i < |FlattenStmt(stmt)|
  {
    if stmt.If? then OwnHeadsChain(stmt.chain, at, i) else {}
  }

  function OwnHeadsChain(chain: Chain, at: nat, i: nat): set<nat>
    requires i < |FlattenChain(chain)|
  {
    match chain
    case Branch(_, body, rest) =>
      if i == 0 then {}
      else if i <= |Flatten(body)| then {at} + OwnHeads(body, at + 1, i - 1)
      else OwnHeadsChain(rest, at + 1 + |Flatten(body)|, i - 1 - |Flatten(body)|)
    case Else(_, body, _) => if 1 <= i <= |Flatten(body)| then OwnHeads(body, at + 1, i - 1) else {}
    case End(_) => {}
  }

  /** Conditions the host can judge go its way, and of the others exactly those in `heads` are true. */
  ghost predicate Chooses(commands: seq<Command>, at: nat, truth: nat -> bool, host: seq<string> -> bool, heads: set<nat>) {
    forall k :: 0 <= k < |commands| && Condition(commands[k]) ==>
                  truth(at + k) == if Judgeable(commands[k].args) then host(commands[k].args) else at + k in heads
  }

  /** `heads` and `own` are the same from position `at` on for `length` positions. */
  ghost predicate SameWithin(heads: set<nat>, own: set<nat>, at: nat, length: nat) {
    forall q: nat :: at <= q < at + length ==> (q in heads <==> q in own)
  }

  lemma ChoosesPart(a: seq<Command>, b: seq<Command>, c: seq<Command>, at: nat, truth: nat -> bool,
                    host: seq<string> -> bool, heads: set<nat>)
    requires Chooses(a + b + c, at, truth, host, heads)
    ensures Chooses(b, at + |a|, truth, host, heads)
  {
    forall k | 0 <= k < |b| && Condition(b[k])
      ensures truth(at + |a| + k) == if Judgeable(b[k].args) then host(b[k].args) else at + |a| + k in heads
    {
      assert (a + b + c)[|a| + k] == b[k];
    }
  }

  lemma {:induction false} OwnHeadsIn(stmts: seq<Stmt>, at: nat, i: nat)
    requires i < |Flatten(stmts)|
    ensures forall q <- OwnHeads(stmts, at, i) :: at <= q < at + |Flatten(stmts)|
    decreases stmts
  {
    var first := |FlattenStmt(stmts[0])|;
    if i < first { OwnHeadsInStmt(stmts[0], at, i); } else { OwnHeadsIn(stmts[1..], at + first, i - first); }
  }

  lemma {:induction false} OwnHeadsInStmt(stmt: Stmt, at: nat, i: nat)
    requires i < |FlattenStmt(stmt)|
    ensures forall q <- OwnHeadsStmt(stmt, at, i) :: at <= q < at + |FlattenStmt(stmt)|
    decreases stmt
  {
    if stmt.If? { OwnHeadsInChain(stmt.chain, at, i); }
  }

  lemma {:induction false} OwnHeadsInChain(chain: Chain, at: nat, i: nat)
    requires i < |FlattenChain(chain)|
    ensures forall q <- OwnHeadsChain(chain, at, i) :: at <= q < at + |FlattenChain(chain)|
    decreases chain
  {
    match chain {
      case Branch(_, body, rest) =>
        if 0 < i <= |Flatten(body)| { OwnHeadsIn(body, at + 1, i - 1); }
        else if i > 0 { OwnHeadsInChain(rest, at + 1 + |Flatten(body)|, i - 1 - |Flatten(body)|); }
      case Else(_, body, _) => if 1 <= i <= |Flatten(body)| { OwnHeadsIn(body, at + 1, i - 1); }
      case End(_) =>
    }
  }

  lemma {:induction false} PassableExecutes(stmts: seq<Stmt>, at: nat, truth: nat -> bool, host: seq<string> -> bool,
                                            heads: set<nat>, i: nat)
    requires WellNested(stmts) && i < |Flatten(stmts)| && Flatten(stmts)[i].name !in BRANCH_WORDS
    requires AllPassable(Path(stmts, i), host) && Chooses(Flatten(stmts), at, truth, host, heads)
    requires SameWithin(heads, OwnHeads(stmts, at, i), at, |Flatten(stmts)|)
    ensures at + i in Execute(stmts, at, truth)
    decreases stmts
  {
    var first, rest := FlattenStmt(stmts[0]), Flatten(stmts[1..]);
    if i < |first| {
      assert [] + first + rest == first + rest && (first + rest)[i] == first[i];
      ChoosesPart([], first, rest, at, truth, host, heads);
      StmtExecutes(stmts[0], at, truth, host, heads, i);
    } else {
      assert first + rest + [] == first + rest && (first + rest)[i] == rest[i - |first|];
      ChoosesPart(first, rest, [], at, truth, host, heads);
      PassableExecutes(stmts[1..], at + |first|, truth, host, heads, i - |first|);
    }
  }

  lemma {:induction false} StmtExecutes(stmt: Stmt, at: nat, truth: nat -> bool, host: seq<string> -> bool,
                                        heads: set<nat>, i: nat)
    requires WellNestedStmt(stmt) && i < |FlattenStmt(stmt)| && FlattenStmt(stmt)[i].name !in BRANCH_WORDS
    requires AllPassable(PathStmt(stmt, i), host) && Chooses(FlattenStmt(stmt), at, truth, host, heads)
    requires SameWithin(heads, OwnHeadsStmt(stmt, at, i), at, |FlattenStmt(stmt)|)
    ensures at + i in ExecuteStmt(stmt, at, truth)
    decreases stmt
  {
    if stmt.If? {
      assert FlattenChain(stmt.chain)[0] == stmt.chain.head;
      ChainExecutes(stmt.chain, [], stmt.chain.head.line, at, truth, host, heads, i);
    }
  }

  /** What the first condition of a chain comes to in such a run. */
  lemma HeadChoice(head: Command, body: seq<Command>, rest: seq<Command>, at: nat, truth: nat -> bool,
                   host: seq<string> -> bool, heads: set<nat>)
    requires Condition(head) && Chooses([head] + body + rest, at, truth, host, heads)
    ensures truth(at) == if Judgeable(head.args) then host(head.args) else at in heads
    ensures Chooses(body, at + 1, truth, host, heads) && Chooses(rest, at + 1 + |body|, truth, host, heads)
  {
    assert ([head] + body + rest)[0] == head && truth(at) == truth(at + 0);
    ChoosesPart([head], body, rest, at, truth, host, heads);
    assert [head] + body + rest == ([head] + body) + rest + [];
    ChoosesPart([head] + body, rest, [], at, truth, host, heads);
  }

  lemma {:induction false} ChainExecutes(chain: Chain, conditions: seq<seq<string>>, line: nat, at: nat,
                                         truth: nat -> bool, host: seq<string> -> bool, heads: set<nat>, i: nat)
    requires chain.Branch? ==> Condition(chain.head) && WellNested(chain.body) && WellNestedRest(chain.rest)
    requires !chain.Branch? ==> WellNestedRest(chain)
    requires i < |FlattenChain(chain)| && FlattenChain(chain)[i].name !in BRANCH_WORDS
    requires AllPassable(PathChain(chain, conditions, line, i), host)
    requires Chooses(FlattenChain(chain), at, truth, host, heads)
    requires SameWithin(heads, OwnHeadsChain(chain, at, i), at, |FlattenChain(chain)|)
    ensures at + i in ExecuteChain(chain, at, truth)
    decreases chain
  {
    match chain {
      case Branch(head, body, rest) => BranchExecutes(chain, conditions, line, at, truth, host, heads, i);
      case Else(head, body, end) =>
        ChoosesPart([head], Flatten(body), [end], at, truth, host, heads);
        assert ([head] + Flatten(body) + [end])[i] == Flatten(body)[i - 1];
        AllPassableCons(FrameValue(conditions, |conditions|, line), Path(body, i - 1), host);
        PassableExecutes(body, at + 1, truth, host, heads, i - 1);
    }
  }

  lemma {:induction false} BranchExecutes(chain: Chain, conditions: seq<seq<string>>, line: nat, at: nat,
                                          truth: nat -> bool, host: seq<string> -> bool, heads: set<nat>, i: nat)
    requires chain.Branch? && Condition(chain.head) && WellNested(chain.body) && WellNestedRest(chain.rest)
    requires i < |FlattenChain(chain)| && FlattenChain(chain)[i].name !in BRANCH_WORDS
    requires AllPassable(PathChain(chain, conditions, line, i), host)
    requires Chooses(FlattenChain(chain), at, truth, host, heads)
    requires SameWithin(heads, OwnHeadsChain(chain, at, i), at, |FlattenChain(chain)|)
    ensures at + i in ExecuteChain(chain, at, truth)
    decreases chain, 0
  {
    hide Execute, Path, OwnHeads, Flatten, Chooses, AllPassable, WellNested;
    var head, body, rest := chain.head, Flatten(chain.body), FlattenChain(chain.rest);
    var all := conditions + [head.args];
    HeadChoice(head, body, rest, at, truth, host, heads);
    assert FlattenChain(chain)[0] == head;
    if i <= |body| {
      AllPassableCons(FrameValue(all, |conditions|, line), Path(chain.body, i - 1), host);
      assert all[|conditions|] == head.args && FlattenChain(chain)[i] == body[i - 1];
      OwnHeadsIn(chain.body, at + 1, i - 1);
      assert truth(at);
      PassableExecutes(chain.body, at + 1, truth, host, heads, i - 1);
    } else {
      var j := i - 1 - |body|;
      assert FlattenChain(chain)[i] == rest[j];
      OwnHeadsInChain(chain.rest, at + 1 + |body|, j);
      RestPassesBy(chain.rest, all, |conditions|, line, host, j);
      assert all[|conditions|] == head.args;
      assert OwnHeadsChain(chain, at, i) == OwnHeadsChain(chain.rest, at + 1 + |body|, j);
      assert at !in heads;
      assert !truth(at);
      ChainExecutes(chain.rest, all, line, at + 1 + |body|, truth, host, heads, j);
    }
  }

  /** A branch further down a chain is passable only if no judgeable condition before it is true. */
  lemma {:induction false} RestPassesBy(chain: Chain, conditions: seq<seq<string>>, k: nat, line: nat,
                                        host: seq<string> -> bool, i: nat)
    requires WellNestedRest(chain) && k < |conditions| && i < |FlattenChain(chain)|
    requires FlattenChain(chain)[i].name !in BRANCH_WORDS && AllPassable(PathChain(chain, conditions, line, i), host)
    ensures Judgeable(conditions[k]) ==> !host(conditions[k])
    decreases chain
  {
    match chain {
      case Branch(head, body, rest) =>
        var all := conditions + [head.args];
        assert all[k] == conditions[k];
        if i <= |Flatten(body)| {
          AllPassableCons(FrameValue(all, |conditions|, line), Path(body, i - 1), host);
        } else {
          assert FlattenChain(chain)[i] == FlattenChain(rest)[i - 1 - |Flatten(body)|];
          RestPassesBy(rest, all, k, line, host, i - 1 - |Flatten(body)|);
        }
      case Else(head, body, end) =>
        AllPassableCons(FrameValue(conditions, |conditions|, line), Path(body, i - 1), host);
    }
  }

  /* ---------------------------------------------------------------- the theorems */

  /** Command `i` of the text executes in some run that agrees with the host. */
  ghost predicate Runs(forest: seq<Stmt>, i: nat, host: seq<string> -> bool) {
    exists truth: nat -> bool :: Agrees(Flatten(forest), 0, truth, host) && i in Execute(forest, 0, truth)
  }

  /** WHAT CAN RUN: a simple command executes in some run that agrees with the host exactly when the host lets a run
      into every frame the tool records around it. */
  lemma RunsIffPassable(forest: seq<Stmt>, i: nat, host: seq<string> -> bool)
    requires WellNested(forest) && i < |Flatten(forest)| && Flatten(forest)[i].name !in BRANCH_WORDS
    ensures Runs(forest, i, host) <==> AllPassable(StackAfter([], Flatten(forest)[..i]), host)
  {
    hide Path, Execute, OwnHeads, AllPassable, StackAfter, WellNested, Flatten, Judgeable;
    var flat := Flatten(forest);
    StackIsPath([], forest, i);
    assert [] + Path(forest, i) == Path(forest, i);
    if AllPassable(Path(forest, i), host) {
      var heads := OwnHeads(forest, 0, i);
      var truth := (n: nat) => n < |flat| && if Judgeable(flat[n].args) then host(flat[n].args) else n in heads;
      assert Chooses(flat, 0, truth, host, heads);
      PassableExecutes(forest, 0, truth, host, heads, i);
      assert Agrees(flat, 0, truth, host);
    }
    if Runs(forest, i, host) {
      var truth: nat -> bool :| Agrees(flat, 0, truth, host) && i in Execute(forest, 0, truth);
      ExecutedIsPassable(forest, 0, truth, host, i);
    }
  }

  /** The frames at a simple command of well-nested text are on a branch of theirs. */
  lemma {:induction false} PathIsOnBranches(stmts: seq<Stmt>, i: nat)
    requires i < |Flatten(stmts)|
    ensures forall frame <- Path(stmts, i) :: frame.branch <= |frame.conditions|
    decreases stmts
  {
    var first := |FlattenStmt(stmts[0])|;
    if i < first { StmtIsOnBranches(stmts[0], i); } else { PathIsOnBranches(stmts[1..], i - first); }
  }

  lemma {:induction false} StmtIsOnBranches(stmt: Stmt, i: nat)
    requires i < |FlattenStmt(stmt)|
    ensures forall frame <- PathStmt(stmt, i) :: frame.branch <= |frame.conditions|
    decreases stmt
  {
    if stmt.If? { ChainIsOnBranches(stmt.chain, [], FlattenChain(stmt.chain)[0].line, i); }
  }

  lemma {:induction false} ChainIsOnBranches(chain: Chain, conditions: seq<seq<string>>, line: nat, i: nat)
    requires i < |FlattenChain(chain)|
    ensures forall frame <- PathChain(chain, conditions, line, i) :: frame.branch <= |frame.conditions|
    decreases chain
  {
    match chain {
      case Branch(head, body, rest) =>
        if 0 < i <= |Flatten(body)| { PathIsOnBranches(body, i - 1); }
        else if i > 0 { ChainIsOnBranches(rest, conditions + [head.args], line, i - 1 - |Flatten(body)|); }
      case Else(_, body, _) => if 1 <= i <= |Flatten(body)| { PathIsOnBranches(body, i - 1); }
      case End(_) =>
    }
  }

  /** Every file's commands are those of its forest, which is well nested. */
  ghost predicate Nested(files: seq<BuildFile>, forests: seq<seq<Stmt>>) {
    |forests| == |files|
    && forall f :: 0 <= f < |files| ==> WellNested(forests[f]) && files[f].commands == Flatten(forests[f])
  }

  /** Simple command `i` of file `f` names the path. */
  ghost predicate NamedAt(files: seq<BuildFile>, resolve: (string, string) -> string, f: nat, i: nat, path: string) {
    f < |files| && i < |files[f].commands| && Names(files[f].commands, files[f].base, resolve, i, path)
  }

  /** In well-nested text a command that names a file is a simple one. */
  lemma NamingIsSimple(files: seq<BuildFile>, forests: seq<seq<Stmt>>, resolve: (string, string) -> string,
                       f: nat, i: nat, path: string)
    requires Nested(files, forests) && NamedAt(files, resolve, f, i, path)
    ensures files[f].commands[i].name !in BRANCH_WORDS
  {
    var flat := files[f].commands;
    if flat[i].name in BRANCH_WORDS { HeadsHaveFrames([], forests[f], i); }
  }

  /** Every `elseif`, `else` and `endif` of well-nested text finds a frame on the stack. */
  lemma {:induction false} HeadsHaveFrames(stack: seq<FrameValue>, stmts: seq<Stmt>, i: nat)
    requires WellNested(stmts) && i < |Flatten(stmts)| && Flatten(stmts)[i].name in {"elseif", "else", "endif"}
    ensures StackAfter(stack, Flatten(stmts)[..i]) != []
    decreases stmts
  {
    var first, rest := FlattenStmt(stmts[0]), Flatten(stmts[1..]);
    if i < |first| {
      assert (first + rest)[..i] == first[..i] && (first + rest)[i] == first[i];
      if stmts[0].If? { IfHeadsHaveFrames(stack, stmts[0], i); }
    } else {
      assert (first + rest)[..i] == first + rest[..i - |first|] && (first + rest)[i] == rest[i - |first|];
      StackAfterJoin(stack, first, rest[..i - |first|]);
      StmtKeepsStack(stack, stmts[0]);
      HeadsHaveFrames(stack, stmts[1..], i - |first|);
    }
  }

  lemma {:induction false} IfHeadsHaveFrames(stack: seq<FrameValue>, stmt: Stmt, i: nat)
    requires WellNestedStmt(stmt) && stmt.If?
    requires i < |FlattenStmt(stmt)| && FlattenStmt(stmt)[i].name in {"elseif", "else", "endif"}
    ensures StackAfter(stack, FlattenStmt(stmt)[..i]) != []
    decreases stmt
  {
    var chain := stmt.chain;
    var frame := Opened(chain.head);
    assert FlattenChain(chain)[0] == chain.head;
    if i <= |Flatten(chain.body)| {
      IntoBody(stack, chain.head, Flatten(chain.body), FlattenChain(chain.rest), i);
      HeadsHaveFrames(stack + [frame], chain.body, i - 1);
    } else {
      PastBody(stack, chain.head, Flatten(chain.body), FlattenChain(chain.rest), i);
      BalancedKeepsStack(stack + [frame], chain.body);
      RestHeadsHaveFrames(stack, frame, chain.rest, i - 1 - |Flatten(chain.body)|);
    }
  }

  lemma {:induction false} RestHeadsHaveFrames(stack: seq<FrameValue>, frame: FrameValue, chain: Chain, i: nat)
    requires WellNestedRest(chain) && i < |FlattenChain(chain)|
    requires FlattenChain(chain)[i].name in {"elseif", "else", "endif"}
    ensures StackAfter(stack + [frame], FlattenChain(chain)[..i]) != []
    decreases chain
  {
    if i == 0 {
      assert FlattenChain(chain)[..0] == [];
    } else {
      var head, body := chain.head, Flatten(chain.body);
      var rest := if chain.Branch? then FlattenChain(chain.rest) else [chain.end];
      var next := Turned(frame, head);
      TurnTop(stack, frame, head);
      assert FlattenChain(chain) == [head] + body + rest;
      if i <= |body| {
        IntoBody(stack + [frame], head, body, rest, i);
        HeadsHaveFrames(stack + [next], chain.body, i - 1);
      } else {
        PastBody(stack + [frame], head, body, rest, i);
        BalancedKeepsStack(stack + [next], chain.body);
        RestOfHeads(stack, next, chain, i - 1 - |body|);
      }
    }
  }

  lemma {:induction false} RestOfHeads(stack: seq<FrameValue>, frame: FrameValue, chain: Chain, i: nat)
    requires WellNestedRest(chain) && !chain.End?
    requires var rest := if chain.Branch? then FlattenChain(chain.rest) else [chain.end];
             i < |rest| && rest[i].name in {"elseif", "else", "endif"}
    ensures StackAfter(stack + [frame], (if chain.Branch? then FlattenChain(chain.rest) else [chain.end])[..i]) != []
    decreases chain, 0
  {
    if chain.Branch? { RestHeadsHaveFrames(stack, frame, chain.rest, i); }
  }

  /** DEAD BRANCHES: a refused file is named by no command that executes, in any file, in any run that agrees with the
      host on platform words, whatever its other conditions evaluate to. */
  lemma RefusedIsDead(files: seq<BuildFile>, forests: seq<seq<Stmt>>, targets: set<string>,
                      resolve: (string, string) -> string, host: seq<string> -> bool, path: string,
                      f: nat, i: nat, truth: nat -> bool)
    requires Nested(files, forests) && path in targets && Refused(files, targets, resolve, host, path)
    requires f < |files| && Agrees(files[f].commands, 0, truth, host) && i in Execute(forests[f], 0, truth)
    ensures i < |files[f].commands| && !NamedAt(files, resolve, f, i, path)
  {
    var flat := files[f].commands;
    ExecutedIn(forests[f], 0, truth, i);
    if NamedAt(files, resolve, f, i, path) {
      var m := Mention(path, flat[i].line, StackAfter([], flat[..i]));
      assert Reports(flat, files[f].base, resolve, i, m);
      MentionsOfPathAre(files, targets, resolve, path, m);
      assert Gated(m, host);
      var frame :| frame in m.frames && Gate(frame, host);
      RunsIffPassable(forests[f], i, host);
      StackIsPath([], forests[f], i);
      PathIsOnBranches(forests[f], i);
      GateIffImpassable(frame, host);
    }
  }

  /** The gate looks no further than platform words: the frames it misses are the impassable ones that judge another
      word. */
  lemma GateExactly(frame: FrameValue, host: seq<string> -> bool)
    requires frame.branch <= |frame.conditions|
    ensures Gate(frame, host) <==> PlatformOnly(frame) && !Passable(frame, host)
  {
    if PlatformOnly(frame) { GateIffImpassable(frame, host); }
  }

  /** The frame judges platform words alone, or none of its conditions at all. */
  predicate Uniform(frame: FrameValue) {
    PlatformOnly(frame) || forall condition <- Judged(frame) :: !Judgeable(condition)
  }

  lemma UniformGate(frame: FrameValue, host: seq<string> -> bool)
    requires Uniform(frame) && frame.branch <= |frame.conditions|
    ensures Gate(frame, host) <==> !Passable(frame, host)
  {
    var judged := Judged(frame);
    assert forall j :: 0 <= j < |judged| ==> judged[j] == frame.conditions[j] && judged[j] in judged;
    GateExactly(frame, host);
  }

  /** Every frame around a command that names the path is uniform. */
  ghost predicate UniformAround(files: seq<BuildFile>, resolve: (string, string) -> string, path: string) {
    forall f: nat, i: nat :: NamedAt(files, resolve, f, i, path) ==>
      forall frame <- StackAfter([], files[f].commands[..i]) :: Uniform(frame)
  }

  /** Under uniform frames a mention is gated exactly when its command cannot run. */
  lemma GatedIffDead(files: seq<BuildFile>, forests: seq<seq<Stmt>>, resolve: (string, string) -> string,
                     host: seq<string> -> bool, path: string, f: nat, i: nat)
    requires Nested(files, forests) && NamedAt(files, resolve, f, i, path) && UniformAround(files, resolve, path)
    ensures Gated(Mention(path, files[f].commands[i].line, StackAfter([], files[f].commands[..i])), host)
            <==> !Runs(forests[f], i, host)
  {
    var flat := files[f].commands;
    NamingIsSimple(files, forests, resolve, f, i, path);
    RunsIffPassable(forests[f], i, host);
    StackIsPath([], forests[f], i);
    PathIsOnBranches(forests[f], i);
    forall frame | frame in StackAfter([], flat[..i]) ensures Gate(frame, host) <==> !Passable(frame, host) {
      UniformGate(frame, host);
    }
  }

  /** The mention that command `i` of file `f` makes. */
  function MentionAt(files: seq<BuildFile>, f: nat, i: nat, path: string): Mention
    requires f < |files| && i < |files[f].commands|
  {
    Mention(path, files[f].commands[i].line, StackAfter([], files[f].commands[..i]))
  }

  /** A file is refused exactly when something names it and a gate stands around everything that does. */
  lemma RefusedIffGated(files: seq<BuildFile>, targets: set<string>, resolve: (string, string) -> string,
                        host: seq<string> -> bool, path: string)
    requires path in targets
    ensures Refused(files, targets, resolve, host, path) <==>
            (exists f: nat, i: nat :: NamedAt(files, resolve, f, i, path))
            && forall f: nat, i: nat :: NamedAt(files, resolve, f, i, path) ==> Gated(MentionAt(files, f, i, path), host)
  {
    var mentions := MentionsOfPath(files, targets, resolve, path);
    forall f: nat, i: nat | NamedAt(files, resolve, f, i, path) ensures MentionAt(files, f, i, path) in mentions {
      assert Reports(files[f].commands, files[f].base, resolve, i, MentionAt(files, f, i, path));
      MentionsOfPathAre(files, targets, resolve, path, MentionAt(files, f, i, path));
    }
    forall m | m in mentions
      ensures exists f: nat, i: nat :: NamedAt(files, resolve, f, i, path) && m == MentionAt(files, f, i, path)
    {
      MentionsOfPathAre(files, targets, resolve, path, m);
      var f :| 0 <= f < |files| && Reported(files[f].commands, files[f].base, resolve, m);
      var i: nat :| Reports(files[f].commands, files[f].base, resolve, i, m);
      assert NamedAt(files, resolve, f, i, path) && m == MentionAt(files, f, i, path);
    }
    if mentions != [] { assert mentions[0] in mentions; }
  }

  /** REFUSED IS EXACTLY DEAD, where no `if` chain mixes platform words with others: a file is refused if and only if
      something names it and no command naming it runs in any run that agrees with the host. */
  lemma RefusedIffDead(files: seq<BuildFile>, forests: seq<seq<Stmt>>, targets: set<string>,
                       resolve: (string, string) -> string, host: seq<string> -> bool, path: string)
    requires Nested(files, forests) && path in targets && UniformAround(files, resolve, path)
    ensures Refused(files, targets, resolve, host, path) <==>
            (exists f: nat, i: nat :: NamedAt(files, resolve, f, i, path))
            && forall f: nat, i: nat :: NamedAt(files, resolve, f, i, path) ==> !Runs(forests[f], i, host)
  {
    RefusedIffGated(files, targets, resolve, host, path);
    forall f: nat, i: nat | NamedAt(files, resolve, f, i, path)
      ensures Gated(MentionAt(files, f, i, path), host) <==> !Runs(forests[f], i, host)
    {
      GatedIffDead(files, forests, resolve, host, path, f, i);
    }
  }

  /** Some branch around the command judges platform words alone and no run that agrees with the host enters it. */
  ghost predicate Guarded(frames: seq<FrameValue>, host: seq<string> -> bool) {
    exists frame <- frames :: PlatformOnly(frame) && !Passable(frame, host)
  }

  /** WHAT IS REFUSED, in every well-nested text: if and only if something names the file and, around every command that
      names it, some branch that no run enters judges platform words alone. */
  lemma RefusedIffGuarded(files: seq<BuildFile>, forests: seq<seq<Stmt>>, targets: set<string>,
                          resolve: (string, string) -> string, host: seq<string> -> bool, path: string)
    requires Nested(files, forests) && path in targets
    ensures Refused(files, targets, resolve, host, path) <==>
            (exists f: nat, i: nat :: NamedAt(files, resolve, f, i, path))
            && forall f: nat, i: nat :: NamedAt(files, resolve, f, i, path) ==>
                 Guarded(StackAfter([], files[f].commands[..i]), host)
  {
    RefusedIffGated(files, targets, resolve, host, path);
    forall f: nat, i: nat | NamedAt(files, resolve, f, i, path)
      ensures Gated(MentionAt(files, f, i, path), host) <==> Guarded(StackAfter([], files[f].commands[..i]), host)
    {
      NamingIsSimple(files, forests, resolve, f, i, path);
      StackIsPath([], forests[f], i);
      PathIsOnBranches(forests[f], i);
      forall frame | frame in StackAfter([], files[f].commands[..i])
        ensures Gate(frame, host) <==> PlatformOnly(frame) && !Passable(frame, host)
      {
        GateExactly(frame, host);
      }
    }
  }

  const MIXED_FOREST: seq<Stmt> := [
    If(Branch(Command("if", ["FOO"], 1), [],
              Branch(Command("elseif", ["WIN32"], 2), [Simple(Command("add_library", ["x", "a.cc"], 3))],
                     End(Command("endif", [], 4)))))]

  const MIXED_FRAME := FrameValue([["FOO"], ["WIN32"]], 1, 1)

  lemma MixedForest()
    ensures WellNested(MIXED_FOREST)
    ensures Flatten(MIXED_FOREST) == [Command("if", ["FOO"], 1), Command("elseif", ["WIN32"], 2),
                                      Command("add_library", ["x", "a.cc"], 3), Command("endif", [], 4)]
    ensures StackAfter([], Flatten(MIXED_FOREST)[..2]) == [MIXED_FRAME]
  {
    var opens, turns := Command("if", ["FOO"], 1), Command("elseif", ["WIN32"], 2);
    var body := [Simple(Command("add_library", ["x", "a.cc"], 3))];
    assert Flatten(body) == [Command("add_library", ["x", "a.cc"], 3)] && WellNested(body) by { assert body[1..] == []; }
    assert MIXED_FOREST[1..] == [];
    var flat := Flatten(MIXED_FOREST);
    assert flat[..2] == [opens] + [turns] && flat[..1] == [opens];
    StackAfterJoin([], [opens], [turns]);
    StackAfterOne([], opens);
    var first := FrameValue([["FOO"]], 0, 1);
    assert StackAfter([], [opens]) == [first];
    StackAfterOne([first], turns);
    assert OnElseif(first, turns.args) == MIXED_FRAME by {
      assert [["FOO"]] + [["WIN32"]] == [["FOO"], ["WIN32"]];
    }
    assert [first][..0] + [MIXED_FRAME] == [MIXED_FRAME];
  }

  /** The mixed frame is impassable where the host is not WIN32, and is no gate. */
  lemma MixedFrame(host: seq<string> -> bool)
    requires !host(["WIN32"])
    ensures !PlatformOnly(MIXED_FRAME) && !Passable(MIXED_FRAME, host)
  {
    assert "FOO" in ["FOO"] && Judged(MIXED_FRAME)[0] == ["FOO"] && !Judgeable(["FOO"]);
    assert MIXED_FRAME.conditions[1] == ["WIN32"] && Judgeable(["WIN32"]);
  }

  /** Where the one simple command of a text stands in one branch that no run enters and that is no gate, the file it names
      is dead and not refused. */
  lemma OneNamedIsMissed(files: seq<BuildFile>, forest: seq<Stmt>, n: nat, frame: FrameValue,
                         resolve: (string, string) -> string, host: seq<string> -> bool, path: string)
    requires |files| == 1 && Nested(files, [forest]) && NamedAt(files, resolve, 0, n, path)
    requires forall i :: 0 <= i < |files[0].commands| && i != n ==> files[0].commands[i].name in BRANCH_WORDS
    requires StackAfter([], files[0].commands[..n]) == [frame] && !PlatformOnly(frame) && !Passable(frame, host)
    ensures forall f: nat, i: nat :: NamedAt(files, resolve, f, i, path) ==> !Runs([forest][f], i, host)
    ensures !Refused(files, {path}, resolve, host, path)
  {
    hide NamedAt, Refused, Passable, PlatformOnly, Path, Flatten;
    NamedWithin(files, resolve, 0, n, path);
    NamingIsSimple(files, [forest], resolve, 0, n, path);
    assert frame in [frame];
    assert files[0].commands == Flatten([forest][0]);
    RunsIffPassable(forest, n, host);
    forall f: nat, i: nat | NamedAt(files, resolve, f, i, path) ensures f == 0 && i == n {
      NamedWithin(files, resolve, f, i, path);
      NamingIsSimple(files, [forest], resolve, f, i, path);
    }
    assert !Guarded([frame], host);
    RefusedIffGuarded(files, [forest], {path}, resolve, host, path);
  }

  lemma NamedWithin(files: seq<BuildFile>, resolve: (string, string) -> string, f: nat, i: nat, path: string)
    requires NamedAt(files, resolve, f, i, path)
    ensures f < |files| && i < |files[f].commands|
  {
  }

  /** A DEAD FILE CAN BE MISSED: under `if(FOO) elseif(WIN32) add_library(x a.cc) endif()`, on a host that is not WIN32,
      nothing that names a.cc runs in any run, and a.cc is not refused. */
  lemma MixedChainIsMissed(host: seq<string> -> bool, files: seq<BuildFile>, resolve: (string, string) -> string)
    requires !host(["WIN32"]) && files == [BuildFile("", Flatten(MIXED_FOREST))] && resolve("", "a.cc") == "a.cc"
    ensures Nested(files, [MIXED_FOREST]) && NamedAt(files, resolve, 0, 2, "a.cc")
    ensures forall f: nat, i: nat :: NamedAt(files, resolve, f, i, "a.cc") ==> !Runs([MIXED_FOREST][f], i, host)
    ensures !Refused(files, {"a.cc"}, resolve, host, "a.cc")
  {
    hide StackAfter, Refused, Runs, Passable, PlatformOnly, Names;
    MixedForest();
    MixedFrame(host);
    NamesPlainly(Flatten(MIXED_FOREST), resolve, 2, 1);
    OneNamedIsMissed(files, MIXED_FOREST, 2, MIXED_FRAME, resolve, host, "a.cc");
  }

  /** An argument of plain characters names itself. */
  lemma NamesPlainly(commands: seq<Command>, resolve: (string, string) -> string, i: nat, k: nat)
    requires i < |commands| && k < |commands[i].args| && commands[i].args[k] == "a.cc"
    requires commands[i].name !in BRANCH_WORDS && resolve("", "a.cc") == "a.cc"
    requires forall p :: 0 <= p < |commands| ==> commands[p].name != "set"
    ensures Names(commands, "", resolve, i, "a.cc")
  {
    NoVariables(commands[..i + 1]);
    NoDollar("a.cc", "${");
    NoDollar("a.cc", "$<");
    assert Named("a.cc", "", [], resolve) == Some("a.cc");
  }

  lemma {:induction false} NoDollar(s: string, part: string)
    requires part != "" && part[0] == '$' && '$' !in s
    ensures !Contains(s, part)
  {
    if |s| >= |part| {
      assert s[..|part|][0] == s[0] && s[0] in s;
      NoDollar(s[1..], part);
    }
  }

  lemma {:induction false} NoVariables(commands: seq<Command>)
    requires forall p :: 0 <= p < |commands| ==> commands[p].name != "set"
    ensures VariablesAfter(commands, "") == []
  {
    if commands != [] { NoVariables(commands[..|commands| - 1]); }
  }

  /** A command under no `if` executes in every run. */
  lemma {:induction false} TopLevelAlwaysRuns(stmts: seq<Stmt>, at: nat, truth: nat -> bool, i: nat)
    requires WellNested(stmts) && i < |Flatten(stmts)| && Flatten(stmts)[i].name !in BRANCH_WORDS
    requires Path(stmts, i) == []
    ensures at + i in Execute(stmts, at, truth)
    decreases stmts
  {
    var first, rest := FlattenStmt(stmts[0]), Flatten(stmts[1..]);
    if i < |first| {
      assert (first + rest)[i] == first[i];
      if stmts[0].If? { NoFrameOutside(stmts[0], i); }
    } else {
      assert (first + rest)[i] == rest[i - |first|];
      TopLevelAlwaysRuns(stmts[1..], at + |first|, truth, i - |first|);
    }
  }

  lemma NoFrameOutside(stmt: Stmt, i: nat)
    requires WellNestedStmt(stmt) && stmt.If? && i < |FlattenStmt(stmt)| && FlattenStmt(stmt)[i].name !in BRANCH_WORDS
    ensures PathStmt(stmt, i) != []
  {
    assert FlattenChain(stmt.chain)[0] == stmt.chain.head;
    if i > |Flatten(stmt.chain.body)| {
      NoFrameInRest(stmt.chain.rest, [] + [stmt.chain.head.args], FlattenChain(stmt.chain)[0].line,
                    i - 1 - |Flatten(stmt.chain.body)|);
    }
  }

  lemma {:induction false} NoFrameInRest(chain: Chain, conditions: seq<seq<string>>, line: nat, i: nat)
    requires WellNestedRest(chain) && i < |FlattenChain(chain)| && FlattenChain(chain)[i].name !in BRANCH_WORDS
    ensures PathChain(chain, conditions, line, i) != []
    decreases chain
  {
    if chain.Branch? && i > |Flatten(chain.body)| {
      NoFrameInRest(chain.rest, conditions + [chain.head.args], line, i - 1 - |Flatten(chain.body)|);
    }
  }

  /** A VARIABLE THAT RESOLVES IS ALWAYS SET: before position `n`, by one `set` that executes in every run. */
  lemma ResolvedIsAlwaysSet(forest: seq<Stmt>, base: string, name: string, n: nat, truth: nat -> bool)
    requires WellNested(forest) && n <= |Flatten(forest)|
    requires Lookup(VariablesAfter(Flatten(forest)[..n], base), name).Some?
    ensures exists p: nat :: SingleValued(Flatten(forest)[..n], base, name, p) && p in Execute(forest, 0, truth)
  {
    var flat := Flatten(forest);
    ResolvesIffSingleValued(flat[..n], base, name);
    var p: nat :| SingleValued(flat[..n], base, name, p);
    assert flat[..n][..p] == flat[..p] && flat[..n][p] == flat[p];
    StackIsPath([], forest, p);
    assert [] + Path(forest, p) == Path(forest, p);
    TopLevelAlwaysRuns(forest, 0, truth, p);
  }
}
