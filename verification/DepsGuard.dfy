/** The guard over ninja's dependency records (ninja_deps_guard.py:63-84, 174-218): the rules that bind `deps` in a
    manifest and all it includes, and the deletion of outputs that have no record. */
module DepsGuard {
  import opened Options
  import opened Strings
  import opened Closure
  import opened NinjaManifest

  /* ---------------------------------------------------------------- the rules of one file */

  /** The one word after a keyword, when nothing but blanks follows it. */
  function WordAfter(line: string, keyword: string): Option<string> {
    if !At(line, 0, keyword) then None
    else
      var start := WordStart(line, |keyword|);
      var end := WordEnd(line, start);
      if start == |keyword| || start == |line| || WordStart(line, end) != |line| then None else Some(line[start..end])
  }

  function IncludeOf(line: string): Option<string> {
    var included := WordAfter(line, "include");
    if included.Some? then included else WordAfter(line, "subninja")
  }

  /** An indented `deps = ` with a value. */
  predicate BindsDeps(line: string) {
    var start := WordStart(line, 0);
    start > 0 && At(line, start, "deps")
    && var equals := WordStart(line, start + 4);
       equals < |line| && line[equals] == '=' && WordStart(line, equals + 1) < |line|
  }

  predicate Indented(line: string) {
    line != "" && (line[0] == ' ' || line[0] == '\t')
  }

  /** What the lines so far bind and include, and the rule whose block the next line may be in. */
  datatype Facts = Facts(rules: set<string>, includes: set<string>, current: Option<string>)

  function Next(facts: Facts, line: string): Facts {
    var rule := WordAfter(line, "rule");
    if rule.Some? then facts.(current := rule)
    else if !Indented(line) then
      var included := IncludeOf(line);
      facts.(current := None, includes := facts.includes + if included.Some? then {included.value} else {})
    else if facts.current.Some? && BindsDeps(line) then facts.(rules := facts.rules + {facts.current.value})
    else facts
  }

  function FactsOf(lines: seq<string>): Facts {
    if lines == [] then Facts({}, {}, None) else Next(FactsOf(lines[..|lines| - 1]), lines[|lines| - 1])
  }

  /** What one file binds and includes. */
  function FileFacts(text: string): Facts {
    FactsOf(Lines(text))
  }

  /* ---------------------------------------------------------------- the files a manifest includes */

  /** The files there are, and where a name in one leads. */
  datatype Tree = Tree(files: map<string, string>, join: (string, string) -> string)

  /** Each file's includes that are files. */
  function Includes(tree: Tree): Edges {
    map path | path in tree.files ::
      set name | name in FileFacts(tree.files[path]).includes && tree.join(path, name) in tree.files :: tree.join(path, name)
  }

  function RulesOf(tree: Tree, paths: set<string>): set<string>
    requires paths <= tree.files.Keys
  {
    set path, rule | path in paths && rule in FileFacts(tree.files[path]).rules :: rule
  }

  lemma RulesJoin(tree: Tree, a: set<string>, b: set<string>, c: set<string>)
    requires a <= b <= c <= tree.files.Keys
    ensures RulesOf(tree, c - a) == RulesOf(tree, b - a) + RulesOf(tree, c - b)
  {
    hide FileFacts;
    assert c - a == (b - a) + (c - b);
  }

  lemma RulesWith(tree: Tree, paths: set<string>, path: string)
    requires paths <= tree.files.Keys && path in tree.files
    ensures RulesOf(tree, paths + {path}) == RulesOf(tree, paths) + FileFacts(tree.files[path]).rules
  {
    hide FileFacts;
  }

  lemma IncludeIsEdge(tree: Tree, path: string, name: string)
    requires path in tree.files && name in FileFacts(tree.files[path]).includes && tree.join(path, name) in tree.files
    ensures Edge(Includes(tree), path, tree.join(path, name))
  {
    hide FileFacts;
  }

  lemma EdgeIsInclude(tree: Tree, path: string, b: string)
    requires Edge(Includes(tree), path, b)
    ensures b in tree.files && exists name :: name in FileFacts(tree.files[path]).includes && tree.join(path, name) == b
  {
    hide FileFacts;
  }

  lemma {:induction false} IncludesGrow(lines: seq<string>, count: nat)
    requires count <= |lines|
    ensures FactsOf(lines[..count]).includes <= FactsOf(lines).includes
    decreases |lines| - count
  {
    if count == |lines| {
      assert lines[..count] == lines;
    } else {
      assert lines[..count + 1][..count] == lines[..count];
      IncludesGrow(lines, count + 1);
    }
  }

  class Reader {
    const tree: Tree
    var seen: set<string>
    ghost var open: set<string>

    ghost predicate Valid()
      reads this
    {
      && open <= seen <= tree.files.Keys
      && forall a, b :: a in seen - open && Edge(Includes(tree), a, b) ==> b in seen
    }

    constructor (tree: Tree)
      ensures Valid() && this.tree == tree && seen == {} && open == {}
    {
      this.tree := tree;
      seen, open := {}, {};
    }

    /** `deps_rules`: the rules of the files not seen before that the manifest leads to. */
    method DepsRules(manifest: string) returns (rules: set<string>)
      requires Valid()
      modifies this
      ensures Valid() && open == old(open) && old(seen) <= seen && (manifest in tree.files ==> manifest in seen)
      ensures rules == RulesOf(tree, seen - old(seen))
      ensures forall r <- seen - old(seen) :: manifest in tree.files && Reach(Includes(tree), manifest, r)
      decreases tree.files.Keys - seen, 1
    {
      hide Includes, Reach, FileFacts;
      if manifest in seen || manifest !in tree.files { return {}; }
      ghost var before := seen;
      ReachSelf(Includes(tree), manifest);
      seen := seen + {manifest};
      open := open + {manifest};
      ghost var entered := seen;
      rules := ReadLines(manifest, Lines(tree.files[manifest]));
      assert entered - before == {} + {manifest};
      RulesWith(tree, {}, manifest);
      RulesJoin(tree, before, entered, seen);
      open := open - {manifest};
    }

    /** The loop over a file's lines. */
    method ReadLines(manifest: string, lines: seq<string>) returns (rules: set<string>)
      requires Valid() && manifest in open && lines == Lines(tree.files[manifest])
      modifies this
      ensures Valid() && open == old(open) && old(seen) <= seen
      ensures rules == FileFacts(tree.files[manifest]).rules + RulesOf(tree, seen - old(seen))
      ensures forall b :: Edge(Includes(tree), manifest, b) ==> b in seen
      ensures forall r <- seen - old(seen) :: Reach(Includes(tree), manifest, r)
      decreases tree.files.Keys - seen, 3
    {
      hide Includes, Reach, WordAfter, BindsDeps, IncludeOf, Lines, RulesOf;
      rules := {};
      var current: Option<string> := None;
      RulesOfNone(tree, seen - old(seen));
      for i := 0 to |lines|
        invariant Valid() && open == old(open) && old(seen) <= seen
        invariant current == FactsOf(lines[..i]).current
        invariant rules == FactsOf(lines[..i]).rules + RulesOf(tree, seen - old(seen))
        invariant Followed(manifest, FactsOf(lines[..i]).includes)
        invariant forall r <- seen - old(seen) :: Reach(Includes(tree), manifest, r)
      {
        var line := lines[i];
        assert lines[..i + 1][..i] == lines[..i];
        var rule := WordAfter(line, "rule");
        if rule.Some? {
          current := rule;
          continue;
        }
        if !Indented(line) {
          current := None;
          var included := IncludeOf(line);
          if included.Some? {
            IncludesGrow(lines, i + 1);
            ghost var before := seen;
            var more := ReadIncluded(manifest, included.value);
            RulesJoin(tree, old(seen), before, seen);
            rules := rules + more;
          }
          continue;
        }
        if current.Some? && BindsDeps(line) { rules := rules + {current.value}; }
      }
      assert lines[..|lines|] == lines;
      forall b | Edge(Includes(tree), manifest, b) ensures b in seen { EdgeIsInclude(tree, manifest, b); }
    }

    /** The files the names lead to were all seen. */
    ghost predicate Followed(manifest: string, names: set<string>)
      reads this
    {
      forall name <- names :: tree.join(manifest, name) in tree.files ==> tree.join(manifest, name) in seen
    }

    /** One include followed. */
    method ReadIncluded(manifest: string, name: string) returns (rules: set<string>)
      requires Valid() && manifest in open && name in FileFacts(tree.files[manifest]).includes
      modifies this
      ensures Valid() && open == old(open) && old(seen) <= seen
      ensures rules == RulesOf(tree, seen - old(seen))
      ensures tree.join(manifest, name) in tree.files ==> tree.join(manifest, name) in seen
      ensures forall r <- seen - old(seen) :: Reach(Includes(tree), manifest, r)
      decreases tree.files.Keys - seen, 2
    {
      hide Includes, Reach, FileFacts, RulesOf;
      var path := tree.join(manifest, name);
      rules := DepsRules(path);
      if path in tree.files {
        IncludeIsEdge(tree, manifest, name);
        EdgeReaches(Includes(tree), manifest, path);
        forall r | r in seen - old(seen) ensures Reach(Includes(tree), manifest, r) {
          ReachThrough(Includes(tree), manifest, path, r);
        }
      }
    }
  }

  lemma RulesOfNone(tree: Tree, paths: set<string>)
    requires paths == {}
    ensures RulesOf(tree, paths) == {}
  {
  }

  /** THE RULES OF A MANIFEST are those its own text binds and those of every file it includes, however far, each file
      read once. */
  method AllDepsRules(tree: Tree, manifest: string) returns (rules: set<string>)
    ensures forall rule :: rule in rules <==>
              manifest in tree.files
              && exists path :: path in tree.files && Reach(Includes(tree), manifest, path)
                                && rule in FileFacts(tree.files[path]).rules
  {
    var reader := new Reader(tree);
    rules := reader.DepsRules(manifest);
    assert reader.seen - {} == reader.seen;
    if manifest in tree.files {
      assert Closed(Includes(tree), reader.seen);
      SeenIsReached(tree, manifest, reader.seen);
    }
  }

  lemma SeenIsReached(tree: Tree, manifest: string, seen: set<string>)
    requires seen <= tree.files.Keys && Closed(Includes(tree), seen) && manifest in seen
    requires forall r <- seen :: Reach(Includes(tree), manifest, r)
    ensures forall path :: path in seen <==> Reach(Includes(tree), manifest, path)
  {
    forall path | Reach(Includes(tree), manifest, path) ensures path in seen {
      ClosedHoldsReached(Includes(tree), seen, manifest, path);
    }
  }

  /* ---------------------------------------------------------------- the guard */

  class BuildDir {
    /** The outputs that exist. */
    var files: set<string>

    constructor (files: set<string>)
      ensures this.files == files
    {
      this.files := files;
    }

    /** The outputs of `deps` edges that exist and have no record. */
    function Missing(edges: set<string>, recorded: set<string>): set<string>
      reads this
    {
      set output | output in edges && output !in recorded && output in files
    }

    /** `guard`, after the manifest was found: `recorded` is what ninja answers, None when it fails, and `stuck` the
        outputs that cannot be deleted. 0 leaves the tree honest: no existing output of a `deps` edge lacks its record. */
    method Guard(text: string, rules: set<string>, recorded: Option<set<string>>, stuck: set<string>) returns (code: int)
      modifies this
      ensures code == 0 || code == 1
      ensures code == 0 && recorded.Some? ==> Missing(EdgeSet(text, rules), recorded.value) == {}
      ensures code == 1 <==> (rules != {} && recorded.None?)
                             || (rules != {} && recorded.Some?
                                 && old(Missing(EdgeSet(text, rules), recorded.value)) * stuck != {})
      ensures files == if rules == {} || recorded.None? then old(files)
                       else old(files) - (old(Missing(EdgeSet(text, rules), recorded.value)) - stuck)
    {
      NoRulesNoEdges(text, rules);
      if rules == {} { return 0; }
      if recorded.None? { return 1; }
      var outputs := ReadDepsEdges(text, rules);
      var missing := set output | output in outputs && output !in recorded.value && output in files;
      assert missing == Missing(EdgeSet(text, rules), recorded.value);
      var left, failed := missing, {};
      while left != {}
        invariant left <= missing && failed == (missing - left) * stuck
        invariant files == old(files) - ((missing - left) - stuck)
        decreases left
      {
        var output :| output in left;
        if output in stuck { failed := failed + {output}; } else { files := files - {output}; }
        left := left - {output};
      }
      assert missing - {} == missing;
      code := if failed == {} then 0 else 1;
    }
  }

  function EdgeSet(text: string, rules: set<string>): set<string> {
    set output <- DepsEdges(text, rules)
  }

  lemma NoRulesNoEdges(text: string, rules: set<string>)
    ensures rules == {} ==> EdgeSet(text, rules) == {}
  {
    if rules == {} { NoRulesNone(Logical(Lines(text), ""), map[]); }
  }

  lemma {:induction false} NoRulesNone(lines: seq<string>, variables: map<string, string>)
    ensures EdgesFrom(lines, variables, {}) == []
    decreases |lines|
  {
    if lines != [] {
      NoRulesNone(lines[1..], variables);
      NoRulesNone(lines[1..], Bound(variables, lines[0]));
    }
  }

  /* ---------------------------------------------------------------- what the patterns read */

  predicate Blanks(s: string) {
    forall c <- s :: Space(c)
  }

  predicate Solid(s: string) {
    forall c <- s :: !Space(c)
  }

  lemma {:induction false} StartPast(line: string, pos: nat, gap: string)
    requires At(line, pos, gap) && Blanks(gap)
    requires pos + |gap| < |line| ==> !Space(line[pos + |gap|])
    ensures WordStart(line, pos) == pos + |gap|
    decreases |gap|
  {
    if gap != "" {
      assert gap[0] in gap && forall c <- gap[1..] :: c in gap;
      StartPast(line, pos + 1, gap[1..]);
    }
  }

  lemma {:induction false} EndPast(line: string, pos: nat, word: string)
    requires At(line, pos, word) && Solid(word)
    requires pos + |word| < |line| ==> Space(line[pos + |word|])
    ensures WordEnd(line, pos) == pos + |word|
    decreases |word|
  {
    if word != "" {
      assert word[0] in word && forall c <- word[1..] :: c in word;
      EndPast(line, pos + 1, word[1..]);
    }
  }

  /** A part that is there is not blank at its start, or blank. */
  lemma FirstOf(line: string, pos: nat, part: string)
    requires At(line, pos, part) && part != ""
    ensures pos < |line| && line[pos] == part[0] && part[0] in part
  {
  }

  /** A keyword, blanks, one word, and perhaps blanks. */
  predicate Announces(line: string, keyword: string, gap: string, word: string, after: string) {
    line == keyword + (gap + (word + after)) && gap != "" && word != "" && Blanks(gap) && Solid(word) && Blanks(after)
  }

  /** WHAT A KEYWORD'S LINE READS AS: the word, exactly when the line is the keyword, blanks, one word and blanks. */
  lemma WordAfterIff(line: string, keyword: string, word: string)
    ensures WordAfter(line, keyword) == Some(word) <==> exists gap, after :: Announces(line, keyword, gap, word, after)
  {
    if gap, after :| Announces(line, keyword, gap, word, after) {
      AnnouncedReads(line, keyword, gap, word, after);
    }
    if WordAfter(line, keyword) == Some(word) { WordIsAnnounced(line, keyword, word); }
  }

  lemma AnnouncedReads(line: string, keyword: string, gap: string, word: string, after: string)
    requires Announces(line, keyword, gap, word, after)
    ensures WordAfter(line, keyword) == Some(word)
  {
    hide At, WordStart, WordEnd, Space;
    var a := |keyword|;
    var b := a + |gap|;
    var c := b + |word|;
    AtWhole(line, 0);
    assert line[0..] == line;
    AtSplit(line, 0, keyword, gap + (word + after));
    AtSplit(line, a, gap, word + after);
    AtSplit(line, b, word, after);
    FirstOf(line, b, word);
    if after != "" { FirstOf(line, c, after); }
    StartPast(line, a, gap);
    EndPast(line, b, word);
    StartPast(line, c, after);
    AtSlice(line, b, word);
  }

  lemma {:induction false} StartIsFirst(text: string, pos: nat)
    requires pos <= |text|
    ensures Blanks(text[pos..WordStart(text, pos)])
    ensures WordStart(text, pos) < |text| ==> !Space(text[WordStart(text, pos)])
    decreases |text| - pos
  {
    if pos < |text| && Space(text[pos]) {
      StartIsFirst(text, pos + 1);
      assert text[pos..WordStart(text, pos)] == [text[pos]] + text[pos + 1..WordStart(text, pos + 1)];
    }
  }

  lemma {:induction false} EndIsFirst(text: string, pos: nat)
    requires pos <= |text|
    ensures Solid(text[pos..WordEnd(text, pos)])
    decreases |text| - pos
  {
    if pos < |text| && !Space(text[pos]) {
      EndIsFirst(text, pos + 1);
      assert text[pos..WordEnd(text, pos)] == [text[pos]] + text[pos + 1..WordEnd(text, pos + 1)];
    }
  }

  lemma WordIsAnnounced(line: string, keyword: string, word: string)
    requires WordAfter(line, keyword) == Some(word)
    ensures exists gap, after :: Announces(line, keyword, gap, word, after)
  {
    var n, start := |keyword|, WordStart(line, |keyword|);
    var end := WordEnd(line, start);
    StartIsFirst(line, n);
    EndIsFirst(line, start);
    StartIsFirst(line, end);
    AtSlice(line, 0, keyword);
    assert line[start..end] == word && line[end..|line|] == line[end..] && start > n;
    hide WordAfter, WordStart, WordEnd, At, Blanks, Solid, Space;
    var first, fromGap := Cut(line, 0, n);
    var gap, fromWord := Cut(line, n, start);
    var middle, after := Cut(line, start, end);
    assert line[0..] == line && Announces(line, keyword, gap, word, after);
  }

  /** An indented `deps`, an equals sign, blanks about it, and a value. */
  predicate BindingShape(line: string, indent: string, before: string, after: string, value: string) {
    line == indent + ("deps" + (before + ("=" + (after + value)))) && indent != "" && value != "" && !Space(value[0])
    && Blanks(indent) && Blanks(before) && Blanks(after)
  }

  /** WHAT BINDS `deps`: exactly an indented binding of it to a value. */
  lemma BindsDepsIff(line: string)
    ensures BindsDeps(line) <==>
            exists indent, before, after, value :: BindingShape(line, indent, before, after, value)
  {
    if indent, before, after, value :| BindingShape(line, indent, before, after, value) {
      ShapeBinds(line, indent, before, after, value);
    }
    if BindsDeps(line) { BindingHasShape(line); }
  }

  lemma ShapeBinds(line: string, indent: string, before: string, after: string, value: string)
    requires BindingShape(line, indent, before, after, value)
    ensures BindsDeps(line)
  {
    hide At, WordStart, Space;
    var a := |indent|;
    var b := a + 4 + |before|;
    var tail := "=" + (after + value);
    AtWhole(line, 0);
    assert line[0..] == line;
    AtSplit(line, 0, indent, "deps" + (before + tail));
    AtSplit(line, a, "deps", before + tail);
    AtSplit(line, a + 4, before, tail);
    AtSplit(line, b, "=", after + value);
    AtSplit(line, b + 1, after, value);
    FirstOf(line, a, "deps");
    FirstOf(line, b, "=");
    FirstOf(line, b + 1 + |after|, value);
    NoSpaces();
    StartPast(line, 0, indent);
    StartPast(line, a + 4, before);
    StartPast(line, b + 1, after);
  }

  lemma NoSpaces()
    ensures !Space('d') && !Space('=')
  {
  }

  /** The line from `a` on, parted at `b`. */
  lemma Cut(line: string, a: nat, b: nat) returns (part: string, rest: string)
    requires a <= b <= |line|
    ensures line[a..] == part + rest && part == line[a..b] && rest == line[b..]
  {
    part, rest := line[a..b], line[b..];
  }

  lemma BindingHasShape(line: string)
    requires BindsDeps(line)
    ensures exists indent, before, after, value :: BindingShape(line, indent, before, after, value)
  {
    var start := WordStart(line, 0);
    HasShapeAt(line, start, WordStart(line, start + 4));
  }

  lemma HasShapeAt(line: string, start: nat, equals: nat)
    requires start == WordStart(line, 0) && start > 0 && At(line, start, "deps")
    requires equals == WordStart(line, start + 4) && equals < |line| && line[equals] == '='
    requires WordStart(line, equals + 1) < |line|
    ensures exists indent, before, after, value :: BindingShape(line, indent, before, after, value)
  {
    hide *;
    KeyParts(line, start);
    EqualsShape(line, start + 4, equals);
    var before, after, value :| EqualsThen(line[start + 4..], before, after, value);
    ShapeFrom(line, line[..start], line[start + 4..], before, after, value);
  }

  /** Blanks, an equals sign, blanks and a value. */
  ghost predicate EqualsThen(text: string, before: string, after: string, value: string) {
    text == before + ("=" + (after + value)) && value != "" && !Space(value[0]) && Blanks(before) && Blanks(after)
  }

  lemma KeyParts(line: string, start: nat)
    requires start == WordStart(line, 0) && start > 0 && At(line, start, "deps")
    ensures start + 4 <= |line| && line == line[..start] + ("deps" + line[start + 4..]) && Blanks(line[..start])
  {
    StartIsFirst(line, 0);
    AtSlice(line, start, "deps");
    assert line[0..start] == line[..start];
    hide *;
    assert line == line[..start] + (line[start..start + 4] + line[start + 4..]);
  }

  lemma EqualsShape(line: string, from: nat, equals: nat)
    requires from <= |line| && equals == WordStart(line, from) && equals < |line| && line[equals] == '='
    requires WordStart(line, equals + 1) < |line|
    ensures exists before, after, value :: EqualsThen(line[from..], before, after, value)
  {
    hide *;
    var last := WordStart(line, equals + 1);
    StartIsFirst(line, from);
    StartIsFirst(line, equals + 1);
    var before, fromEquals := Cut(line, from, equals);
    var sign, fromAfter := Cut(line, equals, equals + 1);
    var after, value := Cut(line, equals + 1, last);
    OneChar(line, equals);
    TailFirst(line, last);
    EqualsFrom(line[from..], before, fromEquals, fromAfter, after, value);
  }

  lemma OneChar(line: string, pos: nat)
    requires pos < |line|
    ensures line[pos..pos + 1] == [line[pos]]
  {
  }

  lemma TailFirst(line: string, pos: nat)
    requires pos < |line|
    ensures line[pos..] != "" && line[pos..][0] == line[pos]
  {
  }

  lemma EqualsFrom(text: string, before: string, fromEquals: string, fromAfter: string, after: string, value: string)
    requires text == before + fromEquals && fromEquals == "=" + fromAfter && fromAfter == after + value
    requires value != "" && !Space(value[0]) && Blanks(before) && Blanks(after)
    ensures exists b, a, v :: EqualsThen(text, b, a, v)
  {
    assert EqualsThen(text, before, after, value);
  }

  lemma ShapeFrom(line: string, indent: string, fromBefore: string, before: string, after: string, value: string)
    requires line == indent + ("deps" + fromBefore) && indent != "" && Blanks(indent)
    requires EqualsThen(fromBefore, before, after, value)
    ensures exists i, b, a, v :: BindingShape(line, i, b, a, v)
  {
    assert BindingShape(line, indent, before, after, value);
  }
}
