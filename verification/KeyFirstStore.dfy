/** The key before a step over the records a store can hold (artefact_store.py:1158-1236, 1345-1356): what
    `key_first_members` reads of the record directory, and when the key before is the key after in any reachable store. */
module KeyFirstStore {
  import opened Options
  import opened ArtefactStore
  import opened KeyFirst
  import opened Provenance
  import opened StoreRuns

  const PACKAGED_FIELD := "packaged"

  /* ---------------------------------------------------------------- what the records say */

  /** A create record at `profile` of one binary alias and content. */
  predicate CreatedWith(record: Record, profile: string, alias: string, content: Digest) {
    && record.inputs.ConanCreate? && record.inputs.profile == profile && PACKAGE_OUTPUT in record.outputs
    && alias != "" && Axis(record.outputs[PACKAGE_OUTPUT], "alias") == Text(alias)
    && Axis(record.outputs[PACKAGE_OUTPUT], "content") == Hash(content)
  }

  ghost predicate CreatedIn(records: set<Record>, profile: string, alias: string, content: Digest) {
    exists record <- records :: CreatedWith(record, profile, alias, content)
  }

  /** The binary alias has one recorded content, this one. */
  ghost predicate OnlyCreated(records: set<Record>, profile: string, alias: string, content: Digest) {
    CreatedIn(records, profile, alias, content)
    && forall other :: CreatedIn(records, profile, alias, other) ==> other == content
  }

  /** A third-party record of the configuration and content, for which a folder at `digest` stands: at that content, or
      at the record's packaged digest. */
  predicate StandsWith(record: Record, profile: string, configuration: string, digest: Digest, content: Digest) {
    && Holds(record, profile, configuration, content)
    && (digest == content || Axis(record.outputs[PACKAGE_OUTPUT], PACKAGED_FIELD) == Hash(digest))
  }

  ghost predicate StandsIn(records: set<Record>, profile: string, configuration: string, digest: Digest, content: Digest) {
    exists record <- records :: StandsWith(record, profile, configuration, digest, content)
  }

  /** Every package record keeps its alias and content. */
  ghost predicate Shaped(records: set<Record>) {
    forall record <- records :: PackageKind(record.inputs) ==>
      PACKAGE_OUTPUT in record.outputs
      && Axis(record.outputs[PACKAGE_OUTPUT], "alias").Text? && Axis(record.outputs[PACKAGE_OUTPUT], "content").Hash?
  }

  /* ---------------------------------------------------------------- what the key reads of them */

  ghost predicate HeldTabulates(held: map<string, set<Digest>>, records: set<Record>, profile: string) {
    forall alias: string, content: Digest :: InTable(held, alias, content) <==> CreatedIn(records, profile, alias, content)
  }

  /** `recorded_contents`. */
  method RecordedContents(listing: seq<Record>, profile: string) returns (held: map<string, set<Digest>>)
    requires Shaped(RecordsIn(listing))
    ensures HeldTabulates(held, RecordsIn(listing), profile)
  {
    held := map[];
    for i := 0 to |listing|
      invariant HeldTabulates(held, RecordsIn(listing[..i]), profile)
    {
      var record := listing[i];
      assert record in RecordsIn(listing);
      ghost var was := held;
      if record.inputs.ConanCreate? && record.inputs.profile == profile
         && Axis(record.outputs[PACKAGE_OUTPUT], "alias") != Text("") {
        var alias := Axis(record.outputs[PACKAGE_OUTPUT], "alias").text;
        var content := Axis(record.outputs[PACKAGE_OUTPUT], "content").digest;
        held := held[alias := (if alias in held then held[alias] else {}) + {content}];
      }
      HeldNext(was, held, listing, i, profile);
    }
    assert listing[..|listing|] == listing;
  }

  lemma HeldNext(was: map<string, set<Digest>>, held: map<string, set<Digest>>, listing: seq<Record>, i: nat, profile: string)
    requires i < |listing| && HeldTabulates(was, RecordsIn(listing[..i]), profile)
    requires forall alias: string, content: Digest ::
               InTable(held, alias, content) <==>
               InTable(was, alias, content) || CreatedWith(listing[i], profile, alias, content)
    ensures HeldTabulates(held, RecordsIn(listing[..i + 1]), profile)
  {
    assert listing[..i + 1] == listing[..i] + [listing[i]];
    var before, now := RecordsIn(listing[..i]), RecordsIn(listing[..i + 1]);
    assert now == before + {listing[i]};
    forall alias: string, content: Digest
      ensures InTable(held, alias, content) <==> CreatedIn(now, profile, alias, content)
    {
      assert InTable(was, alias, content) <==> CreatedIn(before, profile, alias, content);
    }
  }

  /** What the key reads of a third-party record's output. */
  function JudgementOf(output: Output): Judgement
    requires Axis(output, "content").Hash?
  {
    var packaged := Axis(output, PACKAGED_FIELD);
    Judgement(Axis(output, "content").digest, if packaged.Hash? then Some(packaged.digest) else None)
  }

  function JudgementsOf(outputs: seq<Output>): seq<Judgement>
    requires forall output <- outputs :: Axis(output, "content").Hash?
  {
    seq(|outputs|, k requires 0 <= k < |outputs| => assert outputs[k] in outputs; JudgementOf(outputs[k]))
  }

  lemma OutputsShaped(listing: seq<Record>, profile: string, configuration: string)
    requires Shaped(RecordsIn(listing))
    ensures forall output <- OutputsAt(listing, profile, configuration) :: Axis(output, "content").Hash?
  {
    forall output | output in OutputsAt(listing, profile, configuration) ensures Axis(output, "content").Hash? {
      OutputsAtAreTheRecords(listing, profile, configuration, output);
      var record :| record in listing && ThirdPartyAt(record, profile, configuration)
                    && record.outputs[PACKAGE_OUTPUT] == output;
      assert record in RecordsIn(listing);
    }
  }

  /** The world's tables are those of the record directory. */
  ghost predicate Reads(world: World, listing: seq<Record>, profile: string) {
    HeldTabulates(world.held, RecordsIn(listing), profile) && JudgedTabulates(world.judged, listing, profile)
  }

  ghost predicate JudgedTabulates(judged: map<string, seq<Judgement>>, listing: seq<Record>, profile: string) {
    forall configuration: string ::
      var outputs := OutputsAt(listing, profile, configuration);
      (forall output <- outputs :: Axis(output, "content").Hash?)
      && (if configuration in judged then judged[configuration] else []) == JudgementsOf(outputs)
  }

  /** The tables a step reads, from the directory's listing. */
  method ReadTables(listing: seq<Record>, profile: string)
    returns (held: map<string, set<Digest>>, judged: map<string, seq<Judgement>>)
    requires Shaped(RecordsIn(listing))
    ensures HeldTabulates(held, RecordsIn(listing), profile) && JudgedTabulates(judged, listing, profile)
  {
    hide OutputsAt, HeldTabulates, JudgementsOf, JudgedTabulates;
    held := RecordedContents(listing, profile);
    assert forall record <- listing :: record in RecordsIn(listing);
    var outputs := ThirdPartyRecords(listing, profile);
    forall configuration | configuration in outputs
      ensures forall output <- outputs[configuration] :: Axis(output, "content").Hash?
    {
      OutputsShaped(listing, profile, configuration);
    }
    judged := map configuration | configuration in outputs :: JudgementsOf(outputs[configuration]);
    JudgedAre(listing, profile, outputs, judged);
  }

  lemma JudgedAre(listing: seq<Record>, profile: string, outputs: map<string, seq<Output>>, judged: map<string, seq<Judgement>>)
    requires Shaped(RecordsIn(listing)) && judged.Keys == outputs.Keys
    requires forall configuration: string ::
               (if configuration in outputs then outputs[configuration] else []) == OutputsAt(listing, profile, configuration)
    requires forall configuration <- outputs ::
               (forall output <- outputs[configuration] :: Axis(output, "content").Hash?)
               && judged[configuration] == JudgementsOf(outputs[configuration])
    ensures JudgedTabulates(judged, listing, profile)
  {
    hide OutputsAt, JudgementOf, Shaped, RecordsIn, Axis;
    forall configuration: string
      ensures var all := OutputsAt(listing, profile, configuration);
              (forall output <- all :: Axis(output, "content").Hash?)
              && (if configuration in judged then judged[configuration] else []) == JudgementsOf(all)
    {
      if configuration !in judged { assert OutputsAt(listing, profile, configuration) == []; }
    }
  }

  /* ---------------------------------------------------------------- the tables and the records say the same */

  lemma RecordedIff(world: World, listing: seq<Record>, profile: string, node: Node, content: Digest)
    requires Reads(world, listing, profile)
    ensures Recorded(world, node) && RecordedContent(world, node) == content <==>
            OnlyCreated(RecordsIn(listing), profile, Alias(node), content)
  {
    hide CreatedIn;
    var held, alias := world.held, Alias(node);
    assert forall c: Digest :: InTable(held, alias, c) <==> CreatedIn(RecordsIn(listing), profile, alias, c);
    if OnlyCreated(RecordsIn(listing), profile, alias, content) {
      assert InTable(held, alias, content);
      assert forall c <- held[alias] :: InTable(held, alias, c);
      assert held[alias] == {content};
    }
    if Recorded(world, node) && RecordedContent(world, node) == content {
      assert held[alias] == {content} && InTable(held, alias, content);
    }
  }

  /** The judgements of a configuration for which a digest stands are its records'. */
  lemma StandsAre(world: World, listing: seq<Record>, profile: string, node: Node, digest: Digest, content: Digest)
    requires Reads(world, listing, profile)
    ensures var outputs := JudgedAt(world, node);
            (exists i :: 0 <= i < |outputs| && Stands(outputs[i], digest) && outputs[i].content == content) <==>
            StandsIn(RecordsIn(listing), profile, NodeConfiguration(node), digest, content)
  {
    var configuration := NodeConfiguration(node);
    var outputs, judged := OutputsAt(listing, profile, configuration), JudgedAt(world, node);
    assert judged == JudgementsOf(outputs);
    if i :| 0 <= i < |judged| && Stands(judged[i], digest) && judged[i].content == content {
      assert judged[i] == JudgementOf(outputs[i]);
      OutputsAtAreTheRecords(listing, profile, configuration, outputs[i]);
      var record :| record in listing && ThirdPartyAt(record, profile, configuration)
                    && record.outputs[PACKAGE_OUTPUT] == outputs[i];
      assert record in RecordsIn(listing) && StandsWith(record, profile, configuration, digest, content);
    }
    if record: Record :| record in RecordsIn(listing) && StandsWith(record, profile, configuration, digest, content) {
      OutputsAtAreTheRecords(listing, profile, configuration, record.outputs[PACKAGE_OUTPUT]);
      var i :| 0 <= i < |outputs| && outputs[i] == record.outputs[PACKAGE_OUTPUT];
      assert judged[i] == JudgementOf(outputs[i]) && Stands(judged[i], digest);
    }
  }

  /* ---------------------------------------------------------------- the promise, over the records of a store */

  /** The step used what the store holds: each first-party folder is at the one content its create records hold, and each
      third-party folder at the content of a record for which it stood before the step. */
  ghost predicate FollowsRecords(records: set<Record>, profile: string, before: World, after: World, nodes: seq<Node>) {
    && after.owned == before.owned && after.exported == before.exported
    && forall node <- nodes :: node.binary != Skip ==>
         if before.owned(node.name) then OnlyCreated(records, profile, Alias(node), after.folder(Alias(node)))
         else StandsIn(records, profile, NodeConfiguration(node), before.folder(Alias(node)), after.folder(Alias(node)))
  }

  /** The folder stands for some record of its configuration. */
  ghost predicate Kept(records: set<Record>, profile: string, before: World, node: Node) {
    exists content :: StandsIn(records, profile, NodeConfiguration(node), before.folder(Alias(node)), content)
  }

  /** The folder stands for records of two contents. */
  ghost predicate Mixed(records: set<Record>, profile: string, before: World, node: Node) {
    exists c, d :: c != d && StandsIn(records, profile, NodeConfiguration(node), before.folder(Alias(node)), c)
                          && StandsIn(records, profile, NodeConfiguration(node), before.folder(Alias(node)), d)
  }

  lemma FollowsIff(listing: seq<Record>, profile: string, before: World, after: World, nodes: seq<Node>)
    requires Reads(before, listing, profile)
    ensures FollowsRecords(RecordsIn(listing), profile, before, after, nodes) <==> Follows(before, after, nodes)
  {
    hide Reads, OnlyCreated, StandsIn;
    forall node | node in nodes && node.binary != Skip
      ensures before.owned(node.name) ==>
                (OnlyCreated(RecordsIn(listing), profile, Alias(node), after.folder(Alias(node))) <==>
                 Recorded(before, node) && after.folder(Alias(node)) == RecordedContent(before, node))
      ensures StandsIn(RecordsIn(listing), profile, NodeConfiguration(node), before.folder(Alias(node)), after.folder(Alias(node)))
              <==> exists i: nat :: StandsFor(before, after, node, i)
    {
      RecordedIff(before, listing, profile, node, after.folder(Alias(node)));
      StandsForIff(listing, profile, before, after, node);
    }
  }

  lemma StandsForIff(listing: seq<Record>, profile: string, before: World, after: World, node: Node)
    requires Reads(before, listing, profile)
    ensures StandsIn(RecordsIn(listing), profile, NodeConfiguration(node), before.folder(Alias(node)), after.folder(Alias(node)))
            <==> exists i: nat :: StandsFor(before, after, node, i)
  {
    hide Reads, StandsIn, Stands;
    var digest, content, outputs := before.folder(Alias(node)), after.folder(Alias(node)), JudgedAt(before, node);
    StandsAre(before, listing, profile, node, digest, content);
    if i :| 0 <= i < |outputs| && Stands(outputs[i], digest) && outputs[i].content == content {
      assert StandsFor(before, after, node, i);
    }
  }

  lemma MixedIff(listing: seq<Record>, profile: string, before: World, node: Node)
    requires Reads(before, listing, profile)
    ensures Mixed(RecordsIn(listing), profile, before, node) <==>
            !UnmixedAt(JudgedAt(before, node), before.folder(Alias(node)))
  {
    hide Reads, StandsIn, Stands;
    var records, configuration := RecordsIn(listing), NodeConfiguration(node);
    var digest, outputs := before.folder(Alias(node)), JudgedAt(before, node);
    forall content: Digest
      ensures (exists i :: 0 <= i < |outputs| && Stands(outputs[i], digest) && outputs[i].content == content) <==>
              StandsIn(records, profile, configuration, digest, content)
    {
      StandsAre(before, listing, profile, node, digest, content);
    }
    if !UnmixedAt(outputs, digest) {
      var i, j :| 0 <= i < |outputs| && 0 <= j < |outputs| && Stands(outputs[i], digest) && Stands(outputs[j], digest)
                  && outputs[i].content != outputs[j].content;
      assert StandsIn(records, profile, configuration, digest, outputs[i].content);
      assert StandsIn(records, profile, configuration, digest, outputs[j].content);
    }
  }

  lemma KeptIff(listing: seq<Record>, profile: string, before: World, node: Node)
    requires Reads(before, listing, profile)
    ensures Kept(RecordsIn(listing), profile, before, node) <==>
            HeldContent(JudgedAt(before, node), before.folder(Alias(node))).Some?
  {
    hide Reads, StandsIn;
    var digest, outputs := before.folder(Alias(node)), JudgedAt(before, node);
    HeldContentIsTheFirst(outputs, digest);
    if HeldContent(outputs, digest).Some? {
      var i :| FirstStanding(outputs, digest, i) && outputs[i].content == HeldContent(outputs, digest).value;
      StandsAre(before, listing, profile, node, digest, outputs[i].content);
    }
    if content :| StandsIn(RecordsIn(listing), profile, NodeConfiguration(node), digest, content) {
      StandsAre(before, listing, profile, node, digest, content);
    }
  }

  /* ---------------------------------------------------------------- in any reachable store */

  /** A run of the store ends with these records, enumerated in some order. */
  ghost predicate Reached(steps: seq<Step>, listing: seq<Record>) {
    Legal(INITIAL, steps) && RecordsIn(listing) == After(INITIAL, steps).disk.records.Values
  }

  /** The tables can be read of every reachable store. */
  lemma ReachedIsShaped(steps: seq<Step>, listing: seq<Record>)
    requires Reached(steps, listing)
    ensures Shaped(RecordsIn(listing))
  {
    hide Legal, After, ValidDisk, Logged, Traced;
    ReachedStore(steps);
    var records := After(INITIAL, steps).disk.records;
    forall record | record in RecordsIn(listing) && PackageKind(record.inputs)
      ensures PACKAGE_OUTPUT in record.outputs
              && Axis(record.outputs[PACKAGE_OUTPUT], "alias").Text? && Axis(record.outputs[PACKAGE_OUTPUT], "content").Hash?
    {
      assert record in records.Values;
      var key :| key in records && records[key] == record;
      assert RecordSound(records, records[key]);
    }
  }

  /** `key_first_members`' tables, of any reachable store. */
  method ReadReachedTables(ghost steps: seq<Step>, listing: seq<Record>, profile: string)
    returns (held: map<string, set<Digest>>, judged: map<string, seq<Judgement>>)
    requires Reached(steps, listing)
    ensures HeldTabulates(held, RecordsIn(listing), profile) && JudgedTabulates(judged, listing, profile)
  {
    ReachedIsShaped(steps, listing);
    held, judged := ReadTables(listing, profile);
  }

  /** Each third-party folder of the graph stands for some record. */
  ghost predicate AllKept(records: set<Record>, profile: string, before: World, nodes: seq<Node>) {
    forall node <- nodes :: node.binary != Skip && !before.owned(node.name) ==> Kept(records, profile, before, node)
  }

  /** No third-party member's folder stands for records of two contents. */
  ghost predicate NoneMixed(records: set<Record>, profile: string, before: World, nodes: seq<Node>) {
    forall i :: Last(before.owned, nodes, i) && !before.owned(nodes[i].name) ==> !Mixed(records, profile, before, nodes[i])
  }

  /** ONE KEY OVER A STORE'S RECORDS: of a step whose tables were read of any reachable store, the key before is the key
      after for every way of using what the store holds, if and only if no third-party folder of the graph stands for
      records of two contents. */
  lemma OneKeyOfAnyRun(steps: seq<Step>, listing: seq<Record>, profile: string, before: World, package: string,
                       resolved: seq<Node>, k: nat, target: Node, tests: map<string, bool>, tests': map<string, bool>)
    requires Reached(steps, listing) && Reads(before, listing, profile)
    requires Resolves(before, package, resolved, k, target, tests, tests')
    requires Apart(before.owned, resolved) && AllKept(RecordsIn(listing), profile, before, resolved)
    ensures (forall after: World :: FollowsRecords(RecordsIn(listing), profile, before, after, resolved) ==>
               SameDocument(before, after, package, resolved, k, target, tests, tests'))
            <==> NoneMixed(RecordsIn(listing), profile, before, resolved)
  {
    hide Reads, Reached, Resolves, SameDocument, Follows, FollowsRecords, Apart, AllKept, AllStand, NoneMixed, AllUnmixed;
    forall after: World
      ensures FollowsRecords(RecordsIn(listing), profile, before, after, resolved) <==> Follows(before, after, resolved)
    {
      FollowsIff(listing, profile, before, after, resolved);
    }
    GraphIff(listing, profile, before, resolved);
    OneKeyIff(before, package, resolved, k, target, tests, tests');
  }

  lemma GraphIff(listing: seq<Record>, profile: string, before: World, nodes: seq<Node>)
    requires Reads(before, listing, profile)
    ensures AllKept(RecordsIn(listing), profile, before, nodes) <==> AllStand(before, nodes)
    ensures NoneMixed(RecordsIn(listing), profile, before, nodes) <==> AllUnmixed(before, nodes)
  {
    hide Reads, Mixed, UnmixedAt, Kept, HeldContent, Last;
    forall node | node in nodes
      ensures Kept(RecordsIn(listing), profile, before, node) <==>
              HeldContent(JudgedAt(before, node), before.folder(Alias(node))).Some?
    {
      KeptIff(listing, profile, before, node);
    }
    forall i | 0 <= i < |nodes|
      ensures Mixed(RecordsIn(listing), profile, before, nodes[i]) <==>
              !UnmixedAt(JudgedAt(before, nodes[i]), before.folder(Alias(nodes[i])))
    {
      MixedIff(listing, profile, before, nodes[i]);
    }
    assert forall i :: Last(before.owned, nodes, i) ==> 0 <= i < |nodes| by {
      forall i | Last(before.owned, nodes, i) ensures 0 <= i < |nodes| { LastWithin(before.owned, nodes, i); }
    }
  }

  lemma LastWithin(owned: string -> bool, nodes: seq<Node>, i: int)
    requires Last(owned, nodes, i)
    ensures 0 <= i < |nodes|
  {
  }

  /** EVERY THIRD-PARTY CONTENT OF THE KEY IS A RECORD'S: where each folder stands for some record, the key before the
      step names only contents that third-party records of their configurations hold. */
  lemma {:induction false} KeyNamesHeldContents(listing: seq<Record>, profile: string, before: World,
                                                tests: map<string, bool>, nodes: seq<Node>)
    requires Reads(before, listing, profile) && AllKept(RecordsIn(listing), profile, before, nodes)
    requires forall node <- nodes :: node.binary != Skip && before.owned(node.name) ==> Recorded(before, node)
    ensures ThirdPartiesHeld(RecordsIn(listing), profile, BeforeInputs(before, tests, nodes).thirdParty)
  {
    hide Reads, ThirdPartyHeld, Kept, Recorded;
    if nodes != [] {
      var front, last := nodes[..|nodes| - 1], nodes[|nodes| - 1];
      assert last in nodes && forall node <- front :: node in nodes;
      KeyNamesHeldContents(listing, profile, before, tests, front);
      if last.binary != Skip && !before.owned(last.name) {
        FolderIsHeld(listing, profile, before, last);
      }
    }
  }

  lemma FolderIsHeld(listing: seq<Record>, profile: string, before: World, node: Node)
    requires Reads(before, listing, profile) && Kept(RecordsIn(listing), profile, before, node)
    ensures ThirdPartyHeld(RecordsIn(listing), profile, NodeConfiguration(node), ContentBefore(before, node))
  {
    hide Reads;
    var digest, outputs := before.folder(Alias(node)), JudgedAt(before, node);
    KeptIff(listing, profile, before, node);
    HeldContentIsTheFirst(outputs, digest);
    var i :| FirstStanding(outputs, digest, i) && outputs[i].content == HeldContent(outputs, digest).value;
    StandsAre(before, listing, profile, node, digest, outputs[i].content);
    var record: Record :| record in RecordsIn(listing)
                          && StandsWith(record, profile, NodeConfiguration(node), digest, outputs[i].content);
    assert Holds(record, profile, NodeConfiguration(node), outputs[i].content);
  }

  /* ---------------------------------------------------------------- a store that keeps two contents for one folder */

  lemma {:induction false} LegalJoin(s: State, first: seq<Step>, rest: seq<Step>)
    requires Legal(s, first) && Legal(After(s, first), rest)
    ensures Legal(s, first + rest) && After(s, first + rest) == After(After(s, first), rest)
    decreases |first|
  {
    hide Enabled, Apply;
    if first == [] {
      assert first + rest == rest;
    } else {
      assert (first + rest)[0] == first[0] && (first + rest)[1..] == first[1..] + rest;
      LegalJoin(Apply(s, first[0]), first[1..], rest);
    }
  }

  lemma OneStep(s: State, step: Step)
    requires Enabled(s, step)
    ensures Legal(s, [step]) && After(s, [step]) == Apply(s, step)
  {
    hide Enabled, Apply;
    assert [step][1..] == [];
    assert Legal(Apply(s, step), []);
  }

  lemma NextStep(s: State, steps: seq<Step>, t: State, step: Step)
    requires Legal(s, steps) && After(s, steps) == t && Enabled(t, step)
    ensures Legal(s, steps + [step]) && After(s, steps + [step]) == Apply(t, step)
  {
    hide Enabled, Apply, Legal, After;
    OneStep(t, step);
    LegalJoin(s, steps, [step]);
  }

  /** A third-party step's act that stands ready, with nothing against it. */
  ghost predicate Stepping(s: State, profile: string) {
    0 in s.acts && s.acts[0].phase == Ready && s.acts[0].kind == ThirdPartyStep && s.acts[0].profile == profile
    && OUTCOME_OUTPUT !in s.acts[0].done
  }

  /** A third-party package with no inputs, of one object. */
  function PlainTask(rest: string, profile: string, alias: string, content: Digest, packaged: Digest, bytes: Bytes): Task {
    Task(ThirdPartyCreate("t", "r", "i", profile, map[], rest), [PACKAGE_OUTPUT],
         map[PACKAGE_OUTPUT := map["alias" := Text(alias), "content" := Hash(content), PACKAGED_FIELD := Hash(packaged)]],
         map[PACKAGE_OUTPUT := Offer(TRANSPORT_FIELD, One(bytes))], map[])
  }

  lemma PlainTaskAllowed(s: State, task: Task, rest: string, profile: string, alias: string, content: Digest,
                         packaged: Digest, bytes: Bytes)
    requires Stepping(s, profile) && task == PlainTask(rest, profile, alias, content, packaged, bytes)
    ensures Allowed(s.disk, s.acts[0], PACKAGE_OUTPUT, task)
  {
    hide TaskBytes, Supported, OutcomeOf;
  }

  lemma PlainTaskBytes(task: Task, rest: string, profile: string, alias: string, content: Digest, packaged: Digest,
                       bytes: Bytes)
    requires task == PlainTask(rest, profile, alias, content, packaged, bytes)
    ensures TaskBytes(task) == {bytes}
  {
    assert PACKAGE_OUTPUT in task.objects && OfferBytes(task.objects[PACKAGE_OUTPUT]) == {bytes};
  }

  /** The commit has found its key free and has one object to store. */
  ghost predicate Storing(s: State, profile: string, task: Task, bytes: Bytes) {
    0 in s.acts && s.acts[0].phase == Filling(PACKAGE_OUTPUT, task, {bytes})
    && Stepping(s.(acts := s.acts[0 := s.acts[0].(phase := Ready)]), profile)
  }

  lemma PlainBegins(start: State, steps: seq<Step>, s: State, task: Task, profile: string, bytes: Bytes)
    returns (more: seq<Step>)
    requires Legal(start, steps) && After(start, steps) == s && Stepping(s, profile)
    requires Allowed(s.disk, s.acts[0], PACKAGE_OUTPUT, task) && TaskBytes(task) == {bytes}
    requires KeyOf(task.document) !in s.disk.records
    ensures Legal(start, more) && After(start, more).disk == s.disk && Storing(After(start, more), profile, task, bytes)
  {
    hide Legal, After, Allowed, TaskBytes;
    NextStep(start, steps, s, Begin(0, PACKAGE_OUTPUT, task));
    var begun := Apply(s, Begin(0, PACKAGE_OUTPUT, task));
    NextStep(start, steps + [Begin(0, PACKAGE_OUTPUT, task)], begun, Check(0));
    more := steps + [Begin(0, PACKAGE_OUTPUT, task)] + [Check(0)];
  }

  lemma PlainLinks(start: State, steps: seq<Step>, s: State, task: Task, profile: string, bytes: Bytes)
    returns (more: seq<Step>)
    requires Legal(start, steps) && After(start, steps) == s && Storing(s, profile, task, bytes)
    requires KeyOf(task.document) !in s.disk.records
    ensures Legal(start, more) && Stepping(After(start, more), profile)
    ensures After(start, more).disk.records == s.disk.records[KeyOf(task.document) := NewRecord(task, true)]
  {
    hide Legal, After, NewRecord, PackageTask;
    NextStep(start, steps, s, Step.Fill(0, bytes));
    var filled := Apply(s, Step.Fill(0, bytes));
    more := steps + [Step.Fill(0, bytes)];
    assert {bytes} - {bytes} == {};
    NextStep(start, more, filled, Link(0, true));
    RecordsKey(task);
    more := more + [Link(0, true)];
  }

  lemma RecordsKey(task: Task)
    ensures NewRecord(task, true).key == KeyOf(task.document)
  {
  }

  /** What one commit of a new key takes, undisturbed. */
  lemma PlainCommit(start: State, steps: seq<Step>, s: State, task: Task, rest: string, profile: string, alias: string,
                    content: Digest, packaged: Digest, bytes: Bytes) returns (more: seq<Step>)
    requires Legal(start, steps) && After(start, steps) == s && Stepping(s, profile)
    requires task == PlainTask(rest, profile, alias, content, packaged, bytes)
    requires KeyOf(task.document) !in s.disk.records
    ensures Legal(start, more) && Stepping(After(start, more), profile)
    ensures After(start, more).disk.records == s.disk.records[KeyOf(task.document) := NewRecord(task, true)]
  {
    hide *;
    PlainTaskAllowed(s, task, rest, profile, alias, content, packaged, bytes);
    PlainTaskBytes(task, rest, profile, alias, content, packaged, bytes);
    more := PlainBegins(start, steps, s, task, profile, bytes);
    more := PlainLinks(start, more, After(start, more), task, profile, bytes);
  }

  lemma PlainRecord(task: Task, rest: string, profile: string, content: Digest, packaged: Digest, bytes: Bytes)
    requires task == PlainTask(rest, profile, "r:i#v", content, packaged, bytes)
    ensures StandsWith(NewRecord(task, true), profile, "r:i", packaged, content)
  {
    var output := NewRecord(task, true).outputs[PACKAGE_OUTPUT];
    assert PACKAGE_OUTPUT in task.outputs;
    assert Axis(output, "alias") == Text("r:i#v") && Axis(output, PACKAGED_FIELD) == Hash(packaged);
    assert Configuration("r:i#v") == "r:i" by {
      var alias := "r:i#v";
      assert alias[3] == '#' && alias[..4][3] == '#' && alias[..4][..3] == "r:i" && alias[..4] == "r:i#";
    }
  }

  /** A REACHABLE STORE CAN BE MIXED: some run stores two records of one configuration, of different contents, for both of
      which a folder at their packaged digest stands, in whatever order the directory lists them. */
  lemma MixedStoreIsReached(node: Node, before: World) returns (steps: seq<Step>)
    requires NodeConfiguration(node) == "r:i" && before.folder(Alias(node)) == Sha256([1])
    ensures Legal(INITIAL, steps)
    ensures Mixed(After(INITIAL, steps).disk.records.Values, "linux", before, node)
    ensures Kept(After(INITIAL, steps).disk.records.Values, "linux", before, node)
  {
    hide Legal, After, PlainTask, StandsWith, Stepping, NewRecord, Kept;
    var derived, kept := Sha256([0]), Sha256([1]);
    assert derived != kept by { assert derived.bytes[0] != kept.bytes[0]; }
    var first := PlainTask("a", "linux", "r:i#v", derived, kept, []);
    var second := PlainTask("b", "linux", "r:i#v", kept, kept, []);
    OneStep(INITIAL, Start(0, ThirdPartyStep, "linux"));
    var s := Apply(INITIAL, Start(0, ThirdPartyStep, "linux"));
    FreshIsStepping(s);
    steps := PlainCommit(INITIAL, [Start(0, ThirdPartyStep, "linux")], s, first, "a", "linux", "r:i#v", derived, kept, []);
    var t := After(INITIAL, steps);
    PlainDocuments(first, second, derived, kept);
    steps := PlainCommit(INITIAL, steps, t, second, "b", "linux", "r:i#v", kept, kept, []);
    PlainRecord(first, "a", "linux", derived, kept, []);
    PlainRecord(second, "b", "linux", kept, kept, []);
    var records := After(INITIAL, steps).disk.records;
    assert records[KeyOf(first.document)] == NewRecord(first, true);
    assert NewRecord(first, true) in records.Values;
    assert records[KeyOf(second.document)] == NewRecord(second, true);
    assert NewRecord(second, true) in records.Values;
    assert StandsIn(records.Values, "linux", "r:i", kept, derived) && StandsIn(records.Values, "linux", "r:i", kept, kept);
    KeptWith(records.Values, "linux", before, node, kept);
  }

  lemma FreshIsStepping(s: State)
    requires s == State(EMPTY_DISK, [], map[0 := Act(ThirdPartyStep, "linux", {}, {}, map[], true, Ready)])
    ensures Stepping(s, "linux")
  {
  }

  lemma KeptWith(records: set<Record>, profile: string, before: World, node: Node, content: Digest)
    requires StandsIn(records, profile, NodeConfiguration(node), before.folder(Alias(node)), content)
    ensures Kept(records, profile, before, node)
  {
  }

  lemma PlainDocuments(first: Task, second: Task, derived: Digest, kept: Digest)
    requires first == PlainTask("a", "linux", "r:i#v", derived, kept, [])
    requires second == PlainTask("b", "linux", "r:i#v", kept, kept, [])
    ensures KeyOf(first.document) != KeyOf(second.document)
  {
    assert "a"[0] != "b"[0];
  }
}
