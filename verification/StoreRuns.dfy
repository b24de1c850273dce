/** Whole runs of the store (artefact_store.py): any number of acts, interleaved step by step, each of which may
    crash between any two of its steps. An act reads the record directory (any part of it at a time), offers a
    commit its guards allow, and the commit proceeds one file-system operation at a time: look the key up, store
    each object, create the record by an atomic link, or compare with the record found there. */
module StoreRuns {
  import opened Options
  import opened ArtefactStore
  import opened Provenance
  import opened Sorting

  /** `conan_step` and `build_step`; `third_party_step`; and the acts that only judge, track or ingest. */
  datatype ActKind = FirstPartyStep | ThirdPartyStep | JudgingStep

  datatype Phase =
    | Ready
    | Checking(name: string, task: Task)
    | Filling(name: string, task: Task, pending: set<Bytes>)
    | Comparing(name: string, task: Task, offered: map<string, Output>)

  /** `seen`: the records the act has read; `own`: the configurations and contents its own third-party commits
      returned 0 for; `done`: its commits that returned 0, by output name; `clean`: none returned anything else. */
  datatype Act = Act(kind: ActKind, profile: string, seen: set<Record>, own: set<(string, Digest)>,
                     done: map<string, Key>, clean: bool, phase: Phase)

  /** `log` is history: the records in the order they were created. */
  datatype State = State(disk: Disk, log: seq<Record>, acts: map<nat, Act>)

  datatype Step =
    | Start(pid: nat, kind: ActKind, profile: string)
    | Read(pid: nat, records: set<Record>)
    | Put(pid: nat, bytes: Bytes)
    | Begin(pid: nat, name: string, task: Task)
    | Check(pid: nat)
    | Fill(pid: nat, bytes: Bytes)
    | Link(pid: nat, counted: bool)
    | Compare(pid: nat)
    | Crash(pid: nat)

  const INITIAL := State(EMPTY_DISK, [], map[])

  /* ---------------------------------------------------------------- what an act may offer */

  /** The one output of a package step: its binary alias and content, with the transport to keep. */
  ghost predicate PackageTask(task: Task) {
    && task.outputs.Keys == {PACKAGE_OUTPUT} == task.objects.Keys
    && task.objects[PACKAGE_OUTPUT].produced.One?
    && Axis(task.outputs[PACKAGE_OUTPUT], "alias").Text?
    && Axis(task.outputs[PACKAGE_OUTPUT], "content").Hash?
  }

  /** `_record_verdict(record) == "pass"`: a package exists only once judged, any other record's first output, its
      outputs being stored in the order of their names, says so itself. */
  ghost predicate Passes(record: Record) {
    PACKAGE_OUTPUT in record.outputs
    || exists name :: IsFirst(record.outputs.Keys, name) && Axis(record.outputs[name], "verdict") == Text("pass")
  }

  predicate IsFirst(names: set<string>, name: string) {
    name in names && forall other <- names :: Before(name, other)
  }

  function NamesOf(names: seq<string>): set<string> {
    set name | name in names
  }

  /** What `outcome_record` computes: pass only when the records named are exactly the expected ones and each passed. */
  ghost function OutcomeVerdict(records: map<Key, Record>, named: map<string, Key>, expected: seq<string>): string
    requires forall name <- named :: named[name] in records
  {
    if NamesOf(expected) != named.Keys then "incomplete"
    else if forall name <- named :: Passes(records[named[name]]) then "pass"
    else "fail"
  }

  /** `output` is the outcome over the records `named`, as judged by `outcome_record`. */
  ghost predicate OutcomeOver(records: map<Key, Record>, named: map<string, Key>, output: Output) {
    && (forall name <- named :: named[name] in records)
    && Axis(output, "records") == Keys(named)
    && Axis(output, "expected").Names?
    && Axis(output, "verdict") == Text(OutcomeVerdict(records, named, Axis(output, "expected").names))
  }

  /** The build an outcome speaks of is the package it names, and it names none where the step makes none. */
  predicate OwnBuild(named: map<string, Key>, build: Key) {
    && (build.document.ConanCreate? || build.document.ConanBuild?)
    && (PACKAGE_OUTPUT in named <==> build.document.ConanCreate?)
    && (PACKAGE_OUTPUT in named ==> named[PACKAGE_OUTPUT] == build)
  }

  ghost predicate OutcomeOf(records: map<Key, Record>, named: map<string, Key>, build: Key, output: Output) {
    OutcomeOver(records, named, output) && OwnBuild(named, build)
  }

  ghost predicate HeldBy(records: set<Record>, own: set<(string, Digest)>, profile: string,
                         thirdParty: map<string, ThirdParty>) {
    forall name <- thirdParty ::
      ThirdPartyHeld(records, profile, ConfigurationOf(thirdParty[name]), thirdParty[name].content)
      || (ConfigurationOf(thirdParty[name]), thirdParty[name].content) in own
  }

  /** The guards of the steps that call `commit`. */
  ghost predicate Allowed(disk: Disk, act: Act, name: string, task: Task) {
    && WellFormed(task) && !Refused(task) && OfferHeld(disk.objects, task)
    && task.outputs.Keys == {name} && OUTCOME_OUTPUT !in act.done
    && match task.document
       case ConanCreate(_, profile, _, _, _, _, _) =>
         act.kind == FirstPartyStep && profile == act.profile && PackageTask(task) && Supported(act.seen, task.document)
       case ConanBuild(_, _, _, _, _, _) => false
       case ThirdPartyCreate(_, _, _, profile, thirdParty, _) =>
         act.kind == ThirdPartyStep && profile == act.profile && PackageTask(task)
         && HeldBy(act.seen, act.own, profile, thirdParty)
       case StepOutcome(_, _, build, _, _) =>
         act.kind == FirstPartyStep && act.clean && name == OUTCOME_OUTPUT && task.objects == map[]
         && OutcomeOf(disk.records, act.done, build, task.outputs[name])
       case Judged(_, _, _) => name != OUTCOME_OUTPUT && name != PACKAGE_OUTPUT
  }

  /* ---------------------------------------------------------------- the steps */

  ghost predicate Enabled(s: State, step: Step) {
    match step
    case Start(pid, _, _) => pid !in s.acts
    case Read(pid, records) => InPhase(s, pid, Ready) && records <= RecordsIn(s.log)
    case Put(pid, _) => InPhase(s, pid, Ready)
    case Begin(pid, name, task) => InPhase(s, pid, Ready) && Allowed(s.disk, s.acts[pid], name, task)
    case Check(pid) => pid in s.acts && s.acts[pid].phase.Checking?
    case Fill(pid, bytes) => pid in s.acts && s.acts[pid].phase.Filling? && bytes in s.acts[pid].phase.pending
    case Link(pid, _) => pid in s.acts && s.acts[pid].phase.Filling? && s.acts[pid].phase.pending == {}
    case Compare(pid) => pid in s.acts && s.acts[pid].phase.Comparing?
                         && KeyOf(s.acts[pid].phase.task.document) in s.disk.records
                         && s.acts[pid].phase.offered.Keys == s.acts[pid].phase.task.outputs.Keys
                         && forall name <- s.acts[pid].phase.task.order :: name in s.acts[pid].phase.task.outputs
    case Crash(pid) => pid in s.acts
  }

  predicate InPhase(s: State, pid: nat, phase: Phase) {
    pid in s.acts && s.acts[pid].phase == phase
  }

  /** An act after its commit of `task` returned `code`. */
  ghost function Finished(act: Act, name: string, task: Task, code: int): Act {
    if code != 0 then act.(phase := Ready, clean := false)
    else act.(phase := Ready, done := act.done[name := KeyOf(task.document)],
              own := act.own + (if task.document.ThirdPartyCreate? && PackageTask(task)
                                then {(Configuration(Axis(task.outputs[PACKAGE_OUTPUT], "alias").text),
                                       Axis(task.outputs[PACKAGE_OUTPUT], "content").digest)}
                                else {}))
  }

  ghost function Exit(s: State, task: Task): int
    requires KeyOf(task.document) in s.disk.records
  {
    if Agrees(s.disk.records[KeyOf(task.document)].outputs, task) then 0 else 1
  }

  ghost function Apply(s: State, step: Step): State
    requires Enabled(s, step)
  {
    match step
    case Start(pid, kind, profile) => s.(acts := s.acts[pid := Act(kind, profile, {}, {}, map[], true, Ready)])
    case Read(pid, records) => s.(acts := s.acts[pid := s.acts[pid].(seen := s.acts[pid].seen + records)])
    case Put(_, bytes) => s.(disk := AddObjects(s.disk, {bytes}))
    case Begin(pid, name, task) => s.(acts := s.acts[pid := s.acts[pid].(phase := Checking(name, task))])
    case Check(pid) =>
      var task := s.acts[pid].phase.task;
      var phase := if KeyOf(task.document) in s.disk.records
                   then Comparing(s.acts[pid].phase.name, task, task.outputs)
                   else Filling(s.acts[pid].phase.name, task, TaskBytes(task));
      s.(acts := s.acts[pid := s.acts[pid].(phase := phase)])
    case Fill(pid, bytes) =>
      var phase := s.acts[pid].phase;
      s.(disk := AddObjects(s.disk, {bytes}),
         acts := s.acts[pid := s.acts[pid].(phase := phase.(pending := phase.pending - {bytes}))])
    case Link(pid, counted) =>
      var phase := s.acts[pid].phase;
      if KeyOf(phase.task.document) in s.disk.records then
        s.(acts := s.acts[pid := s.acts[pid].(phase := Comparing(phase.name, phase.task, Filled(phase.task)))])
      else
        var record := NewRecord(phase.task, counted);
        State(AddRecord(s.disk, record), s.log + [record],
              s.acts[pid := Finished(s.acts[pid], phase.name, phase.task, 0)])
    case Compare(pid) =>
      var phase := s.acts[pid].phase;
      var stored := s.disk.records[KeyOf(phase.task.document)];
      State(WithMismatches(s.disk, phase.task, phase.offered, stored, phase.task.order), s.log,
            s.acts[pid := Finished(s.acts[pid], phase.name, phase.task, Exit(s, phase.task))])
    case Crash(pid) => s.(acts := s.acts - {pid})
  }

  /** `steps` is a run from `s`. */
  ghost predicate Legal(s: State, steps: seq<Step>)
    decreases |steps|
  {
    steps == [] || (Enabled(s, steps[0]) && Legal(Apply(s, steps[0]), steps[1..]))
  }

  ghost function After(s: State, steps: seq<Step>): State
    requires Legal(s, steps)
    decreases |steps|
  {
    if steps == [] then s else After(Apply(s, steps[0]), steps[1..])
  }

  /* ---------------------------------------------------------------- the invariant */

  /** The record directory and its history are one. */
  ghost predicate Logged(s: State) {
    && (forall i :: 0 <= i < |s.log| ==> s.log[i].key in s.disk.records && s.disk.records[s.log[i].key] == s.log[i])
    && (forall key <- s.disk.records :: s.disk.records[key] in s.log)
    && (forall i, j :: 0 <= i < j < |s.log| ==> s.log[i].key != s.log[j].key)
  }

  /** Every content a record consumed is held by a record created strictly before it. */
  ghost predicate Traced(log: seq<Record>) {
    forall i :: 0 <= i < |log| ==> Supported(RecordsIn(log[..i]), log[i].inputs)
  }

  /** A record's shape, and an outcome's word about the records it names. */
  ghost predicate RecordSound(records: map<Key, Record>, record: Record) {
    && (exists name :: record.outputs.Keys == {name})
    && (PackageKind(record.inputs) ==>
          PACKAGE_OUTPUT in record.outputs
          && Axis(record.outputs[PACKAGE_OUTPUT], "alias").Text? && Axis(record.outputs[PACKAGE_OUTPUT], "content").Hash?)
    && (record.inputs.StepOutcome? ==>
          OUTCOME_OUTPUT in record.outputs
          && exists named :: OutcomeOf(records, named, record.inputs.build, record.outputs[OUTCOME_OUTPUT]))
  }

  /** What stays true of an offer between its guard and its end, whatever the other acts do. */
  ghost predicate TaskSound(s: State, kind: ActKind, profile: string, name: string, task: Task) {
    && WellFormed(task) && !Refused(task) && OfferHeld(s.disk.objects, task)
    && task.outputs.Keys == {name}
    && !task.document.ConanBuild?
    && Supported(RecordsIn(s.log), task.document)
    && (PackageKind(task.document) ==> PackageTask(task))
    && (task.document.ThirdPartyCreate? ==> task.document.profile == profile)
    && (task.document.StepOutcome? ==>
          name == OUTCOME_OUTPUT && task.objects == map[]
          && exists named :: OutcomeOf(s.disk.records, named, task.document.build, task.outputs[name]))
  }

  ghost predicate PhaseSound(s: State, act: Act) {
    match act.phase
    case Ready => true
    case Checking(name, task) => TaskSound(s, act.kind, act.profile, name, task)
    case Filling(name, task, pending) =>
      TaskSound(s, act.kind, act.profile, name, task)
      && forall bytes <- TaskBytes(task) - pending :: Sha256(bytes) in s.disk.objects
    case Comparing(name, task, offered) =>
      TaskSound(s, act.kind, act.profile, name, task) && KeyOf(task.document) in s.disk.records
      && (offered == task.outputs || offered == Filled(task))
  }

  ghost predicate ActSound(s: State, act: Act) {
    && act.seen <= RecordsIn(s.log)
    && (forall pair <- act.own :: ThirdPartyHeld(RecordsIn(s.log), act.profile, pair.0, pair.1))
    && (forall name <- act.done :: act.done[name] in s.disk.records)
    && PhaseSound(s, act)
  }

  ghost predicate RecordsSound(records: map<Key, Record>) {
    forall key <- records :: RecordSound(records, records[key])
  }

  /** No record sits at a `conan build` document: such a step's key is named by its verdict and outcome only. */
  ghost predicate NoBuildRecord(records: map<Key, Record>) {
    forall key <- records :: !records[key].inputs.ConanBuild?
  }

  ghost predicate StoreSound(s: State) {
    && ValidDisk(s.disk)
    && Logged(s)
    && Traced(s.log)
    && RecordsSound(s.disk.records)
    && NoBuildRecord(s.disk.records)
  }

  ghost predicate Inv(s: State) {
    StoreSound(s) && forall pid <- s.acts :: ActSound(s, s.acts[pid])
  }

  /* ---------------------------------------------------------------- growth */

  ghost predicate Extends(s: State, t: State) {
    Grows(s.disk, t.disk) && s.log <= t.log
  }

  lemma OutcomeOverGrows(records: map<Key, Record>, more: map<Key, Record>, named: map<string, Key>, output: Output)
    requires OutcomeOver(records, named, output)
    requires forall key <- records :: key in more && more[key] == records[key]
    ensures OutcomeOver(more, named, output)
  {
    assert forall name <- named :: records[named[name]] == more[named[name]];
  }

  lemma RecordSoundGrows(records: map<Key, Record>, more: map<Key, Record>, record: Record)
    requires RecordSound(records, record)
    requires forall key <- records :: key in more && more[key] == records[key]
    ensures RecordSound(more, record)
  {
    if record.inputs.StepOutcome? {
      var named :| OutcomeOf(records, named, record.inputs.build, record.outputs[OUTCOME_OUTPUT]);
      OutcomeOverGrows(records, more, named, record.outputs[OUTCOME_OUTPUT]);
      assert OutcomeOf(more, named, record.inputs.build, record.outputs[OUTCOME_OUTPUT]);
    }
  }

  lemma RecordsInGrows(log: seq<Record>, more: seq<Record>)
    requires log <= more
    ensures RecordsIn(log) <= RecordsIn(more)
  {
    forall record | record in log ensures record in more {
      var i :| 0 <= i < |log| && log[i] == record;
      assert more[i] == record;
    }
  }

  lemma HeldGrows(records: set<Record>, more: set<Record>, profile: string, configuration: string, content: Digest)
    requires ThirdPartyHeld(records, profile, configuration, content) && records <= more
    ensures ThirdPartyHeld(more, profile, configuration, content)
  {
  }

  lemma TaskSoundGrows(s: State, t: State, kind: ActKind, profile: string, name: string, task: Task)
    requires TaskSound(s, kind, profile, name, task) && Extends(s, t)
    ensures TaskSound(t, kind, profile, name, task)
  {
    RecordsInGrows(s.log, t.log);
    SupportedGrows(RecordsIn(s.log), RecordsIn(t.log), task.document);
    forall output | output in task.outputs ensures HoldsObjectsOf(t.disk.objects, task.outputs[output]) {
      assert HoldsObjectsOf(s.disk.objects, task.outputs[output]);
    }
    if task.document.StepOutcome? {
      var named :| OutcomeOf(s.disk.records, named, task.document.build, task.outputs[name]);
      OutcomeOverGrows(s.disk.records, t.disk.records, named, task.outputs[name]);
      assert OutcomeOf(t.disk.records, named, task.document.build, task.outputs[name]);
    }
  }

  /** Nothing an act relies on is lost when the store grows around it. */
  lemma ActSoundGrows(s: State, t: State, act: Act)
    requires ActSound(s, act) && Extends(s, t)
    ensures ActSound(t, act)
  {
    RecordsInGrows(s.log, t.log);
    forall pair | pair in act.own ensures ThirdPartyHeld(RecordsIn(t.log), act.profile, pair.0, pair.1) {
      HeldGrows(RecordsIn(s.log), RecordsIn(t.log), act.profile, pair.0, pair.1);
    }
    if !act.phase.Ready? {
      TaskSoundGrows(s, t, act.kind, act.profile, act.phase.name, act.phase.task);
    }
  }

  /** When one act moves and the store grows, every act is sound once the moved one is. */
  lemma ActsKept(s: State, t: State, pid: nat)
    requires (forall other <- s.acts :: ActSound(s, s.acts[other])) && Extends(s, t)
    requires forall other <- t.acts :: other == pid || (other in s.acts && t.acts[other] == s.acts[other])
    requires pid in t.acts ==> ActSound(t, t.acts[pid])
    ensures forall other <- t.acts :: ActSound(t, t.acts[other])
  {
    forall other | other in t.acts && other != pid ensures ActSound(t, t.acts[other]) {
      ActSoundGrows(s, t, s.acts[other]);
    }
  }

  /** A step that creates no record keeps the invariant when the one act it moves is sound afterwards. */
  lemma InvKept(s: State, t: State, pid: nat)
    requires Inv(s) && Extends(s, t) && t.log == s.log && t.disk.records == s.disk.records && ValidDisk(t.disk)
    requires forall other <- t.acts :: other == pid || (other in s.acts && t.acts[other] == s.acts[other])
    requires pid in t.acts ==> ActSound(t, t.acts[pid])
    ensures Inv(t)
  {
    ActsKept(s, t, pid);
  }

  /* ---------------------------------------------------------------- each step keeps it */

  lemma BeginSound(s: State, act: Act, name: string, task: Task)
    requires Inv(s) && ActSound(s, act) && Allowed(s.disk, act, name, task)
    ensures TaskSound(s, act.kind, act.profile, name, task)
  {
    match task.document
    case ConanCreate(_, _, _, _, _, _, _) => SupportedGrows(act.seen, RecordsIn(s.log), task.document);
    case ThirdPartyCreate(_, _, _, profile, thirdParty, _) =>
      forall member | member in thirdParty
        ensures ThirdPartyHeld(RecordsIn(s.log), profile, ConfigurationOf(thirdParty[member]), thirdParty[member].content)
      {
        var configuration, content := ConfigurationOf(thirdParty[member]), thirdParty[member].content;
        if (configuration, content) in act.own {
          assert ThirdPartyHeld(RecordsIn(s.log), act.profile, configuration, content);
        } else {
          HeldGrows(act.seen, RecordsIn(s.log), profile, configuration, content);
        }
      }
    case _ =>
  }

  lemma AddObjectsExtends(s: State, all: set<Bytes>, acts: map<nat, Act>)
    requires ValidDisk(s.disk)
    ensures var t := State(AddObjects(s.disk, all), s.log, acts);
            Extends(s, t) && ValidDisk(t.disk)
            && forall bytes <- all :: Sha256(bytes) in t.disk.objects
  {
    AddObjectsValid(s.disk, all);
  }

  /** A third-party record that agrees with an offer holds the offer's content at its configuration. */
  lemma HoldsWhatAgrees(record: Record, task: Task)
    requires WellFormed(task) && PackageTask(task) && task.document.ThirdPartyCreate?
    requires record.inputs == task.document && Agrees(record.outputs, task)
    ensures Holds(record, task.document.profile, Configuration(Axis(task.outputs[PACKAGE_OUTPUT], "alias").text),
                  Axis(task.outputs[PACKAGE_OUTPUT], "content").digest)
  {
    assert PACKAGE_OUTPUT in task.outputs;
    assert "alias" !in Uncompared(task) && "content" !in Uncompared(task);
    assert Axis(record.outputs[PACKAGE_OUTPUT], "alias") == Axis(task.outputs[PACKAGE_OUTPUT], "alias");
    assert Axis(record.outputs[PACKAGE_OUTPUT], "content") == Axis(task.outputs[PACKAGE_OUTPUT], "content");
  }

  lemma OfferIsWell(s: State, kind: ActKind, profile: string, name: string, task: Task)
    requires TaskSound(s, kind, profile, name, task)
    ensures WellFormed(task) && (PackageKind(task.document) ==> PackageTask(task))
    ensures task.document.ThirdPartyCreate? ==> task.document.profile == profile
  {
    hide Supported, OfferHeld, OutcomeOf, PackageTask;
  }

  lemma FinishedSound(s: State, act: Act, name: string, task: Task, code: int)
    requires StoreSound(s) && ActSound(s, act) && TaskSound(s, act.kind, act.profile, name, task)
    requires KeyOf(task.document) in s.disk.records
    requires code == 0 ==> Agrees(s.disk.records[KeyOf(task.document)].outputs, task)
    ensures ActSound(s, Finished(act, name, task, code))
  {
    hide ValidDisk, Logged, Traced, RecordsSound, NoBuildRecord, Agrees, RecordsIn, ThirdPartyHeld, TaskSound, WellFormed,
         Configuration;
    OfferIsWell(s, act.kind, act.profile, name, task);
    var after := Finished(act, name, task, code);
    assert after.phase == Ready && after.seen == act.seen && after.profile == act.profile;
    if code == 0 && task.document.ThirdPartyCreate? {
      OwnHeld(s, task);
    }
  }

  lemma OwnHeld(s: State, task: Task)
    requires ValidDisk(s.disk) && Logged(s) && KeyOf(task.document) in s.disk.records
    requires WellFormed(task) && PackageTask(task) && task.document.ThirdPartyCreate?
    requires Agrees(s.disk.records[KeyOf(task.document)].outputs, task)
    ensures ThirdPartyHeld(RecordsIn(s.log), task.document.profile,
                           Configuration(Axis(task.outputs[PACKAGE_OUTPUT], "alias").text),
                           Axis(task.outputs[PACKAGE_OUTPUT], "content").digest)
  {
    var record := s.disk.records[KeyOf(task.document)];
    assert record in RecordsIn(s.log);
    HoldsWhatAgrees(record, task);
  }

  lemma NewRecordSound(s: State, kind: ActKind, profile: string, name: string, task: Task, counted: bool)
    requires TaskSound(s, kind, profile, name, task)
    ensures RecordSound(s.disk.records, NewRecord(task, counted))
  {
    hide Supported, OfferHeld, OutcomeOf, WellFormed;
    var record := NewRecord(task, counted);
    assert record.outputs.Keys == {name};
    if PackageKind(task.document) { FilledPackage(task); }
    if task.document.StepOutcome? { assert record.outputs[name] == task.outputs[name]; }
  }

  /** Storing its transport leaves a package's alias and content as offered. */
  lemma FilledPackage(task: Task)
    requires WellFormed(task) && PackageTask(task)
    ensures var kept := FilledOutput(task, PACKAGE_OUTPUT);
            Axis(kept, "alias") == Axis(task.outputs[PACKAGE_OUTPUT], "alias")
            && Axis(kept, "content") == Axis(task.outputs[PACKAGE_OUTPUT], "content")
  {
    assert "alias" !in Uncompared(task) && "content" !in Uncompared(task);
    FillingChangesNoComparedAxis(task, PACKAGE_OUTPUT, "alias");
    FillingChangesNoComparedAxis(task, PACKAGE_OUTPUT, "content");
  }

  /** Creating a record: it comes last in history, everything it consumed is held by what came before it. */
  lemma LinkKeepsInv(s: State, pid: nat, counted: bool)
    requires Inv(s) && Enabled(s, Link(pid, counted))
    requires KeyOf(s.acts[pid].phase.task.document) !in s.disk.records
    ensures var t := Apply(s, Link(pid, counted)); Inv(t) && Extends(s, t)
  {
    assert ActSound(s, s.acts[pid]);
    Linked(s, Apply(s, Link(pid, counted)), pid, s.acts[pid].phase.name, s.acts[pid].phase.task, counted);
  }

  lemma Linked(s: State, t: State, pid: nat, name: string, task: Task, counted: bool)
    requires Inv(s) && pid in s.acts && KeyOf(task.document) !in s.disk.records
    requires TaskSound(s, s.acts[pid].kind, s.acts[pid].profile, name, task)
    requires forall bytes <- TaskBytes(task) :: Sha256(bytes) in s.disk.objects
    requires t.disk == AddRecord(s.disk, NewRecord(task, counted)) && t.log == s.log + [NewRecord(task, counted)]
    requires t.acts == s.acts[pid := Finished(s.acts[pid], name, task, 0)]
    ensures Inv(t) && Extends(s, t)
  {
    hide StoreSound, ActSound, TaskSound, Extends, Finished, TaskBytes, Filled;
    LinkedStoreSound(s, t, s.acts[pid].kind, s.acts[pid].profile, name, task, counted);
    LinkedActSound(s, t, s.acts[pid], name, task, counted);
    forall other | other in t.acts ensures ActSound(t, t.acts[other]) {
      if other != pid { ActSoundGrows(s, t, s.acts[other]); }
    }
  }

  lemma LinkedStoreSound(s: State, t: State, kind: ActKind, profile: string, name: string, task: Task, counted: bool)
    requires StoreSound(s) && KeyOf(task.document) !in s.disk.records
    requires TaskSound(s, kind, profile, name, task)
    requires forall bytes <- TaskBytes(task) :: Sha256(bytes) in s.disk.objects
    requires t.disk == AddRecord(s.disk, NewRecord(task, counted)) && t.log == s.log + [NewRecord(task, counted)]
    ensures StoreSound(t) && Extends(s, t)
  {
    OfferBecomesRecord(s, kind, profile, name, task, counted);
    RecordAdded(s, t, NewRecord(task, counted));
  }

  lemma OfferBecomesRecord(s: State, kind: ActKind, profile: string, name: string, task: Task, counted: bool)
    requires TaskSound(s, kind, profile, name, task)
    requires forall bytes <- TaskBytes(task) :: Sha256(bytes) in s.disk.objects
    ensures var record := NewRecord(task, counted);
            && ValidRecord(s.disk.objects, record) && RecordSound(s.disk.records, record)
            && Supported(RecordsIn(s.log), record.inputs) && !record.inputs.ConanBuild?
  {
    NewRecordValid(s.disk.objects, task, counted);
    NewRecordSound(s, kind, profile, name, task, counted);
  }

  lemma LinkedActSound(s: State, t: State, act: Act, name: string, task: Task, counted: bool)
    requires ActSound(s, act) && TaskSound(s, act.kind, act.profile, name, task)
    requires StoreSound(t) && Extends(s, t)
    requires KeyOf(task.document) in t.disk.records && t.disk.records[KeyOf(task.document)] == NewRecord(task, counted)
    ensures ActSound(t, Finished(act, name, task, 0))
  {
    ActSoundGrows(s, t, act);
    TaskSoundGrows(s, t, act.kind, act.profile, name, task);
    CreatedAgrees(task, counted);
    FinishedSound(t, act, name, task, 0);
  }

  /** The part of the invariant about the store alone, over one creation. */
  lemma RecordAdded(s: State, t: State, record: Record)
    requires StoreSound(s) && record.key !in s.disk.records
    requires ValidRecord(s.disk.objects, record) && RecordSound(s.disk.records, record)
    requires Supported(RecordsIn(s.log), record.inputs) && !record.inputs.ConanBuild?
    requires t.disk == AddRecord(s.disk, record) && t.log == s.log + [record]
    ensures StoreSound(t) && Extends(s, t)
  {
    hide ValidDisk, Logged, Traced, RecordsSound, RecordSound, Supported, RecordsIn, ValidRecord, Grows;
    LoggedNext(s, t, record);
    TracedNext(s.log, record);
    RecordsSoundNext(s.disk.records, record);
    RecordKeepsDisk(s.disk, record);
  }

  lemma RecordKeepsDisk(disk: Disk, record: Record)
    requires ValidDisk(disk) && record.key !in disk.records && ValidRecord(disk.objects, record)
    ensures ValidDisk(AddRecord(disk, record)) && Grows(disk, AddRecord(disk, record))
  {
    hide ValidRecord;
  }

  lemma LoggedNext(s: State, t: State, record: Record)
    requires Logged(s) && record.key !in s.disk.records
    requires t.disk == AddRecord(s.disk, record) && t.log == s.log + [record]
    ensures Logged(t)
  {
    forall key | key in t.disk.records ensures t.disk.records[key] in t.log {
      if key == record.key { assert t.log[|s.log|] == record; }
      else { assert s.disk.records[key] in s.log; }
    }
  }

  lemma TracedNext(log: seq<Record>, record: Record)
    requires Traced(log) && Supported(RecordsIn(log), record.inputs)
    ensures Traced(log + [record])
  {
    var more := log + [record];
    forall i | 0 <= i < |more| ensures Supported(RecordsIn(more[..i]), more[i].inputs) {
      if i == |log| { assert more[..i] == log; } else { assert more[..i] == log[..i]; }
    }
  }

  lemma RecordsSoundNext(records: map<Key, Record>, record: Record)
    requires RecordsSound(records) && RecordSound(records, record) && record.key !in records
    ensures RecordsSound(records[record.key := record])
  {
    var more := records[record.key := record];
    forall key | key in more ensures RecordSound(more, more[key]) {
      RecordSoundGrows(records, more, more[key]);
    }
  }

  /** Every step of every act keeps the invariant, and the store only grows. */
  lemma StepKeepsInv(s: State, step: Step)
    requires Inv(s) && Enabled(s, step)
    ensures Inv(Apply(s, step)) && Extends(s, Apply(s, step))
  {
    hide Inv, Enabled, Apply, Extends;
    match step
    case Start(_, _, _) => ActAloneMoves(s, step);
    case Read(_, _) => ActAloneMoves(s, step);
    case Put(pid, bytes) => StoringKeepsInv(s, step, pid, bytes);
    case Begin(_, _, _) => BeginKeepsInv(s, step);
    case Check(pid) => CheckKeepsInv(s, pid);
    case Fill(pid, bytes) => StoringKeepsInv(s, step, pid, bytes);
    case Link(pid, counted) => LinkStepKeepsInv(s, pid, counted);
    case Compare(pid) => CompareKeepsInv(s, pid);
    case Crash(_) => ActAloneMoves(s, step);
  }

  /** Starting, reading and crashing touch no file. */
  lemma ActAloneMoves(s: State, step: Step)
    requires Inv(s) && Enabled(s, step) && (step.Start? || step.Read? || step.Crash?)
    ensures Inv(Apply(s, step)) && Extends(s, Apply(s, step))
  {
    hide ValidDisk, Logged, Traced, RecordsSound, NoBuildRecord, ThirdPartyHeld;
    var t := Apply(s, step);
    if step.Start? { assert ActSound(t, t.acts[step.pid]); }
    if step.Read? { assert ActSound(s, s.acts[step.pid]) && ActSound(t, t.acts[step.pid]); }
    InvKept(s, t, step.pid);
  }

  lemma BeginKeepsInv(s: State, step: Step)
    requires Inv(s) && Enabled(s, step) && step.Begin?
    ensures Inv(Apply(s, step)) && Extends(s, Apply(s, step))
  {
    hide StoreSound, Allowed, TaskSound, Extends;
    BeginSound(s, s.acts[step.pid], step.name, step.task);
    PhaseMoves(s, Apply(s, step), step.pid);
  }

  lemma CheckKeepsInv(s: State, pid: nat)
    requires Inv(s) && Enabled(s, Check(pid))
    ensures Inv(Apply(s, Check(pid))) && Extends(s, Apply(s, Check(pid)))
  {
    hide StoreSound, TaskSound, Extends, TaskBytes, Filled;
    assert PhaseSound(s, s.acts[pid]);
    PhaseMoves(s, Apply(s, Check(pid)), pid);
  }

  lemma LinkStepKeepsInv(s: State, pid: nat, counted: bool)
    requires Inv(s) && Enabled(s, Link(pid, counted))
    ensures Inv(Apply(s, Link(pid, counted))) && Extends(s, Apply(s, Link(pid, counted)))
  {
    hide StoreSound, TaskSound, Extends, TaskBytes, Filled;
    assert PhaseSound(s, s.acts[pid]);
    if KeyOf(s.acts[pid].phase.task.document) in s.disk.records { PhaseMoves(s, Apply(s, Link(pid, counted)), pid); }
    else { LinkKeepsInv(s, pid, counted); }
  }

  /** An act moves to its next phase and the store is as it was. */
  lemma PhaseMoves(s: State, t: State, pid: nat)
    requires Inv(s) && pid in s.acts && pid in t.acts && t == s.(acts := s.acts[pid := t.acts[pid]])
    requires t.acts[pid] == s.acts[pid].(phase := t.acts[pid].phase) && PhaseSound(s, t.acts[pid])
    ensures Inv(t) && Extends(s, t)
  {
    hide ValidDisk, Logged, Traced, RecordsSound, NoBuildRecord, ThirdPartyHeld, PhaseSound, RecordsIn;
    assert ActSound(s, s.acts[pid]);
    assert ActSound(s, t.acts[pid]);
    ActSoundGrows(s, t, t.acts[pid]);
    InvKept(s, t, pid);
  }

  /** Storing one object, by hand or for a commit, is sound for the act that stores it. */
  lemma StoredActSound(t: State, act: Act, bytes: Bytes)
    requires ActSound(t, act) && Sha256(bytes) in t.disk.objects && act.phase.Filling?
    ensures ActSound(t, act.(phase := act.phase.(pending := act.phase.pending - {bytes})))
  {
    hide TaskSound, RecordsIn, ThirdPartyHeld;
  }

  lemma StoringKeepsInv(s: State, step: Step, pid: nat, bytes: Bytes)
    requires Inv(s) && Enabled(s, step) && (step == Put(pid, bytes) || step == Fill(pid, bytes))
    ensures Inv(Apply(s, step)) && Extends(s, Apply(s, step))
  {
    hide ValidDisk, Logged, Traced, RecordsSound, NoBuildRecord, ActSound, Extends, WithObjects;
    var t := Apply(s, step);
    AddObjectsExtends(s, {bytes}, t.acts);
    ActSoundGrows(s, t, s.acts[pid]);
    if step.Fill? { StoredActSound(t, s.acts[pid], bytes); }
    InvKept(s, t, pid);
  }

  lemma CompareKeepsInv(s: State, pid: nat)
    requires Inv(s) && Enabled(s, Compare(pid))
    ensures Inv(Apply(s, Compare(pid))) && Extends(s, Apply(s, Compare(pid)))
  {
    hide Logged, Traced, RecordsSound, NoBuildRecord, TaskSound, WithMismatches, Agrees, Filled, ThirdPartyHeld, ValidDisk,
         Grows, Finished;
    var t := Apply(s, Compare(pid));
    var act := s.acts[pid];
    var name, task := act.phase.name, act.phase.task;
    var stored := s.disk.records[KeyOf(task.document)];
    assert PhaseSound(s, act);
    MismatchesKeepTheRest(s.disk, task, act.phase.offered, stored, task.order);
    StillValid(s.disk, t.disk);
    FinishedSound(s, act, name, task, Exit(s, task));
    ActSoundGrows(s, t, t.acts[pid]);
    InvKept(s, t, pid);
  }

  lemma StillValid(disk: Disk, after: Disk)
    requires ValidDisk(disk) && after.objects == disk.objects && after.records == disk.records
    ensures ValidDisk(after)
  {
  }

  /* ---------------------------------------------------------------- whole runs */

  /** Every state of every run satisfies the invariant. */
  lemma {:induction false} RunKeepsInv(s: State, steps: seq<Step>)
    requires Inv(s) && Legal(s, steps)
    ensures Inv(After(s, steps)) && Extends(s, After(s, steps))
    decreases |steps|
  {
    if steps != [] {
      StepKeepsInv(s, steps[0]);
      RunKeepsInv(Apply(s, steps[0]), steps[1..]);
      ExtendsTransitive(s, Apply(s, steps[0]), After(s, steps));
    }
  }

  lemma InitialSound()
    ensures Inv(INITIAL)
  {
  }

  /** What the readers of a reachable store rely on. */
  lemma ReachedStore(steps: seq<Step>)
    requires Legal(INITIAL, steps)
    ensures ValidDisk(After(INITIAL, steps).disk) && Logged(After(INITIAL, steps)) && Traced(After(INITIAL, steps).log)
    ensures RecordsSound(After(INITIAL, steps).disk.records)
  {
    hide Legal, After, ValidDisk, Logged, Traced, RecordsSound, NoBuildRecord, ActSound;
    InitialSound();
    RunKeepsInv(INITIAL, steps);
  }

  lemma ExtendsTransitive(s: State, t: State, u: State)
    requires Extends(s, t) && Extends(t, u)
    ensures Extends(s, u)
  {
  }

  lemma {:induction false} AfterConcatenation(s: State, first: seq<Step>, rest: seq<Step>)
    requires Legal(s, first + rest)
    ensures Legal(s, first) && Legal(After(s, first), rest) && After(s, first + rest) == After(After(s, first), rest)
    decreases |first|
  {
    if first == [] {
      assert first + rest == rest;
    } else {
      assert (first + rest)[0] == first[0] && (first + rest)[1..] == first[1..] + rest;
      AfterConcatenation(Apply(s, first[0]), first[1..], rest);
    }
  }

  /** NOTHING IS REWRITTEN: from any point of any run to any later one, every object, record and mismatch event
      stays as it was, whatever the acts did and wherever they crashed. */
  lemma NothingIsRewritten(first: seq<Step>, rest: seq<Step>)
    requires Legal(INITIAL, first + rest)
    ensures Legal(INITIAL, first) && Grows(After(INITIAL, first).disk, After(INITIAL, first + rest).disk)
    ensures ValidDisk(After(INITIAL, first + rest).disk)
  {
    AfterConcatenation(INITIAL, first, rest);
    RunKeepsInv(INITIAL, first);
    RunKeepsInv(After(INITIAL, first), rest);
  }

  lemma TracedUpstream(log: seq<Record>, j: nat, name: string)
    requires Traced(log) && j < |log| && log[j].inputs.ConanCreate? && name in log[j].inputs.upstream
    ensures exists i :: 0 <= i < j && Produces(log[i], log[j].inputs.profile, PackageOf(name), log[j].inputs.upstream[name].content)
  {
    hide Produces, RecordsIn, ThirdPartiesHeld, PackageOf;
    var profile, content := log[j].inputs.profile, log[j].inputs.upstream[name].content;
    assert Supported(RecordsIn(log[..j]), log[j].inputs);
    assert UpstreamRecorded(RecordsIn(log[..j]), profile, PackageOf(name), content);
    var record :| record in RecordsIn(log[..j]) && Produces(record, profile, PackageOf(name), content);
    var i := FoundAt(log[..j], record);
    assert Produces(log[i], profile, PackageOf(name), content);
  }

  lemma TracedThirdParty(log: seq<Record>, j: nat, name: string)
    requires Traced(log) && j < |log| && PackageKind(log[j].inputs) && name in log[j].inputs.thirdParty
    ensures var member := log[j].inputs.thirdParty[name];
            exists i :: 0 <= i < j && Holds(log[i], log[j].inputs.profile, ConfigurationOf(member), member.content)
  {
    hide Holds, RecordsIn, UpstreamsRecorded, ConfigurationOf;
    var profile, member := log[j].inputs.profile, log[j].inputs.thirdParty[name];
    assert Supported(RecordsIn(log[..j]), log[j].inputs);
    assert ThirdPartyHeld(RecordsIn(log[..j]), profile, ConfigurationOf(member), member.content);
    var record :| record in RecordsIn(log[..j]) && Holds(record, profile, ConfigurationOf(member), member.content);
    var i := FoundAt(log[..j], record);
    assert Holds(log[i], profile, ConfigurationOf(member), member.content);
  }

  /** PROVENANCE IS CLOSED: in every run, each content a stored record names as an input is held by a record
      created strictly earlier, so tracing inputs backward never returns to where it was. */
  lemma ProvenanceIsClosed(steps: seq<Step>, j: nat)
    requires Legal(INITIAL, steps) && j < |After(INITIAL, steps).log|
    ensures var log := After(INITIAL, steps).log;
            log[j].inputs.ConanCreate? ==> forall name <- log[j].inputs.upstream ::
              exists i :: 0 <= i < j && Produces(log[i], log[j].inputs.profile, PackageOf(name), log[j].inputs.upstream[name].content)
    ensures var log := After(INITIAL, steps).log;
            PackageKind(log[j].inputs) ==> forall name <- log[j].inputs.thirdParty ::
              exists i :: 0 <= i < j && Holds(log[i], log[j].inputs.profile, ConfigurationOf(log[j].inputs.thirdParty[name]),
                                              log[j].inputs.thirdParty[name].content)
  {
    RunKeepsInv(INITIAL, steps);
    var log := After(INITIAL, steps).log;
    if log[j].inputs.ConanCreate? {
      forall name | name in log[j].inputs.upstream
        ensures exists i :: 0 <= i < j && Produces(log[i], log[j].inputs.profile, PackageOf(name), log[j].inputs.upstream[name].content)
      {
        TracedUpstream(log, j, name);
      }
    }
    if PackageKind(log[j].inputs) {
      forall name | name in log[j].inputs.thirdParty
        ensures exists i :: 0 <= i < j && Holds(log[i], log[j].inputs.profile, ConfigurationOf(log[j].inputs.thirdParty[name]),
                                                log[j].inputs.thirdParty[name].content)
      {
        TracedThirdParty(log, j, name);
      }
    }
  }

  /** Tracing the record at `j` backward ends: each input has a supplier created before it whose own inputs do. */
  ghost predicate Grounded(log: seq<Record>, j: nat)
    requires j < |log|
    decreases j
  {
    var document := log[j].inputs;
    && (document.ConanCreate? ==> forall name <- document.upstream ::
          exists i: nat :: i < j && Produces(log[i], document.profile, PackageOf(name), document.upstream[name].content)
                           && Grounded(log, i))
    && (PackageKind(document) ==> forall name <- document.thirdParty ::
          exists i: nat :: i < j && Holds(log[i], document.profile, ConfigurationOf(document.thirdParty[name]),
                                          document.thirdParty[name].content)
                           && Grounded(log, i))
  }

  lemma {:induction false} TracedIsGrounded(log: seq<Record>, j: nat)
    requires Traced(log) && j < |log|
    ensures Grounded(log, j)
    decreases j
  {
    var document := log[j].inputs;
    forall i: nat | i < j ensures Grounded(log, i) { TracedIsGrounded(log, i); }
    if document.ConanCreate? {
      forall name | name in document.upstream
        ensures exists i: nat :: i < j && Produces(log[i], document.profile, PackageOf(name), document.upstream[name].content)
                                 && Grounded(log, i)
      {
        TracedUpstream(log, j, name);
      }
    }
    if PackageKind(document) {
      forall name | name in document.thirdParty
        ensures exists i: nat :: i < j && Holds(log[i], document.profile, ConfigurationOf(document.thirdParty[name]),
                                                document.thirdParty[name].content)
                                 && Grounded(log, i)
      {
        TracedThirdParty(log, j, name);
      }
    }
  }

  /** PROVENANCE IS WELL-FOUNDED in every reachable store. */
  lemma ProvenanceIsGrounded(steps: seq<Step>, j: nat)
    requires Legal(INITIAL, steps) && j < |After(INITIAL, steps).log|
    ensures Grounded(After(INITIAL, steps).log, j)
  {
    RunKeepsInv(INITIAL, steps);
    TracedIsGrounded(After(INITIAL, steps).log, j);
  }

  lemma HistoryIsDirectory(s: State)
    requires Logged(s)
    ensures RecordsIn(s.log) == s.disk.records.Values
  {
    forall record | record in s.disk.records.Values ensures record in s.log {
      var key :| key in s.disk.records && s.disk.records[key] == record;
    }
    forall record | record in s.log ensures record in s.disk.records.Values {
      var i :| 0 <= i < |s.log| && s.log[i] == record;
      assert s.disk.records[s.log[i].key] == record;
    }
  }

  /** THE AUDIT IS CLEAN: over the record directory of any reachable store, in any order, `audit_upstreams`
      returns 0. */
  method AuditOfAnyRun(ghost steps: seq<Step>, listing: seq<Record>) returns (code: int)
    requires Legal(INITIAL, steps) && RecordsIn(listing) == After(INITIAL, steps).disk.records.Values
    ensures code == 0
  {
    RunIsAuditable(steps, listing);
    code := AuditUpstreams(listing);
  }

  lemma RunIsAuditable(steps: seq<Step>, listing: seq<Record>)
    requires Legal(INITIAL, steps) && RecordsIn(listing) == After(INITIAL, steps).disk.records.Values
    ensures forall record <- listing ::
              && Supported(RecordsIn(listing), record.inputs)
              && (record.inputs.ThirdPartyCreate? ==>
                    PACKAGE_OUTPUT in record.outputs && Axis(record.outputs[PACKAGE_OUTPUT], "alias").Text?)
  {
    hide Legal, After, ValidDisk, Logged, Traced, RecordsSound, Supported;
    ReachedStore(steps);
    HistoryIsDirectory(After(INITIAL, steps));
    forall record | record in listing
      ensures Supported(RecordsIn(listing), record.inputs)
      ensures record.inputs.ThirdPartyCreate? ==>
                PACKAGE_OUTPUT in record.outputs && Axis(record.outputs[PACKAGE_OUTPUT], "alias").Text?
    {
      assert record in RecordsIn(listing);
      RecordIsAuditable(After(INITIAL, steps), record);
    }
  }

  lemma RecordIsAuditable(s: State, record: Record)
    requires Logged(s) && Traced(s.log) && RecordsSound(s.disk.records) && record in RecordsIn(s.log)
    ensures Supported(RecordsIn(s.log), record.inputs)
    ensures record.inputs.ThirdPartyCreate? ==>
              PACKAGE_OUTPUT in record.outputs && Axis(record.outputs[PACKAGE_OUTPUT], "alias").Text?
  {
    hide Supported;
    var i := FoundAt(s.log, record);
    RecordsInGrows(s.log[..i], s.log);
    SupportedGrows(RecordsIn(s.log[..i]), RecordsIn(s.log), record.inputs);
    assert RecordSound(s.disk.records, s.disk.records[record.key]);
  }

  lemma FoundAt(log: seq<Record>, record: Record) returns (i: nat)
    requires record in RecordsIn(log)
    ensures i < |log| && log[i] == record
  {
    i :| 0 <= i < |log| && log[i] == record;
  }

  /** The exit code with which `step` ends a commit, when it ends one. */
  ghost function Returned(s: State, step: Step): Option<int>
    requires Enabled(s, step)
  {
    match step
    case Link(pid, _) => if KeyOf(s.acts[pid].phase.task.document) in s.disk.records then None else Some(0)
    case Compare(pid) => Some(Exit(s, s.acts[pid].phase.task))
    case _ => None
  }

  /** The exit code a commit returned, the record at its key at any later point of the run being what it speaks of. */
  lemma CodeSpeaksOfTheRecord(first: seq<Step>, step: Step, rest: seq<Step>)
    requires Legal(INITIAL, first + ([step] + rest))
    ensures Legal(INITIAL, first) && Enabled(After(INITIAL, first), step)
    ensures var s := After(INITIAL, first);
            Returned(s, step).Some? ==>
              var task := s.acts[step.pid].phase.task;
              var last := After(INITIAL, first + ([step] + rest)).disk;
              && KeyOf(task.document) in last.records
              && last.records[KeyOf(task.document)].inputs == task.document
              && Returned(s, step).value == (if Agrees(last.records[KeyOf(task.document)].outputs, task) then 0 else 1)
              && (Returned(s, step).value == 1 ==> Apply(s, step).disk.records == s.disk.records)
  {
    AfterConcatenation(INITIAL, first, [step] + rest);
    var s := After(INITIAL, first);
    RunKeepsInv(INITIAL, first);
    assert ([step] + rest)[1..] == rest;
    StepKeepsInv(s, step);
    RunKeepsInv(Apply(s, step), rest);
    if Returned(s, step).Some? {
      StepAgreement(s, step);
    }
  }

  lemma EndsACommit(s: State, step: Step)
    requires Enabled(s, step) && Returned(s, step).Some?
    ensures step.pid in s.acts && !s.acts[step.pid].phase.Ready?
  {
  }

  /** COMMIT AGREEMENT: whichever act created the record at a key, and whatever happens before or after, a commit returns 0
      exactly when every output it offers is in that record, with the record's value on every axis that is neither the
      entries nor the build-id index nor the field of an offered object; otherwise it returns 1 and changed no record. */
  lemma CommitAgreement(first: seq<Step>, step: Step, rest: seq<Step>)
    requires Legal(INITIAL, first + ([step] + rest))
    ensures Legal(INITIAL, first) && Enabled(After(INITIAL, first), step)
    ensures Returned(After(INITIAL, first), step).Some? ==>
              var s, last := After(INITIAL, first), After(INITIAL, first + ([step] + rest)).disk.records;
              var task, code := s.acts[step.pid].phase.task, Returned(s, step).value;
              KeyOf(task.document) in last && last[KeyOf(task.document)].inputs == task.document
              && (code == 0 || code == 1) && (code == 1 ==> Apply(s, step).disk.records == s.disk.records)
              && (code == 0 <==>
                    var stored := last[KeyOf(task.document)].outputs;
                    forall name <- task.outputs ::
                      name in stored
                      && forall axis: string ::
                           axis != "entries" && axis != "build_ids"
                           && (forall other <- task.objects :: task.objects[other].field != axis)
                           ==> (if axis in stored[name] then stored[name][axis] else Null)
                               == (if axis in task.outputs[name] then task.outputs[name][axis] else Null))
  {
    hide *;
    CodeSpeaksOfTheRecord(first, step, rest);
    var s, last := After(INITIAL, first), After(INITIAL, first + ([step] + rest)).disk.records;
    if Returned(s, step).Some? {
      EndsACommit(s, step);
      var task := s.acts[step.pid].phase.task;
      AgreesOnEveryAxis(last[KeyOf(task.document)].outputs, task);
    }
  }

  lemma StepAgreement(s: State, step: Step)
    requires Inv(s) && Enabled(s, step) && Returned(s, step).Some?
    ensures var task := s.acts[step.pid].phase.task;
            var after := Apply(s, step).disk;
            && KeyOf(task.document) in after.records
            && after.records[KeyOf(task.document)].inputs == task.document
            && Returned(s, step).value == (if Agrees(after.records[KeyOf(task.document)].outputs, task) then 0 else 1)
            && (Returned(s, step).value == 1 ==> after.records == s.disk.records)
  {
    hide Logged, Traced, RecordsSound, NoBuildRecord, Agrees, Filled, Supported, OfferHeld, WithMismatches, ValidRecord,
         Finished;
    var phase := s.acts[step.pid].phase;
    assert PhaseSound(s, s.acts[step.pid]);
    if step.Link? {
      CreatedAgrees(phase.task, step.counted);
    } else {
      var stored := s.disk.records[KeyOf(phase.task.document)];
      assert stored.inputs == phase.task.document by { StoredInputs(s.disk, KeyOf(phase.task.document)); }
      MismatchesKeepTheRest(s.disk, phase.task, phase.offered, stored, phase.task.order);
    }
  }

  lemma StoredInputs(disk: Disk, key: Key)
    requires ValidDisk(disk) && key in disk.records
    ensures disk.records[key].inputs == key.document
  {
    assert ValidRecord(disk.objects, disk.records[key]);
  }
}
