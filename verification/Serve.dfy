/** Reuse (artefact_store.py, `unservable`): when a step may be served from its outcome instead of executed, that a
    served step is a completed and passed one, and that the decision at a key never changes once an outcome is there. */
module Serve {
  import opened ArtefactStore
  import opened Sorting
  import opened StoreRuns

  datatype Why =
    | Rejudge
    | NoCompletedStep
    | NoExpectedSet
    | RecordSetDiffers
    | Absent(name: string)
    | Uncounted(name: string)
    | NotPassed(name: string)

  datatype Decision = Served(outcome: Record) | Executes(why: Why)

  /** The record at `key` is an outcome's, with the records it names. */
  predicate OutcomeShape(records: map<Key, Record>, key: Key) {
    key in records ==>
      OUTCOME_OUTPUT in records[key].outputs && Axis(records[key].outputs[OUTCOME_OUTPUT], "records").Keys?
  }

  /** `servable`: the act that produced the record was counted in its domain. */
  predicate Countable(record: Record) {
    record.counted
  }

  ghost predicate NamedServable(records: map<Key, Record>, key: Key) {
    key in records && Countable(records[key]) && Passes(records[key])
  }

  /** What `unservable` promises of an outcome it serves. */
  ghost predicate Servable(records: map<Key, Record>, key: Key)
    requires OutcomeShape(records, key)
  {
    && key in records
    && var outcome := records[key].outputs[OUTCOME_OUTPUT];
       var named := Axis(outcome, "records").keys;
       && Axis(outcome, "expected").Names?
       && NamesOf(Axis(outcome, "expected").names) == named.Keys
       && Countable(records[key])
       && Axis(outcome, "verdict") == Text("pass")
       && forall name <- named :: NamedServable(records, named[name])
  }

  /** `_record_verdict`: a package is a pass, any other record says so in its first output. */
  method RecordPasses(record: Record) returns (passes: bool)
    ensures passes <==> Passes(record)
  {
    if PACKAGE_OUTPUT in record.outputs { return true; }
    if record.outputs.Keys == {} { return false; }
    BeforeIsTotalOrder();
    var first :| first in record.outputs.Keys;
    var left := record.outputs.Keys - {first};
    while left != {}
      invariant first in record.outputs && left <= record.outputs.Keys
      invariant forall name <- record.outputs.Keys - left :: Before(first, name)
      decreases left
    {
      var name :| name in left;
      if Before(name, first) { first := name; }
      left := left - {name};
    }
    assert IsFirst(record.outputs.Keys, first);
    passes := Axis(record.outputs[first], "verdict") == Text("pass");
  }

  /** `unservable`. */
  method Unservable(records: map<Key, Record>, key: Key, rejudge: bool) returns (decision: Decision)
    requires OutcomeShape(records, key)
    ensures decision.Served? <==> !rejudge && Servable(records, key)
    ensures decision.Served? ==> decision.outcome == records[key]
    ensures decision == Executes(NoCompletedStep) <==> !rejudge && key !in records
  {
    if rejudge { return Executes(Rejudge); }
    if key !in records { return Executes(NoCompletedStep); }
    var outcome := records[key].outputs[OUTCOME_OUTPUT];
    var named := Axis(outcome, "records").keys;
    if !Axis(outcome, "expected").Names? { return Executes(NoExpectedSet); }
    if NamesOf(Axis(outcome, "expected").names) != named.Keys { return Executes(RecordSetDiffers); }
    if !records[key].counted { return Executes(Uncounted(OUTCOME_OUTPUT)); }
    if Axis(outcome, "verdict") != Text("pass") { return Executes(NotPassed(OUTCOME_OUTPUT)); }
    var left := named.Keys;
    while left != {}
      invariant left <= named.Keys
      invariant forall name <- named.Keys - left :: NamedServable(records, named[name])
      decreases left
    {
      var name :| name in left;
      if named[name] !in records { return Executes(Absent(name)); }
      if !records[named[name]].counted { return Executes(Uncounted(name)); }
      var passes := RecordPasses(records[named[name]]);
      if !passes { return Executes(NotPassed(name)); }
      left := left - {name};
    }
    decision := Served(records[key]);
  }

  /* ---------------------------------------------------------------- over every run */

  /** In a reachable store an outcome names only stored records, and its own word is their verdict: it is `pass`
      exactly when the records it names are the expected ones and every one of them passed. */
  lemma OutcomeTellsTheTruth(steps: seq<Step>, key: Key)
    requires Legal(INITIAL, steps)
    requires key in After(INITIAL, steps).disk.records && key.document.StepOutcome?
    ensures var records := After(INITIAL, steps).disk.records;
            && OutcomeShape(records, key)
            && var outcome := records[key].outputs[OUTCOME_OUTPUT];
               var named := Axis(outcome, "records").keys;
               && Axis(outcome, "expected").Names?
               && (forall name <- named :: named[name] in records)
               && (Axis(outcome, "verdict") == Text("pass") <==>
                     NamesOf(Axis(outcome, "expected").names) == named.Keys
                     && forall name <- named :: Passes(records[named[name]]))
  {
    hide Legal, After, Logged, Traced, ValidDisk, Passes, OwnBuild, PackageKind;
    ReachedStore(steps);
    var disk := After(INITIAL, steps).disk;
    StoredInputs(disk, key);
    assert RecordSound(disk.records, disk.records[key]);
    var named :| OutcomeOf(disk.records, named, key.document.build, disk.records[key].outputs[OUTCOME_OUTPUT]);
  }

  /** SERVE SAFETY: in a reachable store, a step is servable exactly when its outcome's word is `pass` and the
      outcome and every record it names were counted. */
  lemma ServedIffPassedAndCounted(steps: seq<Step>, key: Key)
    requires Legal(INITIAL, steps)
    requires key in After(INITIAL, steps).disk.records && key.document.StepOutcome?
    ensures var records := After(INITIAL, steps).disk.records;
            && OutcomeShape(records, key)
            && var outcome := records[key].outputs[OUTCOME_OUTPUT];
               var named := Axis(outcome, "records").keys;
               && (forall name <- named :: named[name] in records)
               && (Servable(records, key) <==>
                     Axis(outcome, "verdict") == Text("pass") && records[key].counted
                     && forall name <- named :: records[named[name]].counted)
  {
    OutcomeTellsTheTruth(steps, key);
    var records := After(INITIAL, steps).disk.records;
    var named := Axis(records[key].outputs[OUTCOME_OUTPUT], "records").keys;
    if Servable(records, key) {
      assert forall name <- named :: NamedServable(records, named[name]);
    }
  }

  /** SERVE STABILITY: once an outcome exists at a key, whether it is servable never changes again. */
  lemma ServeDecisionIsFinal(first: seq<Step>, rest: seq<Step>, key: Key)
    requires Legal(INITIAL, first + rest)
    ensures Legal(INITIAL, first)
    ensures key in After(INITIAL, first).disk.records && key.document.StepOutcome? ==>
              var now, later := After(INITIAL, first).disk.records, After(INITIAL, first + rest).disk.records;
              OutcomeShape(now, key) && OutcomeShape(later, key) && (Servable(now, key) <==> Servable(later, key))
  {
    NothingIsRewritten(first, rest);
    if key in After(INITIAL, first).disk.records && key.document.StepOutcome? {
      OutcomeTellsTheTruth(first, key);
      var now, later := After(INITIAL, first).disk.records, After(INITIAL, first + rest).disk.records;
      var named := Axis(now[key].outputs[OUTCOME_OUTPUT], "records").keys;
      assert forall name <- named :: later[named[name]] == now[named[name]];
      assert forall name <- named :: NamedServable(now, named[name]) <==> NamedServable(later, named[name]);
    }
  }

  /** The record keeps a transport, and the store holds its bytes under their own name. */
  predicate TransportWhole(disk: Disk, record: Record) {
    && PACKAGE_OUTPUT in record.outputs && Axis(record.outputs[PACKAGE_OUTPUT], TRANSPORT_FIELD).Hash?
    && var digest := Axis(record.outputs[PACKAGE_OUTPUT], TRANSPORT_FIELD).digest;
       digest in disk.objects && Sha256(disk.objects[digest]) == digest
  }

  /** Every package record of a reachable store can be restored. */
  lemma PackageIsHeld(steps: seq<Step>, key: Key)
    requires Legal(INITIAL, steps)
    requires key in After(INITIAL, steps).disk.records && PackageKind(key.document)
    ensures TransportWhole(After(INITIAL, steps).disk, After(INITIAL, steps).disk.records[key])
  {
    hide Legal, After, Logged, Traced, RecordsSound;
    ReachedStore(steps);
    var disk := After(INITIAL, steps).disk;
    assert ValidRecord(disk.objects, disk.records[key]);
    assert HoldsObjectsOf(disk.objects, disk.records[key].outputs[PACKAGE_OUTPUT]);
    assert TRANSPORT_FIELD in OBJECT_FIELDS;
  }

  /** A SERVED STEP'S PACKAGE IS ITS OWN: in a reachable store, an outcome names a package record exactly when its build is
      a create, and then the record at its own build key, whose transport the store holds whole. */
  lemma ServedPackageIsItsBuilds(steps: seq<Step>, key: Key)
    requires Legal(INITIAL, steps)
    requires key in After(INITIAL, steps).disk.records && key.document.StepOutcome?
    ensures var disk := After(INITIAL, steps).disk;
            && OutcomeShape(disk.records, key)
            && var named := Axis(disk.records[key].outputs[OUTCOME_OUTPUT], "records").keys;
               && OwnBuild(named, key.document.build)
               && (PACKAGE_OUTPUT in named ==>
                     var build := key.document.build;
                     build in disk.records && disk.records[build].inputs == build.document
                     && TransportWhole(disk, disk.records[build]))
  {
    OutcomeTellsTheTruth(steps, key);
    RunKeepsInv(INITIAL, steps);
    var disk := After(INITIAL, steps).disk;
    assert RecordSound(disk.records, disk.records[key]) && disk.records[key].inputs == key.document;
    var named :| OutcomeOf(disk.records, named, key.document.build, disk.records[key].outputs[OUTCOME_OUTPUT]);
    if PACKAGE_OUTPUT in named { PackageIsHeld(steps, key.document.build); }
  }
}
