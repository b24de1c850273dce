/** The two readings of `commit` are one (artefact_store.py:2753-2819): the single call, told what the other writers
    did meanwhile, and the same call taken one file-system operation at a time among any number of other acts. */
module CommitSteps {
  import opened Options
  import opened ArtefactStore
  import opened StoreRuns

  /** Between its first look-up and its link, or between a lost link and its comparison, an act takes no other
      step than storing objects; the other acts take any. */
  ghost predicate OthersAndFills(steps: seq<Step>, pid: nat) {
    forall step <- steps :: step.pid == pid ==> step.Fill?
  }

  lemma {:induction false} StaysFilling(s: State, steps: seq<Step>, pid: nat)
    requires Legal(s, steps) && OthersAndFills(steps, pid)
    requires pid in s.acts && s.acts[pid].phase.Filling?
    ensures var t := After(s, steps);
            && pid in t.acts && t.acts[pid].phase.Filling?
            && t.acts[pid].phase.name == s.acts[pid].phase.name && t.acts[pid].phase.task == s.acts[pid].phase.task
    decreases |steps|
  {
    if steps != [] {
      var next := Apply(s, steps[0]);
      assert steps[0] in steps;
      forall step | step in steps[1..] ensures step.pid == pid ==> step.Fill? { assert step in steps; }
      StaysFilling(next, steps[1..], pid);
    }
  }

  lemma {:induction false} StaysComparing(s: State, steps: seq<Step>, pid: nat)
    requires Legal(s, steps) && OthersAndFills(steps, pid)
    requires pid in s.acts && s.acts[pid].phase.Comparing?
    ensures pid in After(s, steps).acts && After(s, steps).acts[pid].phase == s.acts[pid].phase
    decreases |steps|
  {
    if steps != [] {
      assert steps[0] in steps;
      forall step | step in steps[1..] ensures step.pid == pid ==> step.Fill? { assert step in steps; }
      StaysComparing(Apply(s, steps[0]), steps[1..], pid);
    }
  }

  /** A store that grew from `disk` and holds every byte of the offer is what `disk` becomes once the offer's
      objects are stored and the rest of the growth is another writer's. */
  lemma GrowthIsTheRivals(disk: Disk, all: set<Bytes>, after: Disk)
    requires Grows(disk, after) && ValidDisk(after)
    requires forall bytes <- all :: Sha256(bytes) in after.objects
    ensures Merge(AddObjects(disk, all), after) == after
  {
    var filled := AddObjects(disk, all);
    forall digest | digest in filled.objects
      ensures digest in after.objects && after.objects[digest] == filled.objects[digest]
    {
      if digest !in disk.objects {
        var bytes :| bytes in all && digest == Sha256(bytes);
        assert Sha256(after.objects[digest]) == digest;
      }
    }
    assert after.objects + filled.objects == after.objects;
    assert after.records + filled.records == after.records;
    assert after.mismatches + filled.mismatches == after.mismatches;
  }

  /** Where the look-up found no record: the act reaches its link with the very store the single call links in. */
  lemma AtTheLink(s: State, pid: nat, middle: seq<Step>)
    requires Inv(s) && Enabled(s, Check(pid)) && KeyOf(s.acts[pid].phase.task.document) !in s.disk.records
    requires Legal(Apply(s, Check(pid)), middle) && OthersAndFills(middle, pid)
    ensures var u := After(Apply(s, Check(pid)), middle);
            var task := s.acts[pid].phase.task;
            && Inv(u) && Grows(s.disk, u.disk)
            && pid in u.acts && u.acts[pid].phase.Filling? && u.acts[pid].phase.task == task
            && (u.acts[pid].phase.pending == {} ==> Merge(AddObjects(s.disk, TaskBytes(task)), u.disk) == u.disk)
  {
    hide Inv, Grows, Legal, After, OthersAndFills, TaskBytes, Merge, AddObjects;
    var checked := Apply(s, Check(pid));
    StepKeepsInv(s, Check(pid));
    StaysFilling(checked, middle, pid);
    RunKeepsInv(checked, middle);
    var u := After(checked, middle);
    ExtendsTransitive(s, checked, u);
    if u.acts[pid].phase.pending == {} {
      AllStored(u, pid);
      StoreIsValid(u);
      GrowthIsTheRivals(s.disk, TaskBytes(s.acts[pid].phase.task), u.disk);
    }
  }

  /** An act with nothing left to store has stored all it offers. */
  lemma AllStored(u: State, pid: nat)
    requires Inv(u) && pid in u.acts && u.acts[pid].phase.Filling? && u.acts[pid].phase.pending == {}
    ensures forall bytes <- TaskBytes(u.acts[pid].phase.task) :: Sha256(bytes) in u.disk.objects
  {
    hide StoreSound, TaskSound, TaskBytes;
    assert PhaseSound(u, u.acts[pid]);
    assert TaskBytes(u.acts[pid].phase.task) - {} == TaskBytes(u.acts[pid].phase.task);
  }

  /** ONE CALL, MANY STEPS, the creating path: whatever the other acts do among its look-up, its object writes and
      its link, an act that creates the record leaves what the single call leaves with their work as its rival. */
  lemma CreatingStepsAreOneCommit(s: State, pid: nat, middle: seq<Step>, counted: bool)
    requires Inv(s) && Enabled(s, Check(pid)) && KeyOf(s.acts[pid].phase.task.document) !in s.disk.records
    requires Legal(Apply(s, Check(pid)), middle) && OthersAndFills(middle, pid)
    requires var u := After(Apply(s, Check(pid)), middle);
             Enabled(u, Link(pid, counted)) && KeyOf(s.acts[pid].phase.task.document) !in u.disk.records
    ensures var u := After(Apply(s, Check(pid)), middle);
            && WellFormed(s.acts[pid].phase.task)
            && Apply(u, Link(pid, counted)).disk == Committed(s.disk, s.acts[pid].phase.task, u.disk, counted)
            && Returned(u, Link(pid, counted)) == Some(0)
  {
    hide Inv, Legal, After, OthersAndFills, Grows, Merge, AddObjects, TaskBytes, Finished, Filled, WithMismatches;
    AtTheLink(s, pid, middle);
    CheckedOffer(s, pid);
  }

  /** The offer an act looks up is one its callers make. */
  lemma CheckedOffer(s: State, pid: nat)
    requires Inv(s) && Enabled(s, Check(pid))
    ensures WellFormed(s.acts[pid].phase.task) && !Refused(s.acts[pid].phase.task)
  {
    hide StoreSound, OfferHeld;
    assert PhaseSound(s, s.acts[pid]);
  }

  /** An act that lost its link compares, after any `late` steps of the others, as the single call would. */
  lemma AtTheComparison(disk: Disk, lost: State, pid: nat, name: string, task: Task, late: seq<Step>, counted: bool)
    requires Inv(lost) && pid in lost.acts && lost.acts[pid].phase == Comparing(name, task, Filled(task))
    requires Grows(disk, lost.disk) && KeyOf(task.document) !in disk.records
    requires forall bytes <- TaskBytes(task) :: Sha256(bytes) in lost.disk.objects
    requires Legal(lost, late) && OthersAndFills(late, pid)
    ensures var v := After(lost, late);
            && WellFormed(task) && Enabled(v, Compare(pid))
            && Apply(v, Compare(pid)).disk == Committed(disk, task, v.disk, counted)
  {
    hide Inv, Committed, WithMismatches, Filled, Exit, Agrees, OthersAndFills, WellFormed;
    StaysComparing(lost, late, pid);
    RunKeepsInv(lost, late);
    HeldFurther(disk, lost, After(lost, late), TaskBytes(task));
    ComparedAsOneCommit(disk, After(lost, late), pid, name, task, counted);
  }

  lemma HeldFurther(disk: Disk, s: State, t: State, all: set<Bytes>)
    requires Grows(disk, s.disk) && Extends(s, t)
    requires forall bytes <- all :: Sha256(bytes) in s.disk.objects
    ensures Grows(disk, t.disk) && forall bytes <- all :: Sha256(bytes) in t.disk.objects
  {
  }

  lemma ComparedAsOneCommit(disk: Disk, v: State, pid: nat, name: string, task: Task, counted: bool)
    requires Inv(v) && pid in v.acts && v.acts[pid].phase == Comparing(name, task, Filled(task))
    requires Grows(disk, v.disk) && KeyOf(task.document) !in disk.records
    requires forall bytes <- TaskBytes(task) :: Sha256(bytes) in v.disk.objects
    ensures WellFormed(task) && Enabled(v, Compare(pid))
    ensures Apply(v, Compare(pid)).disk == Committed(disk, task, v.disk, counted)
  {
    hide ActSound, Grows, ValidDisk, Merge, AddObjects, WithMismatches, Filled, Finished, StoreSound;
    CompareIsEnabled(v, pid, name, task);
    StoreIsValid(v);
    GrowthIsTheRivals(disk, TaskBytes(task), v.disk);
  }

  lemma StoreIsValid(v: State)
    requires Inv(v)
    ensures ValidDisk(v.disk)
  {
    hide ValidDisk, Logged, Traced, RecordsSound, NoBuildRecord;
  }

  lemma CompareIsEnabled(v: State, pid: nat, name: string, task: Task)
    requires Inv(v) && pid in v.acts && v.acts[pid].phase == Comparing(name, task, Filled(task))
    ensures WellFormed(task) && !Refused(task) && KeyOf(task.document) in v.disk.records && Enabled(v, Compare(pid))
  {
    hide StoreSound, OfferHeld, FilledOutput;
    assert PhaseSound(v, v.acts[pid]);
  }

  /** ONE CALL, MANY STEPS, the lost race: an act whose link found the name taken, and which compares after `late`
      further steps of the others, leaves what the single call leaves with all their work as its rival. */
  lemma LosingStepsAreOneCommit(s: State, pid: nat, middle: seq<Step>, counted: bool, late: seq<Step>)
    requires Inv(s) && Enabled(s, Check(pid)) && KeyOf(s.acts[pid].phase.task.document) !in s.disk.records
    requires Legal(Apply(s, Check(pid)), middle) && OthersAndFills(middle, pid)
    requires var u := After(Apply(s, Check(pid)), middle);
             && Enabled(u, Link(pid, counted)) && KeyOf(s.acts[pid].phase.task.document) in u.disk.records
             && Legal(Apply(u, Link(pid, counted)), late) && OthersAndFills(late, pid)
    ensures var v := After(Apply(After(Apply(s, Check(pid)), middle), Link(pid, counted)), late);
            && WellFormed(s.acts[pid].phase.task) && Enabled(v, Compare(pid))
            && Apply(v, Compare(pid)).disk == Committed(s.disk, s.acts[pid].phase.task, v.disk, counted)
  {
    AtTheLink(s, pid, middle);
    var u := After(Apply(s, Check(pid)), middle);
    LostTheLink(u, pid, counted);
    AtTheComparison(s.disk, Apply(u, Link(pid, counted)), pid, u.acts[pid].phase.name, s.acts[pid].phase.task, late, counted);
  }

  lemma LostTheLink(u: State, pid: nat, counted: bool)
    requires Inv(u) && Enabled(u, Link(pid, counted)) && KeyOf(u.acts[pid].phase.task.document) in u.disk.records
    ensures var task := u.acts[pid].phase.task;
            var lost := Apply(u, Link(pid, counted));
            && Inv(lost) && lost.disk == u.disk
            && pid in lost.acts && lost.acts[pid].phase == Comparing(u.acts[pid].phase.name, task, Filled(task))
            && forall bytes <- TaskBytes(task) :: Sha256(bytes) in lost.disk.objects
  {
    hide Inv, TaskBytes, Filled, Extends, Finished;
    StepKeepsInv(u, Link(pid, counted));
    AllStored(u, pid);
  }

  /** ONE CALL, MANY STEPS, the comparing path: an act whose look-up found a record, and which compares after
      `late` further steps of the others, leaves what the single call made on that later store leaves. */
  lemma ComparingStepsAreOneCommit(s: State, pid: nat, late: seq<Step>, counted: bool)
    requires Inv(s) && Enabled(s, Check(pid)) && KeyOf(s.acts[pid].phase.task.document) in s.disk.records
    requires Legal(Apply(s, Check(pid)), late) && OthersAndFills(late, pid)
    ensures var v := After(Apply(s, Check(pid)), late);
            && WellFormed(s.acts[pid].phase.task) && Enabled(v, Compare(pid))
            && Apply(v, Compare(pid)).disk == Committed(v.disk, s.acts[pid].phase.task, v.disk, counted)
  {
    hide Inv, Legal, After, OthersAndFills, WithMismatches, Finished, Extends;
    StepKeepsInv(s, Check(pid));
    var checked := Apply(s, Check(pid));
    RunKeepsInv(checked, late);
    StaysComparing(checked, late, pid);
    OfferIsCompared(After(checked, late), pid, checked.acts[pid].phase.name, s.acts[pid].phase.task);
  }

  lemma OfferIsCompared(v: State, pid: nat, name: string, task: Task)
    requires Inv(v) && pid in v.acts && v.acts[pid].phase == Comparing(name, task, task.outputs)
    ensures WellFormed(task) && !Refused(task) && KeyOf(task.document) in v.disk.records && Enabled(v, Compare(pid))
  {
    hide StoreSound, OfferHeld;
    assert PhaseSound(v, v.acts[pid]);
  }
}
