/** The store as the directory it is (artefact_store.py, class LocalStore): create-only objects, records and
    mismatch events, and `commit` with its lost creation race. Another writer is the parameter `rival`: what the
    rest of the system added to the directory while this call was storing its objects. */
module LocalStoreDirectory {
  import opened ArtefactStore

  datatype Ended = RefusedOffer | Exit(code: int)

  /** `os.link` onto a name: it fails when the name exists, so a path once created is never rewritten. */
  function CreateOnly<K, V>(directory: map<K, V>, name: K, data: V): (made: (map<K, V>, bool))
    ensures made.1 <==> name !in directory
    ensures name in made.0 && (made.1 ==> made.0[name] == data)
    ensures forall other <- directory :: other in made.0 && made.0[other] == directory[other]
    ensures made.0.Keys == directory.Keys + {name}
  {
    if name in directory then (directory, false) else (directory[name := data], true)
  }

  class LocalStore {
    var objects: map<Digest, Bytes>
    var records: map<Key, Record>
    var mismatches: map<(Key, Value), Event>

    function Contents(): Disk
      reads this
    {
      Disk(objects, records, mismatches)
    }

    ghost predicate Valid()
      reads this
    {
      ValidDisk(Contents())
    }

    constructor ()
      ensures Valid() && Contents() == EMPTY_DISK
    {
      objects, records, mismatches := map[], map[], map[];
    }

    /** `put_bytes`: the object is stored unless its name exists, and an existing one must hash to its name. */
    method PutBytes(data: Bytes) returns (digest: Digest, corrupt: bool)
      modifies this`objects
      ensures digest == Sha256(data)
      ensures objects == WithObjects(old(objects), {data})
      ensures corrupt <==> digest in old(objects) && Sha256(old(objects[digest])) != digest
      ensures old(Valid()) ==> !corrupt
    {
      digest := Sha256(data);
      var made := CreateOnly(objects, digest, data);
      assert Digests({data}) == {digest};
      assert made.0 == WithObjects(objects, {data});
      objects := made.0;
      corrupt := !made.1 && Sha256(objects[digest]) != digest;
    }

    /** What other writers did meanwhile. */
    method Meanwhile(rival: Disk)
      modifies this
      ensures Contents() == Merge(old(Contents()), rival)
    {
      objects, records, mismatches := rival.objects + objects, rival.records + records,
                                      rival.mismatches + mismatches;
    }

    method PutMany(members: map<string, Bytes>) returns (hashes: map<string, Digest>)
      modifies this`objects
      ensures objects == WithObjects(old(objects), members.Values)
      ensures Hashes(hashes) == FieldValue(Offer("", Many(members)))
    {
      hide WithObjects, Digests, Covered, ValidDisk;
      var left := members.Keys;
      hashes := map[];
      ghost var done: set<Bytes> := {};
      WithObjectsNone(objects);
      CoveredNone(members);
      while left != {}
        invariant left <= members.Keys
        invariant objects == WithObjects(old(objects), done)
        invariant Covered(members, left, done)
        invariant hashes.Keys == members.Keys - left
        invariant forall name <- hashes :: hashes[name] == Sha256(members[name])
        decreases left
      {
        var name :| name in left;
        WithObjectsTwice(old(objects), done, {members[name]});
        var digest, corrupt := PutBytes(members[name]);
        CoveredNext(members, left, done, name);
        hashes := hashes[name := digest];
        left, done := left - {name}, done + {members[name]};
      }
      CoveredAll(members, done);
      assert hashes == map name | name in members :: Sha256(members[name]);
    }

    /** One turn of the produce loop of `commit`: the offered object stored, and the value its field keeps. */
    method PutOffer(offer: Offer) returns (value: Value)
      modifies this`objects
      ensures objects == WithObjects(old(objects), OfferBytes(offer))
      ensures value == FieldValue(offer)
    {
      match offer.produced {
        case One(bytes) =>
          var digest, corrupt := PutBytes(bytes);
          value := Hash(digest);
        case Many(members) =>
          var hashes := PutMany(members);
          value := Hashes(hashes);
      }
    }

    /** The produce loop of `commit`: each offered object stored, its digest kept under the offered field. */
    method Fill(task: Task) returns (filled: map<string, Output>)
      requires WellFormed(task)
      modifies this`objects
      ensures objects == WithObjects(old(objects), TaskBytes(task))
      ensures filled == Filled(task)
    {
      hide WithObjects, TaskBytes, OfferBytes, FieldValue, FilledOutput, Digests, WellFormed;
      Unfilled(task);
      filled := task.outputs;
      var left := task.objects.Keys;
      ghost var done: set<Bytes> := {};
      WithObjectsNone(objects);
      while left != {}
        invariant left <= task.objects.Keys
        invariant objects == WithObjects(old(objects), done)
        invariant done <= TaskBytes(task)
        invariant forall name <- task.objects.Keys - left :: OfferBytes(task.objects[name]) <= done
        invariant filled.Keys == task.outputs.Keys
        invariant forall name <- filled ::
          filled[name] == if name in left then task.outputs[name] else FilledOutput(task, name)
        decreases left
      {
        var name :| name in left;
        var offer := task.objects[name];
        var value := PutOffer(offer);
        WithObjectsTwice(old(objects), done, OfferBytes(offer));
        OfferBytesWithin(task, name);
        FilledFrom(task, name);
        var kept := filled[name][offer.field := value];
        if name in task.derived { kept := kept + task.derived[name]; }
        filled := filled[name := kept];
        left, done := left - {name}, done + OfferBytes(offer);
      }
      TaskBytesFrom(task, done);
    }

    /** One turn of the comparison loop: an output that differs leaves its event, unless one is there already. */
    method CompareOutput(task: Task, offered: map<string, Output>, stored: Record, name: string) returns (same: bool)
      requires name in offered
      modifies this`mismatches
      ensures Contents() == WithMismatch(old(Contents()), task, offered, stored, name)
      ensures same <==>
              name in stored.outputs && DifferingAxes(stored.outputs[name], offered[name], Uncompared(task)) == {}
    {
      if name !in stored.outputs { return false; }
      var before := stored.outputs[name];
      var axes := DifferingAxes(before, offered[name], Uncompared(task));
      if axes == {} { return true; }
      var event := Event(name, map axis | axis in axes :: Axis(before, axis),
                         map axis | axis in axes :: Axis(offered[name], axis), DifferingUnits(before, offered[name]));
      var made := CreateOnly(mismatches, (stored.key, Identity(offered[name])), event);
      mismatches := made.0;
      same := false;
    }

    /** The comparison loop of `commit`, on both of its paths. */
    method Compare(task: Task, offered: map<string, Output>, stored: Record) returns (code: int)
      requires WellFormed(task)
      requires offered == task.outputs || offered == Filled(task)
      modifies this`mismatches
      ensures Contents() == WithMismatches(old(Contents()), task, offered, stored, task.order)
      ensures code == if Agrees(stored.outputs, task) then 0 else 1
    {
      hide DifferingAxes, Uncompared, Agrees, WithMismatch, WithMismatches, WellFormed, Filled;
      OrderIsOffered(task, offered);
      var differ := 0;
      ComparesNone(Contents(), task, offered, stored);
      for i := 0 to |task.order|
        invariant 0 <= differ
        invariant differ == 0 <==> forall j :: 0 <= j < i ==> Same(task, offered, stored, task.order[j])
        invariant forall name <- task.order[..i] :: name in offered
        invariant Contents() == WithMismatches(old(Contents()), task, offered, stored, task.order[..i])
      {
        ComparesNext(old(Contents()), task, offered, stored, i);
        var same := CompareOutput(task, offered, stored, task.order[i]);
        if !same { differ := differ + 1; }
      }
      assert task.order[..|task.order|] == task.order;
      AllSame(task, offered, stored);
      code := if differ == 0 then 0 else 1;
    }

    /** `commit`. On every path the record at the key, whoever created it, is the one the exit code speaks of. */
    method Commit(task: Task, rival: Disk, counted: bool) returns (ended: Ended)
      requires Valid() && ValidDisk(rival) && WellFormed(task)
      requires !Refused(task) ==> Offered(objects, task)
      modifies this
      ensures Valid() && Grows(old(Contents()), Contents())
      ensures Contents() == Committed(old(Contents()), task, rival, counted)
      ensures ended == RefusedOffer <==> Refused(task)
      ensures !Refused(task) ==> KeyOf(task.document) in records
      ensures !Refused(task) ==>
                ended == Exit(if Agrees(records[KeyOf(task.document)].outputs, task) then 0 else 1)
      ensures !Refused(task) ==>
                (ended == Exit(0) <==>
                   var stored := records[KeyOf(task.document)].outputs;
                   forall name <- task.outputs ::
                     name in stored
                     && forall axis: string ::
                          axis != "entries" && axis != "build_ids"
                          && (forall other <- task.objects :: task.objects[other].field != axis)
                          ==> (if axis in stored[name] then stored[name][axis] else Null)
                              == (if axis in task.outputs[name] then task.outputs[name][axis] else Null))
    {
      hide Agrees, ValidDisk, Grows, WithMismatches, Filled, TaskBytes, OfferHeld, AddObjects, Merge, NewRecord;
      if Refused(task) {
        GrowsItself(Contents());
        return RefusedOffer;
      }
      var key := KeyOf(task.document);
      if key in records {
        ComparedIsValid(Contents(), task, task.outputs, records[key], task.order);
        var code := Compare(task, task.outputs, records[key]);
        AgreesOnEveryAxis(records[key].outputs, task);
        return Exit(code);
      }
      CommittedWhereNone(Contents(), task, rival, counted);
      var code := Store(task, rival, counted);
      AgreesOnEveryAxis(records[key].outputs, task);
      ended := Exit(code);
    }

    /** The path of `commit` that finds no record: its objects stored, then the record created or, when another
        writer's creation came first, compared. */
    method Store(task: Task, rival: Disk, counted: bool) returns (code: int)
      requires Valid() && ValidDisk(rival) && Offered(objects, task) && KeyOf(task.document) !in records
      modifies this
      ensures Contents() == Committed(old(Contents()), task, rival, counted)
      ensures KeyOf(task.document) in records
      ensures code == if Agrees(records[KeyOf(task.document)].outputs, task) then 0 else 1
    {
      hide ValidDisk, Agrees, Filled, Uncompared, WithMismatches, TaskBytes, WithObjects, Grows;
      ghost var before := Contents();
      CommittedWhereNone(before, task, rival, counted);
      var key := KeyOf(task.document);
      var filled := Fill(task);
      Meanwhile(rival);
      ghost var met := Contents();
      assert met == Merge(AddObjects(before, TaskBytes(task)), rival);
      var made := CreateOnly(records, key, Record(key, task.document, filled, counted));
      records := made.0;
      if made.1 {
        assert Contents() == AddRecord(met, NewRecord(task, counted));
        return 0;
      }
      code := Compare(task, filled, records[key]);
    }
  }

  lemma FilledFrom(task: Task, name: string)
    requires WellFormed(task) && name in task.objects
    ensures name in task.outputs
    ensures var kept := task.outputs[name][task.objects[name].field := FieldValue(task.objects[name])];
            FilledOutput(task, name) == if name in task.derived then kept + task.derived[name] else kept
  {
  }

  /** An output with no object is recorded as offered. */
  lemma Unfilled(task: Task)
    requires WellFormed(task)
    ensures task.objects.Keys <= task.outputs.Keys
    ensures forall name <- task.outputs.Keys - task.objects.Keys :: FilledOutput(task, name) == task.outputs[name]
  {
  }

  /** The output is recorded, and equal to the recorded one on every compared axis. */
  ghost predicate Same(task: Task, offered: map<string, Output>, stored: Record, name: string) {
    name in offered && name in stored.outputs
    && DifferingAxes(stored.outputs[name], offered[name], Uncompared(task)) == {}
  }

  lemma OrderIsOffered(task: Task, offered: map<string, Output>)
    requires WellFormed(task) && (offered == task.outputs || offered == Filled(task))
    ensures forall name <- task.order :: name in offered
  {
  }

  lemma ComparesNone(disk: Disk, task: Task, offered: map<string, Output>, stored: Record)
    ensures task.order[..0] == [] && WithMismatches(disk, task, offered, stored, task.order[..0]) == disk
  {
  }

  lemma ComparesNext(disk: Disk, task: Task, offered: map<string, Output>, stored: Record, i: nat)
    requires i < |task.order| && forall name <- task.order :: name in offered
    ensures forall name <- task.order[..i + 1] :: name in offered
    ensures WithMismatches(disk, task, offered, stored, task.order[..i + 1])
            == WithMismatch(WithMismatches(disk, task, offered, stored, task.order[..i]), task, offered, stored,
                            task.order[i])
  {
    hide WithMismatch;
    assert task.order[..i + 1][..i] == task.order[..i] && task.order[..i + 1][i] == task.order[i];
    assert forall name <- task.order[..i + 1] :: name in task.order;
  }

  lemma AllSame(task: Task, offered: map<string, Output>, stored: Record)
    requires WellFormed(task) && (offered == task.outputs || offered == Filled(task))
    ensures (forall j :: 0 <= j < |task.order| ==> Same(task, offered, stored, task.order[j]))
            <==> Agrees(stored.outputs, task)
  {
    hide Agrees, DifferingAxes, Uncompared, FilledOutput;
    AgreesIffNoDifference(stored.outputs, task, offered);
    if forall j :: 0 <= j < |task.order| ==> Same(task, offered, stored, task.order[j]) {
      forall name | name in task.outputs ensures Same(task, offered, stored, name) {
        var j :| 0 <= j < |task.order| && task.order[j] == name;
      }
    }
    if forall name <- task.outputs :: Same(task, offered, stored, name) {
      forall j | 0 <= j < |task.order| ensures Same(task, offered, stored, task.order[j]) {
        assert task.order[j] in task.order;
      }
    }
  }

  /** A commit that found no record leaves a valid store grown from the one it met, with a record at its key:
      its own, which agrees with it, unless the key was taken meanwhile. */
  lemma CommittedWhereNone(before: Disk, task: Task, rival: Disk, counted: bool)
    requires ValidDisk(before) && ValidDisk(rival)
    requires Offered(before.objects, task) && KeyOf(task.document) !in before.records
    ensures var after := Committed(before, task, rival, counted);
            var key := KeyOf(task.document);
            && ValidDisk(after) && Grows(before, after) && key in after.records
            && (key in rival.records ==> after.records[key] == rival.records[key])
            && (key !in rival.records ==>
                  after.records[key] == NewRecord(task, counted) && Agrees(after.records[key].outputs, task))
  {
    hide ValidDisk, Grows, Agrees, WithMismatches, TaskBytes, OfferHeld, Uncompared, FilledOutput;
    var met := Merge(AddObjects(before, TaskBytes(task)), rival);
    MetIsValid(before, TaskBytes(task), rival);
    var key := KeyOf(task.document);
    if key in rival.records {
      ComparedIsValid(met, task, Filled(task), met.records[key], task.order);
      GrowsThrough(before, met, WithMismatches(met, task, Filled(task), met.records[key], task.order));
    } else {
      CreatedValid(before.objects, met, task, counted);
      GrowsThrough(before, met, AddRecord(met, NewRecord(task, counted)));
      CreatedAgrees(task, counted);
    }
  }

  /** The store a commit meets once its objects are stored and the others' work is done. */
  lemma MetIsValid(before: Disk, all: set<Bytes>, rival: Disk)
    requires ValidDisk(before) && ValidDisk(rival)
    ensures var met := Merge(AddObjects(before, all), rival);
            ValidDisk(met) && Grows(before, met) && before.objects.Keys <= met.objects.Keys
            && forall bytes <- all :: Sha256(bytes) in met.objects
  {
    hide ValidDisk, Grows, AddObjects, Merge;
    var stored := AddObjects(before, all);
    AddObjectsValid(before, all);
    MergeValid(stored, rival);
    MergeGrows(stored, rival);
    GrowsThrough(before, stored, Merge(stored, rival));
    GrowthHolds(before, Merge(stored, rival), {});
    GrowthHolds(stored, Merge(stored, rival), all);
  }

  lemma GrowthHolds(disk: Disk, after: Disk, all: set<Bytes>)
    requires Grows(disk, after) && forall bytes <- all :: Sha256(bytes) in disk.objects
    ensures disk.objects.Keys <= after.objects.Keys && forall bytes <- all :: Sha256(bytes) in after.objects
  {
  }

  lemma ComparedIsValid(met: Disk, task: Task, offered: map<string, Output>, stored: Record, order: seq<string>)
    requires ValidDisk(met) && forall name <- order :: name in offered
    ensures var after := WithMismatches(met, task, offered, stored, order);
            ValidDisk(after) && Grows(met, after) && after.records == met.records
  {
    hide Grows, WithMismatches;
    MismatchesKeepTheRest(met, task, offered, stored, order);
  }

  lemma GrowsItself(disk: Disk)
    ensures Grows(disk, disk)
  {
  }

  lemma GrowsThrough(a: Disk, b: Disk, c: Disk)
    requires Grows(a, b) && Grows(b, c)
    ensures Grows(a, c)
  {
  }

  /** What every caller of `commit` offers, and the store holds of it before the call. */
  ghost predicate Offered(objects: map<Digest, Bytes>, task: Task) {
    && WellFormed(task)
    && !Refused(task)
    && OfferHeld(objects, task)
    && (PackageKind(task.document) ==> task.objects[PACKAGE_OUTPUT].produced.One?)
  }

  lemma CreatedValid(objects: map<Digest, Bytes>, met: Disk, task: Task, counted: bool)
    requires Offered(objects, task) && ValidDisk(met) && objects.Keys <= met.objects.Keys
    requires forall bytes <- TaskBytes(task) :: Sha256(bytes) in met.objects
    ensures ValidDisk(AddRecord(met, NewRecord(task, counted))) && Grows(met, AddRecord(met, NewRecord(task, counted)))
  {
    hide ValidRecord, TaskBytes, Filled, OfferHeld;
    OfferHeldGrows(objects, met.objects, task);
    NewRecordValid(met.objects, task, counted);
  }

  /** `done` is what the members outside `left` hold. */
  ghost predicate Covered(members: map<string, Bytes>, left: set<string>, done: set<Bytes>) {
    (forall bytes <- done :: bytes in members.Values) && forall name <- members.Keys - left :: members[name] in done
  }

  lemma CoveredNone(members: map<string, Bytes>)
    ensures Covered(members, members.Keys, {})
  {
  }

  lemma CoveredNext(members: map<string, Bytes>, left: set<string>, done: set<Bytes>, name: string)
    requires Covered(members, left, done) && name in members
    ensures Covered(members, left - {name}, done + {members[name]})
  {
  }

  lemma CoveredAll(members: map<string, Bytes>, done: set<Bytes>)
    requires Covered(members, {}, done)
    ensures done == members.Values
  {
    forall bytes | bytes in members.Values ensures bytes in done {
      var name :| name in members && members[name] == bytes;
      assert name in members.Keys - {};
    }
  }

  lemma OfferBytesWithin(task: Task, name: string)
    requires name in task.objects
    ensures OfferBytes(task.objects[name]) <= TaskBytes(task)
  {
  }

  lemma TaskBytesFrom(task: Task, done: set<Bytes>)
    requires done <= TaskBytes(task)
    requires forall name <- task.objects :: OfferBytes(task.objects[name]) <= done
    ensures done == TaskBytes(task)
  {
  }

  lemma OfferHeldGrows(objects: map<Digest, Bytes>, more: map<Digest, Bytes>, task: Task)
    requires OfferHeld(objects, task) && objects.Keys <= more.Keys
    ensures OfferHeld(more, task)
  {
    forall name | name in task.outputs ensures HoldsObjectsOf(more, task.outputs[name]) {
      assert HoldsObjectsOf(objects, task.outputs[name]);
    }
  }
}
