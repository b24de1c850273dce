/** The values the artefact store keeps (artefact_store.py): documents and their keys, outputs, records,
    the three directories of a store, and the decisions that are functions of them.

    SHA-256 over canonical JSON is an injective constructor here: `KeyOf` of a document and `Sha256` of bytes.
    Module CanonicalJson proves that the encoding under the hash loses nothing. */
module ArtefactStore {
  import opened Options

  type Bytes = seq<bv8>

  datatype Digest = Sha256(bytes: Bytes)

  datatype Key = KeyOf(document: Document)

  datatype Upstream = Upstream(content: Digest, test: bool)

  datatype ThirdParty = ThirdParty(reference: string, packageId: string, content: Digest, test: Option<bool>)

  datatype Source = Export(digest: Digest) | Tree(id: string)

  /** A key document by its `step.kind`; `rest` stands for the members no decision below reads. */
  datatype Document =
    | ConanCreate(package: string, profile: string, form: string, sources: map<string, Source>,
                  upstream: map<string, Upstream>, thirdParty: map<string, ThirdParty>, rest: string)
    | ConanBuild(package: string, profile: string, sources: map<string, Source>,
                 upstream: map<string, Upstream>, thirdParty: map<string, ThirdParty>, rest: string)
    | ThirdPartyCreate(package: string, reference: string, packageId: string, profile: string,
                       thirdParty: map<string, ThirdParty>, rest: string)
    | StepOutcome(package: string, profile: string, build: Key, bench: Option<string>, rest: string)
    | Judged(kind: string, subject: string, rest: string)

  datatype Value =
    | Null
    | Text(text: string)
    | Hash(digest: Digest)
    | Hashes(hashes: map<string, Digest>)
    | Keys(keys: map<string, Key>)
    | Names(names: seq<string>)
    | Rows(rows: seq<seq<string>>)

  type Output = map<string, Value>

  datatype Record = Record(key: Key, inputs: Document, outputs: map<string, Output>, counted: bool)

  /** A mismatch event: the differing axes with both their values, and the units that differ. */
  datatype Event = Event(output: string, stored: Output, rebuilt: Output, differing: set<string>)

  /** What an output compares unit by unit: a file's or a test's columns, or an object. */
  datatype Unit = Columns(columns: seq<string>) | Object(digest: Digest)

  /** The store's directories: `objects/`, `records/` and `mismatches/`. */
  datatype Disk = Disk(objects: map<Digest, Bytes>, records: map<Key, Record>,
                       mismatches: map<(Key, Value), Event>)

  const EMPTY_DISK := Disk(map[], map[], map[])

  const PACKAGE_OUTPUT := "package"
  const OUTCOME_OUTPUT := "outcome"
  const TRANSPORT_FIELD := "transport"
  const OBJECT_FIELDS := {"transport", "log", "objects"}

  predicate PackageKind(document: Document) {
    document.ConanCreate? || document.ThirdPartyCreate?
  }

  /** Python's `output.get(axis)`. */
  function Axis(output: Output, axis: string): Value {
    if axis in output then output[axis] else Null
  }

  /** `alias.rsplit("#", 1)[0]`: the configuration of a binary alias. */
  function Configuration(alias: string): string {
    if '#' !in alias then alias
    else if alias[|alias| - 1] == '#' then alias[..|alias| - 1]
    else Configuration(alias[..|alias| - 1])
  }

  /** `name.split("/", 1)[0]`: the package name of a `<name>/<context>` label. */
  function PackageOf(member: string): string {
    if member == "" || member[0] == '/' then "" else [member[0]] + PackageOf(member[1..])
  }

  function ConfigurationOf(member: ThirdParty): string {
    member.reference + ":" + member.packageId
  }

  /* ---------------------------------------------------------------- a commit's offer */

  datatype Produced = One(bytes: Bytes) | Many(members: map<string, Bytes>)

  datatype Offer = Offer(field: string, produced: Produced)

  /** What one call of `commit` is handed. `order` is the insertion order of `outputs`; `derived` is what
      the derived reading of an output's stored object returns. */
  datatype Task = Task(document: Document, order: seq<string>, outputs: map<string, Output>,
                       objects: map<string, Offer>, derived: map<string, Output>)

  function FieldValue(offer: Offer): Value {
    match offer.produced
    case One(bytes) => Hash(Sha256(bytes))
    case Many(members) => Hashes(map member | member in members :: Sha256(members[member]))
  }

  function OfferBytes(offer: Offer): set<Bytes> {
    match offer.produced
    case One(bytes) => {bytes}
    case Many(members) => members.Values
  }

  function TaskBytes(task: Task): set<Bytes> {
    set name, bytes | name in task.objects && bytes in OfferBytes(task.objects[name]) :: bytes
  }

  /** An output as the record keeps it: its object's digest under the offered field, then the derived fields. */
  function FilledOutput(task: Task, name: string): Output
    requires name in task.outputs
  {
    if name !in task.objects then task.outputs[name]
    else
      var kept := task.outputs[name][task.objects[name].field := FieldValue(task.objects[name])];
      if name in task.derived then kept + task.derived[name] else kept
  }

  function Filled(task: Task): map<string, Output> {
    map name | name in task.outputs :: FilledOutput(task, name)
  }

  function Uncompared(task: Task): set<string> {
    {"entries", "build_ids"} + set name | name in task.objects :: task.objects[name].field
  }

  /** The axes at which a stored output and an offered one differ. */
  function DifferingAxes(before: Output, output: Output, uncompared: set<string>): set<string> {
    set axis | axis in (before.Keys + output.Keys) - uncompared && Axis(before, axis) != Axis(output, axis)
  }

  /** Every offered output is recorded, and equal to the recorded one on every compared axis. */
  ghost predicate Agrees(stored: map<string, Output>, task: Task) {
    forall name <- task.outputs ::
      && name in stored
      && forall axis: string | axis !in Uncompared(task) :: Axis(stored[name], axis) == Axis(task.outputs[name], axis)
  }

  /** An output that is its objects alone and judges nothing. */
  predicate BareObjects(output: Output) {
    "objects" in output && {"entries", "results", "findings", "content"} * output.Keys == {}
  }

  /** The rows by their first `n` columns; the last of equal names stays. */
  function RowUnits(rows: seq<seq<string>>, n: nat): map<string, Unit> {
    if rows == [] then map[]
    else
      var before, row := RowUnits(rows[..|rows| - 1], n), rows[|rows| - 1];
      if |row| < n then before else before[RowName(row[..n]) := Columns(row[n..])]
  }

  function RowName(columns: seq<string>): string {
    if columns == [] then "" else if |columns| == 1 then columns[0] else columns[0] + ":" + RowName(columns[1..])
  }

  /** `_units`: a package's files, an object step's members, a verdict's tests. */
  function Units(output: Output): map<string, Unit> {
    if "entries" in output then RowUnits(RowsAt(output, "entries"), 1)
    else if BareObjects(output) then
      match output["objects"]
      case Hashes(hashes) => map member | member in hashes :: Object(hashes[member])
      case _ => map[]
    else RowUnits(RowsAt(output, "results"), 2)
  }

  function RowsAt(output: Output, axis: string): seq<seq<string>> {
    if Axis(output, axis).Rows? then Axis(output, axis).rows else []
  }

  /** The units of two outputs that are in one alone or differ. */
  function DifferingUnits(before: Output, offered: Output): set<string> {
    var old', new' := Units(before), Units(offered);
    set path | path in old'.Keys + new'.Keys && !(path in old' && path in new' && old'[path] == new'[path])
  }

  /** `_identity`: what a mismatch event's file is named by. */
  function Identity(output: Output): Value {
    if BareObjects(output) then Axis(output, "objects")
    else if Axis(output, "content") != Null then Axis(output, "content")
    else Axis(output, "findings")
  }

  /** The offers every caller of `commit` makes: each object belongs to an offered output, sits in an object
      field, and a derived reading returns nothing but the build-id index. */
  ghost predicate WellFormed(task: Task) {
    && (forall name <- task.order :: name in task.outputs)
    && (forall name <- task.outputs :: name in task.order)
    && task.objects.Keys <= task.outputs.Keys
    && (forall name <- task.objects :: task.objects[name].field in OBJECT_FIELDS)
    && (forall name <- task.derived :: task.derived[name].Keys <= {"build_ids"})
  }

  /** A package step offers its transport, or `commit` refuses it. */
  predicate Refused(task: Task) {
    PackageKind(task.document)
    && (PACKAGE_OUTPUT !in task.objects || task.objects[PACKAGE_OUTPUT].field != TRANSPORT_FIELD)
  }

  /* ---------------------------------------------------------------- the store's own invariant */

  predicate ValueHeld(objects: map<Digest, Bytes>, value: Value) {
    match value
    case Hash(digest) => digest in objects
    case Hashes(hashes) => forall member <- hashes :: hashes[member] in objects
    case _ => true
  }

  ghost predicate HoldsObjectsOf(objects: map<Digest, Bytes>, output: Output) {
    forall field <- OBJECT_FIELDS :: ValueHeld(objects, Axis(output, field))
  }

  ghost predicate ValidRecord(objects: map<Digest, Bytes>, record: Record) {
    && record.key == KeyOf(record.inputs)
    && (forall name <- record.outputs :: HoldsObjectsOf(objects, record.outputs[name]))
    && (PackageKind(record.inputs) ==>
          PACKAGE_OUTPUT in record.outputs && Axis(record.outputs[PACKAGE_OUTPUT], TRANSPORT_FIELD).Hash?)
  }

  /** Every object is named by its bytes, every record sits at the key of its own inputs, and every object a
      record names is held. */
  ghost predicate ValidDisk(disk: Disk) {
    && (forall digest <- disk.objects :: Sha256(disk.objects[digest]) == digest)
    && (forall key <- disk.records :: disk.records[key].key == key && ValidRecord(disk.objects, disk.records[key]))
  }

  /** Nothing that `before` holds is rewritten or removed in `after`. */
  ghost predicate Grows(before: Disk, after: Disk) {
    && (forall digest <- before.objects :: digest in after.objects && after.objects[digest] == before.objects[digest])
    && (forall key <- before.records :: key in after.records && after.records[key] == before.records[key])
    && (forall name <- before.mismatches ::
          name in after.mismatches && after.mismatches[name] == before.mismatches[name])
  }

  function Digests(all: set<Bytes>): set<Digest> {
    set bytes | bytes in all :: Sha256(bytes)
  }

  /** The object directory once every one of `all` was put: a held name keeps what it holds. */
  function WithObjects(objects: map<Digest, Bytes>, all: set<Bytes>): (more: map<Digest, Bytes>)
    ensures more.Keys == objects.Keys + Digests(all)
    ensures forall digest <- objects :: more[digest] == objects[digest]
    ensures forall digest <- Digests(all) - objects.Keys :: more[digest] == digest.bytes
  {
    map digest | digest in objects.Keys + Digests(all) ::
      if digest in objects then objects[digest] else digest.bytes
  }

  function AddObjects(disk: Disk, all: set<Bytes>): Disk {
    disk.(objects := WithObjects(disk.objects, all))
  }

  function AddRecord(disk: Disk, record: Record): Disk {
    if record.key in disk.records then disk else disk.(records := disk.records[record.key := record])
  }

  function AddMismatch(disk: Disk, key: Key, output: string, before: Output, offered: Output,
                       axes: set<string>): Disk {
    var name := (key, Identity(offered));
    if name in disk.mismatches then disk
    else disk.(mismatches := disk.mismatches[name :=
      Event(output, map axis | axis in axes :: Axis(before, axis), map axis | axis in axes :: Axis(offered, axis),
            DifferingUnits(before, offered))])
  }

  /** What other writers have added meanwhile; nothing already here changes. */
  function Merge(disk: Disk, rival: Disk): Disk {
    Disk(rival.objects + disk.objects, rival.records + disk.records, rival.mismatches + disk.mismatches)
  }

  function NewRecord(task: Task, counted: bool): Record {
    Record(KeyOf(task.document), task.document, Filled(task), counted)
  }

  /** A mismatch event for the offered output `name`, when it differs from the recorded one. */
  function WithMismatch(disk: Disk, task: Task, offered: map<string, Output>, stored: Record, name: string): Disk
    requires name in offered
  {
    if name !in stored.outputs then disk
    else
      var axes := DifferingAxes(stored.outputs[name], offered[name], Uncompared(task));
      if axes == {} then disk
      else AddMismatch(disk, stored.key, name, stored.outputs[name], offered[name], axes)
  }

  /** One mismatch event per offered output that differs from a recorded one, in offer order. */
  function WithMismatches(disk: Disk, task: Task, offered: map<string, Output>, stored: Record,
                          order: seq<string>): Disk
    requires forall name <- order :: name in offered
  {
    if order == [] then disk
    else
      WithMismatch(WithMismatches(disk, task, offered, stored, order[..|order| - 1]), task, offered, stored,
                   order[|order| - 1])
  }

  /** The disk one call of `commit` leaves when `rival` is what the other writers added while it filled its
      objects: the record is created once, and every later offer at its key is only compared. */
  ghost function Committed(disk: Disk, task: Task, rival: Disk, counted: bool): Disk
    requires WellFormed(task)
  {
    var key := KeyOf(task.document);
    if Refused(task) then disk
    else if key in disk.records then WithMismatches(disk, task, task.outputs, disk.records[key], task.order)
    else
      var met := Merge(AddObjects(disk, TaskBytes(task)), rival);
      if key in met.records then WithMismatches(met, task, Filled(task), met.records[key], task.order)
      else AddRecord(met, NewRecord(task, counted))
  }

  /* ---------------------------------------------------------------- lemmas */

  lemma WithObjectsTwice(objects: map<Digest, Bytes>, some: set<Bytes>, more: set<Bytes>)
    ensures WithObjects(WithObjects(objects, some), more) == WithObjects(objects, some + more)
  {
    var left, right := WithObjects(WithObjects(objects, some), more), WithObjects(objects, some + more);
    assert Digests(some + more) == Digests(some) + Digests(more);
    assert left.Keys == right.Keys;
    forall digest | digest in left ensures left[digest] == right[digest] {
      if digest in Digests(more) && digest !in Digests(some) && digest !in objects {
        assert digest in Digests(some + more) - objects.Keys;
      }
    }
  }

  lemma WithObjectsNone(objects: map<Digest, Bytes>)
    ensures WithObjects(objects, {}) == objects
  {
    assert WithObjects(objects, {}).Keys == objects.Keys;
  }

  /** The compared axes of an output are the same whether or not its object was stored first. */
  lemma FillingChangesNoComparedAxis(task: Task, name: string, axis: string)
    requires WellFormed(task) && name in task.outputs && axis !in Uncompared(task)
    ensures Axis(FilledOutput(task, name), axis) == Axis(task.outputs[name], axis)
  {
    if name in task.objects {
      assert task.objects[name].field in Uncompared(task);
    }
  }

  /** The record a commit creates agrees with the offer it was created from. */
  lemma CreatedAgrees(task: Task, counted: bool)
    requires WellFormed(task)
    ensures Agrees(NewRecord(task, counted).outputs, task)
  {
    forall name, axis: string | name in task.outputs && axis !in Uncompared(task)
      ensures Axis(Filled(task)[name], axis) == Axis(task.outputs[name], axis)
    {
      FillingChangesNoComparedAxis(task, name, axis);
    }
  }

  lemma DifferingAxesFilled(task: Task, name: string, before: Output)
    requires WellFormed(task) && name in task.outputs
    ensures DifferingAxes(before, FilledOutput(task, name), Uncompared(task))
            == DifferingAxes(before, task.outputs[name], Uncompared(task))
  {
    forall axis: string | axis !in Uncompared(task)
      ensures Axis(FilledOutput(task, name), axis) == Axis(task.outputs[name], axis)
      ensures axis in FilledOutput(task, name) <==> axis in task.outputs[name]
    {
      FillingChangesNoComparedAxis(task, name, axis);
      if name in task.objects { assert task.objects[name].field in Uncompared(task); }
    }
  }

  /** A commit's comparison finds nothing exactly when the outputs agree. */
  lemma AgreesIffNoDifference(stored: map<string, Output>, task: Task, offered: map<string, Output>)
    requires WellFormed(task)
    requires offered == task.outputs || offered == Filled(task)
    ensures Agrees(stored, task) <==>
            forall name <- task.outputs ::
              name in stored && DifferingAxes(stored[name], offered[name], Uncompared(task)) == {}
  {
    forall name | name in task.outputs && name in stored
      ensures DifferingAxes(stored[name], offered[name], Uncompared(task)) == {} <==>
              forall axis: string | axis !in Uncompared(task) :: Axis(stored[name], axis) == Axis(task.outputs[name], axis)
    {
      DifferingAxesFilled(task, name, stored[name]);
      var found := DifferingAxes(stored[name], task.outputs[name], Uncompared(task));
      forall axis: string | axis !in Uncompared(task) && Axis(stored[name], axis) != Axis(task.outputs[name], axis)
        ensures axis in found
      {
      }
    }
  }

  /** WHAT IS COMPARED, axis by axis: an offer agrees with what is stored when every output it offers is stored and has
      the stored value, or none where none is stored, on every axis that is neither the entries nor the build-id index nor
      the field of an offered object. */
  lemma AgreesOnEveryAxis(stored: map<string, Output>, task: Task)
    ensures Agrees(stored, task) <==>
            forall name <- task.outputs ::
              name in stored
              && forall axis: string ::
                   axis != "entries" && axis != "build_ids" && (forall other <- task.objects :: task.objects[other].field != axis)
                   ==> (if axis in stored[name] then stored[name][axis] else Null)
                       == (if axis in task.outputs[name] then task.outputs[name][axis] else Null)
  {
    forall axis: string
      ensures axis !in Uncompared(task) <==>
              axis != "entries" && axis != "build_ids" && forall other <- task.objects :: task.objects[other].field != axis
    {
    }
    forall name | name in task.outputs && name in stored
      ensures (forall axis: string | axis !in Uncompared(task) :: Axis(stored[name], axis) == Axis(task.outputs[name], axis))
              <==> forall axis: string ::
                axis != "entries" && axis != "build_ids" && (forall other <- task.objects :: task.objects[other].field != axis)
                ==> (if axis in stored[name] then stored[name][axis] else Null)
                    == (if axis in task.outputs[name] then task.outputs[name][axis] else Null)
    {
      AxesIff(stored[name], task.outputs[name], task);
    }
  }

  lemma AxesIff(before: Output, offered: Output, task: Task)
    ensures (forall axis: string | axis !in Uncompared(task) :: Axis(before, axis) == Axis(offered, axis))
            <==> forall axis: string ::
              axis != "entries" && axis != "build_ids" && (forall other <- task.objects :: task.objects[other].field != axis)
              ==> (if axis in before then before[axis] else Null) == (if axis in offered then offered[axis] else Null)
  {
    if forall axis: string | axis !in Uncompared(task) :: Axis(before, axis) == Axis(offered, axis) {
      forall axis: string | axis != "entries" && axis != "build_ids"
                            && forall other <- task.objects :: task.objects[other].field != axis
        ensures (if axis in before then before[axis] else Null) == (if axis in offered then offered[axis] else Null)
      {
        assert axis !in Uncompared(task) && Axis(before, axis) == Axis(offered, axis);
      }
    } else {
      var axis: string :| axis !in Uncompared(task) && Axis(before, axis) != Axis(offered, axis);
      assert forall other <- task.objects :: task.objects[other].field != axis;
      assert (if axis in before then before[axis] else Null) != (if axis in offered then offered[axis] else Null);
    }
  }

  /** WHAT AN EVENT SAYS: an offered output leaves one exactly when some compared axis has not the stored value, and an
      event that was not there before names the output and, with both values, exactly those axes. */
  lemma EventSays(disk: Disk, task: Task, offered: Output, stored: Record, name: string)
    requires name in stored.outputs
    ensures var after := WithMismatch(disk, task, map[name := offered], stored, name);
            var at, before := (stored.key, Identity(offered)), stored.outputs[name];
            && (forall event <- after.mismatches :: event == at || event in disk.mismatches)
            && (at !in disk.mismatches ==>
                  (at in after.mismatches <==> exists axis: string :: Differs(task, before, offered, axis)))
            && (at !in disk.mismatches && at in after.mismatches ==>
                  var event := after.mismatches[at];
                  event.output == name
                  && (forall axis: string :: axis in event.stored <==> Differs(task, before, offered, axis))
                  && (forall axis: string :: axis in event.rebuilt <==> Differs(task, before, offered, axis))
                  && (forall axis <- event.stored :: event.stored[axis] == if axis in before then before[axis] else Null)
                  && (forall axis <- event.rebuilt :: event.rebuilt[axis] == if axis in offered then offered[axis] else Null))
  {
    hide DifferingUnits, Identity;
    var before := stored.outputs[name];
    var axes := DifferingAxes(before, offered, Uncompared(task));
    forall axis: string ensures axis in axes <==> Differs(task, before, offered, axis) {
    }
  }

  /** WHAT TELLS EVENTS APART: offers of packages by their content, of object steps by their objects, of verdicts by their
      findings. */
  lemma IdentityTells(a: Output, b: Output)
    ensures BareObjects(a) && BareObjects(b) ==> (Identity(a) == Identity(b) <==> a["objects"] == b["objects"])
    ensures !BareObjects(a) && !BareObjects(b) && "content" in a && "content" in b && a["content"] != Null && b["content"] != Null
            ==> (Identity(a) == Identity(b) <==> a["content"] == b["content"])
    ensures !BareObjects(a) && !BareObjects(b) && "content" !in a && "content" !in b && "findings" in a && "findings" in b
            ==> (Identity(a) == Identity(b) <==> a["findings"] == b["findings"])
  {
  }

  /** The axis is compared, and the offered output has not the stored value on it. */
  ghost predicate Differs(task: Task, before: Output, offered: Output, axis: string) {
    axis != "entries" && axis != "build_ids" && (forall other <- task.objects :: task.objects[other].field != axis)
    && (if axis in before then before[axis] else Null) != (if axis in offered then offered[axis] else Null)
  }

  /** The row is a file's entry at the path, or a result of the test of that name. */
  predicate IsEntry(row: seq<string>, path: string) {
    |row| >= 1 && row[0] == path
  }

  predicate IsResult(row: seq<string>, test: string) {
    |row| >= 2 && row[0] + ":" + row[1] == test
  }

  /** The last row of those the name belongs to. */
  ghost predicate LastRow(rows: seq<seq<string>>, n: nat, name: string, k: int) {
    0 <= k < |rows| && RowOf(rows[k], n, name) && forall j :: k < j < |rows| ==> !RowOf(rows[j], n, name)
  }

  predicate RowOf(row: seq<string>, n: nat, name: string) {
    if n == 1 then IsEntry(row, name) else IsResult(row, name)
  }

  lemma RowNameIs(row: seq<string>, n: nat, name: string)
    requires 1 <= n <= 2
    ensures |row| >= n && RowName(row[..n]) == name <==> RowOf(row, n, name)
  {
    if |row| >= n {
      if n == 2 {
        assert row[..2][1..] == [row[1]];
        assert row[0] + ":" + row[1] == row[0] + (":" + row[1]);
      }
    }
  }

  lemma {:induction false} RowUnitsAre(rows: seq<seq<string>>, n: nat, name: string)
    requires 1 <= n <= 2
    ensures name in RowUnits(rows, n) <==> exists k :: LastRow(rows, n, name, k)
    ensures forall k :: LastRow(rows, n, name, k) ==>
              name in RowUnits(rows, n) && RowUnits(rows, n)[name] == Columns(rows[k][n..])
  {
    if rows != [] {
      var last := |rows| - 1;
      var front := rows[..last];
      RowUnitsAre(front, n, name);
      RowNameIs(rows[last], n, name);
      hide RowOf, RowName;
      if RowOf(rows[last], n, name) {
        assert LastRow(rows, n, name, last);
      } else {
        forall k ensures LastRow(rows, n, name, k) <==> LastRow(front, n, name, k) {
          assert 0 <= k < last ==> front[k] == rows[k];
          assert forall j :: 0 <= j < last ==> front[j] == rows[j];
        }
      }
    }
  }

  /** WHAT DIFFERS UNIT BY UNIT: a package's files by path, a verdict's results by their first two columns, the last of
      equal names. */
  lemma UnitsAre(output: Output, name: string, k: nat)
    requires !BareObjects(output)
    ensures "entries" in output && LastRow(RowsAt(output, "entries"), 1, name, k) ==>
              name in Units(output) && Units(output)[name] == Columns(RowsAt(output, "entries")[k][1..])
    ensures "entries" !in output && LastRow(RowsAt(output, "results"), 2, name, k) ==>
              name in Units(output) && Units(output)[name] == Columns(RowsAt(output, "results")[k][2..])
    ensures "entries" in output && name in Units(output) ==> exists j :: LastRow(RowsAt(output, "entries"), 1, name, j)
    ensures "entries" !in output && name in Units(output) ==> exists j :: LastRow(RowsAt(output, "results"), 2, name, j)
  {
    RowUnitsAre(RowsAt(output, "entries"), 1, name);
    RowUnitsAre(RowsAt(output, "results"), 2, name);
  }

  lemma MergeGrows(disk: Disk, rival: Disk)
    ensures Grows(disk, Merge(disk, rival))
  {
  }

  lemma MergeValid(disk: Disk, rival: Disk)
    requires ValidDisk(disk) && ValidDisk(rival)
    ensures ValidDisk(Merge(disk, rival))
  {
    var met := Merge(disk, rival);
    forall key | key in met.records
      ensures met.records[key].key == key && ValidRecord(met.objects, met.records[key])
    {
      var from := if key in disk.records then disk else rival;
      ValidRecordGrows(from.objects, met.objects, from.records[key]);
    }
  }

  lemma ValidRecordGrows(objects: map<Digest, Bytes>, more: map<Digest, Bytes>, record: Record)
    requires ValidRecord(objects, record)
    requires objects.Keys <= more.Keys
    ensures ValidRecord(more, record)
  {
    forall name | name in record.outputs ensures HoldsObjectsOf(more, record.outputs[name]) {
      assert HoldsObjectsOf(objects, record.outputs[name]);
    }
  }

  lemma AddObjectsValid(disk: Disk, all: set<Bytes>)
    requires ValidDisk(disk)
    ensures ValidDisk(AddObjects(disk, all)) && Grows(disk, AddObjects(disk, all))
    ensures forall bytes <- all :: Sha256(bytes) in AddObjects(disk, all).objects
  {
    var after := AddObjects(disk, all);
    forall bytes | bytes in all ensures Sha256(bytes) in after.objects {
      assert Sha256(bytes) in Digests(all);
    }
    forall key | key in after.records
      ensures ValidRecord(after.objects, after.records[key])
    {
      ValidRecordGrows(disk.objects, after.objects, disk.records[key]);
    }
  }

  /** The offered outputs name only objects the disk holds, before any is stored by the commit itself. */
  ghost predicate OfferHeld(objects: map<Digest, Bytes>, task: Task) {
    forall name <- task.outputs :: HoldsObjectsOf(objects, task.outputs[name])
  }

  lemma NewRecordValid(objects: map<Digest, Bytes>, task: Task, counted: bool)
    requires WellFormed(task) && !Refused(task)
    requires OfferHeld(objects, task)
    requires forall bytes <- TaskBytes(task) :: Sha256(bytes) in objects
    requires forall name <- task.objects :: name == PACKAGE_OUTPUT && PackageKind(task.document) ==>
               task.objects[name].produced.One?
    ensures ValidRecord(objects, NewRecord(task, counted))
  {
    var record := NewRecord(task, counted);
    forall name | name in record.outputs ensures HoldsObjectsOf(objects, record.outputs[name]) {
      FilledIsHeld(objects, task, name);
    }
  }

  lemma FilledIsHeld(objects: map<Digest, Bytes>, task: Task, name: string)
    requires WellFormed(task) && OfferHeld(objects, task) && name in task.outputs
    requires forall bytes <- TaskBytes(task) :: Sha256(bytes) in objects
    ensures HoldsObjectsOf(objects, FilledOutput(task, name))
  {
    assert HoldsObjectsOf(objects, task.outputs[name]);
    if name in task.objects {
      var offer := task.objects[name];
      assert forall bytes <- OfferBytes(offer) :: bytes in TaskBytes(task);
      OfferIsHeld(objects, offer);
      hide ValueHeld, FieldValue, OfferBytes, TaskBytes, OfferHeld;
      var output := FilledOutput(task, name);
      forall field | field in OBJECT_FIELDS ensures ValueHeld(objects, Axis(output, field)) {
        assert Axis(output, field)
            == if field == offer.field then FieldValue(offer) else Axis(task.outputs[name], field);
      }
    }
  }

  lemma OfferIsHeld(objects: map<Digest, Bytes>, offer: Offer)
    requires forall bytes <- OfferBytes(offer) :: Sha256(bytes) in objects
    ensures ValueHeld(objects, FieldValue(offer))
  {
    match offer.produced
    case One(bytes) => assert bytes in OfferBytes(offer);
    case Many(members) =>
      forall member | member in members ensures Sha256(members[member]) in objects {
        assert members[member] in OfferBytes(offer);
      }
  }

  lemma {:induction false} MismatchesKeepTheRest(disk: Disk, task: Task, offered: map<string, Output>,
                                                 stored: Record, order: seq<string>)
    requires forall name <- order :: name in offered
    ensures var after := WithMismatches(disk, task, offered, stored, order);
            after.objects == disk.objects && after.records == disk.records && Grows(disk, after)
  {
    if order != [] {
      MismatchesKeepTheRest(disk, task, offered, stored, order[..|order| - 1]);
    }
  }
}
