/** Which record a restore uses (artefact_store.py, `_restore_index`, `restore_sources`): the choice is a function of
    the record directory as a set, and in a reachable store it never meets a corrupt record. */
module Restore {
  import opened Options
  import opened ArtefactStore
  import opened Provenance
  import opened Sorting
  import opened StoreRuns

  /** Where a member's content is looked up: a create record of one package, or any third-party record. */
  datatype Address = CreateOf(package: string, content: Digest) | ThirdPartyOf(content: Digest)

  datatype Wanted = Wanted(name: string, address: Address, configuration: Option<string>)

  datatype Source = Source(name: string, record: Record, configuration: string)

  datatype Finding = NoConfiguration(name: string) | NoTransport(name: string)

  datatype Restoration =
    | CorruptStore(record: Record)
    | Restored(sources: seq<Source>, findings: seq<Finding>)

  predicate At(record: Record, profile: string, address: Address) {
    match address
    case CreateOf(package, content) => Produces(record, profile, package, content)
    case ThirdPartyOf(content) =>
      record.inputs.ThirdPartyCreate? && record.inputs.profile == profile
      && PACKAGE_OUTPUT in record.outputs && Axis(record.outputs[PACKAGE_OUTPUT], "content") == Hash(content)
  }

  /** A package record, which keeps its binary alias. */
  predicate Aliased(record: Record) {
    PACKAGE_OUTPUT in record.outputs && Axis(record.outputs[PACKAGE_OUTPUT], "alias").Text?
  }

  /** A package record keeping a transport, as `restore_sources` reads one. */
  predicate Restorable(record: Record) {
    Aliased(record) && Axis(record.outputs[PACKAGE_OUTPUT], TRANSPORT_FIELD).Hash?
  }

  predicate TransportHeld(objects: map<Digest, Bytes>, record: Record)
    requires Restorable(record)
  {
    Axis(record.outputs[PACKAGE_OUTPUT], TRANSPORT_FIELD).digest in objects
  }

  predicate InConfiguration(record: Record, configuration: string)
    requires Aliased(record)
  {
    Configuration(Axis(record.outputs[PACKAGE_OUTPUT], "alias").text) == configuration
  }

  /** The sort key of a candidate: records of another configuration last, then by key (`hex` names a key's file). */
  predicate Preferred(hex: Key -> string, configuration: string, a: Record, b: Record)
    requires Aliased(a) && Aliased(b)
  {
    if InConfiguration(a, configuration) == InConfiguration(b, configuration) then Before(hex(a.key), hex(b.key))
    else InConfiguration(a, configuration)
  }

  ghost predicate Candidate(records: set<Record>, profile: string, address: Address, record: Record) {
    record in records && At(record, profile, address) && Restorable(record)
  }

  /** The record a member is restored from. */
  ghost predicate Chosen(records: set<Record>, profile: string, hex: Key -> string, wanted: Wanted, source: Source) {
    && wanted.configuration == Some(source.configuration) && source.name == wanted.name
    && Candidate(records, profile, wanted.address, source.record)
    && forall other | Candidate(records, profile, wanted.address, other) ::
         Preferred(hex, source.configuration, source.record, other)
  }

  /** Two records never share a file name. */
  ghost predicate Names(hex: Key -> string, records: set<Record>) {
    forall a, b | a in records && b in records && hex(a.key) == hex(b.key) :: a == b
  }

  /** A candidate preferred to all others, when there is one. */
  ghost predicate IsBest(records: set<Record>, profile: string, hex: Key -> string, address: Address,
                         configuration: string, best: Option<Record>)
  {
    match best
    case None => forall record :: !Candidate(records, profile, address, record)
    case Some(record) =>
      Candidate(records, profile, address, record)
      && forall other | Candidate(records, profile, address, other) :: Preferred(hex, configuration, record, other)
  }

  /** A candidate whose transport is gone, when there is one. */
  ghost predicate IsCorrupt(objects: map<Digest, Bytes>, records: set<Record>, profile: string, address: Address,
                            corrupt: Option<Record>)
  {
    match corrupt
    case None => forall record | Candidate(records, profile, address, record) :: TransportHeld(objects, record)
    case Some(record) => Candidate(records, profile, address, record) && !TransportHeld(objects, record)
  }

  /** One member's candidates: the best of them, and one whose transport is gone. */
  method Choose(objects: map<Digest, Bytes>, listing: seq<Record>, profile: string, hex: Key -> string,
                address: Address, configuration: string) returns (best: Option<Record>, corrupt: Option<Record>)
    ensures IsBest(RecordsIn(listing), profile, hex, address, configuration, best)
    ensures IsCorrupt(objects, RecordsIn(listing), profile, address, corrupt)
  {
    hide At, Preferred, RecordsIn, IsBest, IsCorrupt;
    best, corrupt := None, None;
    NoCandidates(objects, listing, profile, hex, address, configuration);
    for i := 0 to |listing|
      invariant IsBest(RecordsIn(listing[..i]), profile, hex, address, configuration, best)
      invariant IsCorrupt(objects, RecordsIn(listing[..i]), profile, address, corrupt)
    {
      var record := listing[i];
      BestNext(listing, i, profile, hex, address, configuration, best);
      CorruptNext(objects, listing, i, profile, address, corrupt);
      if At(record, profile, address) && Restorable(record) {
        if corrupt.None? && !TransportHeld(objects, record) { corrupt := Some(record); }
        if best.None? || !Preferred(hex, configuration, best.value, record) { best := Some(record); }
      }
    }
    assert listing[..|listing|] == listing;
  }

  lemma NoCandidates(objects: map<Digest, Bytes>, listing: seq<Record>, profile: string, hex: Key -> string,
                     address: Address, configuration: string)
    ensures IsBest(RecordsIn(listing[..0]), profile, hex, address, configuration, None)
    ensures IsCorrupt(objects, RecordsIn(listing[..0]), profile, address, None)
  {
  }

  /** The best of one record more. */
  lemma BestNext(listing: seq<Record>, i: int, profile: string, hex: Key -> string, address: Address,
                 configuration: string, best: Option<Record>)
    requires 0 <= i < |listing| && IsBest(RecordsIn(listing[..i]), profile, hex, address, configuration, best)
    ensures best.Some? ==> Restorable(best.value)
    ensures var record := listing[i];
            IsBest(RecordsIn(listing[..i + 1]), profile, hex, address, configuration,
                   if At(record, profile, address) && Restorable(record)
                      && (best.None? || !Preferred(hex, configuration, best.value, record)) then Some(record) else best)
  {
    hide At, RecordsIn, Before;
    CandidatesNext(listing, i, profile, address);
    BeforeIsTotalOrder();
  }

  lemma CorruptNext(objects: map<Digest, Bytes>, listing: seq<Record>, i: int, profile: string, address: Address,
                    corrupt: Option<Record>)
    requires 0 <= i < |listing| && IsCorrupt(objects, RecordsIn(listing[..i]), profile, address, corrupt)
    ensures var record := listing[i];
            IsCorrupt(objects, RecordsIn(listing[..i + 1]), profile, address,
                      if At(record, profile, address) && Restorable(record) && corrupt.None?
                         && !TransportHeld(objects, record) then Some(record) else corrupt)
  {
    hide At, RecordsIn;
    CandidatesNext(listing, i, profile, address);
  }

  lemma CandidatesNext(listing: seq<Record>, i: int, profile: string, address: Address)
    requires 0 <= i < |listing|
    ensures forall record :: Candidate(RecordsIn(listing[..i + 1]), profile, address, record) <==>
              Candidate(RecordsIn(listing[..i]), profile, address, record)
              || (record == listing[i] && At(record, profile, address) && Restorable(record))
  {
    RecordsInNext(listing, i);
  }

  datatype Answer = Stop(record: Record) | Take(source: Source) | Lack(finding: Finding)

  /** Some candidate of the member keeps a transport the store does not hold. */
  ghost predicate Corrupt(objects: map<Digest, Bytes>, records: set<Record>, profile: string, wanted: Wanted) {
    wanted.configuration.Some?
    && exists record :: Candidate(records, profile, wanted.address, record) && !TransportHeld(objects, record)
  }

  /** One turn of the loop of `restore_sources`. */
  method Answered(objects: map<Digest, Bytes>, listing: seq<Record>, profile: string, hex: Key -> string,
                  wanted: Wanted) returns (answer: Answer)
    ensures answer.Stop? <==> Corrupt(objects, RecordsIn(listing), profile, wanted)
    ensures answer.Take? ==> Chosen(RecordsIn(listing), profile, hex, wanted, answer.source)
    ensures answer.Lack? ==> Wanting(RecordsIn(listing), profile, wanted, answer.finding)
  {
    if wanted.configuration.None? { return Lack(NoConfiguration(wanted.name)); }
    var best, corrupt := Choose(objects, listing, profile, hex, wanted.address, wanted.configuration.value);
    if corrupt.Some? { return Stop(corrupt.value); }
    if best.None? { return Lack(NoTransport(wanted.name)); }
    answer := Take(Source(wanted.name, best.value, wanted.configuration.value));
  }

  /** `restore_sources`. */
  method RestoreSources(objects: map<Digest, Bytes>, listing: seq<Record>, profile: string, hex: Key -> string,
                        members: seq<Wanted>) returns (result: Restoration)
    ensures result.CorruptStore? <==>
              exists wanted <- members :: Corrupt(objects, RecordsIn(listing), profile, wanted)
    ensures result.Restored? ==> Accounted(RecordsIn(listing), profile, hex, members, result.sources, result.findings)
  {
    var sources, findings := [], [];
    ghost var records := RecordsIn(listing);
    for i := 0 to |members|
      invariant forall wanted <- members[..i] :: !Corrupt(objects, records, profile, wanted)
      invariant Accounted(records, profile, hex, members[..i], sources, findings)
    {
      var wanted := members[i];
      assert members[..i + 1] == members[..i] + [wanted];
      var answer := Answered(objects, listing, profile, hex, wanted);
      match answer
      case Stop(record) => return CorruptStore(record);
      case Take(source) =>
        AccountSource(records, profile, hex, members[..i], sources, findings, wanted, source);
        sources := sources + [source];
      case Lack(finding) =>
        AccountFinding(records, profile, hex, members[..i], sources, findings, wanted, finding);
        findings := findings + [finding];
    }
    assert members[..|members|] == members;
    result := Restored(sources, findings);
  }

  /** What a member's finding says of it. */
  ghost predicate Wanting(records: set<Record>, profile: string, wanted: Wanted, finding: Finding) {
    && finding.name == wanted.name
    && (finding.NoConfiguration? <==> wanted.configuration.None?)
    && (finding.NoTransport? ==> forall record :: !Candidate(records, profile, wanted.address, record))
  }

  /** Every member, in order, gives exactly one source or exactly one finding, and nothing else is given. */
  ghost predicate Accounted(records: set<Record>, profile: string, hex: Key -> string, members: seq<Wanted>,
                            sources: seq<Source>, findings: seq<Finding>)
    decreases |members|
  {
    if members == [] then sources == [] && findings == []
    else
      var last := members[|members| - 1];
      || (sources != [] && Chosen(records, profile, hex, last, sources[|sources| - 1])
          && Accounted(records, profile, hex, members[..|members| - 1], sources[..|sources| - 1], findings))
      || (findings != [] && Wanting(records, profile, last, findings[|findings| - 1])
          && Accounted(records, profile, hex, members[..|members| - 1], sources, findings[..|findings| - 1]))
  }

  lemma AccountSource(records: set<Record>, profile: string, hex: Key -> string, members: seq<Wanted>,
                      sources: seq<Source>, findings: seq<Finding>, wanted: Wanted, source: Source)
    requires Accounted(records, profile, hex, members, sources, findings)
    requires Chosen(records, profile, hex, wanted, source)
    ensures Accounted(records, profile, hex, members + [wanted], sources + [source], findings)
  {
    assert (members + [wanted])[..|members|] == members && (sources + [source])[..|sources|] == sources;
  }

  lemma AccountFinding(records: set<Record>, profile: string, hex: Key -> string, members: seq<Wanted>,
                       sources: seq<Source>, findings: seq<Finding>, wanted: Wanted, finding: Finding)
    requires Accounted(records, profile, hex, members, sources, findings)
    requires Wanting(records, profile, wanted, finding)
    ensures Accounted(records, profile, hex, members + [wanted], sources, findings + [finding])
  {
    assert (members + [wanted])[..|members|] == members && (findings + [finding])[..|findings|] == findings;
  }

  /** A member has one possible source, and never both a source and a finding. */
  lemma ChoiceIsUnique(records: set<Record>, profile: string, hex: Key -> string, wanted: Wanted, a: Source, b: Source)
    requires Names(hex, records) && Chosen(records, profile, hex, wanted, a) && Chosen(records, profile, hex, wanted, b)
    ensures a == b
  {
    assert Preferred(hex, a.configuration, a.record, b.record) && Preferred(hex, a.configuration, b.record, a.record);
    LexTotal(Points(hex(a.record.key)), Points(hex(b.record.key)));
    if Points(hex(a.record.key)) == Points(hex(b.record.key)) {
      PointsInjective(hex(a.record.key), hex(b.record.key));
    }
  }

  lemma ChosenIsNoFinding(records: set<Record>, profile: string, hex: Key -> string, wanted: Wanted, a: Source, f: Finding)
    ensures !(Chosen(records, profile, hex, wanted, a) && Wanting(records, profile, wanted, f))
  {
  }

  /** THE CHOICE IS ORDER-INDEPENDENT: whatever order the directory is enumerated in, the sources and findings of
      a restore list are the same. */
  lemma {:induction false} AccountIsUnique(records: set<Record>, profile: string, hex: Key -> string, members: seq<Wanted>,
                                           sources: seq<Source>, findings: seq<Finding>,
                                           sources': seq<Source>, findings': seq<Finding>)
    requires Names(hex, records)
    requires Accounted(records, profile, hex, members, sources, findings)
    requires Accounted(records, profile, hex, members, sources', findings')
    ensures sources == sources' && findings == findings'
    decreases |members|
  {
    hide Chosen, Names, Candidate;
    if members != [] {
      var last, front := members[|members| - 1], members[..|members| - 1];
      if sources != [] && Chosen(records, profile, hex, last, sources[|sources| - 1])
         && Accounted(records, profile, hex, front, sources[..|sources| - 1], findings) {
        if findings' != [] {
          ChosenIsNoFinding(records, profile, hex, last, sources[|sources| - 1], findings'[|findings'| - 1]);
        }
        ChoiceIsUnique(records, profile, hex, last, sources[|sources| - 1], sources'[|sources'| - 1]);
        AccountIsUnique(records, profile, hex, front, sources[..|sources| - 1], findings,
                        sources'[..|sources'| - 1], findings');
        assert sources == sources[..|sources| - 1] + [sources[|sources| - 1]];
        assert sources' == sources'[..|sources'| - 1] + [sources'[|sources'| - 1]];
      } else {
        if sources' != [] {
          ChosenIsNoFinding(records, profile, hex, last, sources'[|sources'| - 1], findings[|findings| - 1]);
        }
        assert findings[|findings| - 1] == findings'[|findings'| - 1];
        AccountIsUnique(records, profile, hex, front, sources, findings[..|findings| - 1],
                        sources', findings'[..|findings'| - 1]);
        assert findings == findings[..|findings| - 1] + [findings[|findings| - 1]];
        assert findings' == findings'[..|findings'| - 1] + [findings'[|findings'| - 1]];
      }
    }
  }

  /** The records at an address, in the order `restore_sources` sorts them: those of the named configuration first, then
      by key. */
  ghost predicate SortedCandidates(sorted: seq<Record>, records: set<Record>, profile: string, hex: Key -> string,
                                   address: Address, configuration: string) {
    && (forall record :: record in sorted <==> record in records && At(record, profile, address))
    && (forall record <- sorted :: Aliased(record))
    && forall i, j :: 0 <= i < j < |sorted| ==> Preferred(hex, configuration, sorted[i], sorted[j])
  }

  /** Those of them that keep a transport, in their order. */
  function Kept(sorted: seq<Record>): seq<Record> {
    if sorted == [] then [] else (if Restorable(sorted[0]) then [sorted[0]] else []) + Kept(sorted[1..])
  }

  ghost predicate FirstKept(sorted: seq<Record>, i: int) {
    0 <= i < |sorted| && Restorable(sorted[i]) && forall j :: 0 <= j < i ==> !Restorable(sorted[j])
  }

  /** The first record kept is a restorable one that comes before every other. */
  lemma {:induction false} KeptFirst(sorted: seq<Record>)
    ensures Kept(sorted) == [] <==> forall record <- sorted :: !Restorable(record)
    ensures Kept(sorted) != [] ==> exists i :: FirstKept(sorted, i) && sorted[i] == Kept(sorted)[0]
  {
    hide Restorable;
    if sorted != [] {
      var rest := sorted[1..];
      KeptFirst(rest);
      assert forall record :: record in sorted <==> record == sorted[0] || record in rest;
      if Restorable(sorted[0]) {
        assert FirstKept(sorted, 0);
      } else if Kept(rest) != [] {
        var i :| FirstKept(rest, i) && rest[i] == Kept(rest)[0];
        assert forall j :: 1 <= j < |sorted| ==> sorted[j] == rest[j - 1];
        assert FirstKept(sorted, i + 1);
      }
    }
  }

  /** THE CHOSEN RECORD IS THE FIRST OF THE SORTED ONES: whatever order the directory lists them in, a source is chosen
      exactly when sorting the records at its address and keeping those with a transport leaves any, and is then the first
      of these. */
  lemma ChosenIsFirstOfSorted(records: set<Record>, profile: string, hex: Key -> string, wanted: Wanted, source: Source,
                              sorted: seq<Record>)
    requires Names(hex, records) && wanted.configuration == Some(source.configuration) && source.name == wanted.name
    requires SortedCandidates(sorted, records, profile, hex, wanted.address, source.configuration)
    ensures Chosen(records, profile, hex, wanted, source) <==> Kept(sorted) != [] && Kept(sorted)[0] == source.record
  {
    hide At, Preferred, Restorable, Kept, Names;
    KeptFirst(sorted);
    if Kept(sorted) != [] {
      var i :| FirstKept(sorted, i) && sorted[i] == Kept(sorted)[0];
      var first := Source(wanted.name, sorted[i], source.configuration);
      FirstIsChosen(records, profile, hex, wanted, first, sorted, i);
      if Chosen(records, profile, hex, wanted, source) {
        ChoiceIsUnique(records, profile, hex, wanted, source, first);
      }
    }
  }

  lemma FirstIsChosen(records: set<Record>, profile: string, hex: Key -> string, wanted: Wanted, first: Source,
                      sorted: seq<Record>, i: int)
    requires wanted.configuration == Some(first.configuration) && first.name == wanted.name
    requires SortedCandidates(sorted, records, profile, hex, wanted.address, first.configuration)
    requires FirstKept(sorted, i) && first.record == sorted[i]
    ensures Chosen(records, profile, hex, wanted, first)
  {
    hide At, Preferred, Aliased;
    forall other | Candidate(records, profile, wanted.address, other)
      ensures Preferred(hex, first.configuration, sorted[i], other)
    {
      var j :| 0 <= j < |sorted| && sorted[j] == other;
      assert i <= j;
      PreferredItself(hex, first.configuration, other);
    }
  }

  lemma PreferredItself(hex: Key -> string, configuration: string, record: Record)
    requires Aliased(record)
    ensures Preferred(hex, configuration, record, record)
  {
    LexTotal(Points(hex(record.key)), Points(hex(record.key)));
  }

  /** CORRUPTSTORE IS UNREACHABLE: in a store only these acts have written, every candidate's transport is held. */
  lemma RestoreNeverCorrupt(steps: seq<Step>, profile: string, address: Address, record: Record)
    requires Legal(INITIAL, steps)
    requires Candidate(After(INITIAL, steps).disk.records.Values, profile, address, record)
    ensures TransportHeld(After(INITIAL, steps).disk.objects, record)
  {
    hide Legal, After, Logged, Traced, RecordsSound, ValidDisk;
    ReachedStore(steps);
    StoredTransportHeld(After(INITIAL, steps).disk, record);
  }

  lemma StoredTransportHeld(disk: Disk, record: Record)
    requires ValidDisk(disk) && record in disk.records.Values && Restorable(record)
    ensures TransportHeld(disk.objects, record)
  {
    var key :| key in disk.records && disk.records[key] == record;
    assert ValidRecord(disk.objects, record);
    assert HoldsObjectsOf(disk.objects, record.outputs[PACKAGE_OUTPUT]);
    assert TRANSPORT_FIELD in OBJECT_FIELDS;
  }

  /** The restore of any list over a reachable store accounts for every member. */
  method RestoreFromAnyRun(ghost steps: seq<Step>, objects: map<Digest, Bytes>, listing: seq<Record>, profile: string,
                           hex: Key -> string, members: seq<Wanted>) returns (result: Restoration)
    requires Legal(INITIAL, steps)
    requires objects == After(INITIAL, steps).disk.objects
    requires RecordsIn(listing) == After(INITIAL, steps).disk.records.Values
    ensures result.Restored?
    ensures Accounted(After(INITIAL, steps).disk.records.Values, profile, hex, members, result.sources, result.findings)
  {
    forall wanted, record | wanted in members && Candidate(RecordsIn(listing), profile, wanted.address, record)
      ensures TransportHeld(objects, record)
    {
      RestoreNeverCorrupt(steps, profile, wanted.address, record);
    }
    result := RestoreSources(objects, listing, profile, hex, members);
  }
}
