/** What a step may consume (artefact_store.py): the readers of the record directory, the two refusals that keep
    provenance closed, and the audit that re-judges every stored record. */
module Provenance {
  import opened ArtefactStore

  /** `record` is what the package's own create step at `profile` recorded with this content. */
  predicate Produces(record: Record, profile: string, package: string, content: Digest) {
    && record.inputs.ConanCreate? && record.inputs.profile == profile && record.inputs.package == package
    && PACKAGE_OUTPUT in record.outputs && Axis(record.outputs[PACKAGE_OUTPUT], "content") == Hash(content)
  }

  predicate ThirdPartyAt(record: Record, profile: string, configuration: string) {
    && record.inputs.ThirdPartyCreate? && record.inputs.profile == profile
    && PACKAGE_OUTPUT in record.outputs
    && Axis(record.outputs[PACKAGE_OUTPUT], "alias").Text?
    && Configuration(Axis(record.outputs[PACKAGE_OUTPUT], "alias").text) == configuration
  }

  /** `record` is a third-party step's, at `profile`, of this configuration and content. */
  predicate Holds(record: Record, profile: string, configuration: string, content: Digest) {
    && ThirdPartyAt(record, profile, configuration)
    && Axis(record.outputs[PACKAGE_OUTPUT], "content") == Hash(content)
  }

  ghost predicate UpstreamRecorded(records: set<Record>, profile: string, package: string, content: Digest) {
    exists record <- records :: Produces(record, profile, package, content)
  }

  ghost predicate ThirdPartyHeld(records: set<Record>, profile: string, configuration: string, content: Digest) {
    exists record <- records :: Holds(record, profile, configuration, content)
  }

  ghost predicate UpstreamsRecorded(records: set<Record>, profile: string, upstream: map<string, Upstream>) {
    forall name <- upstream :: UpstreamRecorded(records, profile, PackageOf(name), upstream[name].content)
  }

  ghost predicate ThirdPartiesHeld(records: set<Record>, profile: string, thirdParty: map<string, ThirdParty>) {
    forall name <- thirdParty ::
      ThirdPartyHeld(records, profile, ConfigurationOf(thirdParty[name]), thirdParty[name].content)
  }

  /** Every content `document` consumes is held by one of `records`. */
  ghost predicate Supported(records: set<Record>, document: Document) {
    match document
    case ConanCreate(_, profile, _, _, upstream, thirdParty, _) =>
      UpstreamsRecorded(records, profile, upstream) && ThirdPartiesHeld(records, profile, thirdParty)
    case ConanBuild(_, profile, _, upstream, thirdParty, _) =>
      UpstreamsRecorded(records, profile, upstream) && ThirdPartiesHeld(records, profile, thirdParty)
    case ThirdPartyCreate(_, _, _, profile, thirdParty, _) => ThirdPartiesHeld(records, profile, thirdParty)
    case _ => true
  }

  lemma SupportedGrows(records: set<Record>, more: set<Record>, document: Document)
    requires Supported(records, document) && records <= more
    ensures Supported(more, document)
  {
    if !document.StepOutcome? && !document.Judged? {
      forall name | name in document.thirdParty
        ensures ThirdPartyHeld(more, document.profile, ConfigurationOf(document.thirdParty[name]),
                               document.thirdParty[name].content)
      {
        assert ThirdPartyHeld(records, document.profile, ConfigurationOf(document.thirdParty[name]),
                              document.thirdParty[name].content);
      }
      if !document.ThirdPartyCreate? {
        forall name | name in document.upstream
          ensures UpstreamRecorded(more, document.profile, PackageOf(name), document.upstream[name].content)
        {
          assert UpstreamRecorded(records, document.profile, PackageOf(name), document.upstream[name].content);
        }
      }
    }
  }

  function RecordsIn(listing: seq<Record>): set<Record> {
    set record | record in listing
  }

  /** The package output of every third-party record at `profile` of one configuration, in listing order. */
  function OutputsAt(listing: seq<Record>, profile: string, configuration: string): seq<Output> {
    if listing == [] then []
    else
      var last := listing[|listing| - 1];
      OutputsAt(listing[..|listing| - 1], profile, configuration)
      + if ThirdPartyAt(last, profile, configuration) then [last.outputs[PACKAGE_OUTPUT]] else []
  }

  lemma {:induction false} OutputsAtAreTheRecords(listing: seq<Record>, profile: string, configuration: string,
                                                  output: Output)
    ensures output in OutputsAt(listing, profile, configuration) <==>
            exists record <- listing :: ThirdPartyAt(record, profile, configuration)
                                        && record.outputs[PACKAGE_OUTPUT] == output
  {
    if listing != [] {
      var front, last := listing[..|listing| - 1], listing[|listing| - 1];
      OutputsAtAreTheRecords(front, profile, configuration, output);
      assert listing == front + [last];
      assert forall record :: record in listing <==> record in front || record == last;
    }
  }

  predicate InTable(produced: map<string, set<Digest>>, package: string, content: Digest) {
    package in produced && content in produced[package]
  }

  /** The table lists exactly what the create steps of `records` at `profile` recorded. */
  ghost predicate Tabulates(produced: map<string, set<Digest>>, records: set<Record>, profile: string) {
    forall package: string, content: Digest ::
      InTable(produced, package, content) <==> UpstreamRecorded(records, profile, package, content)
  }

  /** `produced_packages`. */
  method ProducedPackages(listing: seq<Record>, profile: string) returns (produced: map<string, set<Digest>>)
    ensures Tabulates(produced, RecordsIn(listing), profile)
  {
    produced := map[];
    for i := 0 to |listing|
      invariant Tabulates(produced, RecordsIn(listing[..i]), profile)
    {
      var record := listing[i];
      RecordsInNext(listing, i);
      ghost var was := produced;
      if record.inputs.ConanCreate? && record.inputs.profile == profile && PACKAGE_OUTPUT in record.outputs
         && Axis(record.outputs[PACKAGE_OUTPUT], "content").Hash? {
        var package := record.inputs.package;
        var content := Axis(record.outputs[PACKAGE_OUTPUT], "content").digest;
        var before := if package in produced then produced[package] else {};
        produced := produced[package := before + {content}];
      }
      forall package: string, content: Digest
        ensures InTable(produced, package, content) <==>
                UpstreamRecorded(RecordsIn(listing[..i + 1]), profile, package, content)
      {
        assert InTable(was, package, content) <==>
               UpstreamRecorded(RecordsIn(listing[..i]), profile, package, content);
        assert InTable(produced, package, content) <==>
               InTable(was, package, content) || Produces(record, profile, package, content);
      }
    }
    assert listing[..|listing|] == listing;
  }

  lemma RecordsInNext(listing: seq<Record>, i: int)
    requires 0 <= i < |listing|
    ensures RecordsIn(listing[..i + 1]) == RecordsIn(listing[..i]) + {listing[i]}
    ensures forall profile: string, package: string, content: Digest ::
              UpstreamRecorded(RecordsIn(listing[..i + 1]), profile, package, content) <==>
              UpstreamRecorded(RecordsIn(listing[..i]), profile, package, content)
              || Produces(listing[i], profile, package, content)
  {
    assert listing[..i + 1] == listing[..i] + [listing[i]];
  }

  /** `third_party_records`. */
  method ThirdPartyRecords(listing: seq<Record>, profile: string) returns (held: map<string, seq<Output>>)
    requires forall record <- listing :: record.inputs.ThirdPartyCreate? ==>
               PACKAGE_OUTPUT in record.outputs && Axis(record.outputs[PACKAGE_OUTPUT], "alias").Text?
    ensures forall configuration: string ::
              (if configuration in held then held[configuration] else []) == OutputsAt(listing, profile, configuration)
  {
    held := map[];
    for i := 0 to |listing|
      invariant forall configuration: string ::
        (if configuration in held then held[configuration] else [])
        == OutputsAt(listing[..i], profile, configuration)
    {
      var record := listing[i];
      assert listing[..i + 1][..i] == listing[..i];
      if record.inputs.ThirdPartyCreate? && record.inputs.profile == profile {
        var output := record.outputs[PACKAGE_OUTPUT];
        var configuration := Configuration(Axis(output, "alias").text);
        held := held[configuration := (if configuration in held then held[configuration] else []) + [output]];
      }
    }
    assert listing[..|listing|] == listing;
  }

  /** `unrecorded_upstreams`: each upstream label whose content no record of that package's own step holds. */
  method UnrecordedUpstreams(listing: seq<Record>, profile: string, upstream: map<string, Upstream>)
    returns (unrecorded: set<string>)
    ensures unrecorded == set name | name in upstream
                                     && !UpstreamRecorded(RecordsIn(listing), profile, PackageOf(name), upstream[name].content)
  {
    var produced := ProducedPackages(listing, profile);
    unrecorded := set name | name in upstream
                             && !InTable(produced, PackageOf(name), upstream[name].content);
  }

  /** `unheld_third_party`: each third-party label whose content no third-party record of its configuration holds. */
  method UnheldThirdParty(held: map<string, seq<Output>>, thirdParty: map<string, ThirdParty>)
    returns (unheld: set<string>)
    ensures unheld == set name | name in thirdParty && !ContentAmong(held, ConfigurationOf(thirdParty[name]), thirdParty[name].content)
  {
    unheld := set name | name in thirdParty && !ContentAmong(held, ConfigurationOf(thirdParty[name]), thirdParty[name].content);
  }

  predicate ContentAmong(held: map<string, seq<Output>>, configuration: string, content: Digest) {
    configuration in held
    && exists i :: 0 <= i < |held[configuration]| && Axis(held[configuration][i], "content") == Hash(content)
  }

  lemma ContentAmongIsHeld(listing: seq<Record>, profile: string, held: map<string, seq<Output>>,
                           configuration: string, content: Digest)
    requires (if configuration in held then held[configuration] else []) == OutputsAt(listing, profile, configuration)
    ensures ContentAmong(held, configuration, content) <==>
            ThirdPartyHeld(RecordsIn(listing), profile, configuration, content)
  {
    var outputs := OutputsAt(listing, profile, configuration);
    if i: int :| 0 <= i < |outputs| && Axis(outputs[i], "content") == Hash(content) {
      OutputsAtAreTheRecords(listing, profile, configuration, outputs[i]);
      var record :| record in listing && ThirdPartyAt(record, profile, configuration)
                    && record.outputs[PACKAGE_OUTPUT] == outputs[i];
      assert Holds(record, profile, configuration, content) && record in RecordsIn(listing);
    }
    if record: Record :| record in RecordsIn(listing) && Holds(record, profile, configuration, content) {
      OutputsAtAreTheRecords(listing, profile, configuration, record.outputs[PACKAGE_OUTPUT]);
      var i :| 0 <= i < |outputs| && outputs[i] == record.outputs[PACKAGE_OUTPUT];
      assert Axis(outputs[i], "content") == Hash(content);
    }
  }

  predicate AuditedKind(document: Document) {
    document.ConanCreate? || document.ConanBuild?
  }

  /** What the two searches of `audit_upstreams` find of one record. */
  lemma FoundNothingIff(listing: seq<Record>, document: Document, unrecorded: set<string>, held: map<string, seq<Output>>,
                        unheld: set<string>)
    requires AuditedKind(document)
    requires unrecorded == set name | name in document.upstream
               && !UpstreamRecorded(RecordsIn(listing), document.profile, PackageOf(name), document.upstream[name].content)
    requires forall configuration: string ::
               (if configuration in held then held[configuration] else [])
               == OutputsAt(listing, document.profile, configuration)
    requires unheld == set name | name in document.thirdParty
               && !ContentAmong(held, ConfigurationOf(document.thirdParty[name]), document.thirdParty[name].content)
    ensures unrecorded == {} && unheld == {} <==> Supported(RecordsIn(listing), document)
  {
    var all, profile := RecordsIn(listing), document.profile;
    assert unrecorded == {} <==> UpstreamsRecorded(all, profile, document.upstream) by {
      hide UpstreamRecorded;
      assert forall name <- document.upstream :: name !in unrecorded ==>
        UpstreamRecorded(all, profile, PackageOf(name), document.upstream[name].content);
    }
    forall name | name in document.thirdParty
      ensures name in unheld <==> !ThirdPartyHeld(all, profile, ConfigurationOf(document.thirdParty[name]),
                                                  document.thirdParty[name].content)
    {
      ContentAmongIsHeld(listing, profile, held, ConfigurationOf(document.thirdParty[name]),
                         document.thirdParty[name].content);
    }
    assert unheld == {} <==> ThirdPartiesHeld(all, profile, document.thirdParty) by {
      hide ThirdPartyHeld;
      assert forall name <- document.thirdParty :: name !in unheld ==>
        ThirdPartyHeld(all, profile, ConfigurationOf(document.thirdParty[name]), document.thirdParty[name].content);
    }
  }

  /** `audit_upstreams`: 1 when some create or build record consumes a content nothing in the store holds. */
  method AuditUpstreams(listing: seq<Record>) returns (code: int)
    requires forall record <- listing :: record.inputs.ThirdPartyCreate? ==>
               PACKAGE_OUTPUT in record.outputs && Axis(record.outputs[PACKAGE_OUTPUT], "alias").Text?
    ensures code == 0 || code == 1
    ensures code == 0 <==> forall record <- listing :: AuditedKind(record.inputs) ==> Supported(RecordsIn(listing), record.inputs)
  {
    hide Supported, RecordsIn, OutputsAt, UpstreamRecorded, ContentAmong;
    var flagged := 0;
    for i := 0 to |listing|
      invariant 0 <= flagged
      invariant flagged == 0 <==> forall j :: 0 <= j < i && AuditedKind(listing[j].inputs) ==> Supported(RecordsIn(listing), listing[j].inputs)
    {
      var document := listing[i].inputs;
      if AuditedKind(document) {
        var unrecorded := UnrecordedUpstreams(listing, document.profile, document.upstream);
        var held := ThirdPartyRecords(listing, document.profile);
        var unheld := UnheldThirdParty(held, document.thirdParty);
        FoundNothingIff(listing, document, unrecorded, held, unheld);
        if unrecorded != {} || unheld != {} { flagged := flagged + 1; }
      }
    }
    code := if flagged != 0 then 1 else 0;
  }
}
