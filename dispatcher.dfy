/**
 * The request handler: reject a request without query parameters, otherwise
 * take the first truthy parameter among `target`, `disease`, `allTargets`
 * and `allDiseases` and build the matching response.
 */
module Dispatcher {
  import opened Wrappers
  import opened Lookup
  import opened Formatter
  import opened Response
  import opened Resolver

  /** The invocation event; its parameter bag is absent when no query was given. */
  datatype Event = Event(queryStringParameters: Option<map<string, string>>)

  /** The response body: a plain message, or the entry list that is serialised. */
  datatype Body = Text(text: string) | Entries(entries: seq<EntryValue>)

  datatype Reply = Reply(statusCode: int, body: Body)

  const NoQueryMessage := "No query provided."

  /** JavaScript truthiness of `params[name]`: present and not the empty string. */
  predicate Truthy(params: map<string, string>, name: string)
  {
    name in params && params[name] != ""
  }

  /** What the handler answers, as a function of the event and the two tables. */
  function HandlerSpec(event: Event, diseaseLookup: Table, targetLookup: Table): Reply
  {
    match event.queryStringParameters
    case None => Reply(400, Text(NoQueryMessage))
    case Some(params) =>
      var responseValue :=
        if Truthy(params, "target") then
          Cited(Resolved(Split(params["target"]), targetLookup, DiseaseEntity, diseaseLookup))
        else if Truthy(params, "disease") then
          Cited(Resolved(Split(params["disease"]), diseaseLookup, TargetEntity, diseaseLookup))
        else if Truthy(params, "allTargets") then
          Listed(targetLookup, DiseaseEntity, diseaseLookup)
        else if Truthy(params, "allDiseases") then
          Listed(diseaseLookup, TargetEntity, diseaseLookup)
        else
          [];
      Reply(200, Entries(responseValue))
  }

  /** `handler`: dispatch on the query parameters, cite lookups, serialise the entries. */
  method Handler(event: Event, diseaseLookup: Table, targetLookup: Table) returns (reply: Reply)
    ensures reply == HandlerSpec(event, diseaseLookup, targetLookup)
  {
    var responseValue: seq<ResponseEntry> := [];
    if event.queryStringParameters.None? {
      return Reply(400, Text(NoQueryMessage));
    }
    var params := event.queryStringParameters.value;
    if Truthy(params, "target") {
      responseValue := GetAndProcessData(params["target"], targetLookup, DiseaseEntity, diseaseLookup);
      ghost var found := Snapshots(responseValue);
      AddCitations(responseValue);
      assert Snapshots(responseValue) == Cited(found);
    } else if Truthy(params, "disease") {
      responseValue := GetAndProcessData(params["disease"], diseaseLookup, TargetEntity, diseaseLookup);
      ghost var found := Snapshots(responseValue);
      AddCitations(responseValue);
      assert Snapshots(responseValue) == Cited(found);
    } else if Truthy(params, "allTargets") {
      responseValue := GetAllData(targetLookup, DiseaseEntity, diseaseLookup);
    } else if Truthy(params, "allDiseases") {
      responseValue := GetAllData(diseaseLookup, TargetEntity, diseaseLookup);
    }
    reply := Reply(200, Entries(Snapshots(responseValue)));
  }

  /**
   * The status is 400 exactly when the parameter bag is absent; the answer is
   * then the fixed message, whatever the tables hold.
   */
  lemma MissingParametersRejected(event: Event, diseaseLookup: Table, targetLookup: Table, otherDiseases: Table, otherTargets: Table)
    ensures HandlerSpec(event, diseaseLookup, targetLookup).statusCode == 400 <==> event.queryStringParameters.None?
    ensures event.queryStringParameters.None? ==>
      HandlerSpec(event, diseaseLookup, targetLookup) == Reply(400, Text("No query provided.")) ==
      HandlerSpec(event, otherDiseases, otherTargets)
  {
  }

  /** A parameter bag with none of the four parameters truthy gets 200 and an empty list. */
  lemma NoRecognisedParameter(params: map<string, string>, diseaseLookup: Table, targetLookup: Table)
    requires !Truthy(params, "target") && !Truthy(params, "disease")
    requires !Truthy(params, "allTargets") && !Truthy(params, "allDiseases")
    ensures HandlerSpec(Event(Some(params)), diseaseLookup, targetLookup) == Reply(200, Entries([]))
  {
  }

  /** A truthy `target` decides the answer; every other parameter is ignored. */
  lemma TargetFirst(params: map<string, string>, diseaseLookup: Table, targetLookup: Table)
    requires Truthy(params, "target")
    ensures HandlerSpec(Event(Some(params)), diseaseLookup, targetLookup)
         == HandlerSpec(Event(Some(map["target" := params["target"]])), diseaseLookup, targetLookup)
  {
  }

  /** Without a truthy `target`, a truthy `disease` decides the answer. */
  lemma DiseaseSecond(params: map<string, string>, diseaseLookup: Table, targetLookup: Table)
    requires !Truthy(params, "target") && Truthy(params, "disease")
    ensures HandlerSpec(Event(Some(params)), diseaseLookup, targetLookup)
         == HandlerSpec(Event(Some(map["disease" := params["disease"]])), diseaseLookup, targetLookup)
  {
  }

  /** Next comes `allTargets`, whose value only has to be truthy. */
  lemma AllTargetsThird(params: map<string, string>, diseaseLookup: Table, targetLookup: Table)
    requires !Truthy(params, "target") && !Truthy(params, "disease") && Truthy(params, "allTargets")
    ensures HandlerSpec(Event(Some(params)), diseaseLookup, targetLookup)
         == HandlerSpec(Event(Some(map["allTargets" := "true"])), diseaseLookup, targetLookup)
  {
  }

  /** `allDiseases` is tried last, and its value only has to be truthy. */
  lemma AllDiseasesLast(params: map<string, string>, diseaseLookup: Table, targetLookup: Table)
    requires !Truthy(params, "target") && !Truthy(params, "disease") && !Truthy(params, "allTargets")
    requires Truthy(params, "allDiseases")
    ensures HandlerSpec(Event(Some(params)), diseaseLookup, targetLookup)
         == HandlerSpec(Event(Some(map["allDiseases" := "true"])), diseaseLookup, targetLookup)
  {
  }

  /**
   * On the `target` and `disease` paths every entry is cited (publisher "NAR
   * Genomics and Bioinformatics"), has no `entity`, and every prediction in
   * it carries a confidence block.
   */
  lemma LookupPathsCiteWithConfidence(params: map<string, string>, diseaseLookup: Table, targetLookup: Table)
    requires Truthy(params, "target") || Truthy(params, "disease")
    ensures HandlerSpec(Event(Some(params)), diseaseLookup, targetLookup).statusCode == 200
    ensures forall e :: e in HandlerSpec(Event(Some(params)), diseaseLookup, targetLookup).body.entries ==>
      && e.citation == Some(TheCitation)
      && e.citation.value.publisher.name == "NAR Genomics and Bioinformatics"
      && e.entity.None?
      && forall p :: p in e.predictions ==> p.confidence.Some?
  {
    var found :=
      if Truthy(params, "target") then Resolved(Split(params["target"]), targetLookup, DiseaseEntity, diseaseLookup)
      else Resolved(Split(params["disease"]), diseaseLookup, TargetEntity, diseaseLookup);
    if Truthy(params, "target") {
      ResolvedShape(Split(params["target"]), targetLookup, DiseaseEntity, diseaseLookup);
    } else {
      ResolvedShape(Split(params["disease"]), diseaseLookup, TargetEntity, diseaseLookup);
    }
    CitedKeeps(found);
    forall e | e in Cited(found)
      ensures e.entity.None? && forall p :: p in e.predictions ==> p.confidence.Some?
    {
      var i :| 0 <= i < |found| && Cited(found)[i] == e;
      assert found[i] in found;
    }
  }

  /** On the listing paths no entry is cited and no prediction carries a confidence block. */
  lemma ListingPathsUncitedWithoutConfidence(params: map<string, string>, diseaseLookup: Table, targetLookup: Table)
    requires !Truthy(params, "target") && !Truthy(params, "disease")
    ensures HandlerSpec(Event(Some(params)), diseaseLookup, targetLookup).statusCode == 200
    ensures forall e :: e in HandlerSpec(Event(Some(params)), diseaseLookup, targetLookup).body.entries ==>
      e.citation.None? && forall p :: p in e.predictions ==> p.confidence.None?
  {
    ListedShape(targetLookup, DiseaseEntity, diseaseLookup);
    ListedShape(diseaseLookup, TargetEntity, diseaseLookup);
  }

  /**
   * Querying one comma-free key that the target table holds gives exactly one
   * entry, holding every prediction filed under the key, each with confidence.
   */
  lemma SingleTargetQuery(params: map<string, string>, diseaseLookup: Table, targetLookup: Table)
    requires Truthy(params, "target") && ',' !in params["target"]
    requires HasKey(targetLookup, params["target"])
    ensures
      var reply := HandlerSpec(Event(Some(params)), diseaseLookup, targetLookup);
      var record := Get(targetLookup, params["target"]).value;
      && reply.statusCode == 200
      && |reply.body.entries| == 1
      && reply.body.entries[0].predictions == Extracted(DiseaseEntity, diseaseLookup, record.predictions, true)
      && |reply.body.entries[0].predictions| == |record.predictions|
      && forall p :: p in reply.body.entries[0].predictions ==> p.confidence.Some?
  {
    var key := params["target"];
    SplitJoin([key]);
    ExtractedConfidence(DiseaseEntity, diseaseLookup, Get(targetLookup, key).value.predictions, true);
    assert Resolved([key], targetLookup, DiseaseEntity, diseaseLookup)
        == Found(key, targetLookup, DiseaseEntity, diseaseLookup);
  }

  /**
   * A key missing from the table between two present keys is dropped: the
   * query "a,x,b" gives the entries for a and for b, in that order, cited.
   */
  lemma UnknownKeyDropped(a: string, x: string, b: string, diseaseLookup: Table, targetLookup: Table)
    requires ',' !in a && ',' !in x && ',' !in b
    requires HasKey(targetLookup, a) && !HasKey(targetLookup, x) && HasKey(targetLookup, b)
    ensures
      var reply := HandlerSpec(Event(Some(map["target" := a + "," + x + "," + b])), diseaseLookup, targetLookup);
      && reply.body.entries == Cited(
        Found(a, targetLookup, DiseaseEntity, diseaseLookup) + Found(b, targetLookup, DiseaseEntity, diseaseLookup))
      && |reply.body.entries| == 2
  {
    var query := a + "," + x + "," + b;
    var params := map["target" := query];
    assert query[|a|] == ',';
    assert Truthy(params, "target");
    MissBetweenHits(a, x, b, targetLookup, DiseaseEntity, diseaseLookup);
  }

  /**
   * The worked example: with "Lung Cancer" filed under its own name and one
   * EGFR prediction, `disease=Lung Cancer` returns that kinase with its
   * confidence, cited.
   */
  lemma LungCancerExample(targetLookup: Table)
    ensures
      var record := LookupRecord("Lung Cancer", [Prediction("Lung Cancer", "EGFR", 0.87)]);
      var params := map["disease" := "Lung Cancer"];
      var kinase := FormattedPrediction(
        "Prediction", "Predicted Kinase", Protein("https://schema.org", "EGFR"), Some(ConfidenceBlock(0.87)));
      HandlerSpec(Event(Some(params)), [("Lung Cancer", record)], targetLookup)
        == Reply(200, Entries([EntryValue(None, [kinase], Some(TheCitation))]))
  {
    var key := "Lung Cancer";
    var record := LookupRecord(key, [Prediction(key, "EGFR", 0.87)]);
    var diseaseLookup := [(key, record)];
    assert ',' !in key;
    var params := map["disease" := key];
    var kinase := FormattedPrediction(
      "Prediction", "Predicted Kinase", Protein("https://schema.org", "EGFR"), Some(ConfidenceBlock(0.87)));
    SplitJoin([key]);
    assert Split(key) == [key];
    ResolvedSingle(key, diseaseLookup, TargetEntity, diseaseLookup);
    assert Get(diseaseLookup, key) == Some(record);
    var predictions := Extracted(TargetEntity, diseaseLookup, record.predictions, true);
    assert predictions == [kinase] by {
      assert |predictions| == 1;
      assert predictions[0] == FormatTargetEntity(record.predictions[0], true);
    }
    var found := [EntryValue(None, [kinase], None)];
    assert Resolved(Split(key), diseaseLookup, TargetEntity, diseaseLookup) == found;
    assert Cited(found) == [EntryValue(None, [kinase], Some(TheCitation))] by {
      assert |Cited(found)| == 1 && Cited(found)[0] == Cite(found[0]);
    }
    assert !Truthy(params, "target") && Truthy(params, "disease");
  }
}
