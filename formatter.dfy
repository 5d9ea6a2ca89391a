/**
 * The two prediction formatters and `extractPredictions`, which maps one of
 * them over a record's predictions. A formatted prediction is the
 * schema.org-style object the service emits, as a value.
 */
module Formatter {
  import opened Wrappers
  import opened Lookup
  import opened Mesh

  const SchemaOrg := "https://schema.org"
  const ConfidenceDescription :=
    "Measure of the relevance of inhibiting a particular protein kinase for a specific cancer"

  /** The `confidence` block: a schema.org QuantitativeValue. */
  datatype QuantitativeValue = QuantitativeValue(
    context: string,
    typ: string,
    value: Probability,
    alternateName: string,
    description: string,
    maxValue: int,
    minValue: int)

  /** The `value` of a formatted prediction: the predicted entity. */
  datatype Thing =
    | Protein(context: string, name: string)
    | MedicalCondition(context: string, name: string, alternateName: string)

  /** One emitted prediction; `confidence` is None when the key is absent. */
  datatype FormattedPrediction = FormattedPrediction(
    typ: string,
    name: string,
    value: Thing,
    confidence: Option<QuantitativeValue>)

  /** Which formatter a caller passes in. */
  datatype FormatterKind = TargetEntity | DiseaseEntity

  /** The confidence block both formatters attach when asked to. */
  function ConfidenceBlock(probability: Probability): (c: QuantitativeValue)
    ensures c.value == probability && c.minValue == 0 && c.maxValue == 1
    ensures c.alternateName == "probability" && c.description == ConfidenceDescription
  {
    QuantitativeValue(SchemaOrg, "QuantitativeValue", probability, "probability", ConfidenceDescription, 1, 0)
  }

  /** `formatTargetEntity`: a "Predicted Kinase" wrapping the predicted protein. */
  function FormatTargetEntity(pred: Prediction, includeConfidence: bool): (r: FormattedPrediction)
    ensures r.typ == "Prediction" && r.name == "Predicted Kinase"
    ensures r.value.Protein? && r.value.name == pred.target
    ensures r.confidence.Some? <==> includeConfidence
    ensures includeConfidence ==> r.confidence.value == ConfidenceBlock(pred.probability)
  {
    var ret := FormattedPrediction("Prediction", "Predicted Kinase", Protein(SchemaOrg, pred.target), None);
    if includeConfidence then ret.(confidence := Some(ConfidenceBlock(pred.probability))) else ret
  }

  /** JavaScript's `"MESH:" + id`, where a null id prints as "null". */
  function MeshName(meshId: Option<string>): string
  {
    "MESH:" + match meshId
      case Some(id) => id
      case None => "null"
  }

  /**
   * `formatDiseaseEntity`: a "Predicted Cancer" wrapping the predicted
   * condition; `meshId` is what `findMeshID` returned for the prediction.
   */
  function FormatDiseaseEntity(pred: Prediction, meshId: Option<string>, includeConfidence: bool): (r: FormattedPrediction)
    ensures r.typ == "Prediction" && r.name == "Predicted Cancer"
    ensures r.value.MedicalCondition? && r.value.name == pred.disease
    ensures meshId.Some? ==> r.value.alternateName == "MESH:" + meshId.value
    ensures meshId.None? ==> r.value.alternateName == "MESH:null"
    ensures r.confidence.Some? <==> includeConfidence
    ensures includeConfidence ==> r.confidence.value == ConfidenceBlock(pred.probability)
  {
    var ret := FormattedPrediction(
      "Prediction", "Predicted Cancer", MedicalCondition(SchemaOrg, pred.disease, MeshName(meshId)), None);
    if includeConfidence then ret.(confidence := Some(ConfidenceBlock(pred.probability))) else ret
  }

  /** The formatter `f` applied to one prediction, resolving MESH ids in `diseaseLookup`. */
  function Format(f: FormatterKind, diseaseLookup: Table, pred: Prediction, includeConfidence: bool): FormattedPrediction
  {
    match f
    case TargetEntity => FormatTargetEntity(pred, includeConfidence)
    case DiseaseEntity => FormatDiseaseEntity(pred, MeshId(diseaseLookup, pred.disease), includeConfidence)
  }

  /** The formatter mapped over a list of predictions. */
  function Extracted(f: FormatterKind, diseaseLookup: Table, preds: seq<Prediction>, includeConfidence: bool): seq<FormattedPrediction>
  {
    seq(|preds|, i requires 0 <= i < |preds| => Format(f, diseaseLookup, preds[i], includeConfidence))
  }

  /** `extractPredictions`: push the formatted form of every prediction, in order. */
  method ExtractPredictions(response: LookupRecord, f: FormatterKind, diseaseLookup: Table, includeConfidence: bool)
    returns (predictions: seq<FormattedPrediction>)
    ensures |predictions| == |response.predictions|
    ensures forall i :: 0 <= i < |predictions| ==>
      predictions[i] == Format(f, diseaseLookup, response.predictions[i], includeConfidence)
    ensures predictions == Extracted(f, diseaseLookup, response.predictions, includeConfidence)
  {
    predictions := [];
    for i := 0 to |response.predictions|
      invariant |predictions| == i
      invariant forall j :: 0 <= j < i ==>
        predictions[j] == Format(f, diseaseLookup, response.predictions[j], includeConfidence)
    {
      var pred := response.predictions[i];
      var formatted;
      match f {
        case TargetEntity =>
          formatted := FormatTargetEntity(pred, includeConfidence);
        case DiseaseEntity =>
          var meshId := FindMeshID(diseaseLookup, pred);
          formatted := FormatDiseaseEntity(pred, meshId, includeConfidence);
      }
      predictions := predictions + [formatted];
    }
  }

  /** The formatted list carries a confidence block on an element exactly when asked to. */
  lemma {:induction false} ExtractedConfidence(f: FormatterKind, diseaseLookup: Table, preds: seq<Prediction>, includeConfidence: bool)
    ensures |Extracted(f, diseaseLookup, preds, includeConfidence)| == |preds|
    ensures forall p :: p in Extracted(f, diseaseLookup, preds, includeConfidence) ==>
      (p.confidence.Some? <==> includeConfidence)
  {
    var r := Extracted(f, diseaseLookup, preds, includeConfidence);
    forall p | p in r ensures p.confidence.Some? <==> includeConfidence {
      var i :| 0 <= i < |r| && r[i] == p;
      match f
      case TargetEntity =>
      case DiseaseEntity =>
    }
  }

  /**
   * A target-formatted prediction keeps the target, and the probability
   * exactly when confidence is included: two predictions format alike iff
   * they agree on what is kept.
   */
  lemma TargetFormatKeeps(p: Prediction, q: Prediction, includeConfidence: bool)
    ensures FormatTargetEntity(p, includeConfidence) == FormatTargetEntity(q, includeConfidence)
        <==> p.target == q.target && (includeConfidence ==> p.probability == q.probability)
  {
    if FormatTargetEntity(p, includeConfidence) == FormatTargetEntity(q, includeConfidence) && includeConfidence {
      assert FormatTargetEntity(p, true).confidence.value.value == p.probability;
    }
  }

  /** The same for the disease formatter, which keeps the disease and its MESH name. */
  lemma DiseaseFormatKeeps(p: Prediction, q: Prediction, meshId: Option<string>, includeConfidence: bool)
    ensures FormatDiseaseEntity(p, meshId, includeConfidence) == FormatDiseaseEntity(q, meshId, includeConfidence)
        <==> p.disease == q.disease && (includeConfidence ==> p.probability == q.probability)
  {
    if FormatDiseaseEntity(p, meshId, includeConfidence) == FormatDiseaseEntity(q, meshId, includeConfidence) && includeConfidence {
      assert FormatDiseaseEntity(p, meshId, true).confidence.value.value == p.probability;
    }
  }

  /**
   * The disease formatter's alternate name is "MESH:" followed by the key of
   * the first disease entry whose source name is the predicted disease, or
   * "MESH:null" when no entry has that name.
   */
  lemma DiseaseAlternateName(diseaseLookup: Table, pred: Prediction, includeConfidence: bool, i: nat)
    ensures IsFirstMatch(diseaseLookup, pred.disease, i) ==>
      Format(DiseaseEntity, diseaseLookup, pred, includeConfidence).value.alternateName == "MESH:" + diseaseLookup[i].0
    ensures (forall j :: 0 <= j < |diseaseLookup| ==> diseaseLookup[j].1.sourceName != pred.disease) ==>
      Format(DiseaseEntity, diseaseLookup, pred, includeConfidence).value.alternateName == "MESH:null"
  {
    if IsFirstMatch(diseaseLookup, pred.disease, i) {
      FirstMatchIsMeshId(diseaseLookup, pred.disease, i);
    }
    MeshIdNoneIff(diseaseLookup, pred.disease);
  }

  /**
   * A disease whose MESH key is the string "null" prints exactly like one
   * with no MESH key at all.
   */
  lemma MeshNameNullAmbiguous()
    ensures MeshName(Some("null")) == MeshName(None)
  {
  }
}
