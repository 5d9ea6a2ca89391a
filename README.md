# Kinase–cancer prediction lookup service, modelled in Dafny

This project models the request pipeline of a read-only lookup service. The service answers "which protein
kinases are predicted relevant for this cancer" and the inverse question. A request carries a bag of query
parameters. The handler picks one of four branches, looks keys up in in-memory tables of precomputed
predictions, and reformats the stored predictions as schema.org-style objects ("Predicted Kinase" proteins or
"Predicted Cancer" medical conditions, with an optional `confidence` block). On the two lookup branches it
then attaches a fixed scholarly citation to every entry.

Layout, one module per component of `index.ts`:

- `wrappers.dfy` (`Wrappers`): `Option`, used for JavaScript's `undefined`/`null`.
- `lookup.dfy` (`Lookup`): predictions, lookup records, and a table as the ordered sequence of a `Map`'s
  entries. `Get` is `Map.prototype.get`.
- `mesh.dfy` (`Mesh`): `findMeshID` as a loop (`FindMeshID`), proved against the specification function
  `MeshId` ("first key in table order whose record's source name matches").
- `formatter.dfy` (`Formatter`): the two formatters (pure functions), the `Format` dispatch on a
  `FormatterKind` enum, and `extractPredictions` as a loop.
- `response.dfy` (`Response`): the citation constant and the `ResponseEntry` class. `addCitation` and
  `addCitations` assign its `citation` field in place. `Snapshot` gives the value an entry serialises to.
- `resolver.dfy` (`Resolver`): `String.prototype.split(",")` as `Split`, with `Join` as its inverse.
  `getAndProcessData` and `getAllData` are loops proved against the specification functions `Resolved` and
  `Listed`.
- `dispatcher.dfy` (`Dispatcher`): `handler` as a method proved equal to the function `HandlerSpec`, and
  the lemmas about the whole pipeline.

Modelling decisions:

- The tables are given inputs (`diseaseLookup`, `targetLookup`). They are Dafny values, so no operation can
  change them. This covers the source's deep copy before formatting (index.ts:72): the stored records are
  never touched.
- `findMeshID` reads the global disease table. The model passes that table explicitly as `diseaseLookup`.
- JavaScript truthiness is modelled as the code has it. `if (params.target)` is false for a parameter that is
  present but empty, so an empty `target=` falls through to the next branch (`Truthy`). This differs from a
  reading where "the parameter is present" selects the branch. The model follows the code. It follows that
  `getAndProcessData` is never called with the empty string from the handler.
- `if (rawData)` is always true for a found record, so it becomes `Get(...).Some?`. `if (resp)` guards against
  a null entry, so `AddCitations` takes a sequence of nullable `ResponseEntry?`.
- The response is `Reply(statusCode, body)`. The body is either the text message or the structured list of
  entries that `JSON.stringify` would serialise. An absent `entity` or `citation` key is `None`.
- The disease formatter writes `"MESH:" + mesh_id`. A null id prints as `"MESH:null"`, so a disease whose MESH
  key is literally the string `null` prints the same as one without a key (`MeshNameNullAmbiguous`).

## Model

| member | source | states |
|---|---|---|
| `Lookup.Get` | index.ts:70 | `Map.get` finds a record exactly when the key is in the table, and the result is an entry of the table |
| `Lookup.GetAt` | index.ts:70 | with unique keys (a `Map`), every entry is found under its own key |
| `Mesh.FindMeshID` | index.ts:94-102 | the scan with early return yields the first matching key in table order, or null (`MeshId`) |
| `Mesh.MeshIdMatches` | index.ts:95-98 | a returned key belongs to an entry whose `source_name` equals the prediction's disease, and no earlier entry matches |
| `Mesh.FirstMatchIsMeshId` | index.ts:95-98 | conversely, the first matching entry is the one whose key is returned |
| `Mesh.MeshIdNoneIff` | index.ts:95-101 | null is returned if and only if no record's `source_name` matches |
| `Formatter.ConfidenceBlock` | index.ts:115-123 | the confidence block copies the probability into `value`, with `minValue` 0, `maxValue` 1, alternate name "probability" and the fixed description |
| `Formatter.FormatTargetEntity` | index.ts:104-126 | a "Predicted Kinase" Prediction whose Protein is named after `pred.target`; it has `confidence` if and only if `includeConfidence`, and that block holds the probability |
| `Formatter.FormatDiseaseEntity` | index.ts:128-152 | a "Predicted Cancer" Prediction whose MedicalCondition is named after `pred.disease`, with alternate name `"MESH:" + key` or `"MESH:null"`; it has `confidence` if and only if `includeConfidence` |
| `Formatter.TargetFormatKeeps` | index.ts:104-126 | two predictions format alike under the target formatter if and only if they share the target, and also the probability when confidence is included |
| `Formatter.DiseaseFormatKeeps` | index.ts:128-152 | the same for the disease formatter and the disease name |
| `Formatter.DiseaseAlternateName` | index.ts:128-137 | the disease formatter's alternate name is "MESH:" followed by the key of the first entry whose source name is the predicted disease, or "MESH:null" when no entry has that name |
| `Formatter.MeshNameNullAmbiguous` | index.ts:137 | a MESH key spelled "null" and a missing key give the same alternate name |
| `Formatter.ExtractPredictions` | index.ts:79-85 | the output has the length and order of `record.predictions`, and element i is the formatter applied to prediction i with the given flag |
| `Formatter.ExtractedConfidence` | index.ts:79-85 | every formatted prediction carries a confidence block exactly when the flag is set |
| `Response.ResponseEntry.constructor` | index.ts:55-58 | a fresh entry holds the given entity and predictions and no citation |
| `Response.AddCitation` | index.ts:162-197 | sets `citation` to the fixed article and leaves the entity and predictions unchanged |
| `Response.AddCitations` | index.ts:44-50 | every non-null entry of the list is cited, and nothing else about the entries changes |
| `Response.CitedKeeps` | index.ts:44-50 | citing a list keeps its length and each entry's entity and predictions, and cites every entry |
| `Resolver.Split` | index.ts:64 | splitting on commas yields at least one piece, and no piece contains a comma |
| `Resolver.JoinSplit` | index.ts:64 | splitting loses nothing: joining the pieces with commas restores the query |
| `Resolver.SplitJoin` | index.ts:64 | comma-free pieces joined with commas split back into exactly those pieces |
| `Resolver.NewLookupEntry` | index.ts:71-73 | the entry pushed for a found record is fresh, has no entity and no citation, and holds the record's predictions formatted with confidence |
| `Resolver.GetAndProcessData` | index.ts:63-77 | returns fresh entries whose values are `Resolved(Split(query))`: per piece in order, one uncited entry with confidence-bearing predictions on a hit, nothing on a miss |
| `Resolver.ResolvedAppend` | index.ts:69-75 | resolving concatenated key lists concatenates the results, so input order is kept |
| `Resolver.ResolvedOnePerHit` | index.ts:69-75 | exactly one entry per piece the table holds, in input order (entry j is the formatted record of the j-th such piece), so at most as many entries as pieces |
| `Resolver.ResolvedAllFound` | index.ts:69-75 | when every piece is a key, entry i is the formatted record of piece i |
| `Resolver.ResolvedAllMissing` | index.ts:69-75 | pieces missing from the table contribute no entry and no error |
| `Resolver.ResolvedSingle` | index.ts:69-75 | a single piece contributes exactly its own entry, or nothing |
| `Resolver.MissBetweenHits` | index.ts:64-75 | the query "a,x,b" with a and b in the table and x not gives exactly the entries of a and b, in that order |
| `Resolver.ResolvedShape` | index.ts:72-73 | resolved entries have no `entity` and no citation yet, and all of their predictions carry confidence |
| `Resolver.GetAllData` | index.ts:52-61 | returns fresh entries whose values are `Listed(table)`: one per table entry, in table order, with `entity` the key and predictions formatted without confidence |
| `Resolver.ListedShape` | index.ts:52-61 | the listing has one entry per table entry, with entity equal to its key and predictions equal to that record's predictions formatted without confidence (so none carries confidence), and none is cited |
| `Dispatcher.Handler` | index.ts:16-42 | the handler's reply is `HandlerSpec`: 400 without parameters, else the first truthy branch of target, disease, allTargets, allDiseases, else 200 with an empty list |
| `Dispatcher.MissingParametersRejected` | index.ts:20-25 | the status is 400 if and only if the parameter bag is absent; the body is then "No query provided." whatever the tables hold |
| `Dispatcher.NoRecognisedParameter` | index.ts:33-41 | with none of the four parameters truthy, the reply is 200 with an empty list |
| `Dispatcher.TargetFirst` | index.ts:27-29 | a truthy `target` alone decides the reply |
| `Dispatcher.DiseaseSecond` | index.ts:30-32 | without a truthy `target`, a truthy `disease` alone decides the reply |
| `Dispatcher.AllTargetsThird` | index.ts:33-34 | next a truthy `allTargets` decides the reply, whatever its value |
| `Dispatcher.AllDiseasesLast` | index.ts:35-36 | `allDiseases` is tried last, and only its truthiness matters |
| `Dispatcher.LookupPathsCiteWithConfidence` | index.ts:27-32 | on the target and disease paths the status is 200 and every entry is cited (publisher "NAR Genomics and Bioinformatics"), has no entity, and has confidence on every prediction |
| `Dispatcher.ListingPathsUncitedWithoutConfidence` | index.ts:33-41 | on the listing paths, and when nothing matched, no entry is cited and no prediction carries confidence |
| `Dispatcher.SingleTargetQuery` | index.ts:27-29 | `target=k` for a comma-free key in the table gives exactly one entry, holding every prediction filed under k formatted with confidence |
| `Dispatcher.UnknownKeyDropped` | index.ts:27-29 | `target=a,x,b` with x unknown gives exactly two cited entries, for a then b |
| `Dispatcher.LungCancerExample` | index.ts:30-32 | the worked example: `disease=Lung Cancer` returns the one EGFR kinase prediction with its confidence block, cited |

## Left out

- Reading the three data files and `JSON.parse` with the `reviver` from `./utilities` (index.ts:3-11) are I/O and
  a foreign function. `./utilities` is not part of this model. The tables are parameters instead.
- `ligandLookup` and `diseaseArray` (index.ts:7, 11, 13) are loaded but never read.
- `transformDiseasePredictions`, `transformLigandPredictions` and `transformPredictions` (index.ts:87-92,
  154-160) have no callers.
- `JSON.stringify` of the body (index.ts:40) is not modelled. The reply carries the structured entries instead,
  so the JSON re-parsing round trip of formatted predictions is not stated.
- The deep copy `JSON.parse(JSON.stringify(rawData))` (index.ts:72) is value semantics here. Its effect on
  values JSON cannot represent is not modelled.
- The `Array.isArray` check (index.ts:66-68) is not modelled: `split` always returns an array, so that branch
  never runs.
- `console.log` in `findMeshID` (index.ts:100) is only logging.
- The citation's abstract text (index.ts:167) is left out of `TheCitation`. Every other field is kept, with the
  authors as `Person` values and the publisher as an `Organization` value, each with its `@type` tag.
- Probabilities are opaque reals that are copied through. Floating point is not modelled, and neither is the
  unenforced assumption that they lie in [0, 1].
- The `async` Lambda wrapper and the shape of the event beyond `queryStringParameters` are not modelled.
  Parameter values are strings.
