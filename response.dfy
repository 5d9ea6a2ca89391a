/**
 * Response entries and the citation annotator. The source builds each entry
 * as a fresh object and later assigns its `citation` field in place, so an
 * entry is a class; `Snapshot` is the value an entry serialises to.
 */
module Response {
  import opened Wrappers
  import opened Formatter

  /** One author of the article: a schema.org Person. */
  datatype Person = Person(typ: string, name: string)

  /** The article's publisher: a schema.org Organization. */
  datatype Organization = Organization(typ: string, name: string, url: string)

  /** The fixed ScholarlyArticle block; its long abstract is left out. */
  datatype Citation = Citation(
    context: string,
    typ: string,
    name: string,
    url: string,
    author: seq<Person>,
    datePublished: string,
    publisher: Organization,
    creditText: string)

  const TheCitation := Citation(
    "http://schema.org",
    "ScholarlyArticle",
    "Supervised learning with word embeddings derived from PubMed captures latent knowledge about protein kinases and cancer",
    "https://pubmed.ncbi.nlm.nih.gov/34888523/",
    [
     Person("Person", "Vida Ravanmehr"),
     Person("Person", "Hannah Blau"),
     Person("Person", "Luca Cappelletti"),
     Person("Person", "Tommaso Fontana"),
     Person("Person", "Leigh Carmody"),
     Person("Person", "Ben Coleman"),
     Person("Person", "Joshy George"),
     Person("Person", "Justin Reese"),
     Person("Person", "Marcin Joachimiak"),
     Person("Person", "Giovanni Bocci"),
     Person("Person", "Peter Hansen"),
     Person("Person", "Carol Bult"),
     Person("Person", "Jens Rueter"),
     Person("Person", "Elena Casiraghi"),
     Person("Person", "Giorgio Valentini"),
     Person("Person", "Christopher Mungall"),
     Person("Person", "Tudor I Oprea"),
     Person("Person", "Peter N Robinson")
    ],
    "2021 Dec 8",
    Organization("Organization", "NAR Genomics and Bioinformatics", "https://academic.oup.com/nargab"),
    "Ravanmehr et al.")

  /**
   * A serialised response entry. `entity` is present only on the listing
   * paths and `citation` only once it has been added.
   */
  datatype EntryValue = EntryValue(
    entity: Option<string>,
    predictions: seq<FormattedPrediction>,
    citation: Option<Citation>)

  class ResponseEntry {
    var entity: Option<string>
    var predictions: seq<FormattedPrediction>
    var citation: Option<Citation>

    constructor (entity: Option<string>, predictions: seq<FormattedPrediction>)
      ensures Snapshot() == EntryValue(entity, predictions, None)
    {
      this.entity := entity;
      this.predictions := predictions;
      this.citation := None;
    }

    function Snapshot(): EntryValue
      reads this
    {
      EntryValue(entity, predictions, citation)
    }
  }

  /** The serialised form of a list of entries, in order. */
  function Snapshots(entries: seq<ResponseEntry>): (r: seq<EntryValue>)
    reads entries
    ensures |r| == |entries|
    ensures forall i :: 0 <= i < |entries| ==> r[i] == entries[i].Snapshot()
  {
    if entries == [] then [] else Snapshots(entries[..|entries| - 1]) + [entries[|entries| - 1].Snapshot()]
  }

  /** An entry value after `addCitation`. */
  function Cite(e: EntryValue): EntryValue
  {
    e.(citation := Some(TheCitation))
  }

  /** A list of entry values after `addCitations`. */
  function Cited(es: seq<EntryValue>): seq<EntryValue>
  {
    seq(|es|, i requires 0 <= i < |es| => Cite(es[i]))
  }

  /** `addCitation`: set the citation field of one entry, and nothing else. */
  method AddCitation(response: ResponseEntry)
    modifies response
    ensures response.Snapshot() == Cite(old(response.Snapshot()))
  {
    response.citation := Some(TheCitation);
  }

  /** `addCitations`: cite every present entry of the list, in place. */
  method AddCitations(responseValue: seq<ResponseEntry?>)
    modifies set r: ResponseEntry | r in responseValue
    ensures forall i :: 0 <= i < |responseValue| && responseValue[i] != null ==>
      responseValue[i].Snapshot() == Cite(old(responseValue[i].Snapshot()))
  {
    for i := 0 to |responseValue|
      invariant forall j :: 0 <= j < |responseValue| && responseValue[j] != null ==>
        responseValue[j].entity == old(responseValue[j].entity) &&
        responseValue[j].predictions == old(responseValue[j].predictions)
      invariant forall j :: 0 <= j < i && responseValue[j] != null ==>
        responseValue[j].citation == Some(TheCitation)
    {
      var resp := responseValue[i];
      if resp != null {
        AddCitation(resp);
      }
    }
  }

  /** Citing keeps the list's length and each entry's other fields, and cites every entry. */
  lemma {:induction false} CitedKeeps(es: seq<EntryValue>)
    ensures |Cited(es)| == |es|
    ensures forall i :: 0 <= i < |es| ==>
      Cited(es)[i].entity == es[i].entity && Cited(es)[i].predictions == es[i].predictions
    ensures forall e :: e in Cited(es) ==> e.citation == Some(TheCitation)
  {
    forall e | e in Cited(es) ensures e.citation == Some(TheCitation) {
      var i :| 0 <= i < |es| && Cited(es)[i] == e;
    }
  }
}
