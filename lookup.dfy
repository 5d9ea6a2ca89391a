/**
 * The three lookup tables the service loads once at start-up. Each is a
 * JavaScript `Map` from an entity key to a record; a `Map` iterates in
 * insertion order, so a table is modelled as the ordered sequence of its
 * entries.
 */
module Lookup {
  import opened Wrappers

  /** Probabilities are only copied through, never computed with. */
  type Probability = real

  /** One stored prediction: a disease, a kinase target and its probability. */
  datatype Prediction = Prediction(disease: string, target: string, probability: Probability)

  /** The value filed under one key of a table. */
  datatype LookupRecord = LookupRecord(sourceName: string, predictions: seq<Prediction>)

  /** The entries of a `Map`, in insertion order. */
  type Table = seq<(string, LookupRecord)>

  /** A `Map` never holds the same key twice. */
  predicate UniqueKeys(t: Table)
  {
    forall i, j :: 0 <= i < j < |t| ==> t[i].0 != t[j].0
  }

  predicate HasKey(t: Table, key: string)
  {
    exists i :: 0 <= i < |t| && t[i].0 == key
  }

  /** `Map.prototype.get`: the record filed under `key`, if any. */
  function Get(t: Table, key: string): (r: Option<LookupRecord>)
    ensures r.Some? <==> HasKey(t, key)
    ensures r.Some? ==> (key, r.value) in t
  {
    if t == [] then None
    else if t[0].0 == key then Some(t[0].1)
    else
      var r := Get(t[1..], key);
      assert HasKey(t[1..], key) ==> HasKey(t, key) by {
        if HasKey(t[1..], key) {
          var i :| 0 <= i < |t[1..]| && t[1..][i].0 == key;
          assert t[i + 1].0 == key;
        }
      }
      assert HasKey(t, key) ==> HasKey(t[1..], key) by {
        if HasKey(t, key) {
          var i :| 0 <= i < |t| && t[i].0 == key;
          assert i != 0 && t[1..][i - 1].0 == key;
        }
      }
      r
  }

  /** With unique keys, every entry is found by its own key. */
  lemma {:induction false} GetAt(t: Table, i: nat)
    requires UniqueKeys(t)
    requires i < |t|
    ensures Get(t, t[i].0) == Some(t[i].1)
  {
    if i > 0 {
      assert t[0].0 != t[i].0;
      assert UniqueKeys(t[1..]) by {
        forall a, b | 0 <= a < b < |t[1..]| ensures t[1..][a].0 != t[1..][b].0 {
          assert t[1..][a] == t[a + 1] && t[1..][b] == t[b + 1];
        }
      }
      GetAt(t[1..], i - 1);
      assert t[1..][i - 1] == t[i];
    }
  }
}
