/**
 * Reverse lookup from a disease display name to its MESH key: a linear scan
 * over the disease table in insertion order that stops at the first record
 * whose source name matches.
 */
module Mesh {
  import opened Wrappers
  import opened Lookup

  /** The key of the first entry, in table order, whose record is named `name`. */
  function MeshId(diseaseLookup: Table, name: string): Option<string>
  {
    if diseaseLookup == [] then None
    else if diseaseLookup[0].1.sourceName == name then Some(diseaseLookup[0].0)
    else MeshId(diseaseLookup[1..], name)
  }

  /** Entry `i` is the first one, in table order, whose record is named `name`. */
  predicate IsFirstMatch(diseaseLookup: Table, name: string, i: int)
  {
    && 0 <= i < |diseaseLookup|
    && diseaseLookup[i].1.sourceName == name
    && forall j :: 0 <= j < i ==> diseaseLookup[j].1.sourceName != name
  }

  /** `findMeshID`: scan the table and return at the first match, else null. */
  method FindMeshID(diseaseLookup: Table, pred: Prediction) returns (meshId: Option<string>)
    ensures meshId == MeshId(diseaseLookup, pred.disease)
  {
    for i := 0 to |diseaseLookup|
      invariant MeshId(diseaseLookup[i..], pred.disease) == MeshId(diseaseLookup, pred.disease)
    {
      if diseaseLookup[i].1.sourceName == pred.disease {
        return Some(diseaseLookup[i].0);
      }
      assert diseaseLookup[i..][1..] == diseaseLookup[i + 1..];
    }
    return None;
  }

  /** A returned key names a matching record, and no earlier record matches. */
  lemma {:induction false} MeshIdMatches(diseaseLookup: Table, name: string)
    requires MeshId(diseaseLookup, name).Some?
    ensures exists i :: IsFirstMatch(diseaseLookup, name, i) && diseaseLookup[i].0 == MeshId(diseaseLookup, name).value
  {
    if diseaseLookup[0].1.sourceName != name {
      var rest := diseaseLookup[1..];
      MeshIdMatches(rest, name);
      var i :| IsFirstMatch(rest, name, i) && rest[i].0 == MeshId(rest, name).value;
      assert diseaseLookup[i + 1] == rest[i];
      forall j | 0 <= j < i + 1 ensures diseaseLookup[j].1.sourceName != name {
        if j > 0 { assert diseaseLookup[j] == rest[j - 1]; }
      }
      assert IsFirstMatch(diseaseLookup, name, i + 1);
    }
  }

  /** Conversely, the first matching record is the one whose key is returned. */
  lemma {:induction false} FirstMatchIsMeshId(diseaseLookup: Table, name: string, i: nat)
    requires IsFirstMatch(diseaseLookup, name, i)
    ensures MeshId(diseaseLookup, name) == Some(diseaseLookup[i].0)
  {
    if i > 0 {
      var rest := diseaseLookup[1..];
      forall j | 0 <= j < i - 1 ensures rest[j].1.sourceName != name {
        assert rest[j] == diseaseLookup[j + 1];
      }
      FirstMatchIsMeshId(rest, name, i - 1);
      assert rest[i - 1] == diseaseLookup[i];
    }
  }

  /** Null is returned exactly when no record carries the name. */
  lemma {:induction false} MeshIdNoneIff(diseaseLookup: Table, name: string)
    ensures MeshId(diseaseLookup, name).None?
        <==> forall i :: 0 <= i < |diseaseLookup| ==> diseaseLookup[i].1.sourceName != name
  {
    if diseaseLookup != [] && diseaseLookup[0].1.sourceName != name {
      var rest := diseaseLookup[1..];
      MeshIdNoneIff(rest, name);
      assert forall i :: 0 < i < |diseaseLookup| ==> diseaseLookup[i] == rest[i - 1];
    }
  }
}
