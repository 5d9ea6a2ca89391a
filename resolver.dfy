/**
 * The two ways the service turns a table into response entries: resolving a
 * comma-separated list of keys (`getAndProcessData`) and listing the whole
 * table (`getAllData`).
 */
module Resolver {
  import opened Wrappers
  import opened Lookup
  import opened Formatter
  import opened Response

  /**
   * `String.prototype.split(",")`: the maximal comma-free pieces between
   * commas. Nothing is trimmed, and the empty string gives one empty piece.
   */
  function Split(s: string): (r: seq<string>)
    ensures |r| >= 1
    ensures forall i :: 0 <= i < |r| ==> ',' !in r[i]
  {
    if s == [] then [""]
    else if s[0] == ',' then [""] + Split(s[1..])
    else
      var rest := Split(s[1..]);
      [[s[0]] + rest[0]] + rest[1..]
  }

  /** `Array.prototype.join(",")`, the inverse of `Split`. */
  function Join(pieces: seq<string>): string
    requires |pieces| >= 1
  {
    if |pieces| == 1 then pieces[0] else pieces[0] + "," + Join(pieces[1..])
  }

  /** Splitting a string and joining the pieces gives the string back. */
  lemma {:induction false} JoinSplit(s: string)
    ensures Join(Split(s)) == s
  {
    if s != [] {
      JoinSplit(s[1..]);
      var rest := Split(s[1..]);
      if s[0] != ',' && |rest| > 1 {
        assert rest == [rest[0]] + rest[1..];
      }
    }
  }

  /** A comma-free prefix is glued onto the first piece of what follows it. */
  lemma {:induction false} SplitPrefix(p: string, s: string)
    requires ',' !in p
    ensures Split(p + s) == [p + Split(s)[0]] + Split(s)[1..]
  {
    if p != [] {
      SplitPrefix(p[1..], s);
      assert p[0] in p;
      assert (p + s)[0] == p[0] != ',';
      assert (p + s)[1..] == p[1..] + s;
      var rest := Split((p + s)[1..]);
      assert Split(p + s) == [[p[0]] + rest[0]] + rest[1..];
      assert rest == [p[1..] + Split(s)[0]] + Split(s)[1..];
      assert rest[0] == p[1..] + Split(s)[0] && rest[1..] == Split(s)[1..];
      assert [p[0]] + (p[1..] + Split(s)[0]) == p + Split(s)[0];
    } else {
      assert p + s == s && p + Split(s)[0] == Split(s)[0];
      assert Split(s) == [Split(s)[0]] + Split(s)[1..];
    }
  }

  /** Joining comma-free pieces and splitting the result gives the pieces back. */
  lemma {:induction false} SplitJoin(pieces: seq<string>)
    requires |pieces| >= 1
    requires forall i :: 0 <= i < |pieces| ==> ',' !in pieces[i]
    ensures Split(Join(pieces)) == pieces
  {
    if |pieces| == 1 {
      SplitPrefix(pieces[0], "");
      assert pieces[0] + "" == pieces[0];
    } else {
      SplitJoin(pieces[1..]);
      var tail := "," + Join(pieces[1..]);
      SplitPrefix(pieces[0], tail);
      assert Join(pieces) == pieces[0] + tail;
      assert tail[0] == ',' && tail[1..] == Join(pieces[1..]);
      assert Split(tail) == [""] + pieces[1..];
      assert pieces[0] + "" == pieces[0];
      assert pieces == [pieces[0]] + pieces[1..];
    }
  }

  /** The entry contributed by one requested key: one entry on a hit, none on a miss. */
  function Found(key: string, lookupTable: Table, transform: FormatterKind, diseaseLookup: Table): seq<EntryValue>
  {
    match Get(lookupTable, key)
    case None => []
    case Some(rawData) => [EntryValue(None, Extracted(transform, diseaseLookup, rawData.predictions, true), None)]
  }

  /** The entries for a list of requested keys, in request order. */
  function Resolved(keys: seq<string>, lookupTable: Table, transform: FormatterKind, diseaseLookup: Table): seq<EntryValue>
  {
    if keys == [] then []
    else
      var earlier := Resolved(keys[..|keys| - 1], lookupTable, transform, diseaseLookup);
      earlier + Found(keys[|keys| - 1], lookupTable, transform, diseaseLookup)
  }

  /** The entry pushed for one found record: its predictions formatted with confidence. */
  method NewLookupEntry(val: LookupRecord, transform: FormatterKind, diseaseLookup: Table) returns (entry: ResponseEntry)
    ensures fresh(entry)
    ensures entry.Snapshot() == EntryValue(None, Extracted(transform, diseaseLookup, val.predictions, true), None)
  {
    var predictions := ExtractPredictions(val, transform, diseaseLookup, true);
    entry := new ResponseEntry(None, predictions);
  }

  /** `getAndProcessData`: resolve each comma-separated key, dropping misses. */
  method GetAndProcessData(entity: string, lookupTable: Table, transform: FormatterKind, diseaseLookup: Table)
    returns (response: seq<ResponseEntry>)
    ensures forall e :: e in response ==> fresh(e)
    ensures Snapshots(response) == Resolved(Split(entity), lookupTable, transform, diseaseLookup)
  {
    var entities := Split(entity);
    response := [];
    ghost var values: seq<EntryValue> := [];
    for i := 0 to |entities|
      invariant |response| == |values|
      invariant forall j :: 0 <= j < |response| ==> fresh(response[j]) && response[j].Snapshot() == values[j]
      invariant values == Resolved(entities[..i], lookupTable, transform, diseaseLookup)
    {
      ResolvedStep(entities, i, lookupTable, transform, diseaseLookup);
      var rawData := Get(lookupTable, entities[i]);
      if rawData.Some? {
        var entry := NewLookupEntry(rawData.value, transform, diseaseLookup);
        FoundHit(entities[i], lookupTable, transform, diseaseLookup);
        response := response + [entry];
        values := values + Found(entities[i], lookupTable, transform, diseaseLookup);
      }
    }
    assert entities[..|entities|] == entities;
  }

  /** A key the table holds contributes one entry with its predictions formatted with confidence. */
  lemma FoundHit(key: string, lookupTable: Table, transform: FormatterKind, diseaseLookup: Table)
    requires HasKey(lookupTable, key)
    ensures Found(key, lookupTable, transform, diseaseLookup)
         == [EntryValue(None, Extracted(transform, diseaseLookup, Get(lookupTable, key).value.predictions, true), None)]
  {
  }

  /** One more requested key adds exactly what that key contributes. */
  lemma ResolvedStep(keys: seq<string>, i: nat, lookupTable: Table, transform: FormatterKind, diseaseLookup: Table)
    requires i < |keys|
    ensures Resolved(keys[..i + 1], lookupTable, transform, diseaseLookup)
         == Resolved(keys[..i], lookupTable, transform, diseaseLookup) + Found(keys[i], lookupTable, transform, diseaseLookup)
  {
    assert keys[..i + 1][..i] == keys[..i];
  }

  /** Resolving a concatenation of key lists concatenates the results: order is kept. */
  lemma {:induction false} ResolvedAppend(a: seq<string>, b: seq<string>, lookupTable: Table, transform: FormatterKind, diseaseLookup: Table)
    ensures Resolved(a + b, lookupTable, transform, diseaseLookup)
         == Resolved(a, lookupTable, transform, diseaseLookup) + Resolved(b, lookupTable, transform, diseaseLookup)
  {
    if b == [] {
      assert a + b == a;
    } else {
      var b' := b[..|b| - 1];
      ResolvedAppend(a, b', lookupTable, transform, diseaseLookup);
      assert (a + b)[..|a + b| - 1] == a + b';
      assert (a + b)[|a + b| - 1] == b[|b| - 1];
    }
  }

  /** The requested keys the table holds, in request order. */
  function Hits(keys: seq<string>, lookupTable: Table): seq<string>
  {
    if keys == [] then []
    else
      var last := keys[|keys| - 1];
      Hits(keys[..|keys| - 1], lookupTable) + (if HasKey(lookupTable, last) then [last] else [])
  }

  /**
   * Exactly one entry per requested key the table holds, in request order:
   * entry j is the formatted record of the j-th such key, so there are at
   * most as many entries as keys.
   */
  lemma {:induction false} ResolvedOnePerHit(keys: seq<string>, lookupTable: Table, transform: FormatterKind, diseaseLookup: Table)
    ensures |Resolved(keys, lookupTable, transform, diseaseLookup)| == |Hits(keys, lookupTable)| <= |keys|
    ensures forall j :: 0 <= j < |Hits(keys, lookupTable)| ==>
      && HasKey(lookupTable, Hits(keys, lookupTable)[j])
      && Resolved(keys, lookupTable, transform, diseaseLookup)[j]
        == EntryValue(None, Extracted(transform, diseaseLookup, Get(lookupTable, Hits(keys, lookupTable)[j]).value.predictions, true), None)
  {
    if keys != [] {
      var init := keys[..|keys| - 1];
      var last := keys[|keys| - 1];
      ResolvedOnePerHit(init, lookupTable, transform, diseaseLookup);
      if HasKey(lookupTable, last) {
        FoundHit(last, lookupTable, transform, diseaseLookup);
      }
    }
  }

  /** When every key is in the table, entry i is the formatted record of key i. */
  lemma {:induction false} ResolvedAllFound(keys: seq<string>, lookupTable: Table, transform: FormatterKind, diseaseLookup: Table)
    requires forall i :: 0 <= i < |keys| ==> HasKey(lookupTable, keys[i])
    ensures |Resolved(keys, lookupTable, transform, diseaseLookup)| == |keys|
    ensures forall i :: 0 <= i < |keys| ==>
      Resolved(keys, lookupTable, transform, diseaseLookup)[i]
        == EntryValue(None, Extracted(transform, diseaseLookup, Get(lookupTable, keys[i]).value.predictions, true), None)
  {
    if keys != [] {
      var init := keys[..|keys| - 1];
      var last := keys[|keys| - 1];
      ResolvedAllFound(init, lookupTable, transform, diseaseLookup);
      FoundHit(last, lookupTable, transform, diseaseLookup);
      var r := Resolved(keys, lookupTable, transform, diseaseLookup);
      assert r == Resolved(init, lookupTable, transform, diseaseLookup) + Found(last, lookupTable, transform, diseaseLookup);
      forall i | 0 <= i < |keys| ensures
        r[i] == EntryValue(None, Extracted(transform, diseaseLookup, Get(lookupTable, keys[i]).value.predictions, true), None)
      {
        if i < |init| {
          assert keys[i] == init[i];
        }
      }
    }
  }

  /** Keys missing from the table contribute nothing. */
  lemma {:induction false} ResolvedAllMissing(keys: seq<string>, lookupTable: Table, transform: FormatterKind, diseaseLookup: Table)
    requires forall i :: 0 <= i < |keys| ==> !HasKey(lookupTable, keys[i])
    ensures Resolved(keys, lookupTable, transform, diseaseLookup) == []
  {
    if keys != [] {
      ResolvedAllMissing(keys[..|keys| - 1], lookupTable, transform, diseaseLookup);
    }
  }

  /** A single requested key contributes exactly its own entry, if any. */
  lemma ResolvedSingle(key: string, lookupTable: Table, transform: FormatterKind, diseaseLookup: Table)
    ensures Resolved([key], lookupTable, transform, diseaseLookup) == Found(key, lookupTable, transform, diseaseLookup)
  {
    assert [key][..0] == [];
  }

  /** In "a,x,b" with a and b in the table and x not, x is silently dropped. */
  lemma MissBetweenHits(a: string, x: string, b: string, lookupTable: Table, transform: FormatterKind, diseaseLookup: Table)
    requires ',' !in a && ',' !in x && ',' !in b
    requires HasKey(lookupTable, a) && !HasKey(lookupTable, x) && HasKey(lookupTable, b)
    ensures Resolved(Split(a + "," + x + "," + b), lookupTable, transform, diseaseLookup)
         == Found(a, lookupTable, transform, diseaseLookup) + Found(b, lookupTable, transform, diseaseLookup)
    ensures |Found(a, lookupTable, transform, diseaseLookup) + Found(b, lookupTable, transform, diseaseLookup)| == 2
  {
    var pieces := [a, x, b];
    assert Join(pieces[2..]) == b;
    assert Join(pieces[1..]) == x + "," + b by {
      assert pieces[1..][1..] == pieces[2..];
    }
    assert Join(pieces) == a + "," + x + "," + b;
    SplitJoin(pieces);
    ResolvedAppend([a], [x, b], lookupTable, transform, diseaseLookup);
    ResolvedAppend([x], [b], lookupTable, transform, diseaseLookup);
    assert [a] + [x, b] == pieces && [x] + [b] == [x, b];
    ResolvedSingle(a, lookupTable, transform, diseaseLookup);
    ResolvedSingle(x, lookupTable, transform, diseaseLookup);
    ResolvedSingle(b, lookupTable, transform, diseaseLookup);
  }

  /** Every resolved entry lacks `entity` and `citation`, and every prediction in it has a confidence block. */
  lemma {:induction false} ResolvedShape(keys: seq<string>, lookupTable: Table, transform: FormatterKind, diseaseLookup: Table)
    ensures forall e :: e in Resolved(keys, lookupTable, transform, diseaseLookup) ==>
      e.entity.None? && e.citation.None? && forall p :: p in e.predictions ==> p.confidence.Some?
  {
    if keys != [] {
      ResolvedShape(keys[..|keys| - 1], lookupTable, transform, diseaseLookup);
      var last := Get(lookupTable, keys[|keys| - 1]);
      if last.Some? {
        ExtractedConfidence(transform, diseaseLookup, last.value.predictions, true);
      }
    }
  }

  /** The entries of `getAllData`: one per table entry, in table order, without confidence. */
  function Listed(lookupTable: Table, extractMethod: FormatterKind, diseaseLookup: Table): seq<EntryValue>
  {
    seq(|lookupTable|, i requires 0 <= i < |lookupTable| =>
      EntryValue(Some(lookupTable[i].0), Extracted(extractMethod, diseaseLookup, lookupTable[i].1.predictions, false), None))
  }

  /** `getAllData`: walk the table in order, pushing one entry per key. */
  method GetAllData(lookupTable: Table, extractMethod: FormatterKind, diseaseLookup: Table)
    returns (response: seq<ResponseEntry>)
    ensures forall e :: e in response ==> fresh(e)
    ensures Snapshots(response) == Listed(lookupTable, extractMethod, diseaseLookup)
  {
    response := [];
    for i := 0 to |lookupTable|
      invariant |response| == i
      invariant forall e :: e in response ==> fresh(e)
      invariant forall j :: 0 <= j < i ==>
        response[j].Snapshot() == EntryValue(Some(lookupTable[j].0), Extracted(extractMethod, diseaseLookup, lookupTable[j].1.predictions, false), None)
    {
      var (key, val) := lookupTable[i];
      var predictions := ExtractPredictions(val, extractMethod, diseaseLookup, false);
      var entry := new ResponseEntry(Some(key), predictions);
      response := response + [entry];
    }
  }

  /**
   * Listing the table yields exactly its keys, in order, each with all of
   * its predictions, none of which carries a confidence block.
   */
  lemma {:induction false} ListedShape(lookupTable: Table, extractMethod: FormatterKind, diseaseLookup: Table)
    ensures |Listed(lookupTable, extractMethod, diseaseLookup)| == |lookupTable|
    ensures forall i :: 0 <= i < |lookupTable| ==>
      && Listed(lookupTable, extractMethod, diseaseLookup)[i].entity == Some(lookupTable[i].0)
      && Listed(lookupTable, extractMethod, diseaseLookup)[i].predictions
        == Extracted(extractMethod, diseaseLookup, lookupTable[i].1.predictions, false)
      && |Listed(lookupTable, extractMethod, diseaseLookup)[i].predictions| == |lookupTable[i].1.predictions|
    ensures forall e :: e in Listed(lookupTable, extractMethod, diseaseLookup) ==>
      e.citation.None? && forall p :: p in e.predictions ==> p.confidence.None?
  {
    var r := Listed(lookupTable, extractMethod, diseaseLookup);
    forall e | e in r ensures e.citation.None? && forall p :: p in e.predictions ==> p.confidence.None? {
      var i :| 0 <= i < |r| && r[i] == e;
      ExtractedConfidence(extractMethod, diseaseLookup, lookupTable[i].1.predictions, false);
    }
  }
}
