// The manifest of a vector index: the (chunk id, content hash) pairs that the
// point store has to hold, and the listings the store answers with.
module VectorManifest {
  import opened IdSorting

  datatype Entry = Entry(chunkId: nat, contentHash: string)

  // A manifest as ListVectorManifest returns it: ordered by the positive,
  // unique chunk id.
  ghost predicate Frozen(manifest: seq<Entry>) {
    && (forall i | 0 <= i < |manifest| :: 0 < manifest[i].chunkId)
    && (forall i, j | 0 <= i < j < |manifest| :: manifest[i].chunkId < manifest[j].chunkId)
  }

  ghost predicate DistinctIds(entries: seq<Entry>) {
    forall i, j | 0 <= i < j < |entries| :: entries[i].chunkId != entries[j].chunkId
  }

  ghost function Ids(entries: seq<Entry>): set<nat> {
    set e | e in entries :: e.chunkId
  }

  // The Go map filled from a list of entries: a later entry overwrites.
  function AsMap(entries: seq<Entry>): (m: map<nat, string>)
    ensures m.Keys == Ids(entries)
  {
    if entries == [] then map[]
    else
      var last := entries[|entries| - 1];
      assert entries == entries[..|entries| - 1] + [last];
      AsMap(entries[..|entries| - 1])[last.chunkId := last.contentHash]
  }

  lemma {:induction false} AsMapLookup(entries: seq<Entry>, k: nat)
    requires DistinctIds(entries) && k < |entries|
    ensures entries[k].chunkId in AsMap(entries)
    ensures AsMap(entries)[entries[k].chunkId] == entries[k].contentHash
    decreases |entries|
  {
    var front := entries[..|entries| - 1];
    assert entries == front + [entries[|entries| - 1]];
    if k < |front| {
      AsMapLookup(front, k);
      assert front[k] == entries[k];
    }
  }

  predicate Holds(points: map<nat, string>, e: Entry) {
    e.chunkId in points && points[e.chunkId] == e.contentHash
  }

  lemma EntryHeld(entries: seq<Entry>, e: Entry)
    requires DistinctIds(entries) && e in entries
    ensures Holds(AsMap(entries), e)
  {
    var k :| 0 <= k < |entries| && entries[k] == e;
    AsMapLookup(entries, k);
  }

  // Every id of the map comes from an entry of the list, with its hash.
  lemma AsMapEntry(entries: seq<Entry>, x: nat) returns (e: Entry)
    requires DistinctIds(entries) && x in AsMap(entries)
    ensures e in entries && e.chunkId == x && Holds(AsMap(entries), e)
  {
    assert x in Ids(entries);
    e :| e in entries && e.chunkId == x;
    EntryHeld(entries, e);
  }

  lemma {:induction false} AsMapAppend(entries: seq<Entry>, e: Entry)
    ensures AsMap(entries + [e]) == AsMap(entries)[e.chunkId := e.contentHash]
  {
    assert (entries + [e])[..|entries|] == entries;
  }

  lemma {:induction false} AsMapSize(entries: seq<Entry>)
    requires DistinctIds(entries)
    ensures |AsMap(entries)| == |entries|
    decreases |entries|
  {
    if entries != [] {
      var front, last := entries[..|entries| - 1], entries[|entries| - 1];
      assert entries == front + [last];
      AsMapSize(front);
      assert last.chunkId !in AsMap(front);
      assert AsMap(entries).Keys == AsMap(front).Keys + {last.chunkId};
      assert |AsMap(entries).Keys| == |AsMap(front).Keys| + 1;
    }
  }

  // Scanning one more entry keeps a listing duplicate-free exactly when its id
  // is new; a duplicate in a prefix is a duplicate in the whole listing.
  lemma DistinctStep(entries: seq<Entry>, k: nat)
    requires k < |entries| && DistinctIds(entries[..k])
    ensures entries[k].chunkId !in AsMap(entries[..k]) ==> DistinctIds(entries[..k + 1])
    ensures entries[k].chunkId in AsMap(entries[..k]) ==> !DistinctIds(entries)
  {
    var front := entries[..k];
    if entries[k].chunkId in AsMap(front) {
      var e :| e in front && e.chunkId == entries[k].chunkId;
      var i :| 0 <= i < k && front[i] == e;
      assert entries[i].chunkId == entries[k].chunkId;
    } else {
      forall i | 0 <= i < k
        ensures entries[i].chunkId != entries[k].chunkId
      {
        assert front[i] in front;
      }
      assert forall i | 0 <= i < k :: entries[..k + 1][i] == front[i];
    }
  }

  // A new entry can be appended to a listing.
  lemma AppendDistinct(entries: seq<Entry>, e: Entry)
    requires DistinctIds(entries) && e.chunkId !in AsMap(entries)
    ensures DistinctIds(entries + [e]) && AsMap(entries + [e]) == AsMap(entries)[e.chunkId := e.contentHash]
  {
    AsMapAppend(entries, e);
    assert (entries + [e])[..|entries|] == entries;
    DistinctStep(entries + [e], |entries|);
    assert (entries + [e])[..|entries| + 1] == entries + [e];
  }

  lemma FrozenIsDistinct(manifest: seq<Entry>)
    requires Frozen(manifest)
    ensures DistinctIds(manifest)
  {
  }

  // A complete answer of ListPointManifest for a collection: every point once,
  // in any order.
  ghost predicate Lists(actual: seq<Entry>, points: map<nat, string>) {
    DistinctIds(actual) && AsMap(actual) == points
  }
}
