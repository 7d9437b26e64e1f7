/**
 * BroadphaseHelper of the Models revision. The same helper exists twice,
 * in Assets/Models/Systems/BroadpaseHelper.cs (cell size 35) and in
 * Assets/Models/Systems/Physics/BroadpaseHelper.cs (cell size 40, with
 * RemoveFormChunk as well); the code is otherwise the same, so the cell
 * size is a parameter here. Compaction finds the first tombstone by a scan
 * and clears `NeedRebuild`; deletion tombstones a record and raises the
 * chunk's two flags.
 */
module ModelsHelper {
  import opened MathHelper
  import opened Aabb
  import opened Grid
  import opened BroadphasePair
  import opened ModelsEcs

  /** `CellSize` of Assets/Models/Systems/BroadpaseHelper.cs, used by the Models systems. */
  const CellSize: real := 35.0

  /** `CellSize` of Assets/Models/Systems/Physics/BroadpaseHelper.cs. */
  const PhysicsCellSize: real := 40.0

  /** The view once every key of `keys` without a chunk has a new, empty one. */
  ghost function Created(view: map<int, ChunkVal>, keys: seq<int>): (v: map<int, ChunkVal>)
    ensures v.Keys == view.Keys + set k | k in keys
    ensures forall k :: k in view ==> v[k] == view[k]
  {
    if keys == [] then view
    else
      var v := Created(view, keys[..|keys| - 1]);
      var k := keys[|keys| - 1];
      assert keys == keys[..|keys| - 1] + [k];
      if k in v then v else v[k := Fresh]
  }

  /** One more key: it gets a new chunk unless it has one. */
  lemma CreatedStep(view: map<int, ChunkVal>, keys: seq<int>, i: int)
    requires 0 <= i < |keys|
    ensures var v := Created(view, keys[..i]);
      Created(view, keys[..i + 1]) == if keys[i] in v then v else v[keys[i] := Fresh]
  {
    assert keys[..i + 1][..i] == keys[..i];
  }

  /** No key occurs twice. */
  predicate Distinct(keys: seq<int>)
  {
    forall i, j :: 0 <= i < j < |keys| ==> keys[i] != keys[j]
  }

  /** Distinct keys, each with a chunk, and the list holds those chunks in key order. */
  ghost predicate Listed(chunks: seq<SAPChunk?>, keys: seq<int>, items: map<int, SAPChunk>)
  {
    |chunks| == |keys| && Distinct(keys) &&
    forall i :: 0 <= i < |keys| ==> keys[i] in items && chunks[i] == items[keys[i]]
  }

  /** Every key of `before` keeps its chunk in `after`. */
  ghost predicate Kept(before: map<int, SAPChunk>, after: map<int, SAPChunk>)
  {
    forall k :: k in before ==> k in after && after[k] == before[k]
  }

  /** `GetOrCreateChunk(chunkId, bpChunks)`: the chunk under the key, created empty when there is none. */
  method GetOrCreateChunk(chunkId: int, sap: BroadphaseSAP) returns (chunk: SAPChunk)
    requires sap.Valid() && sap.Mirrors()
    modifies sap`Items, sap`View
    ensures sap.Valid() && sap.Mirrors()
    ensures chunkId in sap.Items && chunk == sap.Items[chunkId]
    ensures sap.View == if chunkId in old(sap.View) then old(sap.View) else old(sap.View)[chunkId := Fresh]
    ensures Kept(old(sap.Items), sap.Items)
    ensures chunkId in old(sap.Items) ==> sap.Items == old(sap.Items)
    ensures chunkId !in old(sap.Items) ==> sap.Items == old(sap.Items)[chunkId := chunk] && fresh(chunk)
  {
    if chunkId in sap.Items {
      return sap.Items[chunkId];
    }
    chunk := new SAPChunk();
    sap.Items := sap.Items[chunkId := chunk];
    sap.View := sap.View[chunkId := Fresh];
  }

  /**
   * `GetChunks(aabb, bpChunks)` with the given cell size: the chunks of the
   * cells the box covers, x-major, each created when missing. The source
   * enumerates lazily; creating a chunk touches no other chunk, so creating
   * them all first yields the same chunks.
   */
  method GetChunks(box: AABB, cellSize: real, sap: BroadphaseSAP) returns (chunks: seq<SAPChunk>, keys: seq<int>)
    requires cellSize > 0.0 && sap.Valid() && sap.Mirrors()
    modifies sap`Items, sap`View
    ensures sap.Valid() && sap.Mirrors() && Kept(old(sap.Items), sap.Items)
    ensures forall c :: c in sap.Items.Values ==> c in old(sap.Items.Values) || fresh(c)
    ensures keys == Keys(RangeOf(box, cellSize)) && Listed(chunks, keys, sap.Items)
    ensures sap.View == Created(old(sap.View), keys)
  {
    var r := RangeOf(box, cellSize);
    keys := Grid.GetChunks(r);
    KeysXMajorDistinct(r);
    chunks := ChunksFor(keys, sap);
    assert Listed(chunks, keys, sap.Items);
  }

  /** GetOrCreateChunk of every key in turn. */
  method ChunksFor(keys: seq<int>, sap: BroadphaseSAP) returns (chunks: seq<SAPChunk>)
    requires sap.Valid() && sap.Mirrors()
    modifies sap`Items, sap`View
    ensures sap.Valid() && sap.Mirrors() && Kept(old(sap.Items), sap.Items)
    ensures forall c :: c in sap.Items.Values ==> c in old(sap.Items.Values) || fresh(c)
    ensures Listing(chunks, keys, sap.Items)
    ensures sap.View == Created(old(sap.View), keys)
  {
    chunks := [];
    ghost var items0, view0 := sap.Items, sap.View;
    var i := 0;
    while i < |keys|
      invariant 0 <= i <= |keys| && |chunks| == i
      invariant sap.Valid() && sap.Mirrors() && Kept(items0, sap.Items)
      invariant forall c :: c in sap.Items.Values ==> c in items0.Values || fresh(c)
      invariant Listing(chunks, keys[..i], sap.Items)
      invariant sap.View == Created(view0, keys[..i])
    {
      chunks := NextChunk(keys, i, chunks, sap, view0);
      i := i + 1;
    }
    assert keys[..i] == keys;
  }

  /** One turn of the loop of ChunksFor: the chunk of the next key is looked up or created, and listed. */
  method NextChunk(keys: seq<int>, i: int, chunks: seq<SAPChunk>, sap: BroadphaseSAP, ghost start: map<int, ChunkVal>)
    returns (chunks': seq<SAPChunk>)
    requires 0 <= i < |keys| && sap.Valid() && sap.Mirrors()
    requires Listing(chunks, keys[..i], sap.Items) && sap.View == Created(start, keys[..i])
    modifies sap`Items, sap`View
    ensures sap.Valid() && sap.Mirrors() && Kept(old(sap.Items), sap.Items)
    ensures forall c :: c in sap.Items.Values ==> c in old(sap.Items.Values) || fresh(c)
    ensures Listing(chunks', keys[..i + 1], sap.Items) && sap.View == Created(start, keys[..i + 1])
  {
    CreatedStep(start, keys, i);
    var chunk := GetOrCreateChunk(keys[i], sap);
    ListingGrows(chunks, keys, i, old(sap.Items), sap.Items);
    chunks' := chunks + [chunk];
  }

  /** Slot by slot, the chunk of each key. */
  ghost predicate Listing(chunks: seq<SAPChunk>, keys: seq<int>, items: map<int, SAPChunk>)
  {
    |chunks| == |keys| && forall j :: 0 <= j < |keys| ==> keys[j] in items && chunks[j] == items[keys[j]]
  }

  /** A list stays valid when the map only gains keys, and one more slot extends it. */
  lemma ListingGrows(chunks: seq<SAPChunk>, keys: seq<int>, i: int, before: map<int, SAPChunk>, after: map<int, SAPChunk>)
    requires 0 <= i < |keys| && Listing(chunks, keys[..i], before) && Kept(before, after) && keys[i] in after
    ensures Listing(chunks + [after[keys[i]]], keys[..i + 1], after)
  {
    assert keys[..i + 1] == keys[..i] + [keys[i]];
    forall j | 0 <= j < i
      ensures keys[j] in after && chunks[j] == after[keys[j]]
    {
      assert keys[..i][j] == keys[j];
    }
  }

  /** A chunk after BuildChunks: only its live records, in order, and `NeedRebuild` cleared. */
  function Rebuilt(v: ChunkVal): (w: ChunkVal)
    ensures !w.NeedRebuild && w.IsDirty == v.IsDirty
    ensures forall r :: r in w.Records <==> r in v.Records && !Dead(r)
  {
    LiveOnlyElements(v.Records);
    ChunkVal(LiveOnly(v.Records), false, v.IsDirty)
  }

  /**
   * BuildChunks is idempotent: what it leaves has no tombstone, so a second
   * call finds none and changes nothing but the flag it already cleared.
   */
  lemma RebuiltIdempotent(v: ChunkVal)
    ensures forall i :: 0 <= i < |Rebuilt(v).Records| ==> !Dead(Rebuilt(v).Records[i])
    ensures Rebuilt(Rebuilt(v)) == Rebuilt(v)
  {
    LiveOnlyIdempotent(v.Records);
  }

  /** A chunk without tombstones keeps its records; only the flag is cleared. */
  lemma RebuiltClean(v: ChunkVal)
    requires forall i :: 0 <= i < |v.Records| ==> !Dead(v.Records[i])
    ensures Rebuilt(v) == v.(NeedRebuild := false)
  {
    LiveOnlyPrefix(v.Records, |v.Records|);
    assert v.Records[..|v.Records|] == v.Records;
  }

  /** Compaction keeps the count of every live id. */
  lemma RebuiltCounts(v: ChunkVal, id: int)
    requires id != UIntMax
    ensures CountId(Rebuilt(v).Records, id) == CountId(v.Records, id)
  {
    LiveOnlyCounts(v.Records, id);
  }

  /**
   * `BuildChunks(chunk)`: the flag is cleared; without a tombstone in use the
   * records stay where they are; otherwise the live ones are moved left, in
   * order, and Length becomes their count.
   */
  method BuildChunks(chunk: SAPChunk)
    requires chunk.Valid()
    modifies chunk`Items, chunk`Length, chunk`NeedRebuild
    ensures chunk.Valid() && |chunk.Items| == old(|chunk.Items|)
    ensures chunk.Val() == Rebuilt(old(chunk.Val()))
    ensures (forall i :: 0 <= i < old(chunk.Length) ==> !Dead(old(chunk.Items[i]))) ==>
      chunk.Items == old(chunk.Items) && chunk.Length == old(chunk.Length)
  {
    chunk.NeedRebuild := false;
    var length := chunk.Length;
    var items := chunk.Items;
    ghost var s := items[..length];
    var freeIndex := FindFree(items, length);
    if freeIndex >= length {
      LiveOnlyPrefix(s, length);
      assert s[..length] == s;
      return;
    }
    var packed, newLength := LeftPack(items, length, freeIndex);
    chunk.Items, chunk.Length := packed, newLength;
  }

  /** The scan of BuildChunks: the index of the first tombstone in use, or `int.MaxValue`. */
  method FindFree(items: seq<Record>, length: int) returns (freeIndex: int)
    requires 0 <= length <= |items| && length <= Int32Max
    ensures freeIndex == FirstDead(items[..length])
  {
    freeIndex := Int32Max;
    for i := 0 to length
      invariant forall j :: 0 <= j < i ==> !Dead(items[j])
    {
      if items[i].Id != UIntMax {
        continue;
      }
      freeIndex := i;
      break;
    }
    ghost var f := FirstDead(items[..length]);
    assert f != Int32Max ==> Dead(items[f]);
  }

  /**
   * The compaction loop of BuildChunks: `items[free]` is the first tombstone;
   * each later live record is copied to the next free slot. Returns the
   * buffer and the new length.
   */
  method LeftPack(items: seq<Record>, length: int, free: int) returns (packed: seq<Record>, newLength: int)
    requires 0 <= free < length <= |items| && length <= Int32Max
    requires free == FirstDead(items[..length])
    ensures |packed| == |items| && 0 <= newLength <= length
    ensures packed[..newLength] == LiveOnly(items[..length])
  {
    ghost var s := items[..length];
    LiveOnlyPrefix(s, free);
    LiveOnlyStep(s, free);
    packed := items;
    var freeIndex := free;
    var current := free + 1;
    while current < length
      invariant free <= freeIndex < current <= length && |packed| == |items|
      invariant packed[..freeIndex] == LiveOnly(s[..current])
      invariant forall k :: current <= k < length ==> packed[k] == s[k]
      decreases length - current
    {
      packed, freeIndex, current := PackStep(packed, length, freeIndex, current, s);
    }
    assert s[..current] == s;
    newLength := freeIndex;
  }

  /** One round of the compaction loop: skip the tombstones, then move the next live record down. */
  method PackStep(items: seq<Record>, length: int, freeIndex: int, current: int, ghost s: seq<Record>)
      returns (packed: seq<Record>, nextFree: int, next: int)
    requires 0 <= freeIndex < current < length <= |items| && |s| == length
    requires items[..freeIndex] == LiveOnly(s[..current])
    requires forall k :: current <= k < length ==> items[k] == s[k]
    ensures freeIndex <= nextFree < next <= length && current < next && |packed| == |items|
    ensures packed[..nextFree] == LiveOnly(s[..next])
    ensures forall k :: next <= k < length ==> packed[k] == s[k]
  {
    next := current;
    while next < length && items[next].Id == UIntMax
      invariant current <= next <= length
      invariant items[..freeIndex] == LiveOnly(s[..next])
    {
      LiveOnlyStep(s, next);
      next := next + 1;
    }
    packed, nextFree := items, freeIndex;
    if next < length {
      packed := MoveDown(items, length, freeIndex, next, s);
      nextFree, next := freeIndex + 1, next + 1;
    }
  }

  /** One copy of the compaction: the live record at `current` goes to the next free slot. */
  method MoveDown(items: seq<Record>, length: int, freeIndex: int, current: int, ghost s: seq<Record>)
      returns (moved: seq<Record>)
    requires 0 <= freeIndex < current < length <= |items| && |s| == length
    requires items[..freeIndex] == LiveOnly(s[..current]) && !Dead(items[current])
    requires forall k :: current <= k < length ==> items[k] == s[k]
    ensures |moved| == |items|
    ensures moved[..freeIndex + 1] == LiveOnly(s[..current + 1])
    ensures forall k :: current < k < length ==> moved[k] == s[k]
  {
    LiveOnlyStep(s, current);
    moved := items[freeIndex := items[current]];
    assert moved[..freeIndex + 1] == items[..freeIndex] + [s[current]];
  }

  /**
   * A chunk after deleting an id: its first record with the id becomes a
   * tombstone and both flags are raised; without such a record the chunk is
   * left as it was.
   */
  function Removed(v: ChunkVal, id: int): (w: ChunkVal)
    ensures CountId(v.Records, id) == 0 ==> w == v
    ensures CountId(v.Records, id) > 0 ==> w.NeedRebuild && w.IsDirty && |w.Records| == |v.Records|
  {
    CountIdFound(v.Records, id);
    if FindIndex(v.Records, id) < 0 then v else ChunkVal(Unlist(v.Records, id), true, true)
  }

  /** Deleting an id drops its count to one less when present, keeps every other live id's count, and is then a no-op. */
  lemma RemovedCounts(v: ChunkVal, id: int, x: int)
    requires id != UIntMax && x != UIntMax
    ensures CountId(Removed(v, id).Records, x) == CountId(v.Records, x) - (if x == id && CountId(v.Records, id) > 0 then 1 else 0)
  {
    UnlistCounts(v.Records, id, x);
  }

  /**
   * `RemoveFormChunk(chunk, entityId)`: the first record in use with the id
   * becomes a tombstone and both flags are raised; an absent id changes
   * nothing. Length stays as it is.
   */
  method RemoveFormChunk(chunk: SAPChunk, entityId: int)
    requires chunk.Valid()
    modifies chunk`Items, chunk`NeedRebuild, chunk`IsDirty
    ensures chunk.Valid() && |chunk.Items| == old(|chunk.Items|)
    ensures chunk.Val() == Removed(old(chunk.Val()), entityId)
  {
    ghost var s := chunk.Records();
    for i := 0 to chunk.Length
      invariant forall j :: 0 <= j < i ==> chunk.Items[j].Id != entityId
      invariant chunk.Items == old(chunk.Items) && chunk.Val() == old(chunk.Val())
    {
      if chunk.Items[i].Id != entityId {
        continue;
      }
      chunk.NeedRebuild := true;
      chunk.IsDirty := true;
      chunk.Items := chunk.Items[i := chunk.Items[i].(Id := UIntMax)];
      assert chunk.Items[..chunk.Length] == s[i := Tombstone(s[i])];
      break;
    }
    CountIdFound(s, entityId);
  }
}
