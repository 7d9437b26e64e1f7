/**
 * BroadphaseHelper of the Physics revision (Assets/Physics/BroadpaseHelper.cs):
 * chunk lookup and creation, the cell enumeration of a box, compaction,
 * deletion by tombstone, and the record append that the insertion and update
 * systems both perform inline.
 */
module PhysicsHelper {
  import opened MathHelper
  import opened Aabb
  import opened Grid
  import opened BroadphasePair
  import opened PhysicsEcs

  /** `ChunkSize`: the side of a grid cell. */
  const ChunkSize: real := 50.0

  /** The cells a box covers. */
  function CellsOf(box: AABB): (r: CellRange)
    ensures r.Valid()
  {
    RangeOf(box, ChunkSize)
  }

  /** `GetChunks(aabb)`: the keys of the covered cells, x-major. */
  method GetChunkIds(box: AABB) returns (keys: seq<int>)
    ensures keys == Keys(CellsOf(box))
    ensures |keys| == Span(CellsOf(box).MinX, CellsOf(box).MaxX) * Span(CellsOf(box).MinY, CellsOf(box).MaxY)
    ensures forall i, j :: 0 <= i < j < |keys| ==> keys[i] != keys[j]
  {
    keys := GetChunks(CellsOf(box));
    KeysCount(CellsOf(box));
    KeysXMajorDistinct(CellsOf(box));
  }

  /** `CalculateChunksHash(aabb)`. */
  method ChunksHashOf(box: AABB) returns (hash: bv32)
    ensures hash == ChunksHash(Keys(CellsOf(box)))
  {
    hash := CalculateChunksHash(CellsOf(box));
  }

  /** A chunk as `new SAPChunk(id)` leaves it. */
  ghost predicate IsNew(c: SAPChunk)
    reads c
  {
    c.Length == 0 && c.PairLength == 0 && c.DynamicCounter == 0 && c.FreeIndex == IntMax && c.IsDirty
  }

  /** `GetOrCreateChunk(chunkId, bpChunks)`. */
  method GetOrCreateChunk(chunkId: int, sap: BroadphaseSAP) returns (chunk: SAPChunk)
    requires sap.Valid() && sap.Mirrors()
    modifies sap
    ensures sap.Valid() && sap.Mirrors() && sap.Pairs == old(sap.Pairs)
    ensures chunkId in sap.Chunks && chunk == sap.Chunks[chunkId] && chunk.Id == chunkId
    ensures chunkId in old(sap.Chunks) ==> sap.Chunks == old(sap.Chunks) && sap.Contents == old(sap.Contents)
    ensures chunkId !in old(sap.Chunks) ==>
      sap.Chunks == old(sap.Chunks)[chunkId := chunk] && sap.Contents == old(sap.Contents)[chunkId := []] &&
      fresh(chunk) && IsNew(chunk) && |chunk.Items| == InitialCapacity && |chunk.Pairs| == InitialCapacity
    ensures forall c :: c in sap.Chunks.Values ==> c in old(sap.Chunks.Values) || fresh(c)
    ensures forall k :: k in old(sap.Chunks) ==> k in sap.Chunks && sap.Chunks[k] == old(sap.Chunks[k]) && sap.Contents[k] == old(sap.Contents[k])
  {
    if chunkId in sap.Chunks {
      return sap.Chunks[chunkId];
    }
    chunk := new SAPChunk(chunkId);
    sap.Chunks := sap.Chunks[chunkId := chunk];
    sap.Contents := sap.Contents[chunkId := []];
  }

  /**
   * The chunk list of a new body (Assets/Physics/BroadphaseInitSystem.cs:38-42):
   * GetOrCreateChunk of every key in order. Chunks that did not exist are
   * created empty, and existing chunks are not touched.
   */
  method ChunksFor(keys: seq<int>, sap: BroadphaseSAP) returns (chunks: seq<SAPChunk>)
    requires sap.Valid() && sap.Mirrors()
    modifies sap
    ensures sap.Valid() && sap.Mirrors() && sap.Pairs == old(sap.Pairs)
    ensures |chunks| == |keys|
    ensures forall i :: 0 <= i < |keys| ==> keys[i] in sap.Chunks && chunks[i] == sap.Chunks[keys[i]]
    ensures forall k :: k in old(sap.Chunks) ==>
      k in sap.Chunks && sap.Chunks[k] == old(sap.Chunks[k]) && sap.Contents[k] == old(sap.Contents[k])
    ensures forall k :: k in sap.Chunks && k !in old(sap.Chunks) ==> fresh(sap.Chunks[k]) && sap.Contents[k] == []
    ensures forall c :: c in sap.Chunks.Values ==> c in old(sap.Chunks.Values) || fresh(c)
  {
    chunks := [];
    var i := 0;
    while i < |keys|
      invariant 0 <= i <= |keys| && |chunks| == i
      invariant sap.Valid() && sap.Mirrors() && sap.Pairs == old(sap.Pairs)
      invariant forall j :: 0 <= j < i ==> keys[j] in sap.Chunks && chunks[j] == sap.Chunks[keys[j]]
      invariant forall k :: k in old(sap.Chunks) ==>
        k in sap.Chunks && sap.Chunks[k] == old(sap.Chunks[k]) && sap.Contents[k] == old(sap.Contents[k])
      invariant forall k :: k in sap.Chunks && k !in old(sap.Chunks) ==> fresh(sap.Chunks[k]) && sap.Contents[k] == []
      invariant forall c :: c in sap.Chunks.Values ==> c in old(sap.Chunks.Values) || fresh(c)
    {
      var chunk := GetOrCreateChunk(keys[i], sap);
      chunks := chunks + [chunk];
      i := i + 1;
    }
  }

  /** Nothing but the records of `chunk` (and possibly its record buffer's capacity) changed since `old`. */
  twostate predicate OnlyRecordsChanged(chunk: SAPChunk)
    reads chunk
  {
    chunk.Pairs == old(chunk.Pairs) && chunk.PairLength == old(chunk.PairLength) &&
    chunk.SortAxis == old(chunk.SortAxis) && chunk.IsDirty == old(chunk.IsDirty)
  }

  /**
   * `BuildChunks(chunk)`: nothing to do when FreeIndex is not below Length;
   * otherwise the live records from FreeIndex on are moved left over the
   * tombstones, in order, Length becomes their count and FreeIndex is reset.
   */
  method BuildChunks(chunk: SAPChunk)
    requires chunk.Valid()
    modifies chunk`Items, chunk`Length, chunk`FreeIndex
    ensures chunk.Valid()
    ensures |chunk.Items| == old(|chunk.Items|) && OnlyRecordsChanged(chunk)
    ensures chunk.Records() == LiveOnly(old(chunk.Records()))
    ensures chunk.FreeIndex == IntMax && chunk.DynamicCounter == old(chunk.DynamicCounter)
    ensures old(chunk.FreeIndex) >= old(chunk.Length) ==> chunk.Length == old(chunk.Length)
  {
    var length := chunk.Length;
    var freeIndex := chunk.FreeIndex;
    ghost var s := chunk.Items[..length];
    if freeIndex >= length {
      LiveOnlyPrefix(s, length);
      assert s[..length] == s;
      return;
    }
    var items, newLength := LeftPack(chunk.Items, length, freeIndex);
    chunk.Items, chunk.Length, chunk.FreeIndex := items, newLength, IntMax;
    LiveOnlyBookkept(s, old(chunk.FreeIndex), chunk.DynamicCounter);
  }

  /**
   * The compaction loop of BuildChunks: `items[free]` is the first tombstone;
   * each later live record is copied to the next free slot of the buffer.
   * Returns the buffer and the new length.
   */
  method LeftPack(items: seq<Record>, length: int, free: int) returns (packed: seq<Record>, newLength: int)
    requires 0 <= free < length <= |items| && length < IntMax
    requires free == FirstDead(items[..length])
    ensures |packed| == |items| && 0 <= newLength <= length
    ensures packed[..newLength] == LiveOnly(items[..length])
  {
    ghost var s := items[..length];
    LiveOnlyPrefix(s, free);
    LiveOnlyStep(s, free);
    packed := items;
    var freeIndex := free;
    var current := free + 1;
    while current < length
      invariant free <= freeIndex < current <= length && |packed| == |items|
      invariant packed[..freeIndex] == LiveOnly(s[..current])
      invariant forall k :: current <= k < length ==> packed[k] == s[k]
      decreases length - current
    {
      packed, freeIndex, current := PackStep(packed, length, freeIndex, current, s);
    }
    assert s[..current] == s;
    newLength := freeIndex;
  }

  /** One round of the compaction loop: skip the tombstones, then move the next live record down. */
  method PackStep(items: seq<Record>, length: int, freeIndex: int, current: int, ghost s: seq<Record>)
      returns (packed: seq<Record>, nextFree: int, next: int)
    requires 0 <= freeIndex < current < length <= |items| && |s| == length
    requires items[..freeIndex] == LiveOnly(s[..current])
    requires forall k :: current <= k < length ==> items[k] == s[k]
    ensures freeIndex <= nextFree < next <= length && current < next && |packed| == |items|
    ensures packed[..nextFree] == LiveOnly(s[..next])
    ensures forall k :: next <= k < length ==> packed[k] == s[k]
  {
    next := SkipDead(items, length, freeIndex, current, s);
    packed, nextFree := items, freeIndex;
    if next < length {
      packed := MoveDown(items, length, freeIndex, next, s);
      nextFree, next := freeIndex + 1, next + 1;
    }
  }

  /** One copy of the compaction: the live record at `current` goes to the next free slot. */
  method MoveDown(items: seq<Record>, length: int, freeIndex: int, current: int, ghost s: seq<Record>)
      returns (moved: seq<Record>)
    requires 0 <= freeIndex < current < length <= |items| && |s| == length
    requires items[..freeIndex] == LiveOnly(s[..current]) && !Dead(items[current])
    requires forall k :: current <= k < length ==> items[k] == s[k]
    ensures |moved| == |items|
    ensures moved[..freeIndex + 1] == LiveOnly(s[..current + 1])
    ensures forall k :: current < k < length ==> moved[k] == s[k]
  {
    LiveOnlyStep(s, current);
    moved := items[freeIndex := items[current]];
    assert moved[..freeIndex + 1] == items[..freeIndex] + [s[current]];
  }

  /** The inner loop of the compaction: step over tombstones. */
  method SkipDead(items: seq<Record>, length: int, freeIndex: int, current: int, ghost s: seq<Record>)
      returns (next: int)
    requires 0 <= freeIndex < current <= length <= |items| && |s| == length
    requires items[..freeIndex] == LiveOnly(s[..current])
    requires forall k :: current <= k < length ==> items[k] == s[k]
    ensures current <= next <= length
    ensures next < length ==> !Dead(items[next])
    ensures items[..freeIndex] == LiveOnly(s[..next])
  {
    next := current;
    while next < length && items[next].Id == UIntMax
      invariant current <= next <= length
      invariant items[..freeIndex] == LiveOnly(s[..next])
    {
      LiveOnlyStep(s, next);
      next := next + 1;
    }
  }

  /** The records after RemoveFormChunk: the first record with the id becomes a tombstone; without one, nothing changes. */
  function Unlist(s: seq<Record>, id: int): (t: seq<Record>)
    ensures |t| == |s|
    ensures FindIndex(s, id) < 0 ==> t == s
    ensures FindIndex(s, id) >= 0 ==> Dead(t[FindIndex(s, id)])
  {
    var i := FindIndex(s, id);
    if i < 0 then s else s[i := Tombstone(s[i])]
  }

  /** Removing an id drops its count by one when there was a record of it, and keeps every other live id's count. */
  lemma UnlistCounts(s: seq<Record>, id: int, x: int)
    requires id != UIntMax && x != UIntMax
    ensures FindIndex(s, id) >= 0 <==> CountId(s, id) > 0
    ensures CountId(Unlist(s, id), x) == CountId(s, x) - (if x == id && CountId(s, id) > 0 then 1 else 0)
  {
    var i := FindIndex(s, id);
    if i < 0 {
      CountIdZero(s, id);
    } else {
      CountIdUpdate(s, i, Tombstone(s[i]), x);
      CountIdUpdate(s, i, Tombstone(s[i]), id);
    }
  }

  /**
   * `RemoveFormChunk(chunk, entityId)`: the first record in use with the id is
   * turned into a tombstone, the dynamic count drops when it was dynamic, and
   * FreeIndex becomes the smaller of itself and the index. The source throws
   * when no record has the id; here `found` is false and nothing changes.
   */
  method RemoveFormChunk(chunk: SAPChunk, entityId: int) returns (found: bool)
    requires chunk.Valid() && IsUInt(entityId) && entityId != UIntMax
    modifies chunk
    ensures chunk.Valid() && |chunk.Items| == old(|chunk.Items|) && chunk.Length == old(chunk.Length)
    ensures OnlyRecordsChanged(chunk)
    ensures found <==> CountId(old(chunk.Records()), entityId) > 0
    ensures chunk.Records() == Unlist(old(chunk.Records()), entityId)
    ensures !found ==> chunk.FreeIndex == old(chunk.FreeIndex) && chunk.DynamicCounter == old(chunk.DynamicCounter)
    ensures found ==> var i := FindIndex(old(chunk.Records()), entityId);
      chunk.FreeIndex == (if old(chunk.FreeIndex) < i then old(chunk.FreeIndex) else i) &&
      chunk.DynamicCounter == old(chunk.DynamicCounter) - (if old(chunk.Records())[i].IsStatic then 0 else 1)
  {
    var index := FindRecord(chunk.Items, chunk.Length, entityId);
    UnlistCounts(chunk.Records(), entityId, entityId);
    if index < 0 {
      return false;
    }
    TombstoneAt(chunk, index);
    found := true;
  }

  /** The deletion proper: the record at `index` becomes a tombstone and the counters follow. */
  method TombstoneAt(chunk: SAPChunk, index: int)
    requires chunk.Valid() && 0 <= index < chunk.Length && !Dead(chunk.Items[index])
    modifies chunk
    ensures chunk.Valid() && |chunk.Items| == old(|chunk.Items|) && chunk.Length == old(chunk.Length)
    ensures OnlyRecordsChanged(chunk)
    ensures chunk.Records() == old(chunk.Records())[index := Tombstone(old(chunk.Items[index]))]
    ensures chunk.FreeIndex == if old(chunk.FreeIndex) < index then old(chunk.FreeIndex) else index
    ensures chunk.DynamicCounter == old(chunk.DynamicCounter) - (if old(chunk.Items[index]).IsStatic then 0 else 1)
  {
    ghost var s := chunk.Items[..chunk.Length];
    var item := chunk.Items[index];
    if !item.IsStatic {
      chunk.DynamicCounter := chunk.DynamicCounter - 1;
    }
    item := item.(Id := UIntMax, Entity := null);
    chunk.Items := chunk.Items[index := item];
    chunk.FreeIndex := if chunk.FreeIndex < index then chunk.FreeIndex else index;
    TombstoneBookkept(s, old(chunk.FreeIndex), old(chunk.DynamicCounter), index);
    assert chunk.Items[..chunk.Length] == s[index := Tombstone(s[index])];
  }

  /** `Array.FindIndex(items, 0, length, bp => bp.Id == id)`. */
  method FindRecord(items: seq<Record>, length: int, id: int) returns (index: int)
    requires 0 <= length <= |items|
    ensures index == FindIndex(items[..length], id)
  {
    var i := 0;
    while i < length
      invariant 0 <= i <= length
      invariant forall j :: 0 <= j < i ==> items[j].Id != id
    {
      if items[i].Id == id {
        return i;
      }
      i := i + 1;
    }
    return -1;
  }

  /** `Array.Resize(ref items, size)` to a larger size: the old records first, then default slots. */
  function Resized(items: seq<Record>, size: int): (bigger: seq<Record>)
    requires |items| <= size
    ensures |bigger| == size && bigger[..|items|] == items
    ensures forall i :: |items| <= i < size ==> bigger[i] == EmptyRecord
  {
    items + seq(size - |items|, _ => EmptyRecord)
  }

  /**
   * The append the insertion and update systems perform on each chunk that
   * gains a body: when the buffer is full it is resized to twice the length,
   * the record goes in at Length, Length grows by one, and DynamicCounter grows
   * when the body is not static. FreeIndex is left alone.
   */
  method AppendRecord(chunk: SAPChunk, r: Record)
    requires chunk.Valid() && WellFormed(r) && !Dead(r) && chunk.Length + 1 < IntMax
    modifies chunk
    ensures chunk.Valid() && OnlyRecordsChanged(chunk)
    ensures chunk.Records() == old(chunk.Records()) + [r]
    ensures chunk.FreeIndex == old(chunk.FreeIndex)
    ensures chunk.DynamicCounter == old(chunk.DynamicCounter) + (if r.IsStatic then 0 else 1)
    ensures |chunk.Items| == if old(chunk.Length) < old(|chunk.Items|) then old(|chunk.Items|) else 2 * old(chunk.Length)
  {
    Grow(chunk);
    Put(chunk, r);
  }

  /** The write of the append, once there is room: the record goes in at Length. */
  method Put(chunk: SAPChunk, r: Record)
    requires chunk.Valid() && WellFormed(r) && !Dead(r) && chunk.Length + 1 < IntMax
    requires chunk.Length < |chunk.Items|
    modifies chunk
    ensures chunk.Valid() && OnlyRecordsChanged(chunk) && |chunk.Items| == old(|chunk.Items|)
    ensures chunk.Records() == old(chunk.Records()) + [r]
    ensures chunk.FreeIndex == old(chunk.FreeIndex)
    ensures chunk.DynamicCounter == old(chunk.DynamicCounter) + (if r.IsStatic then 0 else 1)
  {
    ghost var s := chunk.Items[..chunk.Length];
    chunk.Items := chunk.Items[chunk.Length := r];
    chunk.Length := chunk.Length + 1;
    if !r.IsStatic {
      chunk.DynamicCounter := chunk.DynamicCounter + 1;
    }
    AppendBookkept(s, chunk.FreeIndex, old(chunk.DynamicCounter), r);
    assert chunk.Items[..chunk.Length] == s + [r];
  }

  /** The capacity check of the append: a full record buffer is resized to twice the length, keeping the records. */
  method Grow(chunk: SAPChunk)
    requires chunk.Valid()
    modifies chunk
    ensures chunk.Valid() && OnlyRecordsChanged(chunk) && chunk.Length < |chunk.Items|
    ensures chunk.Length == old(chunk.Length) && chunk.Records() == old(chunk.Records())
    ensures chunk.FreeIndex == old(chunk.FreeIndex) && chunk.DynamicCounter == old(chunk.DynamicCounter)
    ensures |chunk.Items| == if old(chunk.Length) < old(|chunk.Items|) then old(|chunk.Items|) else 2 * old(chunk.Length)
  {
    if chunk.Length >= |chunk.Items| {
      chunk.Items := Resized(chunk.Items, 2 * chunk.Length);
      assert chunk.Items[..chunk.Length] == old(chunk.Items[..chunk.Length]);
    }
  }
}
