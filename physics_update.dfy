/**
 * BroadphaseUpdateSystem of the Physics revision
 * (Assets/Physics/BroadphaseUpdateSystem.cs): every registered body that is
 * not static gets the box of its current transform and, when the cells it
 * covers changed, keeps the chunks it still covers, enters the others with a
 * new record and leaves the chunks it no longer covers.
 *
 * The source decides that the cells changed by comparing chunk hashes. Two
 * different cell ranges can share a hash, and the body then keeps a chunk
 * list that no longer matches its box: `Refresh` is the step as written and
 * `StaleAfterCollision` the input that shows it. `RefreshChecked` also
 * compares the chunk ids, and the system `Update` is built on it.
 */
module PhysicsUpdate {
  import opened MathHelper
  import opened Aabb
  import opened Grid
  import opened BroadphasePair
  import opened PhysicsEcs
  import opened PhysicsHelper
  import opened PhysicsWorld
  import opened PhysicsInit
  import opened CollisionMatrix

  /** The ids of the chunks of a list without empty slots. */
  function ChunkIds(list: seq<SAPChunk?>): seq<int>
    requires forall a :: 0 <= a < |list| ==> list[a] != null
  {
    seq(|list|, a requires 0 <= a < |list| => list[a].Id)
  }

  /** The old list once the key loop has taken the chunks of `keys` out of it: their slots are empty. */
  function Taken(list: seq<SAPChunk?>, keys: seq<int>): seq<SAPChunk?>
  {
    seq(|list|, a requires 0 <= a < |list| => if list[a] != null && list[a].Id in keys then null else list[a])
  }

  /** The view of the chunk of `k`; a chunk not created yet has no records. */
  function ViewOf(contents: map<int, seq<Record>>, k: int): seq<Record>
  {
    if k in contents then contents[k] else []
  }

  /**
   * The views after the key loop (lines 50-93): in key order, the chunk of
   * every key that is not an old key (created empty where missing) gains `r`.
   */
  function Added(contents: map<int, seq<Record>>, olds: seq<int>, keys: seq<int>, r: Record): map<int, seq<Record>>
  {
    if keys == [] then contents
    else
      var m := Added(contents, olds, keys[..|keys| - 1], r);
      var k := keys[|keys| - 1];
      if k in olds then m else m[k := ViewOf(m, k) + [r]]
  }

  /**
   * The views after the loop over what is left of the old list (lines
   * 95-100): the chunk of every old key that is not a key loses the first
   * record of `id`.
   */
  function Dropped(contents: map<int, seq<Record>>, olds: seq<int>, keys: seq<int>, id: int): map<int, seq<Record>>
  {
    if olds == [] then contents
    else
      var m := Dropped(contents, olds[..|olds| - 1], keys, id);
      var k := olds[|olds| - 1];
      if k in keys || k !in m then m else m[k := Unlist(m[k], id)]
  }

  /** The views after a body left the chunks of `olds` for those of `keys` (lines 48-100). */
  function Moved(contents: map<int, seq<Record>>, olds: seq<int>, keys: seq<int>, r: Record): map<int, seq<Record>>
  {
    Dropped(Added(contents, olds, keys, r), olds, keys, r.Id)
  }

  /**
   * With distinct keys, the key loop creates the chunks of the keys that are
   * not old keys, and the view of every chunk gains `r` exactly when its key
   * is a key and not an old key.
   */
  lemma {:induction false} AddedAt(contents: map<int, seq<Record>>, olds: seq<int>, keys: seq<int>, r: Record, k: int)
    requires forall i, j :: 0 <= i < j < |keys| ==> keys[i] != keys[j]
    ensures k in Added(contents, olds, keys, r) <==> k in contents || (k in keys && k !in olds)
    ensures k in contents || k in keys ==>
      ViewOf(Added(contents, olds, keys, r), k) == ViewOf(contents, k) + (if k in keys && k !in olds then [r] else [])
  {
    if keys != [] {
      var init := keys[..|keys| - 1];
      AddedAt(contents, olds, init, r, k);
      assert k in keys <==> k in init || k == keys[|keys| - 1];
      if k == keys[|keys| - 1] {
        assert k !in init;
      }
    }
  }

  /**
   * With distinct old keys, the loop over the rest of the old list creates
   * nothing, and the view of every chunk loses the record of `id` exactly
   * when its key is an old key and not a key.
   */
  lemma {:induction false} DroppedAt(contents: map<int, seq<Record>>, olds: seq<int>, keys: seq<int>, id: int, k: int)
    requires forall i, j :: 0 <= i < j < |olds| ==> olds[i] != olds[j]
    ensures k in Dropped(contents, olds, keys, id) <==> k in contents
    ensures k in contents ==>
      Dropped(contents, olds, keys, id)[k] == if k in olds && k !in keys then Unlist(contents[k], id) else contents[k]
  {
    if olds != [] {
      var init := olds[..|olds| - 1];
      DroppedAt(contents, init, keys, id, k);
      assert k in olds <==> k in init || k == olds[|olds| - 1];
      if k == olds[|olds| - 1] {
        assert k !in init;
      }
    }
  }

  /** One more key of the key loop. */
  lemma AddedStep(contents: map<int, seq<Record>>, olds: seq<int>, keys: seq<int>, j: int, r: Record)
    requires 0 <= j < |keys|
    ensures var m := Added(contents, olds, keys[..j], r);
      Added(contents, olds, keys[..j + 1], r) == if keys[j] in olds then m else m[keys[j] := ViewOf(m, keys[j]) + [r]]
  {
    assert keys[..j + 1][..j] == keys[..j];
  }

  /** One more slot of the loop over the rest of the old list. */
  lemma DroppedStep(contents: map<int, seq<Record>>, olds: seq<int>, keys: seq<int>, id: int, a: int)
    requires 0 <= a < |olds|
    ensures var m := Dropped(contents, olds[..a], keys, id);
      Dropped(contents, olds[..a + 1], keys, id) == if olds[a] in keys || olds[a] !in m then m else m[olds[a] := Unlist(m[olds[a]], id)]
  {
    assert olds[..a + 1][..a] == olds[..a];
  }

  /** A body whose cells did not change moves no record. */
  lemma MovedNothing(contents: map<int, seq<Record>>, keys: seq<int>, r: Record)
    requires forall i, j :: 0 <= i < j < |keys| ==> keys[i] != keys[j]
    ensures Moved(contents, keys, keys, r) == contents
  {
    var added := Added(contents, keys, keys, r);
    forall k | k in added
      ensures k in contents && added[k] == contents[k]
    {
      AddedAt(contents, keys, keys, r, k);
      assert ViewOf(contents, k) + [] == ViewOf(contents, k);
    }
    forall k | k in contents
      ensures k in added
    {
      AddedAt(contents, keys, keys, r, k);
    }
    assert added == contents;
    var dropped := Dropped(contents, keys, keys, r.Id);
    forall k | k in dropped
      ensures k in contents && dropped[k] == contents[k]
    {
      DroppedAt(contents, keys, keys, r.Id, k);
    }
    forall k | k in contents
      ensures k in dropped
    {
      DroppedAt(contents, keys, keys, r.Id, k);
    }
  }

  /** The views of a move: every view gains at most one record, and the others keep their length. */
  lemma MovedLength(contents: map<int, seq<Record>>, olds: seq<int>, keys: seq<int>, r: Record, k: int)
    requires forall i, j :: 0 <= i < j < |keys| ==> keys[i] != keys[j]
    requires forall i, j :: 0 <= i < j < |olds| ==> olds[i] != olds[j]
    requires k in Moved(contents, olds, keys, r)
    ensures |Moved(contents, olds, keys, r)[k]| <= |ViewOf(contents, k)| + 1
  {
    var added := Added(contents, olds, keys, r);
    DroppedAt(added, olds, keys, r.Id, k);
    AddedAt(contents, olds, keys, r, k);
  }

  /** A move leaves room for one record fewer in every chunk. */
  lemma MovedRoom(contents: map<int, seq<Record>>, olds: seq<int>, keys: seq<int>, r: Record, n: int)
    requires forall i, j :: 0 <= i < j < |keys| ==> keys[i] != keys[j]
    requires forall i, j :: 0 <= i < j < |olds| ==> olds[i] != olds[j]
    requires 1 <= n < IntMax && forall k :: k in contents ==> |contents[k]| + n < IntMax
    ensures forall k :: k in Moved(contents, olds, keys, r) ==> |Moved(contents, olds, keys, r)[k]| + n - 1 < IntMax
  {
    forall k | k in Moved(contents, olds, keys, r)
      ensures |Moved(contents, olds, keys, r)[k]| + n - 1 < IntMax
    {
      MovedLength(contents, olds, keys, r, k);
    }
  }

  /** The ids of a well-kept list are those of its chunks, and they are distinct. */
  lemma ListOkIds(chunks: map<int, SAPChunk>, list: seq<SAPChunk?>)
    requires ListOk(chunks, list)
    ensures var olds := ChunkIds(list);
      forall i, j :: 0 <= i < j < |olds| ==> olds[i] != olds[j]
  {
    var olds := ChunkIds(list);
    forall i, j | 0 <= i < j < |olds|
      ensures olds[i] != olds[j]
    {
      assert chunks[list[i].Id] == list[i] && chunks[list[j].Id] == list[j];
    }
  }

  /** Over a map that only gained chunks, each under its own key, a list kept over the old map holds no new chunk. */
  lemma InListOld(chunks: map<int, SAPChunk>, chunks': map<int, SAPChunk>, list: seq<SAPChunk?>, k: int)
    requires ListOk(chunks, list) && k in chunks'
    requires forall k' :: k' in chunks' ==> chunks'[k'].Id == k'
    requires forall k' :: k' in chunks ==> k' in chunks' && chunks'[k'] == chunks[k']
    ensures chunks'[k] in list <==> k in chunks && chunks[k] in list
  {
    if chunks'[k] in list {
      var a :| 0 <= a < |list| && list[a] == chunks'[k];
      assert list[a].Id == k;
    }
  }

  /** The chunk of `k` is in a well-kept list exactly when `k` is one of the list's ids. */
  lemma InListIds(chunks: map<int, SAPChunk>, list: seq<SAPChunk?>, k: int)
    requires ListOk(chunks, list) && k in chunks && chunks[k].Id == k
    ensures chunks[k] in list <==> k in ChunkIds(list)
  {
    var olds := ChunkIds(list);
    if chunks[k] in list {
      var a :| 0 <= a < |list| && list[a] == chunks[k];
      assert olds[a] == k;
    }
    if k in olds {
      var a :| 0 <= a < |olds| && olds[a] == k;
      assert list[a] == chunks[k];
    }
  }

  /** The chunk of `k` is in the list of the chunks of `keys` exactly when `k` is a key. */
  lemma InListKeys(chunks: map<int, SAPChunk>, keys: seq<int>, list: seq<SAPChunk?>, k: int)
    requires k in chunks && forall k' :: k' in chunks ==> chunks[k'].Id == k'
    requires |list| == |keys| && forall j :: 0 <= j < |keys| ==> keys[j] in chunks && list[j] == chunks[keys[j]]
    ensures chunks[k] in list <==> k in keys
  {
    if chunks[k] in list {
      var j :| 0 <= j < |list| && list[j] == chunks[k];
      assert keys[j] == k;
    }
    if k in keys {
      var j :| 0 <= j < |keys| && keys[j] == k;
      assert list[j] == chunks[k];
    }
  }

  /** The view of one chunk after a move, from its view before. */
  lemma MovedView(contents: map<int, seq<Record>>, olds: seq<int>, keys: seq<int>, r: Record, k: int)
    requires forall i, j :: 0 <= i < j < |keys| ==> keys[i] != keys[j]
    requires forall i, j :: 0 <= i < j < |olds| ==> olds[i] != olds[j]
    requires k in Moved(contents, olds, keys, r)
    ensures k in contents || (k in keys && k !in olds)
    ensures var grown := ViewOf(contents, k) + (if k in keys && k !in olds then [r] else []);
      Moved(contents, olds, keys, r)[k] == if k in olds && k !in keys then Unlist(grown, r.Id) else grown
  {
    DroppedAt(Added(contents, olds, keys, r), olds, keys, r.Id, k);
    AddedAt(contents, olds, keys, r, k);
  }

  /** Removal leaves the records it found and one tombstone. */
  lemma UnlistElements(s: seq<Record>, id: int, x: Record)
    requires x in Unlist(s, id)
    ensures x in s || Dead(x)
  {
    var i := FindIndex(s, id);
    if i >= 0 && !Dead(x) {
      var j :| 0 <= j < |s| && s[i := Tombstone(s[i])][j] == x;
      assert j != i && s[j] == x;
    }
  }

  /**
   * A move keeps every record its entity's: the mover's new records name it
   * and point at its component, and what the move removes becomes a
   * tombstone.
   */
  lemma OwnedMoved(contents: map<int, seq<Record>>, world: seq<Entity>, refs: seq<BroadphaseRef?>, olds: seq<int>, keys: seq<int>,
                   p: int, r: Record)
    requires Owned(contents, world, refs) && DistinctIds(world) && 0 <= p < |world|
    requires r.Id == world[p].Id && r.Entity == world[p] && r.Box == refs[p]
    requires forall i, j :: 0 <= i < j < |keys| ==> keys[i] != keys[j]
    requires forall i, j :: 0 <= i < j < |olds| ==> olds[i] != olds[j]
    ensures Owned(Moved(contents, olds, keys, r), world, refs)
  {
    var moved := Moved(contents, olds, keys, r);
    forall k, i, x: Record | k in moved && 0 <= i < |world| && x in moved[k] && x.Id == world[i].Id
      ensures x.Entity == world[i] && x.Box == refs[i]
    {
      MovedView(contents, olds, keys, r, k);
      var grown := ViewOf(contents, k) + (if k in keys && k !in olds then [r] else []);
      if k in olds && k !in keys {
        UnlistElements(grown, r.Id, x);
      }
      assert x in grown;
      if x != r {
        assert x in ViewOf(contents, k);
      }
    }
  }

  /** Appending `r` adds one to the count of its id; removing the first record of its id takes one away. */
  lemma GrownCount(base: seq<Record>, r: Record, x: int, add: bool, drop: bool)
    requires r.Id != UIntMax && x != UIntMax && !(add && drop)
    ensures var grown := base + (if add then [r] else []);
      CountId(if drop then Unlist(grown, r.Id) else grown, x) ==
        CountId(base, x) + (if add && r.Id == x then 1 else 0) - (if drop && x == r.Id && CountId(base, x) > 0 then 1 else 0)
  {
    var grown := base + (if add then [r] else []);
    CountIdAppend(base, r, x);
    assert base + [] == base;
    UnlistCounts(grown, r.Id, x);
  }

  /**
   * The count of one id in one chunk after a move: one exactly when the
   * id's list, with the mover's list replaced, names the chunk.
   */
  lemma MovedCount(chunks: map<int, SAPChunk>, contents: map<int, seq<Record>>, ids: seq<int>, lists: seq<seq<SAPChunk?>>,
                   p: int, keys: seq<int>, chunks': map<int, SAPChunk>, list: seq<SAPChunk?>, r: Record, i: int, k: int)
    requires Registry(chunks, contents, ids, lists) && chunks.Keys == contents.Keys
    requires 0 <= p < |ids| && 0 <= i < |ids| && r.Id == ids[p] && r.Id != UIntMax && ids[i] != UIntMax
    requires i != p ==> ids[i] != r.Id
    requires forall k' :: k' in chunks' ==> chunks'[k'].Id == k'
    requires forall k' :: k' in chunks ==> k' in chunks' && chunks'[k'] == chunks[k']
    requires |list| == |keys| && forall j :: 0 <= j < |keys| ==> keys[j] in chunks' && list[j] == chunks'[keys[j]]
    requires forall a, b :: 0 <= a < b < |keys| ==> keys[a] != keys[b]
    requires k in chunks' && k in Moved(contents, ChunkIds(lists[p]), keys, r)
    ensures CountId(Moved(contents, ChunkIds(lists[p]), keys, r)[k], ids[i]) == if chunks'[k] in lists[p := list][i] then 1 else 0
  {
    var olds := ChunkIds(lists[p]);
    var x := ids[i];
    assert ListOk(chunks, lists[p]) && ListOk(chunks, lists[i]);
    ListOkIds(chunks, lists[p]);
    MovedView(contents, olds, keys, r, k);
    var base := ViewOf(contents, k);
    var add, drop := k in keys && k !in olds, k in olds && k !in keys;
    GrownCount(base, r, x, add, drop);
    if k in contents {
      assert chunks'[k] == chunks[k];
      assert CountId(base, x) == if chunks[k] in lists[i] then 1 else 0;
    } else {
      assert CountId(base, x) == 0;
    }
    if i == p {
      InListKeys(chunks', keys, list, k);
      if k in contents {
        InListIds(chunks, lists[p], k);
      }
    } else {
      InListOld(chunks, chunks', lists[i], k);
    }
  }

  /**
   * A move keeps the registration invariant: when the body at `p` leaves the
   * chunks of its list for those of `keys` (created where missing, each
   * under its own key), the views `Moved` agree with its new list and every
   * other list.
   */
  lemma MovedRegistry(chunks: map<int, SAPChunk>, contents: map<int, seq<Record>>, ids: seq<int>, lists: seq<seq<SAPChunk?>>,
                      p: int, keys: seq<int>, chunks': map<int, SAPChunk>, list: seq<SAPChunk?>, r: Record)
    requires Registry(chunks, contents, ids, lists) && chunks.Keys == contents.Keys
    requires 0 <= p < |ids| && r.Id == ids[p]
    requires forall i :: 0 <= i < |ids| ==> ids[i] != UIntMax
    requires forall i :: 0 <= i < |ids| && i != p ==> ids[i] != r.Id
    requires forall k :: k in chunks' ==> chunks'[k].Id == k
    requires forall k :: k in chunks ==> k in chunks' && chunks'[k] == chunks[k]
    requires |list| == |keys| && forall j :: 0 <= j < |keys| ==> keys[j] in chunks' && list[j] == chunks'[keys[j]]
    requires forall a, b :: 0 <= a < b < |keys| ==> keys[a] != keys[b]
    ensures ListOk(chunks, lists[p])
    ensures Registry(chunks', Moved(contents, ChunkIds(lists[p]), keys, r), ids, lists[p := list])
  {
    assert ListOk(chunks, lists[p]);
    var lists' := lists[p := list];
    var moved := Moved(contents, ChunkIds(lists[p]), keys, r);
    forall i | 0 <= i < |lists'|
      ensures ListOk(chunks', lists'[i])
    {
      if i == p {
        forall a, b | 0 <= a < b < |list|
          ensures list[a] != list[b]
        {
          assert list[a].Id == keys[a] && list[b].Id == keys[b];
        }
      } else {
        assert ListOk(chunks, lists[i]);
      }
    }
    forall i, k | 0 <= i < |ids| && k in chunks' && k in moved
      ensures CountId(moved[k], ids[i]) == if chunks'[k] in lists'[i] then 1 else 0
    {
      MovedCount(chunks, contents, ids, lists, p, keys, chunks', list, r, i, k);
    }
  }

  /** The list holds, slot by slot, the chunk stored under each key. */
  ghost predicate StoredAs(chunks: map<int, SAPChunk>, keys: seq<int>, list: seq<SAPChunk?>)
  {
    |list| == |keys| && forall t :: 0 <= t < |keys| ==> keys[t] in chunks && list[t] == chunks[keys[t]]
  }

  /** One more slot, over a map that only gained chunks. */
  lemma StoredAsStep(chunks: map<int, SAPChunk>, chunks': map<int, SAPChunk>, keys: seq<int>, j: int, list: seq<SAPChunk?>, c: SAPChunk)
    requires 0 <= j < |keys| && StoredAs(chunks, keys[..j], list)
    requires forall k :: k in chunks ==> k in chunks' && chunks'[k] == chunks[k]
    requires keys[j] in chunks' && c == chunks'[keys[j]]
    ensures StoredAs(chunks', keys[..j + 1], list + [c])
  {
    assert forall t :: 0 <= t < j ==> keys[..j][t] == keys[t];
  }

  /** The search of lines 52-61: the first slot holding a chunk with id `chunkId`, or -1. */
  method FindChunk(chunks: seq<SAPChunk?>, chunkId: int) returns (index: int)
    ensures -1 <= index < |chunks|
    ensures index == -1 <==> forall a :: 0 <= a < |chunks| ==> chunks[a] == null || chunks[a].Id != chunkId
    ensures index >= 0 ==>
      chunks[index] != null && chunks[index].Id == chunkId &&
      forall a :: 0 <= a < index ==> chunks[a] == null || chunks[a].Id != chunkId
  {
    index := -1;
    var i := 0;
    while i < |chunks|
      invariant 0 <= i <= |chunks|
      invariant forall a :: 0 <= a < i ==> chunks[a] == null || chunks[a].Id != chunkId
    {
      if chunks[i] != null && chunks[i].Id == chunkId {
        return i;
      }
      i := i + 1;
    }
  }

  /**
   * A slot the search finds in what is left of a well-kept list holds the
   * chunk of an old key, and taking it empties that slot and no other.
   */
  lemma TakenFound(chunks: map<int, SAPChunk>, list: seq<SAPChunk?>, keys: seq<int>, j: int, index: int)
    requires ListOk(chunks, list) && 0 <= j < |keys| && forall a, b :: 0 <= a < b < |keys| ==> keys[a] != keys[b]
    requires 0 <= index < |list|
    requires var rest := Taken(list, keys[..j]); rest[index] != null && rest[index].Id == keys[j]
    ensures Taken(list, keys[..j])[index] == list[index] == chunks[keys[j]] && keys[j] in ChunkIds(list)
    ensures Taken(list, keys[..j + 1]) == Taken(list, keys[..j])[index := null]
  {
    var rest, rest' := Taken(list, keys[..j]), Taken(list, keys[..j + 1]);
    assert ChunkIds(list)[index] == keys[j];
    forall a | 0 <= a < |list|
      ensures rest'[a] == rest[index := null][a]
    {
      assert list[a].Id in keys[..j + 1] <==> list[a].Id in keys[..j] || list[a].Id == keys[j];
    }
  }

  /** A key the search misses in what is left of a well-kept list is not an old key, and nothing is taken for it. */
  lemma TakenMissing(chunks: map<int, SAPChunk>, list: seq<SAPChunk?>, keys: seq<int>, j: int)
    requires ListOk(chunks, list) && 0 <= j < |keys| && forall a, b :: 0 <= a < b < |keys| ==> keys[a] != keys[b]
    requires var rest := Taken(list, keys[..j]);
      forall a :: 0 <= a < |rest| ==> rest[a] == null || rest[a].Id != keys[j]
    ensures keys[j] !in ChunkIds(list)
    ensures Taken(list, keys[..j + 1]) == Taken(list, keys[..j])
  {
    var rest, rest' := Taken(list, keys[..j]), Taken(list, keys[..j + 1]);
    assert keys[j] !in keys[..j];
    forall a | 0 <= a < |list|
      ensures list[a].Id != keys[j] && rest'[a] == rest[a]
    {
      assert list[a].Id in keys[..j + 1] <==> list[a].Id in keys[..j] || list[a].Id == keys[j];
      assert list[a].Id !in keys[..j] ==> rest[a] == list[a];
    }
  }

  /**
   * A key that is not an old key: before its turn its view is as it was at
   * the start (or empty), and its turn appends `r` to it.
   */
  lemma Entered(start: map<int, seq<Record>>, olds: seq<int>, keys: seq<int>, j: int, r: Record)
    requires 0 <= j < |keys| && forall a, b :: 0 <= a < b < |keys| ==> keys[a] != keys[b]
    requires keys[j] !in olds && forall k :: k in start ==> |start[k]| + 1 < IntMax
    ensures var m, k := Added(start, olds, keys[..j], r), keys[j];
      |ViewOf(m, k)| + 1 < IntMax && (k in m <==> k in start) &&
      Added(start, olds, keys[..j + 1], r) == m[k := ViewOf(m, k) + [r]]
  {
    var key := keys[j];
    assert key !in keys[..j];
    AddedAt(start, olds, keys[..j], r, key);
    AddedStep(start, olds, keys, j, r);
    assert ViewOf(start, key) + [] == ViewOf(start, key);
  }

  /**
   * Lines 69-92: the chunk of a key that is not an old key is looked up or
   * created, and gains the body's record.
   */
  method Enter(sap: BroadphaseSAP, keys: seq<int>, j: int, r: Record, ghost olds: seq<int>, ghost start: map<int, seq<Record>>)
    returns (chunk: SAPChunk)
    requires sap.Valid() && sap.Mirrors() && WellFormed(r) && !Dead(r)
    requires 0 <= j < |keys| && forall a, b :: 0 <= a < b < |keys| ==> keys[a] != keys[b]
    requires keys[j] !in olds && forall k :: k in start ==> |start[k]| + 1 < IntMax
    requires sap.Contents == Added(start, olds, keys[..j], r)
    modifies sap, sap.Chunks.Values
    ensures sap.Valid() && sap.Mirrors() && Grown(sap)
    ensures forall c :: c in sap.Chunks.Values ==> c in old(sap.Chunks.Values) || fresh(c)
    ensures keys[j] in sap.Chunks && chunk == sap.Chunks[keys[j]]
    ensures sap.Contents == Added(start, olds, keys[..j + 1], r)
  {
    ghost var m := sap.Contents;
    Entered(start, olds, keys, j, r);
    chunk := GetOrCreateChunk(keys[j], sap);
    assert Grown(sap);
    assert sap.Contents == m[keys[j] := ViewOf(m, keys[j])];
    ghost var chunks := sap.Chunks;
    Append(sap, chunk, r);
    assert sap.Chunks == chunks;
  }

  /** The state of the key loop after `j` keys: the old chunks kept, the new list and the views built so far. */
  ghost predicate Keyed(sap: BroadphaseSAP, list: seq<SAPChunk?>, keys: seq<int>, j: int, rest: seq<SAPChunk?>,
                        newChunks: seq<SAPChunk>, r: Record, chunks0: map<int, SAPChunk>, start: map<int, seq<Record>>)
    reads sap, sap.Chunks.Values
  {
    0 <= j <= |keys| && sap.Valid() && sap.Mirrors() && ListOk(chunks0, list) &&
    (forall k :: k in chunks0 ==> k in sap.Chunks && sap.Chunks[k] == chunks0[k]) &&
    rest == Taken(list, keys[..j]) && StoredAs(sap.Chunks, keys[..j], newChunks) &&
    sap.Contents == Added(start, ChunkIds(list), keys[..j], r)
  }

  /** One key of the key loop (lines 52-92): the chunk is taken from what is left of the old list, or entered. */
  method KeyStep(sap: BroadphaseSAP, list: seq<SAPChunk?>, keys: seq<int>, j: int, rest: seq<SAPChunk?>,
                 newChunks: seq<SAPChunk>, r: Record, ghost chunks0: map<int, SAPChunk>, ghost start: map<int, seq<Record>>)
    returns (rest': seq<SAPChunk?>, newChunks': seq<SAPChunk>)
    requires WellFormed(r) && !Dead(r) && j < |keys|
    requires forall a, b :: 0 <= a < b < |keys| ==> keys[a] != keys[b]
    requires forall k :: k in start ==> |start[k]| + 1 < IntMax
    requires Keyed(sap, list, keys, j, rest, newChunks, r, chunks0, start)
    modifies sap, sap.Chunks.Values
    ensures Keyed(sap, list, keys, j + 1, rest', newChunks', r, chunks0, start)
    ensures forall c :: c in sap.Chunks.Values ==> c in old(sap.Chunks.Values) || fresh(c)
  {
    var index := FindChunk(rest, keys[j]);
    if index >= 0 {
      rest', newChunks' := Reuse(sap, list, keys, j, rest, newChunks, r, chunks0, start, index);
    } else {
      TakenMissing(chunks0, list, keys, j);
      ghost var before := sap.Chunks;
      var chunk := Enter(sap, keys, j, r, ChunkIds(list), start);
      StoredAsStep(before, sap.Chunks, keys, j, newChunks, chunk);
      rest', newChunks' := rest, newChunks + [chunk];
    }
  }

  /** Lines 63-68: the chunk found in what is left of the old list is kept, and its slot emptied. */
  method Reuse(sap: BroadphaseSAP, list: seq<SAPChunk?>, keys: seq<int>, j: int, rest: seq<SAPChunk?>,
               newChunks: seq<SAPChunk>, r: Record, ghost chunks0: map<int, SAPChunk>, ghost start: map<int, seq<Record>>,
               index: int)
    returns (rest': seq<SAPChunk?>, newChunks': seq<SAPChunk>)
    requires ListOk(chunks0, list) && forall k :: k in chunks0 ==> k in sap.Chunks && sap.Chunks[k] == chunks0[k]
    requires 0 <= j < |keys| && forall a, b :: 0 <= a < b < |keys| ==> keys[a] != keys[b]
    requires rest == Taken(list, keys[..j]) && StoredAs(sap.Chunks, keys[..j], newChunks)
    requires 0 <= index < |rest| && rest[index] != null && rest[index].Id == keys[j]
    requires sap.Contents == Added(start, ChunkIds(list), keys[..j], r)
    ensures rest' == Taken(list, keys[..j + 1]) && StoredAs(sap.Chunks, keys[..j + 1], newChunks')
    ensures sap.Contents == Added(start, ChunkIds(list), keys[..j + 1], r)
  {
    TakenFound(chunks0, list, keys, j, index);
    AddedStep(start, ChunkIds(list), keys, j, r);
    var chunk := rest[index];
    rest' := rest[index := null];
    StoredAsStep(sap.Chunks, sap.Chunks, keys, j, newChunks, chunk);
    newChunks' := newChunks + [chunk];
  }

  /**
   * The key loop (lines 50-93): the new list holds the chunk of every key in
   * order, the chunks of the old keys are taken out of the old list, and the
   * views are those `Added` describes.
   */
  method AddNew(sap: BroadphaseSAP, list: seq<SAPChunk?>, keys: seq<int>, r: Record)
    returns (rest: seq<SAPChunk?>, newChunks: seq<SAPChunk>)
    requires sap.Valid() && sap.Mirrors() && Room(sap, 1) && WellFormed(r) && !Dead(r)
    requires ListOk(sap.Chunks, list) && forall a, b :: 0 <= a < b < |keys| ==> keys[a] != keys[b]
    modifies sap, sap.Chunks.Values
    ensures sap.Valid() && sap.Mirrors() && Grown(sap)
    ensures forall c :: c in sap.Chunks.Values ==> c in old(sap.Chunks.Values) || fresh(c)
    ensures rest == Taken(list, keys) && StoredAs(sap.Chunks, keys, newChunks)
    ensures sap.Contents == Added(old(sap.Contents), ChunkIds(list), keys, r)
  {
    ghost var chunks0, start := sap.Chunks, sap.Contents;
    rest, newChunks := list, [];
    assert Taken(list, keys[..0]) == list;
    var j := 0;
    while j < |keys|
      invariant Keyed(sap, list, keys, j, rest, newChunks, r, chunks0, start)
      invariant forall c :: c in sap.Chunks.Values ==> c in old(sap.Chunks.Values) || fresh(c)
    {
      rest, newChunks := KeyStep(sap, list, keys, j, rest, newChunks, r, chunks0, start);
      j := j + 1;
    }
    assert keys[..j] == keys;
    forall k | k in sap.Chunks && k !in chunks0
      ensures fresh(sap.Chunks[k])
    {
      assert sap.Chunks[k] in sap.Chunks.Values;
      forall k' | k' in chunks0
        ensures chunks0[k'] != sap.Chunks[k]
      {
        assert chunks0[k'].Id == k';
      }
    }
  }

  /** The loop over what is left of the old list (lines 95-100): each chunk still there loses the record of `id`. */
  method DropOld(sap: BroadphaseSAP, list: seq<SAPChunk?>, keys: seq<int>, rest: seq<SAPChunk?>, id: int,
                 ghost chunks0: map<int, SAPChunk>)
    requires sap.Valid() && sap.Mirrors() && IsUInt(id) && id != UIntMax
    requires ListOk(chunks0, list) && forall k :: k in chunks0 ==> k in sap.Chunks && sap.Chunks[k] == chunks0[k]
    requires rest == Taken(list, keys)
    modifies sap`Contents, sap.Chunks.Values
    ensures sap.Valid() && sap.Mirrors() && sap.Chunks == old(sap.Chunks)
    ensures sap.Contents == Dropped(old(sap.Contents), ChunkIds(list), keys, id)
  {
    ListOkIds(chunks0, list);
    var a := 0;
    while a < |rest|
      invariant 0 <= a <= |rest| && sap.Valid() && sap.Mirrors() && sap.Chunks == old(sap.Chunks)
      invariant sap.Contents == Dropped(old(sap.Contents), ChunkIds(list)[..a], keys, id)
    {
      DropSlot(sap, list, keys, rest, id, chunks0, a, old(sap.Contents));
      a := a + 1;
    }
    assert ChunkIds(list)[..a] == ChunkIds(list);
  }

  /** One slot of what is left of the old list: its chunk, if still there, is that of an old key that is not a key. */
  lemma DroppedSlot(chunks: map<int, SAPChunk>, start: map<int, seq<Record>>, list: seq<SAPChunk?>, keys: seq<int>, id: int, a: int)
    requires ListOk(chunks, list) && 0 <= a < |list| && forall k :: k in chunks ==> k in start
    requires var olds := ChunkIds(list); forall i, j :: 0 <= i < j < |olds| ==> olds[i] != olds[j]
    ensures var m, k, slot := Dropped(start, ChunkIds(list)[..a], keys, id), list[a].Id, Taken(list, keys)[a];
      (slot != null <==> k !in keys) && (slot != null ==> slot == chunks[k] && k in m) &&
      Dropped(start, ChunkIds(list)[..a + 1], keys, id) == if slot == null then m else m[k := Unlist(m[k], id)]
  {
    var olds := ChunkIds(list);
    DroppedStep(start, olds, keys, id, a);
    DroppedAt(start, olds[..a], keys, id, olds[a]);
  }

  /** One slot of the loop over what is left of the old list. */
  method DropSlot(sap: BroadphaseSAP, list: seq<SAPChunk?>, keys: seq<int>, rest: seq<SAPChunk?>, id: int,
                  ghost chunks0: map<int, SAPChunk>, a: int, ghost start: map<int, seq<Record>>)
    requires sap.Valid() && sap.Mirrors() && IsUInt(id) && id != UIntMax
    requires ListOk(chunks0, list) && forall k :: k in chunks0 ==> k in sap.Chunks && sap.Chunks[k] == chunks0[k]
    requires start.Keys == sap.Contents.Keys
    requires rest == Taken(list, keys) && 0 <= a < |rest|
    requires var olds := ChunkIds(list); forall i, j :: 0 <= i < j < |olds| ==> olds[i] != olds[j]
    requires sap.Contents == Dropped(start, ChunkIds(list)[..a], keys, id)
    modifies sap`Contents, sap.Chunks.Values
    ensures sap.Valid() && sap.Mirrors() && sap.Chunks == old(sap.Chunks)
    ensures sap.Contents == Dropped(start, ChunkIds(list)[..a + 1], keys, id)
  {
    assert forall k :: k in chunks0 ==> k in start;
    DroppedSlot(chunks0, start, list, keys, id, a);
    if rest[a] != null {
      var found := Remove(sap, rest[a], id);
    }
  }

  /**
   * The two loops of lines 50-100 for a body whose cells changed: the chunks
   * of the keys, in order, and the views `Moved` describes.
   */
  method Relist(sap: BroadphaseSAP, list: seq<SAPChunk?>, keys: seq<int>, r: Record, n: int) returns (newChunks: seq<SAPChunk>)
    requires sap.Valid() && sap.Mirrors() && Room(sap, n) && n >= 1 && WellFormed(r) && !Dead(r)
    requires ListOk(sap.Chunks, list) && forall a, b :: 0 <= a < b < |keys| ==> keys[a] != keys[b]
    modifies sap, sap.Chunks.Values
    ensures sap.Valid() && sap.Mirrors() && Room(sap, n - 1) && Grown(sap)
    ensures forall c :: c in sap.Chunks.Values ==> c in old(sap.Chunks.Values) || fresh(c)
    ensures StoredAs(sap.Chunks, keys, newChunks) && Listed(newChunks, keys)
    ensures sap.Contents == Moved(old(sap.Contents), ChunkIds(list), keys, r)
  {
    ghost var chunks0 := sap.Chunks;
    var rest;
    rest, newChunks := AddNew(sap, list, keys, r);
    DropOld(sap, list, keys, rest, r.Id, chunks0);
    ListOkIds(chunks0, list);
    assert sap.Contents == Moved(old(sap.Contents), ChunkIds(list), keys, r);
    MovedRoom(old(sap.Contents), ChunkIds(list), keys, r, n);
    StoredListed(sap.Chunks, keys, newChunks);
  }

  /**
   * Lines 48-103 for a body whose cells changed: the two loops, then the new
   * list and hash are stored in the component.
   */
  method Rechunk(sap: BroadphaseSAP, bpRef: BroadphaseRef, keys: seq<int>, hash: bv32, r: Record, n: int)
    requires sap.Valid() && sap.Mirrors() && Room(sap, n) && n >= 1 && WellFormed(r) && !Dead(r)
    requires ListOk(sap.Chunks, bpRef.Chunks) && forall a, b :: 0 <= a < b < |keys| ==> keys[a] != keys[b]
    modifies sap, sap.Chunks.Values, bpRef
    ensures sap.Valid() && sap.Mirrors() && Room(sap, n - 1) && Grown(sap)
    ensures forall c :: c in sap.Chunks.Values ==> c in old(sap.Chunks.Values) || fresh(c)
    ensures bpRef.ChunksHash == hash && bpRef.AABB == old(bpRef.AABB)
    ensures StoredAs(sap.Chunks, keys, bpRef.Chunks) && Listed(bpRef.Chunks, keys)
    ensures sap.Contents == Moved(old(sap.Contents), ChunkIds(old(bpRef.Chunks)), keys, r)
  {
    var newChunks := Relist(sap, bpRef.Chunks, keys, r, n);
    bpRef.Chunks := newChunks;
    bpRef.ChunksHash := hash;
  }

  /** Over chunks stored under their own ids, a list holding the chunk of each key lists exactly the keys. */
  lemma StoredListed(chunks: map<int, SAPChunk>, keys: seq<int>, list: seq<SAPChunk?>)
    requires forall k :: k in chunks ==> chunks[k].Id == k
    requires StoredAs(chunks, keys, list)
    ensures Listed(list, keys)
  {
  }

  /** A well-kept list that lists the keys holds their chunks, and its ids are the keys. */
  lemma ListedStored(chunks: map<int, SAPChunk>, keys: seq<int>, list: seq<SAPChunk?>)
    requires ListOk(chunks, list) && Listed(list, keys)
    ensures StoredAs(chunks, keys, list) && ChunkIds(list) == keys
  {
  }

  /** Lines 27-36: the component gets the box of the body's transform and collider. */
  method Place(e: Entity, sin: real -> real, cos: real -> real) returns (aabb: AABB)
    requires e.Transform != null && e.Collider != null && e.BpRef != null
    modifies e.BpRef
    ensures aabb == old(BoxOf(e.Transform, e.Collider, sin, cos)) && e.BpRef.AABB == aabb
    ensures e.BpRef.Chunks == old(e.BpRef.Chunks) && e.BpRef.ChunksHash == old(e.BpRef.ChunksHash)
  {
    aabb := BoxOf(e.Transform, e.Collider, sin, cos);
    e.BpRef.AABB := aabb;
  }

  /**
   * Lines 38-103 as written, once the component holds the box: when the
   * chunk hash of the box equals the stored hash nothing else changes,
   * otherwise the body moves to the chunks of its cells.
   */
  method Shift(e: Entity, sap: BroadphaseSAP, n: int, aabb: AABB) returns (ghost moved: bool, ghost keys: seq<int>, ghost r: Record)
    requires e.Collider != null && e.RigBody != null && e.BpRef != null && e.BpRef.AABB == aabb
    requires IsUInt(e.Id) && e.Id != UIntMax
    requires sap.Valid() && sap.Mirrors() && Room(sap, n) && n >= 1 && ListOk(sap.Chunks, e.BpRef.Chunks)
    modifies sap, sap.Chunks.Values, e.BpRef
    ensures sap.Valid() && sap.Mirrors() && Room(sap, n - 1) && Grown(sap)
    ensures forall c :: c in sap.Chunks.Values ==> c in old(sap.Chunks.Values) || fresh(c)
    ensures e.BpRef.AABB == aabb && keys == Keys(CellsOf(aabb))
    ensures r == RecordOf(e, e.Collider.Layer, IsStaticBody(e), e.BpRef)
    ensures moved <==> old(e.BpRef.ChunksHash) != ChunksHash(keys)
    ensures !moved ==>
      e.BpRef.Chunks == old(e.BpRef.Chunks) && e.BpRef.ChunksHash == old(e.BpRef.ChunksHash) && sap.Contents == old(sap.Contents)
    ensures moved ==>
      Registered(e, aabb) && StoredAs(sap.Chunks, keys, e.BpRef.Chunks) &&
      sap.Contents == Moved(old(sap.Contents), ChunkIds(old(e.BpRef.Chunks)), keys, r)
  {
    var bpRef := e.BpRef;
    var chunksHash := ChunksHashOf(aabb);
    keys, r := Keys(CellsOf(aabb)), RecordOf(e, e.Collider.Layer, IsStaticBody(e), bpRef);
    moved := bpRef.ChunksHash != chunksHash;
    if bpRef.ChunksHash == chunksHash {
      return;
    }
    var isStatic := Equal(e.RigBody.InvMass, 0.0);
    var layer := e.Collider.Layer;
    var ids := GetChunkIds(aabb);
    var record := RecordOf(e, layer, isStatic, bpRef);
    Rechunk(sap, bpRef, ids, chunksHash, record, n);
  }

  /**
   * The loop body as written (lines 27-103), for a body the filter
   * selected: the component gets the box of the body's transform and
   * collider; when the chunk hash of the box equals the stored hash nothing
   * else changes, otherwise the body moves to the chunks of its cells.
   */
  method Refresh(e: Entity, sap: BroadphaseSAP, n: int, sin: real -> real, cos: real -> real)
    returns (ghost moved: bool, ghost keys: seq<int>, ghost r: Record)
    requires e.Transform != null && e.Collider != null && e.RigBody != null && e.BpRef != null
    requires IsUInt(e.Id) && e.Id != UIntMax
    requires sap.Valid() && sap.Mirrors() && Room(sap, n) && n >= 1 && ListOk(sap.Chunks, e.BpRef.Chunks)
    modifies sap, sap.Chunks.Values, e.BpRef
    ensures sap.Valid() && sap.Mirrors() && Room(sap, n - 1) && Grown(sap)
    ensures forall c :: c in sap.Chunks.Values ==> c in old(sap.Chunks.Values) || fresh(c)
    ensures e.BpRef.AABB == old(BoxOf(e.Transform, e.Collider, sin, cos)) && keys == Keys(CellsOf(e.BpRef.AABB))
    ensures r == RecordOf(e, e.Collider.Layer, IsStaticBody(e), e.BpRef)
    ensures moved <==> old(e.BpRef.ChunksHash) != ChunksHash(keys)
    ensures !moved ==>
      e.BpRef.Chunks == old(e.BpRef.Chunks) && e.BpRef.ChunksHash == old(e.BpRef.ChunksHash) && sap.Contents == old(sap.Contents)
    ensures moved ==>
      Registered(e, e.BpRef.AABB) && StoredAs(sap.Chunks, keys, e.BpRef.Chunks) &&
      sap.Contents == Moved(old(sap.Contents), ChunkIds(old(e.BpRef.Chunks)), keys, r)
  {
    var aabb := Place(e, sin, cos);
    moved, keys, r := Shift(e, sap, n, aabb);
  }

  /**
   * Lines 38-103 with the evidently intended test, once the component holds
   * the box: the body keeps its list only when the hash matches and the
   * list's chunks are those of the keys. Afterwards it is registered with
   * the box, and the views are those of a move from its old list to the
   * chunks of its cells.
   */
  method ShiftChecked(e: Entity, sap: BroadphaseSAP, n: int, aabb: AABB) returns (ghost keys: seq<int>, ghost r: Record)
    requires e.Collider != null && e.RigBody != null && e.BpRef != null && e.BpRef.AABB == aabb
    requires IsUInt(e.Id) && e.Id != UIntMax
    requires sap.Valid() && sap.Mirrors() && Room(sap, n) && n >= 1 && ListOk(sap.Chunks, e.BpRef.Chunks)
    modifies sap, sap.Chunks.Values, e.BpRef
    ensures sap.Valid() && sap.Mirrors() && Room(sap, n - 1) && Grown(sap)
    ensures forall c :: c in sap.Chunks.Values ==> c in old(sap.Chunks.Values) || fresh(c)
    ensures Registered(e, aabb) && keys == Keys(CellsOf(aabb)) && forall a, b :: 0 <= a < b < |keys| ==> keys[a] != keys[b]
    ensures r == RecordOf(e, e.Collider.Layer, IsStaticBody(e), e.BpRef)
    ensures StoredAs(sap.Chunks, keys, e.BpRef.Chunks)
    ensures sap.Contents == Moved(old(sap.Contents), ChunkIds(old(e.BpRef.Chunks)), keys, r)
  {
    var bpRef := e.BpRef;
    var chunksHash := ChunksHashOf(aabb);
    var ids := GetChunkIds(aabb);
    var isStatic := Equal(e.RigBody.InvMass, 0.0);
    var layer := e.Collider.Layer;
    var record := RecordOf(e, layer, isStatic, bpRef);
    keys, r := ids, record;
    Resolve(sap, bpRef, ids, chunksHash, record, n);
  }

  /**
   * The corrected test and what follows it (lines 39-103): a list that
   * already holds the chunks of the keys is kept, any other is replaced by
   * a move. Afterwards the component lists the chunks of the keys.
   */
  method Resolve(sap: BroadphaseSAP, bpRef: BroadphaseRef, keys: seq<int>, hash: bv32, r: Record, n: int)
    requires sap.Valid() && sap.Mirrors() && Room(sap, n) && n >= 1 && WellFormed(r) && !Dead(r)
    requires ListOk(sap.Chunks, bpRef.Chunks) && forall a, b :: 0 <= a < b < |keys| ==> keys[a] != keys[b]
    requires hash == ChunksHash(keys)
    modifies sap, sap.Chunks.Values, bpRef
    ensures sap.Valid() && sap.Mirrors() && Room(sap, n - 1) && Grown(sap)
    ensures forall c :: c in sap.Chunks.Values ==> c in old(sap.Chunks.Values) || fresh(c)
    ensures bpRef.ChunksHash == hash && bpRef.AABB == old(bpRef.AABB)
    ensures StoredAs(sap.Chunks, keys, bpRef.Chunks) && Listed(bpRef.Chunks, keys)
    ensures sap.Contents == Moved(old(sap.Contents), ChunkIds(old(bpRef.Chunks)), keys, r)
  {
    if bpRef.ChunksHash == hash && Listed(bpRef.Chunks, keys) {
      ListedStored(sap.Chunks, keys, bpRef.Chunks);
      MovedNothing(sap.Contents, keys, r);
      return;
    }
    Rechunk(sap, bpRef, keys, hash, r, n);
  }

  /**
   * The loop body with the evidently intended test: afterwards the body is
   * always registered with the box of its transform and collider, and the
   * views are those of a move from its old list to the chunks of its cells.
   */
  method RefreshChecked(e: Entity, sap: BroadphaseSAP, n: int, sin: real -> real, cos: real -> real)
    returns (ghost keys: seq<int>, ghost r: Record)
    requires e.Transform != null && e.Collider != null && e.RigBody != null && e.BpRef != null
    requires IsUInt(e.Id) && e.Id != UIntMax
    requires sap.Valid() && sap.Mirrors() && Room(sap, n) && n >= 1 && ListOk(sap.Chunks, e.BpRef.Chunks)
    modifies sap, sap.Chunks.Values, e.BpRef
    ensures sap.Valid() && sap.Mirrors() && Room(sap, n - 1) && Grown(sap)
    ensures forall c :: c in sap.Chunks.Values ==> c in old(sap.Chunks.Values) || fresh(c)
    ensures Registered(e, old(BoxOf(e.Transform, e.Collider, sin, cos)))
    ensures keys == Keys(CellsOf(e.BpRef.AABB)) && forall a, b :: 0 <= a < b < |keys| ==> keys[a] != keys[b]
    ensures r == RecordOf(e, e.Collider.Layer, IsStaticBody(e), e.BpRef)
    ensures StoredAs(sap.Chunks, keys, e.BpRef.Chunks)
    ensures sap.Contents == Moved(old(sap.Contents), ChunkIds(old(e.BpRef.Chunks)), keys, r)
  {
    var aabb := Place(e, sin, cos);
    keys, r := ShiftChecked(e, sap, n, aabb);
  }

  /**
   * The input that shows the stale list: a body registered with the box
   * from (10, 10) to (10, 60), over cells (0, 0) and (0, 1), whose box
   * becomes the one from (10, 210) to (10, 260), over cells (0, 4) and
   * (0, 5), holds a hash equal to that of the new box. `Refresh` then keeps
   * its list and hash, and they do not describe the new box.
   */
  lemma StaleAfterCollision(chunks: seq<SAPChunk?>, hash: bv32, value: AABB)
    requires Describes(AABB(Float2(10.0, 10.0), Float2(10.0, 60.0)), chunks, hash, value)
    ensures var b := AABB(Float2(10.0, 210.0), Float2(10.0, 260.0));
      hash == ChunksHash(Keys(CellsOf(b))) && !Describes(b, chunks, hash, b)
  {
    var a, b := AABB(Float2(10.0, 10.0), Float2(10.0, 60.0)), AABB(Float2(10.0, 210.0), Float2(10.0, 260.0));
    assert CellsOf(a) == CellRange(0, 0, 0, 1) by {
      assert (10.0 / 50.0).Floor == 0 && (60.0 / 50.0).Floor == 1;
    }
    assert CellsOf(b) == CellRange(0, 4, 0, 5) by {
      assert (210.0 / 50.0).Floor == 4 && (260.0 / 50.0).Floor == 5;
    }
    CollidingKeys();
    HashCollision();
    assert chunks[0].Id == 0;
  }

  /** The entity filter (lines 16-18): transform, collider, body and BroadphaseRefComponent, and no RigBodyStaticComponent. */
  predicate Tracked(e: Entity)
    reads e
  {
    e.Transform != null && e.Collider != null && e.RigBody != null && e.BpRef != null && !e.RigBodyStatic
  }

  /** No two entities share a BroadphaseRefComponent. */
  ghost predicate Unshared(world: seq<Entity>)
    reads Members(world)
  {
    forall p, q :: 0 <= p < |world| && 0 <= q < |world| && p != q && world[p].BpRef != null ==> world[p].BpRef != world[q].BpRef
  }

  /** What the update loop needs to remember of an entity as it was before the loop. */
  datatype Seen = Seen(Transform: TransformComponent?, Collider: ColliderComponent?, RigBody: RigBodyComponent?,
                       RigBodyStatic: bool, Ref: BroadphaseRef?, Box: AABB, Chunks: seq<SAPChunk?>, Hash: bv32, Stored: AABB)
  {
    /** The filter, on the remembered components. */
    predicate Tracked()
    {
      Transform != null && Collider != null && RigBody != null && Ref != null && !RigBodyStatic
    }
  }

  ghost function SeenOf(e: Entity, sin: real -> real, cos: real -> real): (s: Seen)
    reads e, e.Transform, e.Collider, e.BpRef
    ensures s.Tracked() == Tracked(e) && s.Ref == e.BpRef && s.Transform == e.Transform && s.Collider == e.Collider
    ensures s.RigBody == e.RigBody && s.RigBodyStatic == e.RigBodyStatic && s.Chunks == ListOf(e)
    ensures e.BpRef != null ==> s.Hash == e.BpRef.ChunksHash && s.Stored == e.BpRef.AABB
    ensures e.Transform != null && e.Collider != null ==> s.Box == BoxOf(e.Transform, e.Collider, sin, cos)
  {
    var box := if e.Transform != null && e.Collider != null then BoxOf(e.Transform, e.Collider, sin, cos) else AABB(Zero, Zero);
    var hash, stored := if e.BpRef != null then e.BpRef.ChunksHash else 0, if e.BpRef != null then e.BpRef.AABB else AABB(Zero, Zero);
    Seen(e.Transform, e.Collider, e.RigBody, e.RigBodyStatic, e.BpRef, box, ListOf(e), hash, stored)
  }

  ghost function SeensOf(world: seq<Entity>, sin: real -> real, cos: real -> real): (snaps: seq<Seen>)
    reads Members(world), Parts(world), Refs(world)
    ensures |snaps| == |world| && forall q :: 0 <= q < |world| ==> snaps[q] == SeenOf(world[q], sin, cos)
  {
    seq(|world|, q requires 0 <= q < |world| reads Members(world), Parts(world), Refs(world) => SeenOf(world[q], sin, cos))
  }

  /**
   * An entity against its snapshot, once the loop has or has not reached it:
   * its components are those of the snapshot and its list is `list`. If the
   * filter selected it and the loop is past it, it is registered with the
   * snapshot's box; under the test as written (`checked` false) that holds
   * only when the hash of the box differs from the stored one, and otherwise
   * the component holds the box beside its old list and hash. An entity not
   * reached or not selected holds what it held before.
   */
  ghost predicate Agrees(e: Entity, s: Seen, list: seq<SAPChunk?>, done: bool, checked: bool)
    reads e, e.BpRef
  {
    e.Transform == s.Transform && e.Collider == s.Collider && e.RigBody == s.RigBody &&
    e.RigBodyStatic == s.RigBodyStatic && e.BpRef == s.Ref && ListOf(e) == list &&
    if done && s.Tracked() then
      if checked || s.Hash != ChunksHash(Keys(CellsOf(s.Box))) then Registered(e, s.Box)
      else e.BpRef.AABB == s.Box && list == s.Chunks && e.BpRef.ChunksHash == s.Hash
    else list == s.Chunks && (e.BpRef != null ==> e.BpRef.ChunksHash == s.Hash && e.BpRef.AABB == s.Stored)
  }

  /** The state of the update loop after `i` entities. */
  ghost predicate Sweep(world: seq<Entity>, sap: BroadphaseSAP, snaps: seq<Seen>, lists: seq<seq<SAPChunk?>>,
                        refs: seq<BroadphaseRef?>, i: int, checked: bool)
    reads sap, sap.Chunks.Values, Members(world), Refs(world)
  {
    DistinctIds(world) && Unshared(world) && 0 <= i <= |world| && |snaps| == |lists| == |refs| == |world| &&
    sap.Valid() && sap.Mirrors() && Room(sap, |world| - i) &&
    Registry(sap.Chunks, sap.Contents, Ids(world), lists) && Owned(sap.Contents, world, refs) &&
    (forall q :: 0 <= q < |world| ==> refs[q] == snaps[q].Ref) &&
    forall q :: 0 <= q < |world| ==> Agrees(world[q], snaps[q], lists[q], q < i, checked)
  }

  /** The loop body for an entity the filter selected, with the registration invariant carried over. */
  method Follow(world: seq<Entity>, i: int, sap: BroadphaseSAP, sin: real -> real, cos: real -> real,
                ghost lists: seq<seq<SAPChunk?>>, ghost refs: seq<BroadphaseRef?>) returns (ghost lists': seq<seq<SAPChunk?>>)
    requires 0 <= i < |world| && DistinctIds(world) && Tracked(world[i]) && |lists| == |world|
    requires sap.Valid() && sap.Mirrors() && Room(sap, |world| - i) && Registry(sap.Chunks, sap.Contents, Ids(world), lists)
    requires lists[i] == world[i].BpRef.Chunks && Owned(sap.Contents, world, refs) && refs[i] == world[i].BpRef
    modifies sap, sap.Chunks.Values, world[i].BpRef
    ensures sap.Valid() && sap.Mirrors() && Room(sap, |world| - i - 1) && Grown(sap)
    ensures forall c :: c in sap.Chunks.Values ==> c in old(sap.Chunks.Values) || fresh(c)
    ensures Registry(sap.Chunks, sap.Contents, Ids(world), lists') && lists' == lists[i := world[i].BpRef.Chunks]
    ensures Registered(world[i], old(BoxOf(world[i].Transform, world[i].Collider, sin, cos)))
    ensures Owned(sap.Contents, world, refs)
  {
    ghost var chunks0, contents0 := sap.Chunks, sap.Contents;
    assert ListOk(sap.Chunks, lists[i]);
    var keys, r := RefreshChecked(world[i], sap, |world| - i, sin, cos);
    MovedRegistry(chunks0, contents0, Ids(world), lists, i, keys, sap.Chunks, world[i].BpRef.Chunks, r);
    ListOkIds(chunks0, lists[i]);
    OwnedMoved(contents0, world, refs, ChunkIds(lists[i]), keys, i, r);
    lists' := lists[i := world[i].BpRef.Chunks];
  }

  /** The filter applied to the entity at `i` and, when it passes, the loop body: one more entity is done. */
  method Step(world: seq<Entity>, i: int, sap: BroadphaseSAP, sin: real -> real, cos: real -> real,
              ghost snaps: seq<Seen>, ghost lists: seq<seq<SAPChunk?>>, ghost refs: seq<BroadphaseRef?>)
    returns (ghost lists': seq<seq<SAPChunk?>>)
    requires Sweep(world, sap, snaps, lists, refs, i, true) && i < |world|
    requires snaps[i].Tracked() ==> snaps[i].Box == BoxOf(snaps[i].Transform, snaps[i].Collider, sin, cos)
    modifies sap, sap.Chunks.Values, world[i].BpRef
    ensures Sweep(world, sap, snaps, lists', refs, i + 1, true) && Grown(sap)
    ensures forall c :: c in sap.Chunks.Values ==> c in old(sap.Chunks.Values) || fresh(c)
  {
    lists' := lists;
    assert Agrees(world[i], snaps[i], lists[i], false, true);
    if Tracked(world[i]) {
      lists' := Follow(world, i, sap, sin, cos, lists, refs);
      forall q | 0 <= q < |world| && q != i
        ensures Agrees(world[q], snaps[q], lists'[q], q < i + 1, true)
      {
        var e := world[q];
        assert e.BpRef != world[i].BpRef;
        if e.BpRef != null {
          assert e.BpRef.Chunks == old(e.BpRef.Chunks) && e.BpRef.ChunksHash == old(e.BpRef.ChunksHash);
          assert e.BpRef.AABB == old(e.BpRef.AABB);
        }
        assert old(Agrees(e, snaps[q], lists[q], q < i, true));
      }
    }
  }

  /**
   * BroadphaseUpdateSystem.Update, with the corrected test: every entity the
   * filter selects is registered with the box of its components, every other
   * component keeps its list, hash and box, no entity changes, and the
   * registration invariant holds again at the end.
   */
  method Update(world: seq<Entity>, sap: BroadphaseSAP, sin: real -> real, cos: real -> real)
    requires DistinctIds(world) && Unshared(world) && Consistent(sap, world) && Room(sap, |world|)
    modifies sap, sap.Chunks.Values, Refs(world)
    ensures Consistent(sap, world) && Grown(sap) && unchanged(Members(world))
    ensures forall q :: 0 <= q < |world| && old(Tracked(world[q])) ==>
      Registered(world[q], old(BoxOf(world[q].Transform, world[q].Collider, sin, cos)))
    ensures forall q :: 0 <= q < |world| && !old(Tracked(world[q])) && world[q].BpRef != null ==>
      world[q].BpRef.Chunks == old(world[q].BpRef.Chunks) && world[q].BpRef.ChunksHash == old(world[q].BpRef.ChunksHash) &&
      world[q].BpRef.AABB == old(world[q].BpRef.AABB)
  {
    ghost var snaps := SeensOf(world, sin, cos);
    ghost var lists, refs := Lists(world), BpRefs(world);
    var i := 0;
    while i < |world|
      invariant Sweep(world, sap, snaps, lists, refs, i, true) && Grown(sap) && unchanged(Members(world))
      invariant forall c :: c in sap.Chunks.Values ==> c in old(sap.Chunks.Values) || fresh(c)
    {
      assert snaps[i] == old(SeenOf(world[i], sin, cos));
      lists := Step(world, i, sap, sin, cos, snaps, lists, refs);
      i := i + 1;
    }
    Swept(world, sap, snaps, lists, refs);
  }

  /** The end of the corrected loop: the registration invariant, and each selected entity registered with its box. */
  lemma Swept(world: seq<Entity>, sap: BroadphaseSAP, snaps: seq<Seen>, lists: seq<seq<SAPChunk?>>, refs: seq<BroadphaseRef?>)
    requires Sweep(world, sap, snaps, lists, refs, |world|, true) && forall q :: 0 <= q < |world| ==> refs[q] == world[q].BpRef
    ensures Consistent(sap, world)
    ensures forall q :: 0 <= q < |world| && snaps[q].Tracked() ==> Registered(world[q], snaps[q].Box)
  {
    assert Lists(world) == lists && BpRefs(world) == refs;
  }

  /**
   * The loop body as written for an entity the filter selected: the
   * component holds the new box, the body is registered with it when its
   * hash changed and keeps its list and hash otherwise, and the
   * registration invariant is carried over either way.
   */
  method FollowAsWritten(world: seq<Entity>, i: int, sap: BroadphaseSAP, sin: real -> real, cos: real -> real,
                         ghost lists: seq<seq<SAPChunk?>>, ghost refs: seq<BroadphaseRef?>) returns (ghost lists': seq<seq<SAPChunk?>>)
    requires 0 <= i < |world| && DistinctIds(world) && Tracked(world[i]) && |lists| == |world|
    requires sap.Valid() && sap.Mirrors() && Room(sap, |world| - i) && Registry(sap.Chunks, sap.Contents, Ids(world), lists)
    requires lists[i] == world[i].BpRef.Chunks && Owned(sap.Contents, world, refs) && refs[i] == world[i].BpRef
    modifies sap, sap.Chunks.Values, world[i].BpRef
    ensures sap.Valid() && sap.Mirrors() && Room(sap, |world| - i - 1) && Grown(sap)
    ensures forall c :: c in sap.Chunks.Values ==> c in old(sap.Chunks.Values) || fresh(c)
    ensures Registry(sap.Chunks, sap.Contents, Ids(world), lists') && lists' == lists[i := world[i].BpRef.Chunks]
    ensures Owned(sap.Contents, world, refs)
    ensures world[i].BpRef.AABB == old(BoxOf(world[i].Transform, world[i].Collider, sin, cos))
    ensures old(world[i].BpRef.ChunksHash) != ChunksHash(Keys(CellsOf(world[i].BpRef.AABB))) ==>
      Registered(world[i], world[i].BpRef.AABB)
    ensures old(world[i].BpRef.ChunksHash) == ChunksHash(Keys(CellsOf(world[i].BpRef.AABB))) ==>
      world[i].BpRef.Chunks == old(world[i].BpRef.Chunks) && world[i].BpRef.ChunksHash == old(world[i].BpRef.ChunksHash)
  {
    ghost var chunks0, contents0 := sap.Chunks, sap.Contents;
    var moved, keys, r := Refresh(world[i], sap, |world| - i, sin, cos);
    KeysXMajorDistinct(CellsOf(world[i].BpRef.AABB));
    RefreshKept(chunks0, contents0, sap.Chunks, sap.Contents, world, lists, refs, i, moved, keys, world[i].BpRef.Chunks, r);
    lists' := lists[i := world[i].BpRef.Chunks];
  }

  /**
   * The registration invariant after the step as written: a body that did
   * not move leaves the views as they were, one that moved leaves them as
   * `Moved` describes, and either way every count and every record's owner
   * agree with the lists.
   */
  lemma RefreshKept(chunks: map<int, SAPChunk>, contents: map<int, seq<Record>>,
                    chunks': map<int, SAPChunk>, contents': map<int, seq<Record>>,
                    world: seq<Entity>, lists: seq<seq<SAPChunk?>>, refs: seq<BroadphaseRef?>, p: int,
                    moved: bool, keys: seq<int>, list: seq<SAPChunk?>, r: Record)
    requires Registry(chunks, contents, Ids(world), lists) && chunks.Keys == contents.Keys && chunks'.Keys == contents'.Keys
    requires Owned(contents, world, refs) && DistinctIds(world) && 0 <= p < |world|
    requires r.Id == world[p].Id && r.Entity == world[p] && r.Box == refs[p]
    requires forall k :: k in chunks' ==> chunks'[k].Id == k
    requires forall k :: k in chunks ==> k in chunks' && chunks'[k] == chunks[k]
    requires forall a, b :: 0 <= a < b < |keys| ==> keys[a] != keys[b]
    requires !moved ==> contents' == contents && list == lists[p]
    requires moved ==> StoredAs(chunks', keys, list) && contents' == Moved(contents, ChunkIds(lists[p]), keys, r)
    ensures Registry(chunks', contents', Ids(world), lists[p := list]) && Owned(contents', world, refs)
  {
    if moved {
      MovedRegistry(chunks, contents, Ids(world), lists, p, keys, chunks', list, r);
      ListOkIds(chunks, lists[p]);
      OwnedMoved(contents, world, refs, ChunkIds(lists[p]), keys, p, r);
    } else {
      assert chunks'.Keys == chunks.Keys;
      assert forall k :: k in chunks' ==> chunks'[k] == chunks[k];
      assert chunks' == chunks;
      assert lists[p := list] == lists;
    }
  }

  /** The filter applied to the entity at `i` and, when it passes, the loop body as written. */
  method StepAsWritten(world: seq<Entity>, i: int, sap: BroadphaseSAP, sin: real -> real, cos: real -> real,
                       ghost snaps: seq<Seen>, ghost lists: seq<seq<SAPChunk?>>, ghost refs: seq<BroadphaseRef?>)
    returns (ghost lists': seq<seq<SAPChunk?>>)
    requires Sweep(world, sap, snaps, lists, refs, i, false) && i < |world|
    requires snaps[i].Tracked() ==> snaps[i].Box == BoxOf(snaps[i].Transform, snaps[i].Collider, sin, cos)
    modifies sap, sap.Chunks.Values, world[i].BpRef
    ensures Sweep(world, sap, snaps, lists', refs, i + 1, false) && Grown(sap)
    ensures forall c :: c in sap.Chunks.Values ==> c in old(sap.Chunks.Values) || fresh(c)
  {
    lists' := lists;
    assert Agrees(world[i], snaps[i], lists[i], false, false);
    if Tracked(world[i]) {
      lists' := FollowAsWritten(world, i, sap, sin, cos, lists, refs);
      forall q | 0 <= q < |world| && q != i
        ensures Agrees(world[q], snaps[q], lists'[q], q < i + 1, false)
      {
        var e := world[q];
        assert e.BpRef != world[i].BpRef;
        if e.BpRef != null {
          assert e.BpRef.Chunks == old(e.BpRef.Chunks) && e.BpRef.ChunksHash == old(e.BpRef.ChunksHash);
          assert e.BpRef.AABB == old(e.BpRef.AABB);
        }
        assert old(Agrees(e, snaps[q], lists[q], q < i, false));
      }
    }
  }

  /**
   * BroadphaseUpdateSystem.Update as written: every entity the filter
   * selects has its component hold the box of its components, and is
   * registered with that box when the box's chunk hash differs from the
   * stored one; when the hashes are equal its list and hash stay as they
   * were. The registration invariant holds again at the end.
   */
  method UpdateAsWritten(world: seq<Entity>, sap: BroadphaseSAP, sin: real -> real, cos: real -> real)
    requires DistinctIds(world) && Unshared(world) && Consistent(sap, world) && Room(sap, |world|)
    modifies sap, sap.Chunks.Values, Refs(world)
    ensures Consistent(sap, world) && Grown(sap) && unchanged(Members(world))
    ensures forall q :: 0 <= q < |world| && old(Tracked(world[q])) ==>
      world[q].BpRef.AABB == old(BoxOf(world[q].Transform, world[q].Collider, sin, cos))
    ensures forall q :: 0 <= q < |world| && old(Tracked(world[q])) &&
                        old(world[q].BpRef.ChunksHash) != ChunksHash(Keys(CellsOf(world[q].BpRef.AABB))) ==>
      Registered(world[q], world[q].BpRef.AABB)
    ensures forall q :: 0 <= q < |world| && old(Tracked(world[q])) &&
                        old(world[q].BpRef.ChunksHash) == ChunksHash(Keys(CellsOf(world[q].BpRef.AABB))) ==>
      world[q].BpRef.Chunks == old(world[q].BpRef.Chunks) && world[q].BpRef.ChunksHash == old(world[q].BpRef.ChunksHash)
    ensures forall q :: 0 <= q < |world| && !old(Tracked(world[q])) && world[q].BpRef != null ==>
      world[q].BpRef.Chunks == old(world[q].BpRef.Chunks) && world[q].BpRef.ChunksHash == old(world[q].BpRef.ChunksHash) &&
      world[q].BpRef.AABB == old(world[q].BpRef.AABB)
  {
    ghost var snaps := SeensOf(world, sin, cos);
    ghost var lists, refs := Lists(world), BpRefs(world);
    var i := 0;
    while i < |world|
      invariant Sweep(world, sap, snaps, lists, refs, i, false) && Grown(sap) && unchanged(Members(world))
      invariant forall c :: c in sap.Chunks.Values ==> c in old(sap.Chunks.Values) || fresh(c)
    {
      assert snaps[i] == old(SeenOf(world[i], sin, cos));
      lists := StepAsWritten(world, i, sap, sin, cos, snaps, lists, refs);
      i := i + 1;
    }
    SweptAsWritten(world, sap, snaps, lists, refs);
  }

  /** The end of the loop as written: the registration invariant, and each selected entity as its snapshot's hash decided. */
  lemma SweptAsWritten(world: seq<Entity>, sap: BroadphaseSAP, snaps: seq<Seen>, lists: seq<seq<SAPChunk?>>, refs: seq<BroadphaseRef?>)
    requires Sweep(world, sap, snaps, lists, refs, |world|, false) && forall q :: 0 <= q < |world| ==> refs[q] == world[q].BpRef
    ensures Consistent(sap, world)
    ensures forall q :: 0 <= q < |world| && snaps[q].Tracked() ==> world[q].BpRef != null && world[q].BpRef.AABB == snaps[q].Box
    ensures forall q :: 0 <= q < |world| && snaps[q].Tracked() && snaps[q].Hash != ChunksHash(Keys(CellsOf(snaps[q].Box))) ==>
      Registered(world[q], snaps[q].Box)
    ensures forall q :: 0 <= q < |world| && snaps[q].Tracked() && snaps[q].Hash == ChunksHash(Keys(CellsOf(snaps[q].Box))) ==>
      ListOf(world[q]) == snaps[q].Chunks && world[q].BpRef.ChunksHash == snaps[q].Hash
  {
    assert Lists(world) == lists && BpRefs(world) == refs;
  }
}
