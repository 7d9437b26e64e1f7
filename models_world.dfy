/**
 * The record operations the Models systems perform inline on a chunk
 * (append with doubling growth, refresh of a body's box, deletion), lifted
 * to the broadphase singleton and its ghost view; and the registration
 * invariant on that view, with the two per-entity steps that keep it.
 */
module ModelsWorld {
  import opened MathHelper
  import opened Aabb
  import opened Grid
  import opened BroadphasePair
  import opened ModelsEcs
  import opened ModelsHelper
  import PhysicsEcs

  /** `Array.Resize(ref items, size)` to a larger size: the old records first, then default slots. */
  function Resized(items: seq<Record>, size: int): (bigger: seq<Record>)
    requires |items| <= size
    ensures |bigger| == size && bigger[..|items|] == items
    ensures forall i :: |items| <= i < size ==> bigger[i] == EmptyRecord
  {
    items + seq(size - |items|, _ => EmptyRecord)
  }

  /** A chunk after one more record: the record at the end, and the chunk marked dirty. */
  function Added(v: ChunkVal, r: Record): (w: ChunkVal)
    ensures w.IsDirty && w.NeedRebuild == v.NeedRebuild
    ensures |w.Records| == |v.Records| + 1 && w.Records[..|v.Records|] == v.Records && w.Records[|v.Records|] == r
  {
    ChunkVal(v.Records + [r], v.NeedRebuild, true)
  }

  /** A chunk after a body moved within it: the body's first record gets the new box, and the chunk is marked dirty. */
  function Refreshed(v: ChunkVal, id: int, box: AABB): (w: ChunkVal)
    ensures w.IsDirty && w.NeedRebuild == v.NeedRebuild && |w.Records| == |v.Records|
  {
    ChunkVal(Moved(v.Records, id, box), v.NeedRebuild, true)
  }

  /**
   * The append of the insertion and update systems, once the chunk is known:
   * a full buffer is resized to twice the length, then the record goes in at
   * Length and Length grows by one.
   */
  method AppendRecord(chunk: SAPChunk, r: Record)
    requires chunk.Valid() && chunk.Length < Int32Max
    modifies chunk`Items, chunk`Length
    ensures chunk.Valid() && chunk.Records() == old(chunk.Records()) + [r]
    ensures |chunk.Items| == if old(chunk.Length) < old(|chunk.Items|) then old(|chunk.Items|) else 2 * old(chunk.Length)
  {
    if chunk.Length >= |chunk.Items| {
      chunk.Items := Resized(chunk.Items, 2 * chunk.Length);
    }
    ghost var s := chunk.Items[..chunk.Length];
    assert s == old(chunk.Records());
    chunk.Items := chunk.Items[chunk.Length := r];
    chunk.Length := chunk.Length + 1;
    assert chunk.Items[..chunk.Length] == s + [r];
  }

  /**
   * The refresh loop of the update system: the first record in use with the
   * id gets the box by value and the chunk is marked dirty; without such a
   * record nothing changes.
   */
  method Refresh(chunk: SAPChunk, id: int, box: AABB)
    requires chunk.Valid()
    modifies chunk`Items, chunk`IsDirty
    ensures chunk.Valid() && |chunk.Items| == old(|chunk.Items|)
    ensures chunk.Records() == Moved(old(chunk.Records()), id, box)
    ensures chunk.IsDirty == (old(chunk.IsDirty) || CountId(old(chunk.Records()), id) > 0)
  {
    ghost var s := chunk.Records();
    CountIdFound(s, id);
    for i := 0 to chunk.Length
      invariant forall j :: 0 <= j < i ==> chunk.Items[j].Id != id
      invariant chunk.Items == old(chunk.Items) && chunk.IsDirty == old(chunk.IsDirty)
    {
      if chunk.Items[i].Id != id {
        continue;
      }
      chunk.Items := chunk.Items[i := chunk.Items[i].(Box := box)];
      chunk.IsDirty := true;
      assert chunk.Items[..chunk.Length] == s[i := s[i].(Box := box)];
      break;
    }
  }

  /** Lines 40-50 of the insertion system on the chunk of key `k`: append the record, mark the chunk dirty. */
  method AddAt(sap: BroadphaseSAP, ghost k: int, chunk: SAPChunk, r: Record)
    requires sap.Valid() && sap.Mirrors() && k in sap.Items && sap.Items[k] == chunk && |sap.View[k].Records| < Int32Max
    modifies sap`View, chunk`Items, chunk`Length, chunk`IsDirty
    ensures sap.Valid() && sap.Mirrors() && sap.Items == old(sap.Items)
    ensures sap.View == old(sap.View)[k := Added(old(sap.View[k]), r)]
  {
    AppendRecord(chunk, r);
    chunk.IsDirty := true;
    sap.View := sap.View[k := chunk.Val()];
  }

  /** The refresh of the update system on the chunk of key `k`: mark it dirty, then give the body's record the box. */
  method RefreshAt(sap: BroadphaseSAP, ghost k: int, chunk: SAPChunk, id: int, box: AABB)
    requires sap.Valid() && sap.Mirrors() && k in sap.Items && sap.Items[k] == chunk
    modifies sap`View, chunk`Items, chunk`IsDirty
    ensures sap.Valid() && sap.Mirrors() && sap.Items == old(sap.Items)
    ensures sap.View == old(sap.View)[k := Refreshed(old(sap.View[k]), id, box)]
  {
    chunk.IsDirty := true;
    Refresh(chunk, id, box);
    sap.View := sap.View[k := chunk.Val()];
  }

  /** The deletion of the update system on the chunk of key `k`. */
  method DropAt(sap: BroadphaseSAP, ghost k: int, chunk: SAPChunk, id: int)
    requires sap.Valid() && sap.Mirrors() && k in sap.Items && sap.Items[k] == chunk
    modifies sap`View, chunk`Items, chunk`NeedRebuild, chunk`IsDirty
    ensures sap.Valid() && sap.Mirrors() && sap.Items == old(sap.Items)
    ensures sap.View == old(sap.View)[k := Removed(old(sap.View[k]), id)]
  {
    RemoveFormChunk(chunk, id);
    sap.View := sap.View[k := chunk.Val()];
  }

  /**
   * The registration invariant on values: every entity's key list is
   * distinct and names chunks of the view, and every chunk holds exactly one
   * record of each entity whose list names it and none of any other entity.
   */
  ghost predicate Registry(view: map<int, ChunkVal>, ids: seq<int>, lists: seq<seq<int>>)
  {
    |ids| == |lists| &&
    (forall i :: 0 <= i < |lists| ==> Distinct(lists[i]) && forall j :: 0 <= j < |lists[i]| ==> lists[i][j] in view) &&
    forall i, k :: 0 <= i < |ids| && k in view ==> CountId(view[k].Records, ids[i]) == if k in lists[i] then 1 else 0
  }

  /** Entity ids are unsigned, never the tombstone id, and distinct. */
  predicate UniqueIds(ids: seq<int>)
  {
    (forall i :: 0 <= i < |ids| ==> IsUInt(ids[i]) && ids[i] != UIntMax) &&
    forall i, j :: 0 <= i < |ids| && 0 <= j < |ids| && i != j ==> ids[i] != ids[j]
  }

  /** Creating chunks for keys keeps the invariant: a new chunk is empty and no list names it. */
  lemma CreatedRegistry(view: map<int, ChunkVal>, ids: seq<int>, lists: seq<seq<int>>, keys: seq<int>)
    requires Registry(view, ids, lists)
    ensures Registry(Created(view, keys), ids, lists)
  {
    var v := Created(view, keys);
    forall i, k | 0 <= i < |ids| && k in v
      ensures CountId(v[k].Records, ids[i]) == if k in lists[i] then 1 else 0
    {
      if k !in view {
        CreatedNew(view, keys, k);
        assert k !in lists[i];
      }
    }
  }

  /** A key the view lacked gets a new, empty chunk. */
  lemma {:induction false} CreatedNew(view: map<int, ChunkVal>, keys: seq<int>, k: int)
    requires k in Created(view, keys) && k !in view
    ensures Created(view, keys)[k] == Fresh
  {
    var init := keys[..|keys| - 1];
    if k in Created(view, init) {
      CreatedNew(view, init, k);
    }
  }

  /** The view after appending `r` to the chunk of every key of `keys`. */
  ghost function Inserted(view: map<int, ChunkVal>, keys: seq<int>, r: Record): (v: map<int, ChunkVal>)
    ensures v.Keys == view.Keys
  {
    map k | k in view :: if k in keys then Added(view[k], r) else view[k]
  }

  /**
   * The insertion of one entity keeps the invariant: an entity with no list
   * and no record that gets the record in the chunks of distinct keys now
   * has exactly one record in each of them.
   */
  lemma InsertedRegistry(view: map<int, ChunkVal>, ids: seq<int>, lists: seq<seq<int>>, p: int, keys: seq<int>, r: Record)
    requires Registry(view, ids, lists) && UniqueIds(ids) && 0 <= p < |ids| && lists[p] == [] && r.Id == ids[p]
    requires Distinct(keys) && forall j :: 0 <= j < |keys| ==> keys[j] in view
    ensures Registry(Inserted(view, keys, r), ids, lists[p := keys])
  {
    var v := Inserted(view, keys, r);
    forall i, k | 0 <= i < |ids| && k in v
      ensures CountId(v[k].Records, ids[i]) == if k in lists[p := keys][i] then 1 else 0
    {
      CountIdAppend(view[k].Records, r, ids[i]);
    }
  }

  /** A chunk after a body with record `r` moved: what happens to it depends on whether it is in the new list, the old one, or both. */
  function Shifted(v: ChunkVal, inNew: bool, inOld: bool, r: Record): (w: ChunkVal)
    ensures inNew ==> w.IsDirty
    ensures !inNew && !inOld ==> w == v
  {
    if inNew && inOld then Refreshed(v, r.Id, r.Box)
    else if inNew then Added(v, r)
    else if inOld then Removed(v, r.Id)
    else v
  }

  /** The view after the body with record `r` moved from the chunks of `before` to those of `after`. */
  ghost function Relocated(view: map<int, ChunkVal>, before: seq<int>, after: seq<int>, r: Record): (v: map<int, ChunkVal>)
    ensures v.Keys == view.Keys
  {
    map k | k in view :: Shifted(view[k], k in after, k in before, r)
  }

  /** How one chunk's count of an id changes when a body moves. */
  lemma ShiftedCount(v: ChunkVal, inNew: bool, inOld: bool, r: Record, x: int)
    requires r.Id != UIntMax && x != UIntMax
    requires inOld ==> CountId(v.Records, r.Id) == 1
    requires !inOld ==> CountId(v.Records, r.Id) == 0
    ensures CountId(Shifted(v, inNew, inOld, r).Records, x) ==
      if x == r.Id then (if inNew then 1 else 0) else CountId(v.Records, x)
  {
    if inNew && inOld {
      MovedCounts(v.Records, r.Id, r.Box, x);
    } else if inNew {
      CountIdAppend(v.Records, r, x);
    } else if inOld {
      RemovedCounts(v, r.Id, x);
    }
  }

  /**
   * The move of one entity keeps the invariant: with the record in each
   * chunk of its new list refreshed or appended and the record in each chunk
   * only of its old list deleted, it has exactly one record in each chunk of
   * its new list and none elsewhere, and no other entity's count changes.
   */
  lemma RelocatedRegistry(view: map<int, ChunkVal>, ids: seq<int>, lists: seq<seq<int>>, p: int, keys: seq<int>, r: Record)
    requires Registry(view, ids, lists) && UniqueIds(ids) && 0 <= p < |ids| && r.Id == ids[p]
    requires Distinct(keys) && forall j :: 0 <= j < |keys| ==> keys[j] in view
    ensures Registry(Relocated(view, lists[p], keys, r), ids, lists[p := keys])
  {
    var v := Relocated(view, lists[p], keys, r);
    forall i, k | 0 <= i < |ids| && k in v
      ensures CountId(v[k].Records, ids[i]) == if k in lists[p := keys][i] then 1 else 0
    {
      ShiftedCount(view[k], k in keys, k in lists[p], r, ids[i]);
    }
  }

  /** Every record of the entity at `i` carries the box `boxes[i]`. */
  ghost predicate Carried(view: map<int, ChunkVal>, ids: seq<int>, boxes: seq<AABB>)
  {
    |boxes| == |ids| &&
    forall k, i, x :: k in view && 0 <= i < |ids| && x in view[k].Records && x.Id == ids[i] ==> x.Box == boxes[i]
  }

  /** No record carries an id whose count is zero. */
  lemma CountIdAbsent(s: seq<Record>, id: int, x: Record)
    requires CountId(s, id) == 0 && x in s
    ensures x.Id != id
  {
    CountIdFound(s, id);
  }

  /** Two records with the id make its count at least two. */
  lemma {:induction false} CountIdTwo(s: seq<Record>, id: int, a: int, b: int)
    requires 0 <= a < b < |s| && s[a].Id == id && s[b].Id == id
    ensures CountId(s, id) >= 2
  {
    var last := |s| - 1;
    assert s[..last][a] == s[a];
    if b == last {
      CountIdFound(s[..last], id);
    } else {
      assert s[..last][b] == s[b];
      CountIdTwo(s[..last], id, a, b);
    }
  }

  /** With a count of one, the record the search finds is the only record of the id. */
  lemma CountIdOne(s: seq<Record>, id: int, j: int)
    requires CountId(s, id) == 1 && 0 <= j < |s| && s[j].Id == id
    ensures j == FindIndex(s, id)
  {
    var i := FindIndex(s, id);
    if i < j {
      CountIdTwo(s, id, i, j);
    }
  }

  /**
   * What a chunk holds after a move: a record of the mover is the one the
   * move wrote, with its box, and only in a chunk of the new list; any other
   * record was there before or is a tombstone.
   */
  lemma ShiftedElement(v: ChunkVal, inNew: bool, inOld: bool, r: Record, x: Record)
    requires r.Id != UIntMax
    requires inOld ==> CountId(v.Records, r.Id) == 1
    requires !inOld ==> CountId(v.Records, r.Id) == 0
    requires x in Shifted(v, inNew, inOld, r).Records
    ensures x.Id == r.Id ==> inNew && x.Box == r.Box
    ensures x.Id != r.Id ==> x in v.Records || Dead(x)
  {
    var s := v.Records;
    CountIdFound(s, r.Id);
    if inNew && inOld {
      var t := Moved(s, r.Id, r.Box);
      var j :| 0 <= j < |t| && t[j] == x;
      if j != FindIndex(s, r.Id) && s[j].Id == r.Id {
        CountIdOne(s, r.Id, j);
      }
    } else if inNew {
      if x != r {
        assert x in s by {
          assert x in s + [r];
        }
        CountIdAbsent(s, r.Id, x);
      }
    } else if inOld {
      var t := Unlist(s, r.Id);
      var j :| 0 <= j < |t| && t[j] == x;
      if j != FindIndex(s, r.Id) && s[j].Id == r.Id {
        CountIdOne(s, r.Id, j);
      }
    } else if x in s {
      CountIdAbsent(s, r.Id, x);
    }
  }

  /** New chunks hold no record, so every record still carries its entity's box. */
  lemma CreatedCarried(view: map<int, ChunkVal>, ids: seq<int>, boxes: seq<AABB>, keys: seq<int>)
    requires Carried(view, ids, boxes)
    ensures Carried(Created(view, keys), ids, boxes)
  {
    var v := Created(view, keys);
    forall k | k in v && k !in view
      ensures v[k].Records == []
    {
      CreatedNew(view, keys, k);
    }
  }

  /**
   * The insertion of an entity with no record: its records carry the box of
   * its record, and every other record keeps its entity's box.
   */
  lemma InsertedCarried(view: map<int, ChunkVal>, ids: seq<int>, lists: seq<seq<int>>, boxes: seq<AABB>, p: int, keys: seq<int>, r: Record)
    requires Registry(view, ids, lists) && Carried(view, ids, boxes) && UniqueIds(ids)
    requires 0 <= p < |ids| && lists[p] == [] && r.Id == ids[p]
    ensures Carried(Inserted(view, keys, r), ids, boxes[p := r.Box])
  {
    var v := Inserted(view, keys, r);
    forall k, i, x: Record | k in v && 0 <= i < |ids| && x in v[k].Records && x.Id == ids[i]
      ensures x.Box == boxes[p := r.Box][i]
    {
      assert v[k] == Shifted(view[k], k in keys, false, r);
      ShiftedElement(view[k], k in keys, false, r, x);
    }
  }

  /**
   * A move keeps every record carrying its entity's box: the mover's records
   * carry the box of its new record, and the others are untouched.
   */
  lemma RelocatedCarried(view: map<int, ChunkVal>, ids: seq<int>, lists: seq<seq<int>>, boxes: seq<AABB>, p: int, keys: seq<int>, r: Record)
    requires Registry(view, ids, lists) && Carried(view, ids, boxes) && UniqueIds(ids) && 0 <= p < |ids| && r.Id == ids[p]
    ensures Carried(Relocated(view, lists[p], keys, r), ids, boxes[p := r.Box])
  {
    var v := Relocated(view, lists[p], keys, r);
    forall k, i, x: Record | k in v && 0 <= i < |ids| && x in v[k].Records && x.Id == ids[i]
      ensures x.Box == boxes[p := r.Box][i]
    {
      ShiftedElement(view[k], k in keys, k in lists[p], r, x);
    }
  }

  /** Every chunk of the keys is in the view and marked dirty. */
  ghost predicate Dirty(view: map<int, ChunkVal>, keys: seq<int>)
  {
    forall k :: k in keys ==> k in view && view[k].IsDirty
  }

  /** No chunk of `before` is gone from `after` or has lost its dirty mark there. */
  ghost predicate Raised(before: map<int, ChunkVal>, after: map<int, ChunkVal>)
  {
    forall k :: k in before ==> k in after && (before[k].IsDirty ==> after[k].IsDirty)
  }

  /** Dirty chunks stay dirty while no mark is cleared. */
  lemma DirtyRaised(before: map<int, ChunkVal>, after: map<int, ChunkVal>, keys: seq<int>)
    requires Dirty(before, keys) && Raised(before, after)
    ensures Dirty(after, keys)
  {
  }

  /** The insertion of one entity marks the chunk of every key dirty and clears no mark. */
  lemma InsertedDirty(view: map<int, ChunkVal>, keys: seq<int>, r: Record)
    ensures Dirty(Inserted(Created(view, keys), keys, r), keys)
    ensures Raised(view, Inserted(Created(view, keys), keys, r))
  {
  }

  /** The move of one entity marks the chunk of every new key dirty and clears no mark. */
  lemma RelocatedDirty(view: map<int, ChunkVal>, before: seq<int>, keys: seq<int>, r: Record)
    ensures Dirty(Relocated(Created(view, keys), before, keys, r), keys)
    ensures Raised(view, Relocated(Created(view, keys), before, keys, r))
  {
    var mid := Created(view, keys);
    forall k | k in mid && mid[k].IsDirty
      ensures Shifted(mid[k], k in keys, k in before, r).IsDirty
    {
      if k !in keys && k in before {
        CountIdFound(mid[k].Records, r.Id);
      }
    }
  }

  /** The chunks of a list whose keys are dirty in the view are the chunks marked dirty. */
  lemma DirtyChunks(sap: BroadphaseSAP, chunks: seq<SAPChunk?>, keys: seq<int>)
    requires sap.Mirrors() && Listed(chunks, keys, sap.Items) && Dirty(sap.View, keys)
    ensures forall j :: 0 <= j < |chunks| ==> chunks[j] != null && chunks[j].IsDirty
  {
    forall j | 0 <= j < |chunks|
      ensures chunks[j] != null && chunks[j].IsDirty
    {
      assert keys[j] in keys;
      assert sap.Items[keys[j]].Val() == sap.View[keys[j]];
    }
  }

  /** Every chunk can take `n` more records before its length passes `int.MaxValue`. */
  ghost predicate Room(view: map<int, ChunkVal>, n: int)
  {
    0 <= n <= Int32Max && forall k :: k in view ==> |view[k].Records| + n <= Int32Max
  }

  /** New chunks are empty, so they have room for as much as the others. */
  lemma CreatedRoom(view: map<int, ChunkVal>, keys: seq<int>, n: int)
    requires Room(view, n)
    ensures Room(Created(view, keys), n)
  {
    forall k | k in Created(view, keys) && k !in view
      ensures |Created(view, keys)[k].Records| + n <= Int32Max
    {
      CreatedNew(view, keys, k);
    }
  }

  /** An insertion adds at most one record to each chunk. */
  lemma InsertedRoom(view: map<int, ChunkVal>, keys: seq<int>, r: Record, n: int)
    requires Room(view, n) && n >= 1
    ensures Room(Inserted(view, keys, r), n - 1)
  {
  }

  /** A move adds at most one record to each chunk: a refresh and a deletion keep the length. */
  lemma RelocatedRoom(view: map<int, ChunkVal>, before: seq<int>, after: seq<int>, r: Record, n: int)
    requires Room(view, n) && n >= 1
    ensures Room(Relocated(view, before, after, r), n - 1)
  {
  }

  /** The ids of the entities, in world order. */
  function Ids(world: seq<Entity>): (ids: seq<int>)
    ensures |ids| == |world| && forall i :: 0 <= i < |world| ==> ids[i] == world[i].Id
  {
    seq(|world|, i requires 0 <= i < |world| => world[i].Id)
  }

  ghost function Members(world: seq<Entity>): set<Entity>
  {
    set i | 0 <= i < |world| :: world[i]
  }

  ghost function Refs(world: seq<Entity>): set<BroadphaseRef>
    reads Members(world)
  {
    set i | 0 <= i < |world| && world[i].BpRef != null :: world[i].BpRef
  }

  /** The translations, rotations and colliders of the entities. */
  ghost function Parts(world: seq<Entity>): set<object>
    reads Members(world)
  {
    (set q | 0 <= q < |world| && world[q].Translation != null :: world[q].Translation as object) +
    (set q | 0 <= q < |world| && world[q].Rotation != null :: world[q].Rotation as object) +
    (set q | 0 <= q < |world| && world[q].Collider != null :: world[q].Collider as object)
  }

  /** The cell keys of an entity's chunks: those its component records, none without one. */
  ghost function KeyList(e: Entity): seq<int>
    reads e, e.BpRef
  {
    if e.BpRef == null then [] else e.BpRef.Keys
  }

  /** The key lists of the entities, in world order. */
  ghost function KeyLists(world: seq<Entity>): (lists: seq<seq<int>>)
    reads Members(world), Refs(world)
    ensures |lists| == |world| && forall i :: 0 <= i < |world| ==> lists[i] == KeyList(world[i])
  {
    seq(|world|, i requires 0 <= i < |world| reads Members(world), Refs(world) => KeyList(world[i]))
  }

  /** The box an entity was last registered with; one without a component has no records, and the default box stands in. */
  ghost function RefBox(e: Entity): AABB
    reads e, e.BpRef
  {
    if e.BpRef == null then EmptyRecord.Box else e.BpRef.Box
  }

  /** The boxes the entities were last registered with, in world order. */
  ghost function RefBoxes(world: seq<Entity>): (boxes: seq<AABB>)
    reads Members(world), Refs(world)
    ensures |boxes| == |world| && forall i :: 0 <= i < |world| ==> boxes[i] == RefBox(world[i])
  {
    seq(|world|, i requires 0 <= i < |world| reads Members(world), Refs(world) => RefBox(world[i]))
  }

  /** An entity's component, when it has one, lists the chunks stored under its keys. */
  ghost predicate Attached(e: Entity, items: map<int, SAPChunk>)
    reads e, e.BpRef
  {
    e.BpRef != null ==> Listed(e.BpRef.Items, e.BpRef.Keys, items)
  }

  /**
   * The registration invariant: a valid singleton whose view is exact, every
   * component listing the chunks of its keys, and records that agree with
   * the lists and carry the box each entity was last registered with.
   */
  ghost predicate Consistent(sap: BroadphaseSAP, world: seq<Entity>)
    reads sap, sap.Items.Values, Members(world), Refs(world)
  {
    UniqueIds(Ids(world)) && sap.Valid() && sap.Mirrors() &&
    Registry(sap.View, Ids(world), KeyLists(world)) && Carried(sap.View, Ids(world), RefBoxes(world)) &&
    forall q :: 0 <= q < |world| ==> Attached(world[q], sap.Items)
  }

  /** The entity's component lists the chunks of the cells `box` covers, and records `box` as the one registered. */
  ghost predicate Registered(e: Entity, box: AABB, items: map<int, SAPChunk>)
    reads e, e.BpRef
  {
    e.BpRef != null && e.BpRef.Keys == Keys(RangeOf(box, CellSize)) && e.BpRef.Box == box &&
    Listed(e.BpRef.Items, e.BpRef.Keys, items)
  }

  /** The box of a body: the collider's size at the translation, rotated only for a rectangle. */
  function BoxOf(t: TranslationComponent, rot: RotationComponent, c: ColliderComponent, sin: real -> real, cos: real -> real): AABB
    reads t, rot, c
  {
    var rotation := if c.Type == PhysicsEcs.ColliderType.Rect then rot.Value else 0.0;
    FromSize(c.Size, t.Value, sin(rotation), cos(rotation))
  }

  /** One more key of a distinct list: its chunk, which no earlier key reached, gains the record. */
  lemma InsertedStep(view: map<int, ChunkVal>, keys: seq<int>, j: int, r: Record)
    requires Distinct(keys) && 0 <= j < |keys| && keys[j] in view
    ensures keys[j] in Inserted(view, keys[..j], r) && Inserted(view, keys[..j], r)[keys[j]] == view[keys[j]]
    ensures Inserted(view, keys[..j + 1], r) == Inserted(view, keys[..j], r)[keys[j] := Added(view[keys[j]], r)]
  {
    assert keys[..j + 1] == keys[..j] + [keys[j]];
    assert keys[j] !in keys[..j];
  }

  /** A list stays listed while every key keeps its chunk. */
  lemma ListedKept(chunks: seq<SAPChunk?>, keys: seq<int>, before: map<int, SAPChunk>, after: map<int, SAPChunk>)
    requires Listed(chunks, keys, before) && Kept(before, after)
    ensures Listed(chunks, keys, after)
  {
  }
}
