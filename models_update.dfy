/**
 * BroadphaseUpdateSystem of the Models revision
 * (Assets/Models/Systems/BroadphaseUpdateSystem.cs): every entity with a
 * translation, a rotation, a collider, a body and a BroadphaseRefComponent
 * but no RigBodyStaticComponent gets its box recomputed and moves to the
 * chunks of the cells the box covers. A chunk in both its old and its new
 * list has the body's record refreshed, a chunk only in the new list gains
 * a record, and a chunk only in the old list has the record tombstoned.
 *
 * The old list is nulled slot by slot as chunks are matched; here that is
 * the local sequence `rest`. `math.sincos` is the pair of parameters `sin`
 * and `cos`.
 */
module ModelsUpdate {
  import opened MathHelper
  import opened Aabb
  import opened Grid
  import opened BroadphasePair
  import opened ModelsEcs
  import opened ModelsHelper
  import opened ModelsWorld

  /** `oldChunks.IndexOf(chunk)`: the first slot holding the chunk, -1 when none does. */
  method IndexOf(list: seq<SAPChunk?>, chunk: SAPChunk) returns (index: int)
    ensures -1 <= index < |list|
    ensures index == -1 <==> chunk !in list
    ensures index >= 0 ==> list[index] == chunk && chunk !in list[..index]
  {
    index := 0;
    while index < |list|
      invariant 0 <= index <= |list| && chunk !in list[..index]
    {
      if list[index] == chunk {
        return;
      }
      assert list[..index + 1] == list[..index] + [list[index]];
      index := index + 1;
    }
    assert list[..index] == list;
    index := -1;
  }

  /** The old list once the chunks of `keys` have been matched: their slots are null, the others untouched. */
  ghost function Pending(list: seq<SAPChunk?>, olds: seq<int>, keys: seq<int>): (rest: seq<SAPChunk?>)
    requires |list| == |olds|
    ensures |rest| == |list|
  {
    seq(|list|, a requires 0 <= a < |list| => if olds[a] in keys then null else list[a])
  }

  /**
   * While the keys are matched in turn, the chunk of the next key is in the
   * pending list exactly when its key was an old key, and only in the slot
   * of that key.
   */
  lemma PendingMatch(items: map<int, SAPChunk>, list: seq<SAPChunk?>, olds: seq<int>, keys: seq<int>, j: int)
    requires Listed(list, olds, items) && Distinct(keys) && 0 <= j < |keys| && keys[j] in items
    requires forall k, k' :: k in items && k' in items && k != k' ==> items[k] != items[k']
    ensures items[keys[j]] in Pending(list, olds, keys[..j]) <==> keys[j] in olds
    ensures forall a :: 0 <= a < |list| && Pending(list, olds, keys[..j])[a] == items[keys[j]] ==> olds[a] == keys[j]
  {
    var rest, c := Pending(list, olds, keys[..j]), items[keys[j]];
    forall a | 0 <= a < |list| && rest[a] == c
      ensures olds[a] == keys[j]
    {
      assert rest[a] == list[a] == items[olds[a]];
    }
    if keys[j] in olds {
      var a :| 0 <= a < |olds| && olds[a] == keys[j];
      assert keys[j] !in keys[..j];
      assert rest[a] == c;
    }
  }

  /** Matching the chunk of one more key nulls the slot of that key, when there is one. */
  lemma PendingStep(list: seq<SAPChunk?>, olds: seq<int>, keys: seq<int>, j: int, a: int)
    requires |list| == |olds| && Distinct(olds) && 0 <= j < |keys| && -1 <= a < |olds|
    requires 0 <= a < |olds| ==> olds[a] == keys[j]
    requires a < 0 ==> keys[j] !in olds
    ensures Pending(list, olds, keys[..j + 1]) ==
      if 0 <= a < |olds| then Pending(list, olds, keys[..j])[a := null] else Pending(list, olds, keys[..j])
  {
    var before, after := Pending(list, olds, keys[..j]), Pending(list, olds, keys[..j + 1]);
    assert keys[..j + 1] == keys[..j] + [keys[j]];
    forall b | 0 <= b < |list|
      ensures after[b] == if b == a then null else before[b]
    {
      assert olds[b] in keys[..j + 1] <==> olds[b] in keys[..j] || olds[b] == keys[j];
      if b != a && 0 <= a < |olds| {
        assert olds[b] != olds[a] by {
          if b < a { assert olds[b] != olds[a]; } else { assert olds[a] != olds[b]; }
        }
      }
    }
  }

  /** The view once the chunks of `keys` have been entered: refreshed where the key is old, appended to where it is new. */
  ghost function Entered(view: map<int, ChunkVal>, olds: seq<int>, keys: seq<int>, r: Record): (v: map<int, ChunkVal>)
    ensures v.Keys == view.Keys
  {
    map k | k in view :: if k in keys then Shifted(view[k], true, k in olds, r) else view[k]
  }

  /** One more key of a distinct list: its chunk, untouched so far, is refreshed or appended to. */
  lemma EnteredStep(view: map<int, ChunkVal>, olds: seq<int>, keys: seq<int>, j: int, r: Record)
    requires Distinct(keys) && 0 <= j < |keys| && keys[j] in view
    ensures Entered(view, olds, keys[..j], r)[keys[j]] == view[keys[j]]
    ensures Entered(view, olds, keys[..j + 1], r) ==
      Entered(view, olds, keys[..j], r)[keys[j] := Shifted(view[keys[j]], true, keys[j] in olds, r)]
  {
    assert keys[..j + 1] == keys[..j] + [keys[j]];
    assert keys[j] !in keys[..j];
  }

  /** The view once the chunks of the old keys `olds` that are not new keys have lost the record of `id`. */
  ghost function Left(view: map<int, ChunkVal>, olds: seq<int>, keys: seq<int>, id: int): (v: map<int, ChunkVal>)
    ensures v.Keys == view.Keys
  {
    map k | k in view :: if k in olds && k !in keys then Removed(view[k], id) else view[k]
  }

  /** One more old key of a distinct list: its chunk, untouched so far, loses the record unless the key is new. */
  lemma LeftStep(view: map<int, ChunkVal>, olds: seq<int>, keys: seq<int>, a: int, id: int)
    requires Distinct(olds) && 0 <= a < |olds| && olds[a] in view
    ensures Left(view, olds[..a], keys, id)[olds[a]] == view[olds[a]]
    ensures Left(view, olds[..a + 1], keys, id) ==
      if olds[a] in keys then Left(view, olds[..a], keys, id)
      else Left(view, olds[..a], keys, id)[olds[a] := Removed(view[olds[a]], id)]
  {
    var before, after := Left(view, olds[..a], keys, id), Left(view, olds[..a + 1], keys, id);
    var k0 := olds[a];
    PrefixStep(olds, a);
    assert k0 !in olds[..a] by {
      forall i | 0 <= i < a
        ensures olds[..a][i] != k0
      {
        assert olds[i] != olds[a];
      }
    }
    var expected := if k0 in keys then before else before[k0 := Removed(view[k0], id)];
    forall k | k in view
      ensures after[k] == expected[k]
    {
    }
    assert after == expected;
  }

  /** Entering the new chunks and then leaving the old ones is the move `Relocated` describes. */
  lemma EnteredLeft(view: map<int, ChunkVal>, olds: seq<int>, keys: seq<int>, r: Record)
    ensures Left(Entered(view, olds, keys, r), olds, keys, r.Id) == Relocated(view, olds, keys, r)
  {
    var entered := Entered(view, olds, keys, r);
    forall k | k in view
      ensures Left(entered, olds, keys, r.Id)[k] == Relocated(view, olds, keys, r)[k]
    {
      if k !in keys && k in olds {
        assert entered[k] == view[k];
      }
    }
  }

  /** One turn of the loop over the new chunks (lines 41-69). */
  method EnterChunk(sap: BroadphaseSAP, chunks: seq<SAPChunk>, keys: seq<int>, chunk: SAPChunk, j: int,
                    list: seq<SAPChunk?>, ghost olds: seq<int>, rest: seq<SAPChunk?>, r: Record, n: int,
                    ghost start: map<int, ChunkVal>) returns (rest': seq<SAPChunk?>)
    requires sap.Valid() && sap.Mirrors() && 0 <= j < |keys| && Listed(chunks, keys, sap.Items) && chunk == chunks[j]
    requires Listed(list, olds, sap.Items) && Room(start, n) && n >= 1 && start.Keys == sap.Items.Keys
    requires rest == Pending(list, olds, keys[..j]) && sap.View == Entered(start, olds, keys[..j], r)
    modifies sap`View, chunk`Items, chunk`Length, chunk`IsDirty
    ensures sap.Valid() && sap.Mirrors() && sap.Items == old(sap.Items)
    ensures rest' == Pending(list, olds, keys[..j + 1]) && sap.View == Entered(start, olds, keys[..j + 1], r)
  {
    EnteredStep(start, olds, keys, j, r);
    PendingMatch(sap.Items, list, olds, keys, j);
    var index := IndexOf(rest, chunk);
    PendingStep(list, olds, keys, j, index);
    if index >= 0 {
      rest' := rest[index := null];
      RefreshAt(sap, keys[j], chunk, r.Id, r.Box);
    } else {
      rest' := rest;
      AddAt(sap, keys[j], chunk, r);
    }
  }

  /** Lines 39-70: every new chunk is marked dirty and has the record refreshed or appended; matched old slots are nulled. */
  method Enter(sap: BroadphaseSAP, chunks: seq<SAPChunk>, keys: seq<int>, list: seq<SAPChunk?>, ghost olds: seq<int>,
               r: Record, n: int) returns (rest: seq<SAPChunk?>)
    requires sap.Valid() && sap.Mirrors() && Listed(chunks, keys, sap.Items) && Listed(list, olds, sap.Items)
    requires Room(sap.View, n) && n >= 1
    modifies sap`View, sap.Items.Values`Items, sap.Items.Values`Length, sap.Items.Values`IsDirty
    ensures sap.Valid() && sap.Mirrors() && sap.Items == old(sap.Items)
    ensures rest == Pending(list, olds, keys) && sap.View == Entered(old(sap.View), olds, keys, r)
  {
    rest := list;
    assert rest == Pending(list, olds, keys[..0]);
    var j := 0;
    while j < |chunks|
      invariant 0 <= j <= |keys| && sap.Valid() && sap.Mirrors() && sap.Items == old(sap.Items)
      invariant rest == Pending(list, olds, keys[..j]) && sap.View == Entered(old(sap.View), olds, keys[..j], r)
    {
      rest := EnterChunk(sap, chunks, keys, chunks[j], j, list, olds, rest, r, n, old(sap.View));
      j := j + 1;
    }
    assert keys[..j] == keys;
  }

  /** One turn of the loop over the old list (lines 74-87): a slot not nulled has the record tombstoned. */
  method LeaveChunk(sap: BroadphaseSAP, rest: seq<SAPChunk?>, ghost list: seq<SAPChunk?>, ghost olds: seq<int>, ghost keys: seq<int>,
                    a: int, id: int, ghost start: map<int, ChunkVal>)
    requires sap.Valid() && sap.Mirrors() && Listed(list, olds, sap.Items) && 0 <= a < |olds|
    requires rest == Pending(list, olds, keys) && start.Keys == sap.Items.Keys && sap.View == Left(start, olds[..a], keys, id)
    modifies sap`View, {sap.Items[olds[a]]}`Items, {sap.Items[olds[a]]}`NeedRebuild, {sap.Items[olds[a]]}`IsDirty
    ensures sap.Valid() && sap.Mirrors() && sap.Items == old(sap.Items)
    ensures sap.View == Left(start, olds[..a + 1], keys, id)
  {
    LeftStep(start, olds, keys, a, id);
    var chunk := rest[a];
    if chunk == null {
      return;
    }
    DropAt(sap, olds[a], chunk, id);
  }

  /** Lines 72-88: every old chunk that is not also new has the record of `id` tombstoned. */
  method Leave(sap: BroadphaseSAP, rest: seq<SAPChunk?>, ghost list: seq<SAPChunk?>, ghost olds: seq<int>, ghost keys: seq<int>, id: int)
    requires sap.Valid() && sap.Mirrors() && Listed(list, olds, sap.Items) && rest == Pending(list, olds, keys)
    modifies sap`View, sap.Items.Values`Items, sap.Items.Values`Length, sap.Items.Values`NeedRebuild, sap.Items.Values`IsDirty
    ensures sap.Valid() && sap.Mirrors() && sap.Items == old(sap.Items)
    ensures sap.View == Left(old(sap.View), olds, keys, id)
  {
    assert olds[..0] == [];
    var a := 0;
    while a < |rest|
      invariant 0 <= a <= |olds| && sap.Valid() && sap.Mirrors() && sap.Items == old(sap.Items)
      invariant sap.View == Left(old(sap.View), olds[..a], keys, id)
    {
      LeaveChunk(sap, rest, list, olds, keys, a, id, old(sap.View));
      a := a + 1;
    }
    assert olds[..a] == olds;
  }

  /**
   * Lines 36-90 once the box and the record are known: the body moves from
   * the chunks its component lists to those of the cells of the box, and
   * the component lists the new chunks and records the box.
   */
  method Relocate(sap: BroadphaseSAP, bpRef: BroadphaseRef, box: AABB, r: Record, n: int) returns (ghost keys: seq<int>)
    requires sap.Valid() && sap.Mirrors() && Room(sap.View, n) && n >= 1 && Listed(bpRef.Items, bpRef.Keys, sap.Items)
    requires r.Box == box
    modifies sap`Items, sap`View,
      sap.Items.Values`Items, sap.Items.Values`Length, sap.Items.Values`NeedRebuild, sap.Items.Values`IsDirty,
      bpRef`Items, bpRef`Keys, bpRef`Box
    ensures sap.Valid() && sap.Mirrors() && Kept(old(sap.Items), sap.Items) && Room(sap.View, n - 1)
    ensures forall c :: c in sap.Items.Values ==> c in old(sap.Items.Values) || fresh(c)
    ensures keys == Keys(RangeOf(box, CellSize)) && bpRef.Keys == keys && Listed(bpRef.Items, keys, sap.Items)
    ensures bpRef.Box == box
    ensures sap.View == Relocated(Created(old(sap.View), keys), old(bpRef.Keys), keys, r)
  {
    var oldChunks := bpRef.Items;
    ghost var olds := bpRef.Keys;
    var newChunks, ks := ModelsHelper.GetChunks(box, CellSize, sap);
    CreatedRoom(old(sap.View), ks, n);
    ListedKept(oldChunks, olds, old(sap.Items), sap.Items);
    Shift(sap, newChunks, ks, oldChunks, olds, r, n);
    Relist(bpRef, newChunks, ks, box);
    keys := ks;
  }

  /** Line 89: the component lists the new chunks; its ghost keys and box follow. */
  method Relist(bpRef: BroadphaseRef, chunks: seq<SAPChunk>, ghost keys: seq<int>, ghost box: AABB)
    modifies bpRef`Items, bpRef`Keys, bpRef`Box
    ensures bpRef.Items == chunks && bpRef.Keys == keys && bpRef.Box == box
  {
    bpRef.Items := chunks;
    bpRef.Keys, bpRef.Box := keys, box;
  }

  /** Lines 39-88 once both chunk lists are known: the record enters the new chunks, then leaves the old ones. */
  method Shift(sap: BroadphaseSAP, chunks: seq<SAPChunk>, keys: seq<int>, list: seq<SAPChunk?>, ghost olds: seq<int>,
               r: Record, n: int)
    requires sap.Valid() && sap.Mirrors() && Listed(chunks, keys, sap.Items) && Listed(list, olds, sap.Items)
    requires Room(sap.View, n) && n >= 1
    modifies sap`View, sap.Items.Values`Items, sap.Items.Values`Length, sap.Items.Values`NeedRebuild, sap.Items.Values`IsDirty
    ensures sap.Valid() && sap.Mirrors() && sap.Items == old(sap.Items) && Room(sap.View, n - 1)
    ensures sap.View == Relocated(old(sap.View), olds, keys, r)
  {
    var rest := Enter(sap, chunks, keys, list, olds, r, n);
    Leave(sap, rest, list, olds, keys, r.Id);
    EnteredLeft(old(sap.View), olds, keys, r);
    RelocatedRoom(old(sap.View), olds, keys, r, n);
  }

  /** A prefix one longer holds one more element. */
  lemma PrefixStep(s: seq<int>, a: int)
    requires 0 <= a < |s|
    ensures forall k :: k in s[..a + 1] <==> k in s[..a] || k == s[a]
  {
    assert s[..a + 1] == s[..a] + [s[a]];
  }

  /** The entity filter (lines 15-16): translation, rotation, collider, body and BroadphaseRefComponent, and no RigBodyStaticComponent. */
  predicate Tracked(e: Entity)
    reads e
  {
    e.Translation != null && e.Rotation != null && e.Collider != null && e.RigBody != null && e.BpRef != null &&
    !e.RigBodyStatic
  }

  /**
   * The loop body (lines 26-90) for an entity the filter selected: the box
   * of its components is computed, and the body moves from the chunks its
   * component lists to those of the cells of the box.
   */
  method Move(e: Entity, sap: BroadphaseSAP, n: int, sin: real -> real, cos: real -> real)
    returns (ghost keys: seq<int>, ghost r: Record)
    requires Tracked(e) && sap.Valid() && sap.Mirrors() && Room(sap.View, n) && n >= 1 && Attached(e, sap.Items)
    modifies sap`Items, sap`View,
      sap.Items.Values`Items, sap.Items.Values`Length, sap.Items.Values`NeedRebuild, sap.Items.Values`IsDirty,
      {e.BpRef}`Items, {e.BpRef}`Keys, {e.BpRef}`Box
    ensures sap.Valid() && sap.Mirrors() && Kept(old(sap.Items), sap.Items) && Room(sap.View, n - 1)
    ensures forall c :: c in sap.Items.Values ==> c in old(sap.Items.Values) || fresh(c)
    ensures Registered(e, BoxOf(e.Translation, e.Rotation, e.Collider, sin, cos), sap.Items) && keys == e.BpRef.Keys
    ensures r == Record(e.Id, e.Collider.Layer, Equal(e.RigBody.InvMass, 0.0), BoxOf(e.Translation, e.Rotation, e.Collider, sin, cos))
    ensures sap.View == Relocated(Created(old(sap.View), keys), old(e.BpRef.Keys), keys, r)
  {
    var aabb := BoxOf(e.Translation, e.Rotation, e.Collider, sin, cos);
    var record := Record(e.Id, e.Collider.Layer, Equal(e.RigBody.InvMass, 0.0), aabb);
    keys := Relocate(sap, e.BpRef, aabb, record, n);
    r := record;
  }

  /** No two entities share a BroadphaseRefComponent. */
  ghost predicate Unshared(world: seq<Entity>)
    reads Members(world)
  {
    forall p, q :: 0 <= p < |world| && 0 <= q < |world| && p != q && world[p].BpRef != null ==> world[p].BpRef != world[q].BpRef
  }

  /** The chunk list of an entity's component, none without one. */
  ghost function ChunkList(e: Entity): seq<SAPChunk?>
    reads e, e.BpRef
  {
    if e.BpRef == null then [] else e.BpRef.Items
  }

  /** The chunk lists of the entities, in world order. */
  ghost function ChunkLists(world: seq<Entity>): (lists: seq<seq<SAPChunk?>>)
    reads Members(world), Refs(world)
    ensures |lists| == |world| && forall i :: 0 <= i < |world| ==> lists[i] == ChunkList(world[i])
  {
    seq(|world|, i requires 0 <= i < |world| reads Members(world), Refs(world) => ChunkList(world[i]))
  }

  /** What the update loop needs to remember of an entity as it was before the loop. */
  datatype Aim = Aim(Selected: bool, Box: AABB)

  ghost function AimOf(e: Entity, sin: real -> real, cos: real -> real): (a: Aim)
    reads e, e.Translation, e.Rotation, e.Collider
    ensures a.Selected == Tracked(e)
    ensures Tracked(e) ==> a.Box == BoxOf(e.Translation, e.Rotation, e.Collider, sin, cos)
  {
    var box := if Tracked(e) then BoxOf(e.Translation, e.Rotation, e.Collider, sin, cos) else AABB(Zero, Zero);
    Aim(Tracked(e), box)
  }

  ghost function AimsOf(world: seq<Entity>, sin: real -> real, cos: real -> real): (aims: seq<Aim>)
    reads Members(world), Parts(world)
    ensures |aims| == |world| && forall q :: 0 <= q < |world| ==> aims[q] == AimOf(world[q], sin, cos)
  {
    seq(|world|, q requires 0 <= q < |world| reads Members(world), Parts(world) => AimOf(world[q], sin, cos))
  }

  /**
   * An entity once the loop has or has not reached it: its key list is
   * `list` and its registered box `box`, its component lists the chunks of its keys, and it is
   * registered with the box it had before the loop if the filter selected
   * it and the loop is past it; otherwise its component lists `chunks`, the
   * chunks it listed before the loop.
   */
  ghost predicate Agrees(e: Entity, a: Aim, list: seq<int>, box: AABB, chunks: seq<SAPChunk?>, done: bool,
                         items: map<int, SAPChunk>, view: map<int, ChunkVal>)
    reads e, e.BpRef
  {
    KeyList(e) == list && RefBox(e) == box && Attached(e, items) &&
    if done && a.Selected then Registered(e, a.Box, items) && Dirty(view, list) else ChunkList(e) == chunks
  }

  /** Keeping every key's chunk keeps an entity's agreement. */
  lemma AgreesKept(e: Entity, a: Aim, list: seq<int>, box: AABB, chunks: seq<SAPChunk?>, done: bool,
                   before: map<int, SAPChunk>, after: map<int, SAPChunk>, was: map<int, ChunkVal>, now: map<int, ChunkVal>)
    requires Agrees(e, a, list, box, chunks, done, before, was) && Kept(before, after) && Raised(was, now)
    ensures Agrees(e, a, list, box, chunks, done, after, now)
  {
    if e.BpRef != null {
      ListedKept(e.BpRef.Items, e.BpRef.Keys, before, after);
    }
    if done && a.Selected {
      DirtyRaised(was, now, list);
    }
  }

  /** The state of the update loop after `i` entities. */
  ghost predicate Sweep(world: seq<Entity>, sap: BroadphaseSAP, aims: seq<Aim>, lists: seq<seq<int>>, boxes: seq<AABB>,
                        olds: seq<seq<SAPChunk?>>, i: int)
    reads sap, sap.Items.Values, Members(world), Refs(world)
  {
    UniqueIds(Ids(world)) && Unshared(world) && 0 <= i <= |world| && |aims| == |lists| == |boxes| == |olds| == |world| &&
    sap.Valid() && sap.Mirrors() && Room(sap.View, |world| - i) && Registry(sap.View, Ids(world), lists) &&
    Carried(sap.View, Ids(world), boxes) &&
    forall q :: 0 <= q < |world| ==> Agrees(world[q], aims[q], lists[q], boxes[q], olds[q], q < i, sap.Items, sap.View)
  }

  /** The loop body for an entity the filter selected, with the registration invariant carried over. */
  method Follow(world: seq<Entity>, i: int, sap: BroadphaseSAP, sin: real -> real, cos: real -> real,
                ghost lists: seq<seq<int>>, ghost boxes: seq<AABB>, ghost box: AABB) returns (ghost lists': seq<seq<int>>)
    requires 0 <= i < |world| && UniqueIds(Ids(world)) && Tracked(world[i]) && |lists| == |world|
    requires box == BoxOf(world[i].Translation, world[i].Rotation, world[i].Collider, sin, cos)
    requires lists[i] == world[i].BpRef.Keys && Attached(world[i], sap.Items)
    requires sap.Valid() && sap.Mirrors() && Room(sap.View, |world| - i) && Registry(sap.View, Ids(world), lists)
    requires Carried(sap.View, Ids(world), boxes)
    modifies sap`Items, sap`View,
      sap.Items.Values`Items, sap.Items.Values`Length, sap.Items.Values`NeedRebuild, sap.Items.Values`IsDirty,
      {world[i].BpRef}`Items, {world[i].BpRef}`Keys, {world[i].BpRef}`Box
    ensures sap.Valid() && sap.Mirrors() && Room(sap.View, |world| - i - 1) && Kept(old(sap.Items), sap.Items)
    ensures forall c :: c in sap.Items.Values ==> c in old(sap.Items.Values) || fresh(c)
    ensures Registered(world[i], box, sap.Items)
    ensures Registry(sap.View, Ids(world), lists') && lists' == lists[i := world[i].BpRef.Keys]
    ensures Carried(sap.View, Ids(world), boxes[i := box])
    ensures Dirty(sap.View, lists'[i]) && Raised(old(sap.View), sap.View)
  {
    ghost var view0 := sap.View;
    var keys, r := Move(world[i], sap, |world| - i, sin, cos);
    CreatedRegistry(view0, Ids(world), lists, keys);
    RelocatedRegistry(Created(view0, keys), Ids(world), lists, i, keys, r);
    CreatedCarried(view0, Ids(world), boxes, keys);
    RelocatedCarried(Created(view0, keys), Ids(world), lists, boxes, i, keys, r);
    RelocatedDirty(view0, lists[i], keys, r);
    lists' := lists[i := keys];
  }

  /** The filter applied to the entity at `i` and, when it passes, the loop body: one more entity is done. */
  method Step(world: seq<Entity>, i: int, sap: BroadphaseSAP, sin: real -> real, cos: real -> real,
              ghost aims: seq<Aim>, ghost lists: seq<seq<int>>, ghost boxes: seq<AABB>, ghost olds: seq<seq<SAPChunk?>>)
    returns (ghost lists': seq<seq<int>>, ghost boxes': seq<AABB>)
    requires Sweep(world, sap, aims, lists, boxes, olds, i) && i < |world| && aims[i] == AimOf(world[i], sin, cos)
    modifies sap`Items, sap`View,
      sap.Items.Values`Items, sap.Items.Values`Length, sap.Items.Values`NeedRebuild, sap.Items.Values`IsDirty,
      {world[i].BpRef}`Items, {world[i].BpRef}`Keys, {world[i].BpRef}`Box
    ensures Sweep(world, sap, aims, lists', boxes', olds, i + 1) && Kept(old(sap.Items), sap.Items)
    ensures forall c :: c in sap.Items.Values ==> c in old(sap.Items.Values) || fresh(c)
  {
    lists', boxes' := lists, boxes;
    if Tracked(world[i]) {
      assert Agrees(world[i], aims[i], lists[i], boxes[i], olds[i], false, sap.Items, sap.View);
      lists' := Follow(world, i, sap, sin, cos, lists, boxes, aims[i].Box);
      boxes' := boxes[i := aims[i].Box];
      forall q | 0 <= q < |world| && q != i
        ensures Agrees(world[q], aims[q], lists'[q], boxes'[q], olds[q], q < i + 1, sap.Items, sap.View)
      {
        var e := world[q];
        assert e.BpRef != world[i].BpRef;
        assert Agrees(e, aims[q], lists[q], boxes[q], olds[q], q < i, old(sap.Items), old(sap.View));
        AgreesKept(e, aims[q], lists[q], boxes[q], olds[q], q < i, old(sap.Items), sap.Items, old(sap.View), sap.View);
      }
    }
  }

  /** The loop of lines 24-91 over the entities, from the first to the last. */
  method Run(world: seq<Entity>, sap: BroadphaseSAP, sin: real -> real, cos: real -> real,
             ghost aims: seq<Aim>, ghost lists: seq<seq<int>>, ghost boxes: seq<AABB>, ghost olds: seq<seq<SAPChunk?>>)
    returns (ghost lists': seq<seq<int>>, ghost boxes': seq<AABB>)
    requires Sweep(world, sap, aims, lists, boxes, olds, 0) && forall q :: 0 <= q < |world| ==> aims[q] == AimOf(world[q], sin, cos)
    modifies sap`Items, sap`View,
      sap.Items.Values`Items, sap.Items.Values`Length, sap.Items.Values`NeedRebuild, sap.Items.Values`IsDirty,
      Refs(world)`Items, Refs(world)`Keys, Refs(world)`Box
    ensures Sweep(world, sap, aims, lists', boxes', olds, |world|) && Kept(old(sap.Items), sap.Items)
    ensures forall q :: 0 <= q < |world| ==> aims[q] == AimOf(world[q], sin, cos)
  {
    lists', boxes' := lists, boxes;
    ghost var items0 := sap.Items;
    var i := 0;
    while i < |world|
      invariant Sweep(world, sap, aims, lists', boxes', olds, i) && Kept(items0, sap.Items)
      invariant forall c :: c in sap.Items.Values ==> c in items0.Values || fresh(c)
      invariant forall q :: 0 <= q < |world| ==> aims[q] == AimOf(world[q], sin, cos)
    {
      assert world[i].BpRef != null ==> world[i].BpRef in Refs(world);
      lists', boxes' := Step(world, i, sap, sin, cos, aims, lists', boxes', olds);
      i := i + 1;
    }
  }

  /** The end of the loop: the registration invariant, with every selected entity registered with its box. */
  lemma Swept(world: seq<Entity>, sap: BroadphaseSAP, sin: real -> real, cos: real -> real,
              aims: seq<Aim>, lists: seq<seq<int>>, boxes: seq<AABB>, olds: seq<seq<SAPChunk?>>)
    requires Sweep(world, sap, aims, lists, boxes, olds, |world|)
    requires forall q :: 0 <= q < |world| ==> aims[q] == AimOf(world[q], sin, cos)
    ensures Consistent(sap, world)
    ensures forall q :: 0 <= q < |world| && Tracked(world[q]) ==>
      (Registered(world[q], BoxOf(world[q].Translation, world[q].Rotation, world[q].Collider, sin, cos), sap.Items) &&
       forall j :: 0 <= j < |world[q].BpRef.Items| ==> world[q].BpRef.Items[j].IsDirty)
    ensures forall q :: 0 <= q < |world| && !Tracked(world[q]) ==> ChunkList(world[q]) == olds[q]
  {
    assert KeyLists(world) == lists && RefBoxes(world) == boxes;
    forall q | 0 <= q < |world| && Tracked(world[q])
      ensures forall j :: 0 <= j < |world[q].BpRef.Items| ==> world[q].BpRef.Items[j].IsDirty
    {
      assert Agrees(world[q], aims[q], lists[q], boxes[q], olds[q], true, sap.Items, sap.View);
      DirtyChunks(sap, world[q].BpRef.Items, lists[q]);
    }
  }

  /**
   * BroadphaseUpdateSystem.Update: every entity the filter selects is
   * registered with the box of its components; every other component keeps
   * its chunk list; every chunk keeps its key; and the registration
   * invariant holds again at the end.
   */
  method Update(world: seq<Entity>, sap: BroadphaseSAP, sin: real -> real, cos: real -> real)
    requires Consistent(sap, world) && Unshared(world) && Room(sap.View, |world|)
    modifies sap`Items, sap`View,
      sap.Items.Values`Items, sap.Items.Values`Length, sap.Items.Values`NeedRebuild, sap.Items.Values`IsDirty,
      Refs(world)`Items, Refs(world)`Keys, Refs(world)`Box
    ensures Consistent(sap, world) && Kept(old(sap.Items), sap.Items)
    ensures forall q :: 0 <= q < |world| && Tracked(world[q]) ==>
      (Registered(world[q], BoxOf(world[q].Translation, world[q].Rotation, world[q].Collider, sin, cos), sap.Items) &&
       forall j :: 0 <= j < |world[q].BpRef.Items| ==> world[q].BpRef.Items[j].IsDirty)
    ensures forall q :: 0 <= q < |world| && !Tracked(world[q]) && world[q].BpRef != null ==>
      world[q].BpRef.Items == old(world[q].BpRef.Items)
  {
    ghost var aims := AimsOf(world, sin, cos);
    ghost var olds := ChunkLists(world);
    ghost var lists, boxes := Run(world, sap, sin, cos, aims, KeyLists(world), RefBoxes(world), olds);
    Swept(world, sap, sin, cos, aims, lists, boxes, olds);
  }
}
