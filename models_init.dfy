/**
 * BroadphaseInitSystem of the Models revision
 * (Assets/Models/Systems/BroadphaseInitSystem.cs): every entity with a
 * translation, a rotation, a collider and a body but no
 * BroadphaseRefComponent gets its box, the chunks of the cells the box
 * covers (created on demand), one record in each of them, and a
 * BroadphaseRefComponent listing them.
 *
 * The world is the sequence of its entities. The filter result is taken
 * before anything changes (`ToList`); registering one entity changes only
 * that entity's component, so testing the filter when the loop reaches an
 * entity gives the same list. `math.sincos` is the pair of parameters `sin`
 * and `cos`.
 */
module ModelsInit {
  import opened MathHelper
  import opened Aabb
  import opened Grid
  import opened ModelsEcs
  import opened ModelsHelper
  import opened ModelsWorld

  /** The entity filter: translation, rotation, collider and body present, no BroadphaseRefComponent yet. */
  predicate Eligible(e: Entity)
    reads e
  {
    e.Translation != null && e.Rotation != null && e.Collider != null && e.RigBody != null && e.BpRef == null
  }

  /** Lines 38-53 once the chunks are known: the record is appended to the chunk of every key, in key order. */
  method AddRecords(sap: BroadphaseSAP, keys: seq<int>, chunks: seq<SAPChunk>, r: Record, n: int)
    requires sap.Valid() && sap.Mirrors() && Room(sap.View, n) && n >= 1 && Listed(chunks, keys, sap.Items)
    modifies sap`View, sap.Items.Values`Items, sap.Items.Values`Length, sap.Items.Values`IsDirty
    ensures sap.Valid() && sap.Mirrors() && sap.Items == old(sap.Items) && Room(sap.View, n - 1)
    ensures sap.View == Inserted(old(sap.View), keys, r)
  {
    var j := 0;
    while j < |keys|
      invariant 0 <= j <= |keys| && sap.Valid() && sap.Mirrors() && sap.Items == old(sap.Items)
      invariant sap.View == Inserted(old(sap.View), keys[..j], r)
    {
      AddRecordAt(sap, keys, chunks, chunks[j], r, n, j, old(sap.View));
      j := j + 1;
    }
    assert keys[..j] == keys;
    InsertedRoom(old(sap.View), keys, r, n);
  }

  /** One turn of the append loop (lines 40-50): the chunk of the next key gains the record and is marked dirty. */
  method AddRecordAt(sap: BroadphaseSAP, keys: seq<int>, chunks: seq<SAPChunk>, chunk: SAPChunk, r: Record, n: int, j: int,
                     ghost start: map<int, ChunkVal>)
    requires sap.Valid() && sap.Mirrors() && 0 <= j < |keys| && Listed(chunks, keys, sap.Items) && chunk == chunks[j]
    requires Room(start, n) && n >= 1 && start.Keys == sap.Items.Keys && sap.View == Inserted(start, keys[..j], r)
    modifies sap`View, chunk`Items, chunk`Length, chunk`IsDirty
    ensures sap.Valid() && sap.Mirrors() && sap.Items == old(sap.Items)
    ensures sap.View == Inserted(start, keys[..j + 1], r)
  {
    InsertedStep(start, keys, j, r);
    AddAt(sap, keys[j], chunk, r);
  }

  /**
   * The loop body (lines 29-56) for an entity the filter selected, once its
   * box is known: the chunks of its cells are looked up or created, each
   * gains the entity's record, and the entity gets a component listing them.
   */
  method Insert(e: Entity, sap: BroadphaseSAP, n: int, box: AABB) returns (ghost keys: seq<int>, ghost r: Record)
    requires Eligible(e) && sap.Valid() && sap.Mirrors() && Room(sap.View, n) && n >= 1
    modifies sap`Items, sap`View, sap.Items.Values`Items, sap.Items.Values`Length, sap.Items.Values`IsDirty, e`BpRef
    ensures sap.Valid() && sap.Mirrors() && Kept(old(sap.Items), sap.Items) && Room(sap.View, n - 1)
    ensures forall c :: c in sap.Items.Values ==> c in old(sap.Items.Values) || fresh(c)
    ensures Registered(e, box, sap.Items) && fresh(e.BpRef) && keys == e.BpRef.Keys
    ensures r == Record(e.Id, e.Collider.Layer, Equal(e.RigBody.InvMass, 0.0), box)
    ensures sap.View == Inserted(Created(old(sap.View), keys), keys, r)
  {
    var record := Record(e.Id, e.Collider.Layer, Equal(e.RigBody.InvMass, 0.0), box);
    var chunks, ks := Fill(sap, n, box, record);
    Attach(e, chunks, ks, box);
    keys, r := ks, record;
  }

  /** Line 55: the entity gets a new component listing its chunks. */
  method Attach(e: Entity, chunks: seq<SAPChunk>, ghost keys: seq<int>, ghost box: AABB)
    modifies e`BpRef
    ensures fresh(e.BpRef) && e.BpRef.Items == chunks && e.BpRef.Keys == keys && e.BpRef.Box == box
  {
    var bpRef := new BroadphaseRef(chunks, keys, box);
    e.BpRef := bpRef;
  }

  /** Lines 37-53: the chunks of the cells of `box`, looked up or created, each gaining the record. */
  method Fill(sap: BroadphaseSAP, n: int, box: AABB, r: Record) returns (chunks: seq<SAPChunk>, keys: seq<int>)
    requires sap.Valid() && sap.Mirrors() && Room(sap.View, n) && n >= 1
    modifies sap`Items, sap`View, sap.Items.Values`Items, sap.Items.Values`Length, sap.Items.Values`IsDirty
    ensures sap.Valid() && sap.Mirrors() && Kept(old(sap.Items), sap.Items) && Room(sap.View, n - 1)
    ensures forall c :: c in sap.Items.Values ==> c in old(sap.Items.Values) || fresh(c)
    ensures keys == Keys(RangeOf(box, CellSize)) && Listed(chunks, keys, sap.Items)
    ensures sap.View == Inserted(Created(old(sap.View), keys), keys, r)
  {
    chunks, keys := ModelsHelper.GetChunks(box, CellSize, sap);
    CreatedRoom(old(sap.View), keys, n);
    AddRecords(sap, keys, chunks, r, n);
  }

  /** What Update needs to remember of an entity as it was before the loop. */
  datatype Snap = Snap(Selected: bool, Box: AABB, Ref: BroadphaseRef?)

  ghost function SnapOf(e: Entity, sin: real -> real, cos: real -> real): (s: Snap)
    reads e, e.Translation, e.Rotation, e.Collider
    ensures s.Selected == Eligible(e) && s.Ref == e.BpRef
    ensures Eligible(e) ==> s.Box == BoxOf(e.Translation, e.Rotation, e.Collider, sin, cos)
  {
    var box := if Eligible(e) then BoxOf(e.Translation, e.Rotation, e.Collider, sin, cos) else AABB(Zero, Zero);
    Snap(Eligible(e), box, e.BpRef)
  }

  ghost function SnapsOf(world: seq<Entity>, sin: real -> real, cos: real -> real): (snaps: seq<Snap>)
    reads Members(world), Parts(world)
    ensures |snaps| == |world| && forall q :: 0 <= q < |world| ==> snaps[q] == SnapOf(world[q], sin, cos)
  {
    seq(|world|, q requires 0 <= q < |world| reads Members(world), Parts(world) => SnapOf(world[q], sin, cos))
  }

  /**
   * An entity against its snapshot, once the loop has or has not reached it:
   * its key list is `list` and its registered box `box`, its component lists the chunks of its keys, and
   * it is registered with the snapshot's box if the filter selected it and
   * the loop is past it; otherwise its component is that of the snapshot.
   */
  ghost predicate Settled(e: Entity, s: Snap, list: seq<int>, box: AABB, done: bool, items: map<int, SAPChunk>)
    reads e, e.BpRef
  {
    KeyList(e) == list && RefBox(e) == box && Attached(e, items) &&
    if done && s.Selected then Registered(e, s.Box, items) else e.BpRef == s.Ref
  }

  /** The state of Update's loop after `i` entities. */
  ghost predicate Progress(world: seq<Entity>, sap: BroadphaseSAP, snaps: seq<Snap>, lists: seq<seq<int>>, boxes: seq<AABB>, i: int)
    reads sap, sap.Items.Values, Members(world), Refs(world)
  {
    UniqueIds(Ids(world)) && 0 <= i <= |world| && |snaps| == |lists| == |boxes| == |world| &&
    sap.Valid() && sap.Mirrors() && Room(sap.View, |world| - i) && Registry(sap.View, Ids(world), lists) &&
    Carried(sap.View, Ids(world), boxes) &&
    (forall q :: 0 <= q < i && snaps[q].Selected ==> Dirty(sap.View, lists[q])) &&
    forall q :: 0 <= q < |world| ==> Settled(world[q], snaps[q], lists[q], boxes[q], q < i, sap.Items)
  }

  /** The loop body for an entity the filter selected, with the registration invariant carried over. */
  method Enroll(world: seq<Entity>, i: int, sap: BroadphaseSAP, sin: real -> real, cos: real -> real,
                ghost lists: seq<seq<int>>, ghost boxes: seq<AABB>, ghost box: AABB) returns (ghost lists': seq<seq<int>>)
    requires 0 <= i < |world| && UniqueIds(Ids(world)) && Eligible(world[i]) && |lists| == |world| && lists[i] == []
    requires box == BoxOf(world[i].Translation, world[i].Rotation, world[i].Collider, sin, cos)
    requires sap.Valid() && sap.Mirrors() && Room(sap.View, |world| - i) && Registry(sap.View, Ids(world), lists)
    requires Carried(sap.View, Ids(world), boxes)
    modifies sap`Items, sap`View, sap.Items.Values`Items, sap.Items.Values`Length, sap.Items.Values`IsDirty, {world[i]}`BpRef
    ensures sap.Valid() && sap.Mirrors() && Room(sap.View, |world| - i - 1) && Kept(old(sap.Items), sap.Items)
    ensures forall c :: c in sap.Items.Values ==> c in old(sap.Items.Values) || fresh(c)
    ensures Registered(world[i], box, sap.Items) && fresh(world[i].BpRef)
    ensures Registry(sap.View, Ids(world), lists') && lists' == lists[i := world[i].BpRef.Keys]
    ensures Carried(sap.View, Ids(world), boxes[i := box])
    ensures Dirty(sap.View, lists'[i]) && Raised(old(sap.View), sap.View)
  {
    ghost var view0 := sap.View;
    var aabb := BoxOf(world[i].Translation, world[i].Rotation, world[i].Collider, sin, cos);
    var keys, r := Insert(world[i], sap, |world| - i, aabb);
    CreatedRegistry(view0, Ids(world), lists, keys);
    InsertedRegistry(Created(view0, keys), Ids(world), lists, i, keys, r);
    CreatedCarried(view0, Ids(world), boxes, keys);
    InsertedCarried(Created(view0, keys), Ids(world), lists, boxes, i, keys, r);
    InsertedDirty(view0, keys, r);
    lists' := lists[i := keys];
  }

  /** The filter applied to the entity at `i` and, when it passes, the loop body: one more entity is done. */
  method Visit(world: seq<Entity>, i: int, sap: BroadphaseSAP, sin: real -> real, cos: real -> real,
               ghost snaps: seq<Snap>, ghost lists: seq<seq<int>>, ghost boxes: seq<AABB>)
    returns (ghost lists': seq<seq<int>>, ghost boxes': seq<AABB>)
    requires Progress(world, sap, snaps, lists, boxes, i) && i < |world| && snaps[i] == SnapOf(world[i], sin, cos)
    modifies sap`Items, sap`View, sap.Items.Values`Items, sap.Items.Values`Length, sap.Items.Values`IsDirty, {world[i]}`BpRef
    ensures Progress(world, sap, snaps, lists', boxes', i + 1) && Kept(old(sap.Items), sap.Items)
    ensures forall c :: c in sap.Items.Values ==> c in old(sap.Items.Values) || fresh(c)
  {
    lists', boxes' := lists, boxes;
    if Eligible(world[i]) {
      assert Settled(world[i], snaps[i], lists[i], boxes[i], false, sap.Items);
      lists' := Enroll(world, i, sap, sin, cos, lists, boxes, snaps[i].Box);
      boxes' := boxes[i := snaps[i].Box];
      forall q | 0 <= q < i && snaps[q].Selected
        ensures Dirty(sap.View, lists'[q])
      {
        DirtyRaised(old(sap.View), sap.View, lists[q]);
      }
      forall q | 0 <= q < |world| && q != i
        ensures Settled(world[q], snaps[q], lists'[q], boxes'[q], q < i + 1, sap.Items)
      {
        var e := world[q];
        assert e.Id != world[i].Id;
        assert old(Settled(e, snaps[q], lists[q], boxes[q], q < i, sap.Items));
        if e.BpRef != null {
          ListedKept(e.BpRef.Items, e.BpRef.Keys, old(sap.Items), sap.Items);
        }
      }
    }
  }

  /** The loop of lines 27-57 over the entities, from the first to the last. */
  method Run(world: seq<Entity>, sap: BroadphaseSAP, sin: real -> real, cos: real -> real,
             ghost snaps: seq<Snap>, ghost lists: seq<seq<int>>, ghost boxes: seq<AABB>)
    returns (ghost lists': seq<seq<int>>, ghost boxes': seq<AABB>)
    requires Progress(world, sap, snaps, lists, boxes, 0) && forall q :: 0 <= q < |world| ==> snaps[q] == SnapOf(world[q], sin, cos)
    modifies sap`Items, sap`View, sap.Items.Values`Items, sap.Items.Values`Length, sap.Items.Values`IsDirty
    modifies Members(world)`BpRef
    ensures Progress(world, sap, snaps, lists', boxes', |world|) && Kept(old(sap.Items), sap.Items)
  {
    lists', boxes' := lists, boxes;
    ghost var items0 := sap.Items;
    var i := 0;
    while i < |world|
      invariant Progress(world, sap, snaps, lists', boxes', i) && Kept(items0, sap.Items)
      invariant forall c :: c in sap.Items.Values ==> c in items0.Values || fresh(c)
    {
      assert snaps[i] == old(SnapOf(world[i], sin, cos)) && world[i] in Members(world);
      lists', boxes' := Visit(world, i, sap, sin, cos, snaps, lists', boxes');
      i := i + 1;
    }
  }

  /**
   * BroadphaseInitSystem.Update: every entity the filter selects is
   * registered with the box of its components; the others keep their
   * (absent or existing) component; every chunk keeps its key; and the
   * registration invariant holds again at the end.
   */
  method Update(world: seq<Entity>, sap: BroadphaseSAP, sin: real -> real, cos: real -> real)
    requires Consistent(sap, world) && Room(sap.View, |world|)
    modifies sap`Items, sap`View, sap.Items.Values`Items, sap.Items.Values`Length, sap.Items.Values`IsDirty
    modifies Members(world)`BpRef
    ensures Consistent(sap, world) && Kept(old(sap.Items), sap.Items)
    ensures forall q :: 0 <= q < |world| && old(Eligible(world[q])) ==>
      (Registered(world[q], old(BoxOf(world[q].Translation, world[q].Rotation, world[q].Collider, sin, cos)), sap.Items) &&
       forall j :: 0 <= j < |world[q].BpRef.Items| ==> world[q].BpRef.Items[j].IsDirty)
    ensures forall q :: 0 <= q < |world| && !old(Eligible(world[q])) ==> world[q].BpRef == old(world[q].BpRef)
  {
    ghost var snaps := SnapsOf(world, sin, cos);
    Started(world, sap, snaps);
    ghost var lists, boxes := Run(world, sap, sin, cos, snaps, KeyLists(world), RefBoxes(world));
    Finished(world, sap, snaps, lists, boxes);
  }

  /** Before the loop, the registration invariant is the loop's invariant with nothing done. */
  lemma Started(world: seq<Entity>, sap: BroadphaseSAP, snaps: seq<Snap>)
    requires Consistent(sap, world) && Room(sap.View, |world|)
    requires |snaps| == |world| && forall q :: 0 <= q < |world| ==> snaps[q].Ref == world[q].BpRef
    ensures Progress(world, sap, snaps, KeyLists(world), RefBoxes(world), 0)
  {
  }

  /** After the loop, the lists and boxes are those of the components and the registration invariant holds. */
  lemma Finished(world: seq<Entity>, sap: BroadphaseSAP, snaps: seq<Snap>, lists: seq<seq<int>>, boxes: seq<AABB>)
    requires Progress(world, sap, snaps, lists, boxes, |world|)
    ensures Consistent(sap, world)
    ensures forall q :: 0 <= q < |world| && snaps[q].Selected ==>
      (Registered(world[q], snaps[q].Box, sap.Items) && forall j :: 0 <= j < |world[q].BpRef.Items| ==> world[q].BpRef.Items[j].IsDirty)
    ensures forall q :: 0 <= q < |world| && !snaps[q].Selected ==> world[q].BpRef == snaps[q].Ref
  {
    assert KeyLists(world) == lists && RefBoxes(world) == boxes;
    forall q | 0 <= q < |world| && snaps[q].Selected
      ensures forall j :: 0 <= j < |world[q].BpRef.Items| ==> world[q].BpRef.Items[j].IsDirty
    {
      assert Settled(world[q], snaps[q], lists[q], boxes[q], true, sap.Items);
      DirtyChunks(sap, world[q].BpRef.Items, lists[q]);
    }
  }
}
