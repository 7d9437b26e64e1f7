/**
 * BroadphaseInitSystem of the Physics revision
 * (Assets/Physics/BroadphaseInitSystem.cs): every entity with a transform, a
 * collider and a body but no BroadphaseRefComponent gets its box, the chunks
 * of the cells the box covers (created on demand), a BroadphaseRefComponent,
 * and one record in each of those chunks.
 *
 * The world is the sequence of its entities. The filter result is taken
 * before anything changes (`ToList`); since registering one entity changes
 * only that entity, testing the filter when the loop reaches an entity gives
 * the same list. `math.sincos` is the pair of parameters `sin` and `cos`.
 */
module PhysicsInit {
  import opened MathHelper
  import opened Aabb
  import opened Grid
  import opened BroadphasePair
  import opened PhysicsEcs
  import opened PhysicsHelper
  import opened PhysicsWorld
  import opened CollisionMatrix

  /** The entity filter: transform, collider and body present, no BroadphaseRefComponent yet. */
  predicate Eligible(e: Entity)
    reads e
  {
    e.Transform != null && e.Collider != null && e.RigBody != null && e.BpRef == null
  }

  /** The box of a body: the collider's size at the transform's position, rotated only for a rectangle. */
  function BoxOf(t: TransformComponent, c: ColliderComponent, sin: real -> real, cos: real -> real): AABB
    reads t, c
  {
    var rotation := if c.Type == ColliderType.Rect then t.Rotation else 0.0;
    FromSize(c.Size(), t.Position, sin(rotation), cos(rotation))
  }

  /** A body without inverse mass does not move. */
  predicate IsStaticBody(e: Entity)
    reads e, e.RigBody
    requires e.RigBody != null
  {
    Equal(e.RigBody.InvMass, 0.0)
  }

  /** The record a body gets in each of its chunks. */
  function RecordOf(e: Entity, layer: Mask, isStatic: bool, bpRef: BroadphaseRef): (r: Record)
    ensures WellFormed(r) && !Dead(r) <==> IsUInt(e.Id) && e.Id != UIntMax
    ensures r.Entity == e && r.Id == e.Id && r.Box == bpRef
  {
    Record(e, e.Id, layer, isStatic, bpRef)
  }

  /**
   * The entity is registered with `box`: its component holds the box, the chunk
   * hash of the box's cells, and the chunks of those cells in key order (under
   * `Consistent` these are the singleton's chunks of those keys, see
   * `RegisteredChunks`).
   */
  ghost predicate Registered(e: Entity, box: AABB)
    reads e, e.BpRef
  {
    e.BpRef != null && Describes(box, e.BpRef.Chunks, e.BpRef.ChunksHash, e.BpRef.AABB)
  }

  /** The chunk list, chunk hash and box a component must hold for `box`. */
  predicate Describes(box: AABB, chunks: seq<SAPChunk?>, hash: bv32, value: AABB)
  {
    var keys := Keys(CellsOf(box));
    value == box && hash == ChunksHash(keys) && Listed(chunks, keys)
  }

  /** The list holds, slot by slot, a chunk with the id of each key. */
  predicate Listed(chunks: seq<SAPChunk?>, keys: seq<int>)
  {
    |chunks| == |keys| && forall j :: 0 <= j < |keys| ==> chunks[j] != null && chunks[j].Id == keys[j]
  }

  /** Under the registration invariant, a registered entity's chunks are the singleton's chunks of its cells. */
  lemma RegisteredChunks(sap: BroadphaseSAP, world: seq<Entity>, p: int, box: AABB)
    requires Consistent(sap, world) && 0 <= p < |world| && Registered(world[p], box)
    ensures var keys := Keys(CellsOf(box));
      forall j :: 0 <= j < |keys| ==> keys[j] in sap.Chunks && world[p].BpRef.Chunks[j] == sap.Chunks[keys[j]]
  {
    assert ListOk(sap.Chunks, Lists(world)[p]);
  }

  /**
   * Under the registration invariant, a registered entity has exactly one
   * record in each chunk of its cells, and every record of its id names it
   * and points at its component, whose box is `box`: what the pair system
   * reads of it is its box.
   */
  lemma RegisteredRecords(sap: BroadphaseSAP, world: seq<Entity>, p: int, box: AABB)
    requires Consistent(sap, world) && 0 <= p < |world| && Registered(world[p], box)
    ensures var keys := Keys(CellsOf(box));
      forall j :: 0 <= j < |keys| ==> keys[j] in sap.Contents && CountId(sap.Contents[keys[j]], world[p].Id) == 1
    ensures forall k, x :: k in sap.Contents && x in sap.Contents[k] && x.Id == world[p].Id ==>
      x.Entity == world[p] && x.Box == world[p].BpRef && x.Box.AABB == box
  {
    RegisteredChunks(sap, world, p, box);
    var keys := Keys(CellsOf(box));
    forall j | 0 <= j < |keys|
      ensures keys[j] in sap.Contents && CountId(sap.Contents[keys[j]], world[p].Id) == 1
    {
      assert Lists(world)[p][j] == sap.Chunks[keys[j]];
      assert Ids(world)[p] == world[p].Id;
    }
    assert BpRefs(world)[p] == world[p].BpRef;
  }

  /** The components other than the BroadphaseRefComponent are those of before. */
  twostate predicate SameComponents(e: Entity)
    reads e
  {
    e.Transform == old(e.Transform) && e.Collider == old(e.Collider) &&
    e.RigBody == old(e.RigBody) && e.RigBodyStatic == old(e.RigBodyStatic)
  }

  /**
   * Lines 52-67: the record is appended to the chunk of every key, in key
   * order, which is the view `Appended` describes.
   */
  method AddRecords(sap: BroadphaseSAP, keys: seq<int>, chunks: seq<SAPChunk>, r: Record, n: int)
    requires sap.Valid() && sap.Mirrors() && Room(sap, n) && n >= 1 && WellFormed(r) && !Dead(r)
    requires |chunks| == |keys| && forall i :: 0 <= i < |keys| ==> keys[i] in sap.Chunks && chunks[i] == sap.Chunks[keys[i]]
    requires forall i, j :: 0 <= i < j < |keys| ==> keys[i] != keys[j]
    modifies sap`Contents, sap.Chunks.Values
    ensures sap.Valid() && sap.Mirrors() && Room(sap, n - 1)
    ensures sap.Contents == Appended(old(sap.Contents), keys, r)
  {
    var j := 0;
    while j < |keys|
      invariant 0 <= j <= |keys| && sap.Valid() && sap.Mirrors()
      invariant sap.Contents == Appended(old(sap.Contents), keys[..j], r)
    {
      AddRecordAt(sap, keys, chunks, r, n, j, old(sap.Contents));
      j := j + 1;
    }
    assert keys[..j] == keys;
    forall k | k in sap.Contents
      ensures |sap.Contents[k]| + n - 1 < IntMax
    {
      AppendedAt(old(sap.Contents), keys, r, k);
    }
  }

  /** One turn of the append loop: the record goes to the chunk of the next key. */
  method AddRecordAt(sap: BroadphaseSAP, keys: seq<int>, chunks: seq<SAPChunk>, r: Record, n: int, j: int,
                     ghost start: map<int, seq<Record>>)
    requires sap.Valid() && sap.Mirrors() && WellFormed(r) && !Dead(r) && 0 <= j < |keys|
    requires 1 <= n < IntMax && forall k :: k in start ==> |start[k]| + n < IntMax
    requires |chunks| == |keys| && keys[j] in sap.Chunks && chunks[j] == sap.Chunks[keys[j]]
    requires forall i, i' :: 0 <= i < i' < |keys| ==> keys[i] != keys[i']
    requires sap.Contents == Appended(start, keys[..j], r)
    modifies sap`Contents, chunks[j]
    ensures sap.Valid() && sap.Mirrors()
    ensures sap.Contents == Appended(start, keys[..j + 1], r)
  {
    var key := keys[j];
    AppendedStep(start, keys, j, r);
    assert key !in keys[..j];
    AppendedAt(start, keys[..j], r, key);
    assert chunks[j].Id == key;
    Append(sap, chunks[j], r);
  }

  /**
   * Lines 44-67: the component is created and attached, and the entity's record,
   * which shares the component's box, is appended to each chunk.
   */
  method Attach(e: Entity, sap: BroadphaseSAP, n: int, keys: seq<int>, chunks: seq<SAPChunk>,
                box: AABB, hash: bv32, layer: Mask, isStatic: bool) returns (r: Record)
    requires e.BpRef == null && IsUInt(e.Id) && e.Id != UIntMax
    requires sap.Valid() && sap.Mirrors() && Room(sap, n) && n >= 1
    requires |chunks| == |keys| && forall i :: 0 <= i < |keys| ==> keys[i] in sap.Chunks && chunks[i] == sap.Chunks[keys[i]]
    requires forall i, j :: 0 <= i < j < |keys| ==> keys[i] != keys[j]
    modifies sap`Contents, sap.Chunks.Values, e
    ensures sap.Valid() && sap.Mirrors() && Room(sap, n - 1) && SameComponents(e)
    ensures e.BpRef != null && fresh(e.BpRef)
    ensures e.BpRef.Chunks == chunks && e.BpRef.AABB == box && e.BpRef.ChunksHash == hash
    ensures r == RecordOf(e, layer, isStatic, e.BpRef)
    ensures sap.Contents == Appended(old(sap.Contents), keys, r)
  {
    var bpRef := new BroadphaseRef(chunks, hash, box);
    e.BpRef := bpRef;
    r := RecordOf(e, layer, isStatic, bpRef);
    AddRecords(sap, keys, chunks, r, n);
  }

  /**
   * Lines 38-71 for one entity, once its box, chunk keys and hash are known:
   * the chunks are looked up or created (the views `mid`), then the component
   * is attached and the record appended to each chunk.
   */
  method Register(e: Entity, sap: BroadphaseSAP, n: int,
                  box: AABB, keys: seq<int>, hash: bv32, layer: Mask, isStatic: bool)
    returns (r: Record, ghost mid: map<int, seq<Record>>)
    requires e.BpRef == null && IsUInt(e.Id) && e.Id != UIntMax
    requires forall i, j :: 0 <= i < j < |keys| ==> keys[i] != keys[j]
    requires sap.Valid() && sap.Mirrors() && Room(sap, n) && n >= 1
    modifies sap, sap.Chunks.Values, e
    ensures sap.Valid() && sap.Mirrors() && Room(sap, n - 1) && Grown(sap) && SameComponents(e)
    ensures forall c :: c in sap.Chunks.Values ==> c in old(sap.Chunks.Values) || fresh(c)
    ensures e.BpRef != null && fresh(e.BpRef)
    ensures e.BpRef.AABB == box && e.BpRef.ChunksHash == hash && |e.BpRef.Chunks| == |keys|
    ensures forall j :: 0 <= j < |keys| ==> keys[j] in sap.Chunks && e.BpRef.Chunks[j] == sap.Chunks[keys[j]]
    ensures r == RecordOf(e, layer, isStatic, e.BpRef)
    ensures mid.Keys == sap.Chunks.Keys
    ensures forall k :: k in old(sap.Chunks) ==> mid[k] == old(sap.Contents[k])
    ensures forall k :: k in sap.Chunks && k !in old(sap.Chunks) ==> mid[k] == []
    ensures sap.Contents == Appended(mid, keys, r)
  {
    var chunks := ChunksFor(keys, sap);
    mid := sap.Contents;
    r := Attach(e, sap, n, keys, chunks, box, hash, layer, isStatic);
  }

  /**
   * One pass of the loop body (lines 28-71) for an entity the filter selected,
   * once its box is known: afterwards it is registered with that box, and each
   * of its chunks gained its record.
   */
  method Insert(e: Entity, sap: BroadphaseSAP, n: int, box: AABB)
    returns (ghost keys: seq<int>, ghost r: Record, ghost mid: map<int, seq<Record>>)
    requires Eligible(e) && IsUInt(e.Id) && e.Id != UIntMax
    requires sap.Valid() && sap.Mirrors() && Room(sap, n) && n >= 1
    modifies sap, sap.Chunks.Values, e
    ensures sap.Valid() && sap.Mirrors() && Room(sap, n - 1) && Grown(sap) && SameComponents(e)
    ensures forall c :: c in sap.Chunks.Values ==> c in old(sap.Chunks.Values) || fresh(c)
    ensures Registered(e, box) && fresh(e.BpRef)
    ensures keys == Keys(CellsOf(box)) && forall i, j :: 0 <= i < j < |keys| ==> keys[i] != keys[j]
    ensures forall j :: 0 <= j < |keys| ==> keys[j] in sap.Chunks && e.BpRef.Chunks[j] == sap.Chunks[keys[j]]
    ensures r == RecordOf(e, old(e.Collider.Layer), old(IsStaticBody(e)), e.BpRef)
    ensures mid.Keys == sap.Chunks.Keys
    ensures forall k :: k in old(sap.Chunks) ==> mid[k] == old(sap.Contents[k])
    ensures forall k :: k in sap.Chunks && k !in old(sap.Chunks) ==> mid[k] == []
    ensures sap.Contents == Appended(mid, keys, r)
  {
    var isStatic := Equal(e.RigBody.InvMass, 0.0);
    var layer := e.Collider.Layer;
    var ids := GetChunkIds(box);
    var hash := ChunksHashOf(box);
    keys := ids;
    r, mid := Register(e, sap, n, box, ids, hash, layer, isStatic);
  }

  /** What Update needs to remember of an entity as it was before the loop. */
  datatype Snap = Snap(Box: AABB, Ref: BroadphaseRef?, Transform: TransformComponent?,
                       Collider: ColliderComponent?, RigBody: RigBodyComponent?, RigBodyStatic: bool)
  {
    /** The filter, on the remembered components. */
    predicate Selected()
    {
      Transform != null && Collider != null && RigBody != null && Ref == null
    }
  }

  ghost function SnapOf(e: Entity, sin: real -> real, cos: real -> real): (s: Snap)
    reads e, e.Transform, e.Collider
    ensures s.Selected() == Eligible(e) && s.Ref == e.BpRef && s.Transform == e.Transform && s.Collider == e.Collider
    ensures s.RigBody == e.RigBody && s.RigBodyStatic == e.RigBodyStatic
    ensures e.Transform != null && e.Collider != null ==> s.Box == BoxOf(e.Transform, e.Collider, sin, cos)
  {
    var box := if e.Transform != null && e.Collider != null then BoxOf(e.Transform, e.Collider, sin, cos) else AABB(Zero, Zero);
    Snap(box, e.BpRef, e.Transform, e.Collider, e.RigBody, e.RigBodyStatic)
  }

  /** The transforms and colliders of the entities. */
  ghost function Parts(world: seq<Entity>): set<object>
    reads Members(world)
  {
    (set q | 0 <= q < |world| && world[q].Transform != null :: world[q].Transform as object) +
    (set q | 0 <= q < |world| && world[q].Collider != null :: world[q].Collider as object)
  }

  ghost function SnapsOf(world: seq<Entity>, sin: real -> real, cos: real -> real): (snaps: seq<Snap>)
    reads Members(world), Parts(world)
    ensures |snaps| == |world| && forall q :: 0 <= q < |world| ==> snaps[q] == SnapOf(world[q], sin, cos)
  {
    seq(|world|, q requires 0 <= q < |world| reads Members(world), Parts(world) => SnapOf(world[q], sin, cos))
  }

  /**
   * An entity against its snapshot, once the loop has or has not reached it:
   * its other components are those of the snapshot, its list is `list`, and
   * it is registered with the snapshot's box if the filter selected it and the
   * loop is past it; otherwise its component is that of the snapshot.
   */
  ghost predicate Kept(e: Entity, s: Snap, list: seq<SAPChunk?>, ref: BroadphaseRef?, done: bool)
    reads e, e.BpRef
  {
    e.Transform == s.Transform && e.Collider == s.Collider && e.RigBody == s.RigBody &&
    e.RigBodyStatic == s.RigBodyStatic && ListOf(e) == list && e.BpRef == ref &&
    if done && s.Selected() then Registered(e, s.Box) else e.BpRef == s.Ref
  }

  /** The state of Update's loop after `i` entities. */
  ghost predicate Progress(world: seq<Entity>, sap: BroadphaseSAP, snaps: seq<Snap>, lists: seq<seq<SAPChunk?>>,
                           refs: seq<BroadphaseRef?>, i: int)
    reads sap, sap.Chunks.Values, Members(world), Refs(world)
  {
    DistinctIds(world) && 0 <= i <= |world| && |snaps| == |lists| == |refs| == |world| &&
    sap.Valid() && sap.Mirrors() && Room(sap, |world| - i) &&
    Registry(sap.Chunks, sap.Contents, Ids(world), lists) && Owned(sap.Contents, world, refs) &&
    forall q :: 0 <= q < |world| ==> Kept(world[q], snaps[q], lists[q], refs[q], q < i)
  }

  /**
   * The filter applied to the entity at `i` and, when it passes, the loop
   * body (lines 28-71): one more entity is done.
   */
  method Visit(world: seq<Entity>, i: int, sap: BroadphaseSAP, sin: real -> real, cos: real -> real,
               ghost snaps: seq<Snap>, ghost lists: seq<seq<SAPChunk?>>, ghost refs: seq<BroadphaseRef?>)
    returns (ghost lists': seq<seq<SAPChunk?>>, ghost refs': seq<BroadphaseRef?>)
    requires Progress(world, sap, snaps, lists, refs, i) && i < |world|
    requires snaps[i].Selected() ==> snaps[i].Box == BoxOf(snaps[i].Transform, snaps[i].Collider, sin, cos)
    modifies sap, sap.Chunks.Values, world[i]
    ensures Progress(world, sap, snaps, lists', refs', i + 1) && Grown(sap)
    ensures forall c :: c in sap.Chunks.Values ==> c in old(sap.Chunks.Values) || fresh(c)
  {
    lists', refs' := lists, refs;
    assert Kept(world[i], snaps[i], lists[i], refs[i], false);
    if Eligible(world[i]) {
      lists' := Enroll(world, i, sap, sin, cos, lists, refs, snaps[i].Box);
      refs' := refs[i := world[i].BpRef];
      forall q | 0 <= q < |world| && q != i
        ensures Kept(world[q], snaps[q], lists'[q], refs'[q], q < i + 1)
      {
        var e := world[q];
        assert e.Id != world[i].Id;
        assert e.BpRef == old(e.BpRef) && e.Transform == old(e.Transform) && e.Collider == old(e.Collider);
        assert e.RigBody == old(e.RigBody) && e.RigBodyStatic == old(e.RigBodyStatic);
        if e.BpRef != null {
          assert e.BpRef.Chunks == old(e.BpRef.Chunks) && e.BpRef.ChunksHash == old(e.BpRef.ChunksHash);
          assert e.BpRef.AABB == old(e.BpRef.AABB);
        }
        assert old(Kept(e, snaps[q], lists[q], refs[q], q < i));
      }
    }
  }

  /** The loop body for an entity the filter selected, with the registration invariant carried over. */
  method Enroll(world: seq<Entity>, i: int, sap: BroadphaseSAP, sin: real -> real, cos: real -> real,
                ghost lists: seq<seq<SAPChunk?>>, ghost refs: seq<BroadphaseRef?>, ghost box: AABB)
    returns (ghost lists': seq<seq<SAPChunk?>>)
    requires 0 <= i < |world| && DistinctIds(world) && Eligible(world[i]) && |lists| == |world|
    requires box == BoxOf(world[i].Transform, world[i].Collider, sin, cos)
    requires sap.Valid() && sap.Mirrors() && Room(sap, |world| - i) && Registry(sap.Chunks, sap.Contents, Ids(world), lists)
    requires lists[i] == [] && Owned(sap.Contents, world, refs)
    modifies sap, sap.Chunks.Values, world[i]
    ensures sap.Valid() && sap.Mirrors() && Room(sap, |world| - i - 1) && Grown(sap) && SameComponents(world[i])
    ensures forall c :: c in sap.Chunks.Values ==> c in old(sap.Chunks.Values) || fresh(c)
    ensures Registry(sap.Chunks, sap.Contents, Ids(world), lists') && lists' == lists[i := ListOf(world[i])]
    ensures Registered(world[i], box) && fresh(world[i].BpRef)
    ensures Owned(sap.Contents, world, refs[i := world[i].BpRef])
  {
    ghost var chunks0, contents0 := sap.Chunks, sap.Contents;
    var aabb := BoxOf(world[i].Transform, world[i].Collider, sin, cos);
    var keys, r, mid := Insert(world[i], sap, |world| - i, aabb);
    Extended(chunks0, contents0, Ids(world), lists, sap.Chunks, mid);
    Enrolled(sap.Chunks, mid, Ids(world), lists, i, keys, world[i].BpRef.Chunks, r);
    lists' := lists[i := world[i].BpRef.Chunks];
    Adopted(contents0, mid, world, refs, lists, keys, i, world[i].BpRef, r, sap.Chunks);
  }

  /**
   * The records an entity without a list gets, appended to the chunks of its
   * keys (created empty where missing), keep every record its entity's.
   */
  lemma Adopted(contents: map<int, seq<Record>>, mid: map<int, seq<Record>>, world: seq<Entity>, refs: seq<BroadphaseRef?>,
                lists: seq<seq<SAPChunk?>>, keys: seq<int>, p: int, ref: BroadphaseRef?, r: Record, chunks: map<int, SAPChunk>)
    requires Owned(contents, world, refs) && DistinctIds(world) && 0 <= p < |world| == |lists| && lists[p] == []
    requires Registry(chunks, mid, Ids(world), lists) && mid.Keys == chunks.Keys
    requires forall k :: k in mid ==> (k in contents && mid[k] == contents[k]) || mid[k] == []
    requires r.Id == world[p].Id && r.Entity == world[p] && r.Box == ref
    ensures Owned(Appended(mid, keys, r), world, refs[p := ref])
  {
    assert Owned(mid, world, refs) by {
      forall k, q, x: Record | k in mid && 0 <= q < |world| && x in mid[k] && x.Id == world[q].Id
        ensures x.Entity == world[q] && x.Box == refs[q]
      {
        assert k in contents && x in contents[k];
      }
    }
    forall k | k in mid
      ensures CountId(mid[k], r.Id) == 0
    {
      assert Ids(world)[p] == r.Id;
    }
    OwnedAppended(mid, world, refs, keys, p, ref, r);
  }

  /**
   * BroadphaseInitSystem.Update: every entity the filter selects is registered
   * with the box of its components; the others keep their (absent or existing)
   * component, no other component changes, and the registration invariant
   * holds again at the end.
   */
  method Update(world: seq<Entity>, sap: BroadphaseSAP, sin: real -> real, cos: real -> real)
    requires DistinctIds(world) && Consistent(sap, world) && Room(sap, |world|)
    modifies sap, sap.Chunks.Values, Members(world)
    ensures Consistent(sap, world) && Grown(sap)
    ensures forall q :: 0 <= q < |world| ==> SameComponents(world[q])
    ensures forall q :: 0 <= q < |world| && old(Eligible(world[q])) ==>
      Registered(world[q], old(BoxOf(world[q].Transform, world[q].Collider, sin, cos)))
    ensures forall q :: 0 <= q < |world| && !old(Eligible(world[q])) ==> world[q].BpRef == old(world[q].BpRef)
  {
    ghost var snaps := SnapsOf(world, sin, cos);
    ghost var lists, refs := Lists(world), BpRefs(world);
    var i := 0;
    while i < |world|
      invariant Progress(world, sap, snaps, lists, refs, i) && Grown(sap)
      invariant forall c :: c in sap.Chunks.Values ==> c in old(sap.Chunks.Values) || fresh(c)
    {
      assert snaps[i] == old(SnapOf(world[i], sin, cos));
      lists, refs := Visit(world, i, sap, sin, cos, snaps, lists, refs);
      i := i + 1;
    }
    assert Lists(world) == lists && BpRefs(world) == refs;
  }
}
