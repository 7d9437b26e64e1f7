/**
 * The entities, components and broadphase state of the Models revision
 * (Assets/Models/Components.cs).
 *
 * Unlike the Physics revision, a chunk record holds its body's AABB by value
 * and a chunk has no id and no bookkeeping counters; instead it carries the
 * flag `NeedRebuild`, set when a record is turned into a tombstone. The
 * collider kinds, the inverse-mass rule and the rectangle's corners and
 * normals are the same in both revisions and are taken from PhysicsEcs.
 */
module ModelsEcs {
  import opened MathHelper
  import opened Aabb
  import opened Grid
  import opened BroadphasePair
  import PhysicsEcs

  class TranslationComponent {
    var Value: Float2

    constructor ()
      ensures Value == Zero
    {
      Value := Zero;
    }
  }

  class RotationComponent {
    var Value: real

    constructor ()
      ensures Value == 0.0
    {
      Value := 0.0;
    }
  }

  /** The velocity after ApplyForce(f): `v + f * invMass`. */
  function Pushed(v: Float2, f: Float2, invMass: real): (w: Float2)
    ensures invMass == 0.0 ==> w == v
  {
    Add(v, Scale(f, invMass))
  }

  class RigBodyComponent {
    var Velocity: Float2
    var AngularVelocity: real
    var Mass: real
    var InvMass: real
    var Inertia: real
    var InvInertia: real

    /**
     * A fresh body: mass and inertia 1 but inverses 0.1, so each pair agrees
     * only once its setter has run.
     */
    constructor ()
      ensures Velocity == Zero && AngularVelocity == 0.0
      ensures Mass == 1.0 && InvMass == 0.1 && Inertia == 1.0 && InvInertia == 0.1
      ensures InvMass != PhysicsEcs.InverseOrZero(Mass) && InvInertia != PhysicsEcs.InverseOrZero(Inertia)
    {
      Velocity, AngularVelocity := Zero, 0.0;
      Mass, InvMass, Inertia, InvInertia := 1.0, 0.1, 1.0, 0.1;
    }

    /** The Mass setter: InvMass follows, 0 for a mass within EPSILON of 0. */
    method SetMass(m: real)
      modifies this`Mass, this`InvMass
      ensures Mass == m && InvMass == PhysicsEcs.InverseOrZero(m)
    {
      Mass := m;
      InvMass := if !Equal(Mass, 0.0) then 1.0 / Mass else 0.0;
    }

    /** The Inertia setter: InvInertia follows, 0 for an inertia within EPSILON of 0. */
    method SetInertia(i: real)
      modifies this`Inertia, this`InvInertia
      ensures Inertia == i && InvInertia == PhysicsEcs.InverseOrZero(i)
    {
      Inertia := i;
      InvInertia := if !Equal(Inertia, 0.0) then 1.0 / Inertia else 0.0;
    }

    /** ApplyForce(f): the velocity gains `f * InvMass`. */
    method ApplyForce(f: Float2)
      modifies this`Velocity
      ensures Velocity == Pushed(old(Velocity), f, InvMass)
    {
      Velocity := Add(Velocity, Scale(f, InvMass));
    }
  }

  /**
   * Once Mass has been set to m, a force changes the velocity by f / m, and
   * not at all when m is within EPSILON of 0: such a body does not move.
   */
  lemma PushedByMass(v: Float2, f: Float2, m: real)
    ensures !Equal(m, 0.0) ==> Pushed(v, f, PhysicsEcs.InverseOrZero(m)) == Float2(v.x + f.x / m, v.y + f.y / m)
    ensures Equal(m, 0.0) ==> Pushed(v, f, PhysicsEcs.InverseOrZero(m)) == v
  {
  }

  /** Two forces applied in turn act as their sum. */
  lemma PushedAdditive(v: Float2, f: Float2, g: Float2, invMass: real)
    ensures Pushed(Pushed(v, f, invMass), g, invMass) == Pushed(v, Add(f, g), invMass)
    ensures Pushed(Pushed(v, f, invMass), g, invMass) == Pushed(Pushed(v, g, invMass), f, invMass)
  {
  }

  /**
   * The eight-scalar constructor of float2x4 takes its arguments row by row:
   * the first four are the x components of the columns, the last four their
   * y components.
   */
  function RowMajor(x0: real, x1: real, x2: real, x3: real, y0: real, y1: real, y2: real, y3: real): (m: Float2x4)
    ensures m.c0 == Float2(x0, y0) && m.c1 == Float2(x1, y1) && m.c2 == Float2(x2, y2) && m.c3 == Float2(x3, y3)
  {
    Float2x4(Float2(x0, y0), Float2(x1, y1), Float2(x2, y2), Float2(x3, y3))
  }

  /**
   * A collider: the abstract ColliderComponent with its two subclasses.
   * `Vertices` and `Normals` belong to the rectangle (a circle keeps them
   * zero), `Radius` to the circle; `Size` is the rectangle's half-size or
   * (Radius, Radius).
   */
  class ColliderComponent {
    const Type: PhysicsEcs.ColliderType
    const Size: Float2
    const Radius: real
    var Layer: int
    var Vertices: Float2x4
    var Normals: Float2x4

    /** `new RectColliderComponent(size)`: the corners of the rectangle and its outward normals. */
    constructor Rect(size: Float2)
      ensures Type == PhysicsEcs.ColliderType.Rect && Size == size && Layer == 0
      ensures Vertices == PhysicsEcs.RectVertices(size.x, size.y) && Normals == PhysicsEcs.RectNormals
    {
      Type, Size, Radius, Layer := PhysicsEcs.ColliderType.Rect, size, 0.0, 0;
      var w := size.x;
      var h := size.y;
      Vertices := RowMajor(-w, w, w, -w, -h, -h, h, h);
      Normals := RowMajor(0.0, 1.0, 0.0, -1.0, -1.0, 0.0, 1.0, 0.0);
    }

    /** `new CircleColliderComponent(r)`: its size is the radius on both axes. */
    constructor Circle(r: real)
      ensures Type == PhysicsEcs.ColliderType.Circle && Radius == r && Size == Float2(r, r) && Layer == 0
    {
      Type, Size, Radius, Layer := PhysicsEcs.ColliderType.Circle, Float2(r, r), r, 0;
      Vertices := Float2x4(Zero, Zero, Zero, Zero);
      Normals := Float2x4(Zero, Zero, Zero, Zero);
    }
  }

  class Entity {
    const Id: nat
    var Translation: TranslationComponent?
    var Rotation: RotationComponent?
    var Collider: ColliderComponent?
    var RigBody: RigBodyComponent?
    /** The RigBodyStaticComponent tag. */
    var RigBodyStatic: bool
    var BpRef: BroadphaseRef?

    constructor (id: nat)
      ensures Id == id && Translation == null && Rotation == null && Collider == null && RigBody == null
      ensures !RigBodyStatic && BpRef == null
    {
      Id := id;
      Translation, Rotation, Collider, RigBody, RigBodyStatic, BpRef := null, null, null, null, false, null;
    }
  }

  /**
   * BroadphaseRefComponent: the chunks an entity is registered in. `Keys` is
   * a ghost record of the cell keys those chunks are stored under, and `Box`
   * of the box the entity was last registered with.
   */
  class BroadphaseRef {
    var Items: seq<SAPChunk?>
    ghost var Keys: seq<int>
    ghost var Box: AABB

    constructor (items: seq<SAPChunk?>, ghost keys: seq<int>, ghost box: AABB)
      ensures Items == items && Keys == keys && Box == box
    {
      Items, Keys, Box := items, keys, box;
    }
  }

  /** BroadphaseAABB: one body in one chunk, with a copy of its AABB. Id `uint.MaxValue` marks a tombstone. */
  datatype Record = Record(Id: int, Layer: int, IsStatic: bool, Box: AABB)

  /** The default value of the struct, found in array slots never written. */
  const EmptyRecord: Record := Record(0, 0, false, AABB(Zero, Zero))

  predicate Dead(r: Record)
  {
    r.Id == UIntMax
  }

  /** The deletion the update system performs: only the id changes, to `uint.MaxValue`. */
  function Tombstone(r: Record): (t: Record)
    ensures Dead(t) && t.Layer == r.Layer && t.IsStatic == r.IsStatic && t.Box == r.Box
  {
    r.(Id := UIntMax)
  }

  /** The live records in order: what compaction keeps. */
  function LiveOnly(s: seq<Record>): (t: seq<Record>)
    ensures |t| <= |s|
  {
    if s == [] then []
    else LiveOnly(s[..|s| - 1]) + (if Dead(s[|s| - 1]) then [] else [s[|s| - 1]])
  }

  /** Number of records with the given id. */
  function CountId(s: seq<Record>, id: int): (n: nat)
    ensures n <= |s|
  {
    if s == [] then 0
    else CountId(s[..|s| - 1], id) + (if s[|s| - 1].Id == id then 1 else 0)
  }

  /** Index of the first tombstone, or `int.MaxValue` when there is none: what the scan of BuildChunks finds. */
  function FirstDead(s: seq<Record>): (f: int)
    requires |s| <= Int32Max
    ensures f == Int32Max || 0 <= f < |s|
    ensures f == Int32Max <==> forall i :: 0 <= i < |s| ==> !Dead(s[i])
    ensures f != Int32Max ==> Dead(s[f]) && forall i :: 0 <= i < f ==> !Dead(s[i])
  {
    if s == [] then Int32Max
    else
      var f := FirstDead(s[..|s| - 1]);
      if f != Int32Max then f
      else if Dead(s[|s| - 1]) then |s| - 1
      else Int32Max
  }

  /** Index of the first record with the id, or -1. */
  function FindIndex(s: seq<Record>, id: int): (i: int)
    ensures -1 <= i < |s|
    ensures i == -1 <==> forall j :: 0 <= j < |s| ==> s[j].Id != id
    ensures i >= 0 ==> s[i].Id == id && forall j :: 0 <= j < i ==> s[j].Id != id
  {
    if s == [] then -1
    else
      var i := FindIndex(s[..|s| - 1], id);
      if i >= 0 then i
      else if s[|s| - 1].Id == id then |s| - 1
      else -1
  }

  /** The records after deleting an id: its first record becomes a tombstone; without one, nothing changes. */
  function Unlist(s: seq<Record>, id: int): (t: seq<Record>)
    ensures |t| == |s|
    ensures FindIndex(s, id) < 0 ==> t == s
    ensures FindIndex(s, id) >= 0 ==>
      Dead(t[FindIndex(s, id)]) && forall j :: 0 <= j < |s| && j != FindIndex(s, id) ==> t[j] == s[j]
  {
    var i := FindIndex(s, id);
    if i < 0 then s else s[i := Tombstone(s[i])]
  }

  /** The records after moving a body: its first record gets the new box; without one, nothing changes. */
  function Moved(s: seq<Record>, id: int, box: AABB): (t: seq<Record>)
    ensures |t| == |s|
    ensures FindIndex(s, id) < 0 ==> t == s
    ensures FindIndex(s, id) >= 0 ==>
      t[FindIndex(s, id)] == s[FindIndex(s, id)].(Box := box) && forall j :: 0 <= j < |s| && j != FindIndex(s, id) ==> t[j] == s[j]
  {
    var i := FindIndex(s, id);
    if i < 0 then s else s[i := s[i].(Box := box)]
  }

  lemma LiveOnlyAppend(s: seq<Record>, r: Record)
    ensures LiveOnly(s + [r]) == LiveOnly(s) + (if Dead(r) then [] else [r])
  {
    assert (s + [r])[..|s|] == s;
  }

  /** Compacting one more record of a prefix adds it when it is live. */
  lemma LiveOnlyStep(s: seq<Record>, n: int)
    requires 0 <= n < |s|
    ensures LiveOnly(s[..n + 1]) == LiveOnly(s[..n]) + (if Dead(s[n]) then [] else [s[n]])
  {
    assert s[..n + 1] == s[..n] + [s[n]];
    LiveOnlyAppend(s[..n], s[n]);
  }

  /** Compaction keeps exactly the live records: what it keeps is live and comes from the input, and every live record is kept. */
  lemma {:induction false} LiveOnlyElements(s: seq<Record>)
    ensures forall r :: r in LiveOnly(s) <==> r in s && !Dead(r)
  {
    if s != [] {
      var init, r := s[..|s| - 1], s[|s| - 1];
      assert s == init + [r];
      LiveOnlyElements(init);
    }
  }

  /** A sequence without tombstones is left as it is. */
  lemma {:induction false} LiveOnlyPrefix(s: seq<Record>, n: int)
    requires 0 <= n <= |s| && forall i :: 0 <= i < n ==> !Dead(s[i])
    ensures LiveOnly(s[..n]) == s[..n]
  {
    if n > 0 {
      assert s[..n] == s[..n - 1] + [s[n - 1]];
      LiveOnlyPrefix(s, n - 1);
      LiveOnlyAppend(s[..n - 1], s[n - 1]);
    }
  }

  /** Compaction leaves no tombstone, so compacting again changes nothing. */
  lemma LiveOnlyIdempotent(s: seq<Record>)
    ensures forall i :: 0 <= i < |LiveOnly(s)| ==> !Dead(LiveOnly(s)[i])
    ensures LiveOnly(LiveOnly(s)) == LiveOnly(s)
  {
    var t := LiveOnly(s);
    LiveOnlyElements(s);
    assert forall i :: 0 <= i < |t| ==> t[i] in t;
    LiveOnlyPrefix(t, |t|);
    assert t[..|t|] == t;
  }

  /** Appending a record adds one to the count of its id and leaves every other count alone. */
  lemma CountIdAppend(s: seq<Record>, r: Record, id: int)
    ensures CountId(s + [r], id) == CountId(s, id) + (if r.Id == id then 1 else 0)
  {
    assert (s + [r])[..|s|] == s;
  }

  /** An id no record carries has count zero, and an id some record carries has a positive count. */
  lemma {:induction false} CountIdFound(s: seq<Record>, id: int)
    ensures FindIndex(s, id) >= 0 <==> CountId(s, id) > 0
  {
    if s != [] {
      CountIdFound(s[..|s| - 1], id);
    }
  }

  /** Replacing the record at i changes the count of an id by what the two records contribute. */
  lemma {:induction false} CountIdUpdate(s: seq<Record>, i: int, r: Record, id: int)
    requires 0 <= i < |s|
    ensures CountId(s[i := r], id) == CountId(s, id) - (if s[i].Id == id then 1 else 0) + (if r.Id == id then 1 else 0)
  {
    var last := |s| - 1;
    if i < last {
      CountIdUpdate(s[..last], i, r, id);
      assert s[i := r][..last] == s[..last][i := r];
    } else {
      assert s[i := r][..last] == s[..last];
    }
  }

  /** Deleting an id drops its count by one when it had a record, and keeps the count of every other live id. */
  lemma UnlistCounts(s: seq<Record>, id: int, x: int)
    requires id != UIntMax && x != UIntMax
    ensures CountId(Unlist(s, id), x) == CountId(s, x) - (if x == id && CountId(s, id) > 0 then 1 else 0)
  {
    CountIdFound(s, id);
    var i := FindIndex(s, id);
    if i >= 0 {
      CountIdUpdate(s, i, Tombstone(s[i]), x);
    }
  }

  /** Moving a body changes no count. */
  lemma MovedCounts(s: seq<Record>, id: int, box: AABB, x: int)
    ensures CountId(Moved(s, id, box), x) == CountId(s, x)
  {
    var i := FindIndex(s, id);
    if i >= 0 {
      CountIdUpdate(s, i, s[i].(Box := box), x);
    }
  }

  /** Compaction keeps the count of every live id. */
  lemma {:induction false} LiveOnlyCounts(s: seq<Record>, id: int)
    requires id != UIntMax
    ensures CountId(LiveOnly(s), id) == CountId(s, id)
  {
    if s != [] {
      var init, r := s[..|s| - 1], s[|s| - 1];
      assert s == init + [r];
      LiveOnlyCounts(init, id);
      LiveOnlyAppend(init, r);
      CountIdAppend(init, r, id);
      if !Dead(r) {
        assert LiveOnly(s) == LiveOnly(init) + [r];
        CountIdAppend(LiveOnly(init), r, id);
      } else {
        assert LiveOnly(s) == LiveOnly(init);
      }
    }
  }

  /**
   * A chunk of the broadphase grid. The record and pair arrays are replaced
   * only by Array.Resize, so they are sequence fields whose length is the
   * array's capacity; `Pairs` holds the packed 64-bit pair keys.
   */
  class SAPChunk {
    var Length: int
    var NeedRebuild: bool
    var Items: seq<Record>
    var Pairs: seq<int>
    var PairLength: int
    var SortAxis: int
    var IsDirty: bool

    /** The records in use. */
    ghost function Records(): seq<Record>
      reads this`Items, this`Length
      requires 0 <= Length <= |Items|
    {
      Items[..Length]
    }

    /** The records in use fit the buffer, which is never empty. */
    ghost predicate Valid()
      reads this`Items, this`Length
    {
      0 <= Length <= |Items| && |Items| >= 1 && Length <= Int32Max
    }

    /** What the broadphase systems read and write of a chunk: its records in use and its two flags. */
    ghost function Val(): ChunkVal
      reads this`Items, this`Length, this`NeedRebuild, this`IsDirty
      requires 0 <= Length <= |Items|
    {
      ChunkVal(Items[..Length], NeedRebuild, IsDirty)
    }

    /** `new SAPChunk()`: no record, both arrays of capacity 32, every other field at its default. */
    constructor ()
      ensures Valid() && Length == 0 && !NeedRebuild && !IsDirty
      ensures PairLength == 0 && SortAxis == 0
      ensures |Items| == PhysicsEcs.InitialCapacity && |Pairs| == PhysicsEcs.InitialCapacity
      ensures Val() == Fresh
    {
      Length, NeedRebuild, PairLength, SortAxis, IsDirty := 0, false, 0, 0, false;
      Items := seq(PhysicsEcs.InitialCapacity, _ => EmptyRecord);
      Pairs := seq(PhysicsEcs.InitialCapacity, _ => 0);
    }
  }

  /** A chunk as the broadphase systems see it. */
  datatype ChunkVal = ChunkVal(Records: seq<Record>, NeedRebuild: bool, IsDirty: bool)

  /** A chunk just created. */
  const Fresh: ChunkVal := ChunkVal([], false, false)

  /**
   * BroadphaseSAPComponent: the chunks by cell key and the pairs found this
   * tick. `View` is a ghost copy of what each chunk holds, by key.
   */
  class BroadphaseSAP {
    var Items: map<int, SAPChunk>
    var Pairs: set<int>
    ghost var View: map<int, ChunkVal>

    constructor ()
      ensures Items == map[] && Pairs == {} && View == map[]
    {
      Items, Pairs, View := map[], {}, map[];
    }

    /** Every chunk is valid, and no chunk is stored under two keys. */
    ghost predicate Valid()
      reads this`Items, Items.Values`Items, Items.Values`Length
    {
      (forall k :: k in Items ==> Items[k].Valid()) &&
      forall k, k' :: k in Items && k' in Items && k != k' ==> Items[k] != Items[k']
    }

    /** The ghost view agrees with the chunks: same keys, and each chunk's records and flags. */
    ghost predicate Mirrors()
      reads this`Items, this`View, Items.Values`Items, Items.Values`Length, Items.Values`NeedRebuild, Items.Values`IsDirty
    {
      View.Keys == Items.Keys &&
      forall k :: k in Items ==> 0 <= Items[k].Length <= |Items[k].Items| && Items[k].Val() == View[k]
    }
  }
}
