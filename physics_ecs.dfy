/**
 * The entities, components and broadphase state of the Physics revision
 * (Assets/Physics/Components.cs and Assets/Physics/BroadpaseHelper.cs:9-36).
 *
 * A chunk record points at the AABB stored inside its entity's
 * BroadphaseRefComponent; the model keeps a reference to the component
 * itself, whose field `AABB` is that storage. An entity is an object with an
 * id and nullable component slots; the ECS world that stores them is not part
 * of this model.
 */
module PhysicsEcs {
  import opened MathHelper
  import opened Aabb
  import opened BroadphasePair
  import opened CollisionMatrix

  /** `int.MaxValue`: the FreeIndex of a chunk without tombstones. */
  const IntMax: int := 2147483647

  /** Initial capacity of a chunk's record and pair arrays. */
  const InitialCapacity: nat := 32

  class TransformComponent {
    var Position: Float2
    var Rotation: real

    constructor ()
      ensures Position == Zero && Rotation == 0.0
    {
      Position, Rotation := Zero, 0.0;
    }
  }

  /** The enum ColliderType; its values index the narrowphase dispatch tables. */
  datatype ColliderType = Circle | Rect

  function ColliderTypeValue(t: ColliderType): (n: nat)
    ensures n < 2
    ensures t == Circle <==> n == 0
  {
    match t
    case Circle => 0
    case Rect => 1
  }

  /** The `InvMass` the Mass setter derives: 0 for a mass within EPSILON of 0, otherwise the reciprocal. */
  function InverseOrZero(m: real): (inv: real)
    ensures Equal(m, 0.0) ==> inv == 0.0
    ensures !Equal(m, 0.0) ==> inv * m == 1.0
  {
    if !Equal(m, 0.0) then 1.0 / m else 0.0
  }

  class RigBodyComponent {
    var Velocity: Float2
    var Mass: real
    var InvMass: real

    /** A fresh body: mass 1 but inverse mass 0.1, so the two agree only once Mass is assigned. */
    constructor ()
      ensures Velocity == Zero && Mass == 1.0 && InvMass == 0.1
      ensures InvMass != InverseOrZero(Mass)
    {
      Velocity, Mass, InvMass := Zero, 1.0, 0.1;
    }

    /** The Mass setter. */
    method SetMass(m: real)
      modifies this
      ensures Mass == m && InvMass == InverseOrZero(m) && Velocity == old(Velocity)
    {
      Mass := m;
      InvMass := InverseOrZero(Mass);
    }
  }

  /** Corners of a rectangle of half-size (w, h), counter-clockwise from the lower left. */
  function RectVertices(w: real, h: real): Float2x4
  {
    Float2x4(Float2(-w, -h), Float2(w, -h), Float2(w, h), Float2(-w, h))
  }

  /** Outward normals of the edges Vertices[i] to Vertices[i + 1]. */
  const RectNormals: Float2x4 :=
    Float2x4(Float2(0.0, -1.0), Float2(1.0, 0.0), Float2(0.0, 1.0), Float2(-1.0, 0.0))

  /**
   * A collider: the abstract ColliderComponent with its two subclasses.
   * `RectSize`, `Vertices` and `Normals` belong to the rectangle, `Radius` to
   * the circle.
   */
  class ColliderComponent {
    const Type: ColliderType
    var Layer: Mask
    var RectSize: Float2
    var Vertices: Float2x4
    var Normals: Float2x4
    var Radius: real

    constructor Rect()
      ensures Type == ColliderType.Rect && Layer == {} && RectSize == Zero
    {
      Type := ColliderType.Rect;
      Layer, RectSize, Radius := {}, Zero, 0.0;
      Vertices := Float2x4(Zero, Zero, Zero, Zero);
      Normals := Float2x4(Zero, Zero, Zero, Zero);
    }

    constructor Circle(radius: real)
      ensures Type == ColliderType.Circle && Layer == {} && Radius == radius
    {
      Type := ColliderType.Circle;
      Layer, RectSize, Radius := {}, Zero, radius;
      Vertices := Float2x4(Zero, Zero, Zero, Zero);
      Normals := Float2x4(Zero, Zero, Zero, Zero);
    }

    /** The RectSize setter: it recomputes the corners and the normals. */
    method SetRectSize(size: Float2)
      requires Type == ColliderType.Rect
      modifies this
      ensures RectSize == size && Vertices == RectVertices(size.x, size.y) && Normals == RectNormals
      ensures Layer == old(Layer) && Radius == old(Radius)
    {
      RectSize := size;
      var w, h := RectSize.x, RectSize.y;
      Vertices := Float2x4(Float2(-w, -h), Float2(w, -h), Float2(w, h), Float2(-w, h));
      Normals := Float2x4(Float2(0.0, -1.0), Float2(1.0, 0.0), Float2(0.0, 1.0), Float2(-1.0, 0.0));
    }

    /** `Size`: the half-extent vector of a rectangle, (Radius, Radius) for a circle. */
    function Size(): (s: Float2)
      reads this
      ensures Type == ColliderType.Rect ==> s == RectSize
      ensures Type == ColliderType.Circle ==> s.x == s.y == Radius
    {
      if Type == ColliderType.Rect then RectSize else Float2(Radius, Radius)
    }
  }

  /** The edge from corner i to corner i + 1 (mod 4). */
  function Edge(v: Float2x4, i: int): Float2
    requires 0 <= i < 4
  {
    var next := if i == 3 then v.c0 else v.Column(i + 1);
    Float2(next.x - v.Column(i).x, next.y - v.Column(i).y)
  }

  /**
   * Normal i of a rectangle with positive half-size is a unit vector at right
   * angles to the edge from corner i to corner i + 1, and points away from the
   * centre (its dot product with the edge's first corner is positive).
   */
  lemma RectNormalsOutward(w: real, h: real, i: int)
    requires w > 0.0 && h > 0.0 && 0 <= i < 4
    ensures Dot(RectNormals.Column(i), RectNormals.Column(i)) == 1.0
    ensures Dot(RectNormals.Column(i), Edge(RectVertices(w, h), i)) == 0.0
    ensures Dot(RectNormals.Column(i), RectVertices(w, h).Column(i)) > 0.0
  {
    var v := RectVertices(w, h);
    var n, c, e := RectNormals.Column(i), v.Column(i), Edge(v, i);
    if i == 0 {
      assert n == Float2(0.0, -1.0) && c == Float2(-w, -h) && e == Float2(2.0 * w, 0.0);
      assert Dot(n, c) == h;
    } else if i == 1 {
      assert n == Float2(1.0, 0.0) && c == Float2(w, -h) && e == Float2(0.0, 2.0 * h);
      assert Dot(n, c) == w;
    } else if i == 2 {
      assert n == Float2(0.0, 1.0) && c == Float2(w, h) && e == Float2(-2.0 * w, 0.0);
      assert Dot(n, c) == h;
    } else {
      assert n == Float2(-1.0, 0.0) && c == Float2(-w, h) && e == Float2(0.0, -2.0 * h);
      assert Dot(n, c) == w;
    }
  }

  class Entity {
    const Id: nat
    var Transform: TransformComponent?
    var Collider: ColliderComponent?
    var RigBody: RigBodyComponent?
    /** The RigBodyStaticComponent tag. */
    var RigBodyStatic: bool
    var BpRef: BroadphaseRef?

    constructor (id: nat)
      ensures Id == id && Transform == null && Collider == null && RigBody == null
      ensures !RigBodyStatic && BpRef == null
    {
      Id := id;
      Transform, Collider, RigBody, RigBodyStatic, BpRef := null, null, null, false, null;
    }
  }

  /** BroadphaseRefComponent: the chunks an entity is registered in, the hash of their cells and its AABB. */
  class BroadphaseRef {
    var Chunks: seq<SAPChunk?>
    var ChunksHash: bv32
    var AABB: AABB

    constructor (chunks: seq<SAPChunk?>, hash: bv32, box: AABB)
      ensures Chunks == chunks && ChunksHash == hash && AABB == box
    {
      Chunks, ChunksHash, AABB := chunks, hash, box;
    }
  }

  /**
   * BroadphaseAABB: one body in one chunk. A record whose Id is
   * `uint.MaxValue` is a tombstone. `Box` is the component whose AABB the
   * record's pointer designates.
   */
  datatype Record = Record(Entity: Entity?, Id: int, Layer: Mask, IsStatic: bool, Box: BroadphaseRef?)

  /** The default value of the struct, found in array slots never written. */
  const EmptyRecord: Record := Record(null, 0, {}, false, null)

  predicate Dead(r: Record)
  {
    r.Id == UIntMax
  }

  /** The deletion RemoveFormChunk performs: Id `uint.MaxValue` and no entity, the rest kept. */
  function Tombstone(r: Record): (t: Record)
    ensures Dead(t) && t.Entity == null
    ensures t.IsStatic == r.IsStatic && t.Layer == r.Layer && t.Box == r.Box
  {
    r.(Id := UIntMax, Entity := null)
  }

  /** A live record names its entity and points at a box; a tombstone has no entity. */
  predicate WellFormed(r: Record)
  {
    if Dead(r) then r.Entity == null else r.Entity != null && r.Entity.Id == r.Id && r.Box != null && IsUInt(r.Id)
  }

  /** The live records in order: what compaction keeps. */
  function LiveOnly(s: seq<Record>): (t: seq<Record>)
    ensures |t| <= |s|
  {
    if s == [] then []
    else LiveOnly(s[..|s| - 1]) + (if Dead(s[|s| - 1]) then [] else [s[|s| - 1]])
  }

  /** Compaction drops exactly the tombstones: what it keeps is live and comes from the input, and every live record is kept. */
  lemma {:induction false} LiveOnlyElements(s: seq<Record>)
    ensures forall r :: r in LiveOnly(s) <==> r in s && !Dead(r)
  {
    if s != [] {
      var init, r := s[..|s| - 1], s[|s| - 1];
      assert s == init + [r];
      LiveOnlyElements(init);
    }
  }

  /** Number of live records that are not static: what DynamicCounter counts. */
  function CountDynamic(s: seq<Record>): (n: nat)
    ensures n <= |s|
  {
    if s == [] then 0
    else CountDynamic(s[..|s| - 1]) + (if !Dead(s[|s| - 1]) && !s[|s| - 1].IsStatic then 1 else 0)
  }

  /** Number of records with the given id. */
  function CountId(s: seq<Record>, id: int): (n: nat)
    ensures n <= |s|
  {
    if s == [] then 0
    else CountId(s[..|s| - 1], id) + (if s[|s| - 1].Id == id then 1 else 0)
  }

  /** Index of the first tombstone, or `int.MaxValue` when there is none. */
  function FirstDead(s: seq<Record>): (f: int)
    requires |s| < IntMax
    ensures f == IntMax || 0 <= f < |s|
    ensures f == IntMax <==> forall i :: 0 <= i < |s| ==> !Dead(s[i])
    ensures f != IntMax ==> Dead(s[f]) && forall i :: 0 <= i < f ==> !Dead(s[i])
  {
    if s == [] then IntMax
    else
      var f := FirstDead(s[..|s| - 1]);
      if f != IntMax then f
      else if Dead(s[|s| - 1]) then |s| - 1
      else IntMax
  }

  /** Index of the first record with the id, as Array.FindIndex finds it, or -1. */
  function FindIndex(s: seq<Record>, id: int): (i: int)
    ensures -1 <= i < |s|
    ensures i == -1 <==> forall j :: 0 <= j < |s| ==> s[j].Id != id
    ensures i >= 0 ==> s[i].Id == id && forall j :: 0 <= j < i ==> s[j].Id != id
  {
    if s == [] then -1
    else
      var i := FindIndex(s[..|s| - 1], id);
      if i >= 0 then i
      else if s[|s| - 1].Id == id then |s| - 1
      else -1
  }

  /**
   * The bookkeeping a chunk keeps about its records: `free` is the first
   * tombstone (or `int.MaxValue`), `dynamic` counts the live non-static
   * records, and every record is well formed.
   */
  ghost predicate Bookkept(s: seq<Record>, free: int, dynamic: int)
  {
    |s| < IntMax && free == FirstDead(s) && dynamic == CountDynamic(s) &&
    forall i :: 0 <= i < |s| ==> WellFormed(s[i])
  }

  /**
   * A chunk of the broadphase grid: the bodies overlapping one cell and the
   * pairs found among them. The record and pair buffers are the chunk's own
   * arrays, replaced only by Array.Resize; they are modelled as sequence
   * fields whose length is the array's capacity.
   */
  class SAPChunk {
    const Id: int
    var Length: int
    var FreeIndex: int
    var PairLength: int
    var Items: seq<Record>
    var Pairs: seq<Pair>
    var SortAxis: int
    var DynamicCounter: int
    var IsDirty: bool

    /** The records in use. */
    ghost function Records(): seq<Record>
      reads this
      requires 0 <= Length <= |Items|
    {
      Items[..Length]
    }

    /**
     * The chunk invariant: the records in use fit the buffer, FreeIndex is
     * the first tombstone (or `int.MaxValue`), DynamicCounter counts the live
     * non-static records, and a chunk that will not be swept again holds no
     * pairs.
     */
    ghost predicate Valid()
      reads this
    {
      0 <= Length <= |Items| && |Items| >= 1 &&
      0 <= PairLength <= |Pairs| && |Pairs| >= 1 &&
      0 <= SortAxis <= 1 &&
      Bookkept(Items[..Length], FreeIndex, DynamicCounter) &&
      (!IsDirty ==> PairLength == 0)
    }

    /** `new SAPChunk(id)`. */
    constructor (id: int)
      ensures Valid() && Id == id
      ensures Length == 0 && PairLength == 0 && DynamicCounter == 0 && SortAxis == 0
      ensures FreeIndex == IntMax && IsDirty
      ensures |Items| == InitialCapacity && |Pairs| == InitialCapacity
    {
      Id := id;
      Length, FreeIndex, PairLength, SortAxis, DynamicCounter, IsDirty := 0, IntMax, 0, 0, 0, true;
      Items := seq(InitialCapacity, _ => EmptyRecord);
      Pairs := seq(InitialCapacity, _ => Pair(0, 0));
    }
  }

  /**
   * BroadphaseSAPComponent: the chunks by chunk id and the pairs found this
   * tick. `Contents` is a ghost view: the records in use of each chunk, by key.
   */
  class BroadphaseSAP {
    var Chunks: map<int, SAPChunk>
    var Pairs: set<Pair>
    ghost var Contents: map<int, seq<Record>>

    constructor ()
      ensures Chunks == map[] && Pairs == {} && Contents == map[]
    {
      Chunks, Pairs, Contents := map[], {}, map[];
    }

    /** The ghost view agrees with the chunks: same keys, and each chunk's records in use. */
    ghost predicate Mirrors()
      reads this`Chunks, this`Contents, Chunks.Values
    {
      Contents.Keys == Chunks.Keys &&
      forall k :: k in Chunks ==> 0 <= Chunks[k].Length <= |Chunks[k].Items| && Chunks[k].Records() == Contents[k]
    }

    /** `chunk` is the chunk stored under its own id. */
    ghost predicate Holds(chunk: SAPChunk)
      reads this`Chunks
    {
      chunk.Id in Chunks && Chunks[chunk.Id] == chunk
    }

    /** Every chunk is stored under its own id. */
    ghost predicate KeyedById()
      reads this`Chunks, Chunks.Values
    {
      forall k :: k in Chunks ==> Chunks[k].Id == k
    }

    /** Every chunk keeps its invariant. */
    ghost predicate AllValid()
      reads this`Chunks, Chunks.Values
    {
      forall k :: k in Chunks ==> Chunks[k].Valid()
    }

    /** The singleton invariant; in addition no two stored pairs are Equal. */
    ghost predicate Valid()
      reads this`Chunks, this`Pairs, Chunks.Values
    {
      KeyedById() && AllValid() && NoEqualPairs(Pairs)
    }
  }

  /** Compaction leaves no tombstone, keeps the dynamic count and keeps every record well formed. */
  lemma {:induction false} LiveOnlyBookkept(s: seq<Record>, free: int, dynamic: int)
    requires Bookkept(s, free, dynamic)
    ensures Bookkept(LiveOnly(s), IntMax, dynamic)
  {
    LiveOnlyValid(s);
  }

  /** Tombstoning a live record: the first tombstone becomes the smaller index, and the dynamic count drops when the record was dynamic. */
  lemma TombstoneBookkept(s: seq<Record>, free: int, dynamic: int, i: int)
    requires Bookkept(s, free, dynamic) && 0 <= i < |s| && !Dead(s[i])
    ensures Bookkept(s[i := Tombstone(s[i])], if free < i then free else i, dynamic - (if s[i].IsStatic then 0 else 1))
  {
    var t := s[i := Tombstone(s[i])];
    CountDynamicUpdate(s, i, Tombstone(s[i]));
    assert CountDynamic(t) == dynamic - (if s[i].IsStatic then 0 else 1);
    FirstDeadUpdate(s, i, Tombstone(s[i]));
    assert forall j :: 0 <= j < |t| ==> WellFormed(t[j]) by {
      forall j | 0 <= j < |t| ensures WellFormed(t[j]) {
        if j != i { assert t[j] == s[j]; }
      }
    }
  }

  /** Writing a tombstone at i over a live record makes i the first tombstone unless an earlier one exists. */
  lemma FirstDeadUpdate(s: seq<Record>, i: int, t: Record)
    requires |s| < IntMax && 0 <= i < |s| && !Dead(s[i]) && Dead(t)
    ensures FirstDead(s[i := t]) == if FirstDead(s) < i then FirstDead(s) else i
  {
    var u := s[i := t];
    var f := FirstDead(s);
    if f < i {
      assert Dead(u[f]) && forall j :: 0 <= j < f ==> !Dead(u[j]);
    } else {
      assert Dead(u[i]);
      var g := FirstDead(u);
      assert g != IntMax;
    }
  }

  /** Appending a live record keeps the first tombstone and counts the record when it is dynamic. */
  lemma AppendBookkept(s: seq<Record>, free: int, dynamic: int, r: Record)
    requires Bookkept(s, free, dynamic) && WellFormed(r) && !Dead(r) && |s| + 1 < IntMax
    ensures Bookkept(s + [r], free, dynamic + (if r.IsStatic then 0 else 1))
  {
    FirstDeadAppend(s, r);
    CountDynamicAppend(s, r);
  }

  lemma {:induction false} LiveOnlyValid(s: seq<Record>)
    requires forall i :: 0 <= i < |s| ==> WellFormed(s[i])
    ensures forall i :: 0 <= i < |LiveOnly(s)| ==> !Dead(LiveOnly(s)[i]) && WellFormed(LiveOnly(s)[i])
    ensures CountDynamic(LiveOnly(s)) == CountDynamic(s)
  {
    if s != [] {
      var init, r := s[..|s| - 1], s[|s| - 1];
      assert s == init + [r];
      LiveOnlyValid(init);
      LiveOnlyAppend(init, r);
      CountDynamicAppend(init, r);
      if !Dead(r) {
        assert LiveOnly(s) == LiveOnly(init) + [r];
        CountDynamicAppend(LiveOnly(init), r);
      } else {
        assert LiveOnly(s) == LiveOnly(init);
      }
    }
  }

  /** Appending a record adds one to the count of its id and leaves every other count alone. */
  lemma CountIdAppend(s: seq<Record>, r: Record, id: int)
    ensures CountId(s + [r], id) == CountId(s, id) + (if r.Id == id then 1 else 0)
  {
    assert (s + [r])[..|s|] == s;
  }

  /** An id no record carries has count zero. */
  lemma {:induction false} CountIdZero(s: seq<Record>, id: int)
    requires forall j :: 0 <= j < |s| ==> s[j].Id != id
    ensures CountId(s, id) == 0
  {
    if s != [] {
      CountIdZero(s[..|s| - 1], id);
    }
  }

  /** A positive count means some record carries the id. */
  lemma {:induction false} CountIdPositive(s: seq<Record>, id: int)
    requires CountId(s, id) > 0
    ensures exists j :: 0 <= j < |s| && s[j].Id == id
  {
    var last := |s| - 1;
    if s[last].Id != id {
      CountIdPositive(s[..last], id);
      var j :| 0 <= j < last && s[..last][j].Id == id;
      assert s[j].Id == id;
    }
  }

  lemma CountDynamicAppend(s: seq<Record>, r: Record)
    ensures CountDynamic(s + [r]) == CountDynamic(s) + (if !Dead(r) && !r.IsStatic then 1 else 0)
  {
    assert (s + [r])[..|s|] == s;
  }

  lemma LiveOnlyAppend(s: seq<Record>, r: Record)
    ensures LiveOnly(s + [r]) == LiveOnly(s) + (if Dead(r) then [] else [r])
  {
    assert (s + [r])[..|s|] == s;
  }

  /** Compacting one more record of a prefix adds it when it is live. */
  lemma LiveOnlyStep(s: seq<Record>, n: int)
    requires 0 <= n < |s|
    ensures LiveOnly(s[..n + 1]) == LiveOnly(s[..n]) + (if Dead(s[n]) then [] else [s[n]])
  {
    assert s[..n + 1] == s[..n] + [s[n]];
    LiveOnlyAppend(s[..n], s[n]);
  }

  lemma {:induction false} FirstDeadAppend(s: seq<Record>, r: Record)
    requires |s| + 1 < IntMax
    ensures FirstDead(s + [r]) == if FirstDead(s) != IntMax then FirstDead(s) else if Dead(r) then |s| else IntMax
  {
    assert (s + [r])[..|s|] == s;
  }

  /** Replacing the record at i changes the count of an id by what the two records contribute. */
  lemma {:induction false} CountIdUpdate(s: seq<Record>, i: int, r: Record, id: int)
    requires 0 <= i < |s|
    ensures CountId(s[i := r], id) == CountId(s, id) - (if s[i].Id == id then 1 else 0) + (if r.Id == id then 1 else 0)
  {
    var last := |s| - 1;
    if i < last {
      CountIdUpdate(s[..last], i, r, id);
      assert s[i := r][..last] == s[..last][i := r];
    } else {
      assert s[i := r][..last] == s[..last];
    }
  }

  lemma {:induction false} CountDynamicUpdate(s: seq<Record>, i: int, r: Record)
    requires 0 <= i < |s|
    ensures CountDynamic(s[i := r]) ==
      CountDynamic(s) - (if !Dead(s[i]) && !s[i].IsStatic then 1 else 0) + (if !Dead(r) && !r.IsStatic then 1 else 0)
  {
    var last := |s| - 1;
    if i < last {
      CountDynamicUpdate(s[..last], i, r);
      assert s[i := r][..last] == s[..last][i := r];
    } else {
      assert s[i := r][..last] == s[..last];
    }
  }

  /** Compaction keeps the live records: the dynamic count and the count of every live id are unchanged. */
  lemma {:induction false} LiveOnlyCounts(s: seq<Record>, id: int)
    requires id != UIntMax
    ensures CountDynamic(LiveOnly(s)) == CountDynamic(s)
    ensures CountId(LiveOnly(s), id) == CountId(s, id)
  {
    if s != [] {
      var init, r := s[..|s| - 1], s[|s| - 1];
      assert s == init + [r];
      LiveOnlyCounts(init, id);
      LiveOnlyAppend(init, r);
      CountDynamicAppend(init, r);
      CountIdAppend(init, r, id);
      if !Dead(r) {
        assert LiveOnly(s) == LiveOnly(init) + [r];
        CountDynamicAppend(LiveOnly(init), r);
        CountIdAppend(LiveOnly(init), r, id);
      } else {
        assert LiveOnly(s) == LiveOnly(init);
      }
    }
  }

  /** Compacting twice is compacting once. */
  lemma {:induction false} LiveOnlyIdempotent(s: seq<Record>)
    ensures LiveOnly(LiveOnly(s)) == LiveOnly(s)
  {
    if s != [] {
      var init, r := s[..|s| - 1], s[|s| - 1];
      assert s == init + [r];
      LiveOnlyIdempotent(init);
      LiveOnlyAppend(init, r);
      if !Dead(r) {
        assert LiveOnly(s) == LiveOnly(init) + [r];
        LiveOnlyAppend(LiveOnly(init), r);
      } else {
        assert LiveOnly(s) == LiveOnly(init);
      }
    }
  }

  /** The records before the first tombstone are all live, so compaction keeps them as they are. */
  lemma {:induction false} LiveOnlyPrefix(s: seq<Record>, n: int)
    requires 0 <= n <= |s| && forall i :: 0 <= i < n ==> !Dead(s[i])
    ensures LiveOnly(s[..n]) == s[..n]
  {
    if n > 0 {
      var t := s[..n];
      assert t == s[..n - 1] + [s[n - 1]];
      LiveOnlyPrefix(s, n - 1);
      LiveOnlyAppend(s[..n - 1], s[n - 1]);
    }
  }
}
