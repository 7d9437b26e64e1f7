# MiniEcsPhysics broadphase in Dafny

This project models the broadphase of the MiniEcsPhysics 2-D engine: the
uniform grid of cells ("chunks") that every body is registered in, and the
per-chunk sort-and-sweep that reports candidate collision pairs. The engine
exists in two revisions and both are modelled:

- **Physics** (`Assets/Physics/*`). A body shares one `AABB` object between
  its `BroadphaseRefComponent` and the records it has in its chunks.
  - A chunk deletes by tombstone (`Id = uint.MaxValue`), keeps `FreeIndex`
    (the first tombstone) and `DynamicCounter` (the live non-static records),
    and compacts with `BuildChunks`.
  - The update system skips bodies whose cell-set hash did not change. Two
    cell sets can hash alike (see Findings), so the model has that system as
    written (`PhysicsUpdate.UpdateAsWritten`) and a corrected one that
    compares the cell sets themselves (`PhysicsUpdate.Update`).
  - The pair system sorts each chunk on an axis, sweeps it, and gathers the
    pairs of all chunks in the singleton's set.
  - The collision-layer matrix is built from a triangular table.
- **Models** (`Assets/Models/*`). Records copy the box by value, chunks carry
  a `NeedRebuild` flag instead of `FreeIndex`, and the update system diffs
  the old and new chunk lists on every tick.

Each concept is modelled once:

- Pure code (`MathHelper`, `AABB`, the pair equality, cell enumeration, key
  packing, the chunk hash, `GetLayer` and `Check`) is datatypes and
  functions, with lemmas.
- Code that updates objects in place is classes with `modifies` clauses:
  - the chunk `SAPChunk`;
  - the singleton `BroadphaseSAPComponent`;
  - the components and the setters on them;
  - the three systems and the matrix constructor.
  Loops are `while` loops with their invariants.
- Every system is proved against a specification on values:
  - each chunk's records are mirrored by a ghost map of views;
  - the registration invariant says that every chunk holds exactly one
    record of each entity whose chunk list names it, and none of any other
    entity;
  - each system is shown to keep that invariant and to leave every selected
    body registered with the box of its components.

The modules:

| module | models |
|---|---|
| `MathHelper` | `Assets/Physics/MathHelper.cs` and `Assets/Models/MathHelper.cs` |
| `Aabb` | `Assets/Physics/AABB.cs` and `Assets/Models/AABB.cs` |
| `Grid` | cell coordinates, key packing, `GetChunks` enumeration and `CalculateChunksHash` |
| `BroadphasePair` | `BroadphasePair.Equals`/`GetHashCode` and the pair set |
| `CollisionMatrix` | `Assets/Physics/CollisionMatrix.cs` |
| `PhysicsEcs`, `PhysicsHelper`, `PhysicsWorld` | the Physics components, `SAPChunk` and `Assets/Physics/BroadpaseHelper.cs` |
| `PhysicsInit`, `PhysicsUpdate`, `PhysicsPairs` | the three Physics broadphase systems |
| `ModelsEcs`, `ModelsHelper`, `ModelsWorld` | the Models components, `SAPChunk` and the two Models `BroadpaseHelper.cs` files |
| `ModelsInit`, `ModelsUpdate` | the Models insertion and update systems |

Some conventions run through the whole model:

- Floats are `real`.
- A cell key is an `int` equal to the bit pattern of `(x << 16) | (ushort)y`.
- The chunk hash is `bv32`, so it wraps as C# `int` arithmetic does.
- `sin`/`cos` of the rotation are parameters.
- An ECS filter is a loop over a sequence of entities.

The two Models helper files, `Assets/Models/Systems/BroadpaseHelper.cs` and
`Assets/Models/Systems/Physics/BroadpaseHelper.cs`, differ only in the cell
size (35 and 40) and in the `RemoveFormChunk` of the second. So
`ModelsHelper` takes the cell size as a parameter and has constants for
both.

## Model

| member | source | states |
|---|---|---|
| `MathHelper.EpsilonValue` | Assets/Physics/MathHelper.cs:8 | EPSILON is 2^-23 = 1.1920928955078125e-7 and positive |
| `MathHelper.EqualReflexiveSymmetric` | Assets/Physics/MathHelper.cs:11-14 | `Equal` (within EPSILON) is reflexive and symmetric |
| `MathHelper.EqualNotTransitive` | Assets/Models/MathHelper.cs:11-14 | `Equal` is not transitive: 0 ~ EPSILON ~ 2 EPSILON but 0 is not equal to 2 EPSILON |
| `MathHelper.MulIsColumnCombination` | Assets/Physics/MathHelper.cs:17-20 | `Mul(m, v)` is `v.x * c0 + v.y * c1` |
| `MathHelper.TransposeSwapsOffDiagonal` | Assets/Physics/MathHelper.cs:23-26 | `Transpose` swaps the off-diagonal entries and keeps the diagonal |
| `MathHelper.TransposeInvolution` | Assets/Models/MathHelper.cs:35-38 | transposing twice gives the matrix back |
| `MathHelper.MulTransposeIsDots` | Assets/Models/MathHelper.cs:17-38 | `Mul(Transpose(m), v)` is `(dot(c0, v), dot(c1, v))` |
| `MathHelper.CrossAntiSymmetric` | Assets/Models/MathHelper.cs:23-26 | `Cross(a, b) == -Cross(b, a)` and `Cross(a, a) == 0` |
| `MathHelper.CrossScalarPerpendicular` | Assets/Models/MathHelper.cs:29-32 | `Cross(s, v)` is `s` times `v` turned by +90 degrees, perpendicular to `v`, and zero for `s == 0` |
| `MathHelper.CrossOfCrossScalar` | Assets/Models/MathHelper.cs:23-32 | `Cross(a, Cross(s, b)) == s * dot(a, b)` |
| `Aabb.FromMinMax` | Assets/Models/AABB.cs:10-14 | the two-point constructor stores min and max unchanged |
| `Aabb.OverlapIffNotSeparated` | Assets/Physics/AABB.cs:21-24 | two boxes fail to overlap exactly when they are strictly separated on x or on y |
| `Aabb.OverlapTouching` | Assets/Models/AABB.cs:30-33 | boxes that share an edge overlap: the intervals are closed |
| `Aabb.OverlapSymmetric` | Assets/Physics/AABB.cs:21-24 | `Overlap` is symmetric |
| `Aabb.OverlapSelf` | Assets/Models/AABB.cs:30-33 | a box overlaps itself exactly when `Min <= Max` |
| `Aabb.FromSizeOrderedCentred` | Assets/Physics/AABB.cs:10-19 | the rotated constructor gives non-negative half-extents, so `Min <= Max`, and `(Min + Max) / 2` is the position |
| `Aabb.FromSizeUnrotated` | Assets/Models/AABB.cs:16-28 | with sin 0 and cos 1 the half-extents are `|size.x|` and `|size.y|` |
| `Aabb.OffsetWithinExtent` | Assets/Physics/AABB.cs:14-15 | each of `a + b`, `a - b`, `-a + b` and `-a - b` lies between `-max(|a + b|, |a - b|)` and `max(|a + b|, |a - b|)`, the half-extent the constructor computes from `a` and `b` |
| `BroadphasePair.Swap` | Assets/Physics/BroadpaseHelper.cs:38-53 | the swapped pair has the two ids exchanged |
| `BroadphasePair.EqualsIsEquivalence` | Assets/Physics/BroadpaseHelper.cs:49-53 | `Equals` is reflexive, symmetric and transitive, and `p` equals `q` exactly when `q` is `p` or `Swap(p)` |
| `BroadphasePair.HashCodeBreaksEquals` | Assets/Physics/BroadpaseHelper.cs:55-63 | `Pair(1, 2)` equals `Pair(2, 1)`, but their hashes are 399 and 795 |
| `BroadphasePair.OrderedHashCodeRespectsEquals` | Assets/Physics/BroadpaseHelper.cs:55-63 | the corrected hash (on the smaller and larger id) gives equal pairs equal hashes |
| `BroadphasePair.AddPair` | Assets/Physics/BroadphaseCalculatePairSystem.cs:38-39 | adding to the set under a hash that respects `Equals`: afterwards the set holds a pair equal to `q` exactly when it did before or `q` equals `p`, and a set free of `Equals` duplicates stays free of them |
| `BroadphasePair.AddAsWritten` | Assets/Physics/BroadpaseHelper.cs:55-63 | `HashSet.Add` as written: `p` is compared only with members of the same hash, and is added when none of them equals it |
| `BroadphasePair.BothOrientationsKept` | Assets/Physics/BroadpaseHelper.cs:49-63 | adding `(1, 2)` and then `(2, 1)` as written keeps both, two members that are `Equals` |
| `CollisionMatrix.LayerBit` | Assets/Physics/CollisionMatrix.cs:17-24 | layer index 0 gets 0, index i from 1 to 32 gets bit i - 1, and later indices wrap to 0 |
| `CollisionMatrix.LayerBitInjective` | Assets/Physics/CollisionMatrix.cs:18-24 | two indices with the same layer value are 0 or past 32 |
| `CollisionMatrix.Build` | Assets/Physics/CollisionMatrix.cs:10-51 | the constructor fails exactly on a duplicate name, a missing row or a flag with no layer; otherwise it yields the layer map and the mask map of the reference definition |
| `CollisionMatrix.RegisterLayers` | Assets/Physics/CollisionMatrix.cs:15-26 | the name loop succeeds exactly when the names after index 0 are distinct; it maps name i to the bit of i and lists all the bits |
| `CollisionMatrix.MaskStep` | Assets/Physics/CollisionMatrix.cs:28-50 | one round of the mask loop fails exactly when a row or a flag is missing, and otherwise gives the row part together with the column part |
| `CollisionMatrix.RowLoop` | Assets/Physics/CollisionMatrix.cs:31-38 | the row loop gathers the bit of every set flag of row `table[n - i]`, and fails when a set flag has no layer |
| `CollisionMatrix.ColumnLoop` | Assets/Physics/CollisionMatrix.cs:40-47 | the column loop adds the bit of layer k for each set `table[j][i]`, with j going down from `n - i - 1` to 2 and k going up from i + 1 |
| `CollisionMatrix.LayersBelowKeys` | Assets/Physics/CollisionMatrix.cs:19-21 | after the name loop reaches i, the registered names are those at indices 1 to i - 1 |
| `CollisionMatrix.LayersBelowValue` | Assets/Physics/CollisionMatrix.cs:21-24 | with distinct names, each name maps to the bit of its own index |
| `CollisionMatrix.DataBelowKeys` | Assets/Physics/CollisionMatrix.cs:28-49 | after the mask loop reaches i, the stored keys are the bits of layers 1 to i - 1 |
| `CollisionMatrix.DataBelowValue` | Assets/Physics/CollisionMatrix.cs:49 | the mask stored under the bit of layer a is the mask of its row and column |
| `CollisionMatrix.GetLayer` | Assets/Physics/CollisionMatrix.cs:53-56 | succeeds exactly for a registered name, with its bit; any other name throws |
| `CollisionMatrix.CheckDefinedSymmetric` | Assets/Physics/CollisionMatrix.cs:58-61 | `Check(a, b)` throws exactly when `a` has no mask, or `b` has none and the first test fails; with both masks present it is symmetric; and `Check(a, 0)` holds |
| `CollisionMatrix.TriangularBuilds` | Assets/Physics/CollisionMatrix.cs:10-51 | a triangular table with distinct names and at most 32 layers builds |
| `CollisionMatrix.MaskMembership` | Assets/Physics/CollisionMatrix.cs:30-47 | bit b - 1 is in the mask of layer a exactly when the table allows (a, b), except that the last layer's bit enters other masks only through their rows |
| `CollisionMatrix.CheckMatchesTable` | Assets/Physics/CollisionMatrix.cs:58-61 | for such a table, `Check` on the bits of layers a and b answers exactly the table's flag for the pair |
| `CollisionMatrix.SceneLayers` | Assets/PhysicsScene.cs:30-37 | the scene's table builds, and yellow, blue and Default get bits 0, 1 and 2 |
| `CollisionMatrix.SceneMatrix` | Assets/PhysicsScene.cs:30-37 | in the scene, yellow meets yellow, blue meets blue, Default meets every layer, and yellow and blue pass through each other |
| `Grid.ToShort` | Assets/Physics/BroadpaseHelper.cs:83-86 | the `(short)` cast keeps the low 16 bits as two's complement, and is the identity on shorts |
| `Grid.ToUShort` | Assets/Physics/BroadpaseHelper.cs:90 | the `(ushort)` cast gives the low 16 bits as an unsigned number |
| `Grid.CellCoord` | Assets/Physics/BroadpaseHelper.cs:83-86 | a cell coordinate is `floor(v / cellSize)` whenever that fits in a short |
| `Grid.Span` | Assets/Physics/BroadpaseHelper.cs:88-89 | the loop from lo to hi runs `hi - lo + 1` times, and not at all when `lo > hi` |
| `Grid.RangeOf` | Assets/Physics/BroadpaseHelper.cs:83-86 | the cell range of a box is a well-formed range of shorts |
| `Grid.Key` | Assets/Physics/BroadpaseHelper.cs:90 | the key of two shorts is a 32-bit integer |
| `Grid.KeyDecode` | Assets/Physics/BroadpaseHelper.cs:90 | `key >> 16` and `(short)key` recover the cell from its key |
| `Grid.KeyInjective` | Assets/Physics/BroadpaseHelper.cs:90 | two cells have the same key exactly when they are the same cell |
| `Grid.KeySurjective` | Assets/Physics/BroadpaseHelper.cs:90 | every 32-bit integer is the key of the cell it decodes to |
| `Grid.ColumnKeys` | Assets/Physics/BroadpaseHelper.cs:89-90 | the inner loop yields the keys of cells (k, lo) to (k, hi), in order |
| `Grid.KeysCount` | Assets/Physics/BroadpaseHelper.cs:81-91 | `GetChunks` yields `(maxX - minX + 1) * (maxY - minY + 1)` keys, or none for an empty range |
| `Grid.KeysMembership` | Assets/Physics/BroadpaseHelper.cs:81-91 | a key is yielded exactly when it is the key of a cell in the range |
| `Grid.KeysXMajorDistinct` | Assets/Physics/BroadpaseHelper.cs:88-90 | the keys come in strictly increasing (x, y) order, so none repeats |
| `Grid.GetChunks` | Assets/Physics/BroadpaseHelper.cs:81-91 | the two nested loops produce exactly the reference enumeration `Keys(r)` |
| `Grid.AppendColumn` | Assets/Physics/BroadpaseHelper.cs:89-90 | the inner loop appends the keys of one column to what came before |
| `Grid.ShortIncrement` | Assets/Physics/BroadpaseHelper.cs:88-89 | the `short` increment adds one below 32767 and always stays a short |
| `Grid.ShortCounterWraps` | Assets/Physics/BroadpaseHelper.cs:88-89 | with `short` counters and an upper bound of 32767, every counter value passes the loop test, and 32767 + 1 wraps to -32768 |
| `Grid.RangeCoversBox` | Assets/Physics/BroadpaseHelper.cs:81-91 | when no cell coordinate wraps, every point of the box lies in a cell of the range |
| `Grid.CalculateChunksHash` | Assets/Physics/BroadpaseHelper.cs:133-144 | the hash loop computes 647, xor each key times 307, xor the count times 367, in wrapping 32-bit arithmetic |
| `Grid.SameRangeSameHash` | Assets/Physics/BroadpaseHelper.cs:133-144 | two boxes that cover the same cells get the same hash |
| `Grid.HashCollision` | Assets/Physics/BroadpaseHelper.cs:133-144 | the converse fails: the disjoint columns (0, 0)-(0, 1) and (0, 4)-(0, 5) hash alike |
| `PhysicsEcs.TransformComponent.constructor` | Assets/Physics/Components.cs:19-25 | a new transform is at the origin and unrotated |
| `PhysicsEcs.ColliderTypeValue` | Assets/Physics/Components.cs:47-51 | `Circle` is 0 and `Rect` is 1 |
| `PhysicsEcs.InverseOrZero` | Assets/Physics/Components.cs:40 | the derived inverse is 0 for a value within EPSILON of 0, and otherwise its reciprocal |
| `PhysicsEcs.RigBodyComponent.constructor` | Assets/Physics/Components.cs:31-44 | a fresh body has mass 1 but inverse mass 0.1, which is not the inverse of its mass |
| `PhysicsEcs.RigBodyComponent.SetMass` | Assets/Physics/Components.cs:37-41 | the setter stores the mass and its inverse-or-zero, and keeps the velocity |
| `PhysicsEcs.ColliderComponent.Rect` | Assets/Physics/Components.cs:62-84 | a new rectangle collider has size zero and no layer |
| `PhysicsEcs.ColliderComponent.Circle` | Assets/Physics/Components.cs:86-91 | a new circle collider has the given radius |
| `PhysicsEcs.ColliderComponent.SetRectSize` | Assets/Physics/Components.cs:71-80 | setting `RectSize (w, h)` gives corners (-w,-h), (w,-h), (w,h), (-w,h) and normals (0,-1), (1,0), (0,1), (-1,0), and keeps the layer |
| `PhysicsEcs.ColliderComponent.Size` | Assets/Physics/Components.cs:82-89 | a rectangle's size is its half-extent vector, and a circle's is (Radius, Radius) |
| `PhysicsEcs.RectNormalsOutward` | Assets/Physics/Components.cs:77-78 | for w, h > 0, normal i is a unit vector, perpendicular to the edge from corner i to corner i + 1, pointing away from the centre |
| `PhysicsEcs.Entity.constructor` | Assets/CreatorSystem.cs:170-183 | the entity `world.CreateEntity` starts from: its id and no component, before its components are set one by one |
| `PhysicsEcs.BroadphaseRef.constructor` | Assets/Physics/Components.cs:98-105 | the component holds the given chunk list, hash and box |
| `PhysicsEcs.Tombstone` | Assets/Physics/BroadpaseHelper.cs:121-129 | a deleted record gets id `uint.MaxValue` and no entity, and keeps the rest |
| `PhysicsEcs.LiveOnlyElements` | Assets/Physics/BroadpaseHelper.cs:100-112 | compaction keeps exactly the live records |
| `PhysicsEcs.FirstDead` | Assets/Physics/BroadpaseHelper.cs:13 | the first tombstone, or `int.MaxValue` when there is none: what `FreeIndex` must be |
| `PhysicsEcs.FindIndex` | Assets/Physics/BroadpaseHelper.cs:117 | the first index with the id, or -1, as `Array.FindIndex` finds it |
| `PhysicsEcs.SAPChunk.constructor` | Assets/Physics/BroadpaseHelper.cs:9-26 | a new chunk has its id, `Length`, `PairLength` and `DynamicCounter` 0, `FreeIndex` `int.MaxValue`, `IsDirty` set, and capacity 32 for records and for pairs |
| `PhysicsEcs.BroadphaseSAP.constructor` | Assets/Physics/Components.cs:107-113 | the singleton starts with no chunk and no pair |
| `PhysicsEcs.LiveOnlyBookkept` | Assets/Physics/BroadpaseHelper.cs:100-112 | compaction leaves no tombstone and keeps `DynamicCounter` right |
| `PhysicsEcs.TombstoneBookkept` | Assets/Physics/BroadpaseHelper.cs:121-130 | tombstoning a live record makes `FreeIndex` the smaller index and drops the dynamic count when the record was dynamic |
| `PhysicsEcs.AppendBookkept` | Assets/Physics/BroadphaseInitSystem.cs:52-71 | appending a live record keeps `FreeIndex` and counts the record when it is dynamic |
| `PhysicsEcs.LiveOnlyCounts` | Assets/Physics/BroadpaseHelper.cs:100-112 | compaction keeps the dynamic count and the count of every live id |
| `PhysicsEcs.LiveOnlyIdempotent` | Assets/Physics/BroadpaseHelper.cs:93-113 | compacting twice is compacting once |
| `PhysicsEcs.LiveOnlyPrefix` | Assets/Physics/BroadpaseHelper.cs:100-104 | the records before the first tombstone are live and stay in place |
| `PhysicsHelper.GetChunkIds` | Assets/Physics/BroadpaseHelper.cs:81-91 | `GetChunks(aabb)` yields the keys of the covered cells, as many as the range has, with no repeats |
| `PhysicsHelper.ChunksHashOf` | Assets/Physics/BroadpaseHelper.cs:133-144 | the hash of a box is the hash of the keys of its cells |
| `PhysicsHelper.GetOrCreateChunk` | Assets/Physics/BroadpaseHelper.cs:70-79 | returns the chunk stored under the id, leaving the map alone when one exists; otherwise stores exactly one fresh, empty chunk with that id |
| `PhysicsHelper.ChunksFor` | Assets/Physics/BroadphaseInitSystem.cs:38-42 | the chunk of each key, in key order; existing chunks are kept, and missing ones are created empty |
| `PhysicsHelper.BuildChunks` | Assets/Physics/BroadpaseHelper.cs:93-113 | the records become the live records in their old order, `FreeIndex` becomes `int.MaxValue`, `DynamicCounter` is kept, and nothing moves when `FreeIndex >= Length` |
| `PhysicsHelper.LeftPack` | Assets/Physics/BroadpaseHelper.cs:100-111 | the compaction loop leaves exactly the live records, in order, in front of the new length |
| `PhysicsHelper.Unlist` | Assets/Physics/BroadpaseHelper.cs:117-125 | the first record with the id becomes a tombstone, and without one nothing changes |
| `PhysicsHelper.UnlistCounts` | Assets/Physics/BroadpaseHelper.cs:115-131 | removing an id takes one from its count when it had a record, and keeps every other count |
| `PhysicsHelper.RemoveFormChunk` | Assets/Physics/BroadpaseHelper.cs:115-131 | fails exactly when no record has the id; otherwise tombstones the first one, sets `FreeIndex` to the smaller index, and drops `DynamicCounter` when the record was dynamic; `Length` is kept |
| `PhysicsHelper.FindRecord` | Assets/Physics/BroadpaseHelper.cs:117 | the search finds the first record in use with the id |
| `PhysicsHelper.Resized` | Assets/Physics/BroadphaseInitSystem.cs:54-55 | `Array.Resize` to a larger size keeps the old records first and fills the rest with default slots |
| `PhysicsHelper.AppendRecord` | Assets/Physics/BroadphaseInitSystem.cs:52-71 | the record goes in at `Length`, the buffer doubles only when full, `FreeIndex` is kept, and `DynamicCounter` grows for a dynamic body |
| `PhysicsWorld.AppendedAt` | Assets/Physics/BroadphaseInitSystem.cs:52-67 | with distinct keys, each listed chunk gains the record once at its end, and every other chunk is unchanged |
| `PhysicsWorld.AppendedCount` | Assets/Physics/BroadphaseInitSystem.cs:52-67 | each listed chunk gains one record of the entity's id, and no other count changes |
| `PhysicsWorld.Extended` | Assets/Physics/BroadpaseHelper.cs:70-79 | creating empty chunks, each under its own id, keeps the registration invariant |
| `PhysicsWorld.Enrolled` | Assets/Physics/BroadphaseInitSystem.cs:38-71 | an entity with no list and no record that gets the chunks of distinct keys, and its record in each of them, keeps the registration invariant |
| `PhysicsWorld.Append` | Assets/Physics/BroadphaseInitSystem.cs:52-71 | an append on a chunk of the singleton extends that chunk's view by the record and keeps the singleton valid |
| `PhysicsWorld.Remove` | Assets/Physics/BroadphaseUpdateSystem.cs:95-100 | a removal on a chunk of the singleton drops the first record of the id from that chunk's view |
| `PhysicsWorld.OwnedAppended` | Assets/Physics/BroadphaseInitSystem.cs:57-66 | appending the record of an entity that had none keeps every record pointing at its own entity and at that entity's component box, with the entity's component now the new one |
| `PhysicsInit.RecordOf` | Assets/Physics/BroadphaseInitSystem.cs:57-66 | a record carries the entity, its id and the component's own box object (shared, not a copy) |
| `PhysicsInit.RegisteredRecords` | Assets/Physics/BroadphaseInitSystem.cs:52-67 | under the invariant, a registered entity has exactly one record in the chunk of each of its cells, and each of its records names the entity and points at its component's box, which holds the registered box |
| `PhysicsInit.RegisteredChunks` | Assets/Physics/BroadphaseInitSystem.cs:38-50 | under the invariant, a registered entity's list holds the singleton's chunks of its cells, in order |
| `PhysicsInit.AddRecords` | Assets/Physics/BroadphaseInitSystem.cs:52-67 | the record is appended to the chunk of every key, in key order |
| `PhysicsInit.Attach` | Assets/Physics/BroadphaseInitSystem.cs:44-67 | a fresh component holds the chunks, hash and box, and the record that shares its box is appended to each chunk |
| `PhysicsInit.Register` | Assets/Physics/BroadphaseInitSystem.cs:38-71 | the chunks are looked up or created, the component is attached, and each chunk gains the record |
| `PhysicsInit.Insert` | Assets/Physics/BroadphaseInitSystem.cs:28-71 | afterwards the entity is registered with its box: its list is the chunks of its cells, its hash is theirs, and each chunk gained its record |
| `PhysicsInit.Visit` | Assets/Physics/BroadphaseInitSystem.cs:26-72 | one more entity is done, and the invariant is kept |
| `PhysicsInit.Enroll` | Assets/Physics/BroadphaseInitSystem.cs:28-71 | the loop body keeps the registration invariant for the whole world |
| `PhysicsInit.Adopted` | Assets/Physics/BroadphaseInitSystem.cs:38-67 | after new chunks are created, appending the new entity's record keeps every record pointing at its own entity and component box |
| `PhysicsInit.Update` | Assets/Physics/BroadphaseInitSystem.cs:20-73 | every entity the filter selects (no component yet) is registered with the box of its components, the others keep their component, and the invariant is kept, including that each record names its entity and points at the box of that entity's component |
| `PhysicsUpdate.AddedAt` | Assets/Physics/BroadphaseUpdateSystem.cs:50-93 | the key loop creates the chunks of new keys, and a chunk gains the record exactly when its key is new and not an old key |
| `PhysicsUpdate.DroppedAt` | Assets/Physics/BroadphaseUpdateSystem.cs:95-100 | the drop loop creates nothing, and a chunk loses the record exactly when its key is old and not new |
| `PhysicsUpdate.MovedNothing` | Assets/Physics/BroadphaseUpdateSystem.cs:50-100 | a body whose cells did not change moves no record |
| `PhysicsUpdate.MovedRegistry` | Assets/Physics/BroadphaseUpdateSystem.cs:50-103 | a move keeps the registration invariant, with the mover's list replaced by the chunks of its new keys |
| `PhysicsUpdate.UnlistElements` | Assets/Physics/BroadphaseUpdateSystem.cs:95-100 | removing a record leaves only records that were there or tombstones |
| `PhysicsUpdate.OwnedMoved` | Assets/Physics/BroadphaseUpdateSystem.cs:50-100 | a move keeps every record pointing at its own entity and that entity's component box |
| `PhysicsUpdate.FindChunk` | Assets/Physics/BroadphaseUpdateSystem.cs:52-61 | the search finds the first slot that holds a chunk with the id, or -1 |
| `PhysicsUpdate.Enter` | Assets/Physics/BroadphaseUpdateSystem.cs:69-92 | a key that is not an old key gets its chunk, looked up or created, and that chunk gains the record |
| `PhysicsUpdate.Reuse` | Assets/Physics/BroadphaseUpdateSystem.cs:63-68 | a chunk found among the old ones is kept with no record added or removed, and its slot is emptied |
| `PhysicsUpdate.AddNew` | Assets/Physics/BroadphaseUpdateSystem.cs:50-93 | the new list holds the chunk of every key in order, and the old keys' chunks are taken out of the old list |
| `PhysicsUpdate.DropOld` | Assets/Physics/BroadphaseUpdateSystem.cs:95-100 | each old chunk still in the old list loses the record once |
| `PhysicsUpdate.Relist` | Assets/Physics/BroadphaseUpdateSystem.cs:50-100 | the two loops leave the chunks of the keys and the views of the move |
| `PhysicsUpdate.Rechunk` | Assets/Physics/BroadphaseUpdateSystem.cs:48-103 | the component gets the new list and hash and keeps its box |
| `PhysicsUpdate.StoredListed` | Assets/Physics/BroadphaseUpdateSystem.cs:102 | a list holding the chunk of each key lists exactly the keys |
| `PhysicsUpdate.Place` | Assets/Physics/BroadphaseUpdateSystem.cs:27-36 | the component's box object gets the box of the transform and collider, seen through every record, and list and hash are kept |
| `PhysicsUpdate.Shift` | Assets/Physics/BroadphaseUpdateSystem.cs:38-103 | as written: when the hash is unchanged nothing else changes; otherwise the body moves to the chunks of its new cells |
| `PhysicsUpdate.Refresh` | Assets/Physics/BroadphaseUpdateSystem.cs:27-103 | the loop body as written: the box is updated, and the body moves exactly when the hash differs |
| `PhysicsUpdate.ShiftChecked` | Assets/Physics/BroadphaseUpdateSystem.cs:38-103 | with the corrected test, the body always ends up registered with its new box |
| `PhysicsUpdate.Resolve` | Assets/Physics/BroadphaseUpdateSystem.cs:39-103 | the corrected test keeps a list only when it already holds the chunks of the keys, and otherwise moves the body |
| `PhysicsUpdate.RefreshChecked` | Assets/Physics/BroadphaseUpdateSystem.cs:27-103 | the corrected loop body: the body is registered with the box of its transform and collider, and the views are those of a move |
| `PhysicsUpdate.StaleAfterCollision` | Assets/Physics/BroadphaseUpdateSystem.cs:38-40 | a body over cells (0, 0) and (0, 1) that moves to cells (0, 4) and (0, 5) keeps its old list under the as-written test |
| `PhysicsUpdate.Follow` | Assets/Physics/BroadphaseUpdateSystem.cs:27-103 | the corrected loop body keeps the registration invariant and registers the body with its box |
| `PhysicsUpdate.Step` | Assets/Physics/BroadphaseUpdateSystem.cs:25-104 | one more entity is done, and the invariant is kept |
| `PhysicsUpdate.Swept` | Assets/Physics/BroadphaseUpdateSystem.cs:25-104 | at the end of the corrected loop the invariant holds and every selected body is registered with its new box |
| `PhysicsUpdate.Update` | Assets/Physics/BroadphaseUpdateSystem.cs:21-105 | with the corrected test (cell sets compared, not hashes), every selected entity is registered with the box of its components, every other component keeps its list, hash and box, and the invariant is kept, including that each record names its entity and points at that entity's component box |
| `PhysicsUpdate.RefreshKept` | Assets/Physics/BroadphaseUpdateSystem.cs:38-103 | whether the body is skipped or moved, the registration invariant and record ownership hold for the list it is left with |
| `PhysicsUpdate.FollowAsWritten` | Assets/Physics/BroadphaseUpdateSystem.cs:27-103 | the loop body as written: the box is refreshed; when the hash changed the body is registered with it, and when it did not the list and hash are kept, even if the cells changed; the list invariant and record ownership are kept for the list the body is left with |
| `PhysicsUpdate.StepAsWritten` | Assets/Physics/BroadphaseUpdateSystem.cs:25-104 | one more entity is done under the as-written test, and the others keep their agreement with the chunks |
| `PhysicsUpdate.SweptAsWritten` | Assets/Physics/BroadphaseUpdateSystem.cs:25-104 | at the end of the as-written loop the invariant holds, every selected body has its new box, is registered with it when its hash changed, and keeps its list and hash otherwise |
| `PhysicsUpdate.UpdateAsWritten` | Assets/Physics/BroadphaseUpdateSystem.cs:21-105 | the system as written: every selected body's component gets the box of its components; a body whose hash changed is registered with it, and one whose hash did not keeps its list and hash; other components are unchanged, and the invariant (which records each chunk holds, and whose box they point at) is kept for the lists the bodies are left with |
| `PhysicsPairs.OppositeOrientations` | Assets/Physics/BroadphaseCalculatePairSystem.cs:81 | two chunks sorted on different axes report the same two bodies as (1, 2) and (2, 1), and the as-written set keeps both |
| `PhysicsPairs.TwoBodies` | Assets/Physics/BroadphaseCalculatePairSystem.cs:63-81 | two admitted bodies make one pair, in sorted order |
| `PhysicsPairs.RowPairsSpec` | Assets/Physics/BroadphaseCalculatePairSystem.cs:63-82 | a row fails exactly when one of its tests throws, and otherwise holds exactly the admitted pairs |
| `PhysicsPairs.SweepPairsSpec` | Assets/Physics/BroadphaseCalculatePairSystem.cs:55-83 | the search fails exactly when some test throws; otherwise a pair is listed exactly when it is (e[i], e[j]) for i < j, not both static, overlapping and allowed by the matrix |
| `PhysicsPairs.RowCutoff` | Assets/Physics/BroadphaseCalculatePairSystem.cs:66-67 | on a sorted chunk, the early exit loses nothing |
| `PhysicsPairs.StaticOnly` | Assets/Physics/BroadphaseCalculatePairSystem.cs:69-70 | a chunk of static bodies yields no pair |
| `PhysicsPairs.CountsPermuted` | Assets/Physics/BroadphaseCalculatePairSystem.cs:50 | a permutation keeps the dynamic count and the count of every id |
| `PhysicsPairs.PermutedBookkept` | Assets/Physics/BroadphaseCalculatePairSystem.cs:50 | sorting a compacted chunk keeps its bookkeeping |
| `PhysicsPairs.SortRecords` | Assets/Physics/BroadphaseCalculatePairSystem.cs:49-50 | the sort returns a permutation in ascending order of `Min[axis]` |
| `PhysicsPairs.Sink` | Assets/Physics/BroadphaseCalculatePairSystem.cs:94-99 | one insertion step extends the sorted prefix by one, as a permutation |
| `PhysicsPairs.ResizedPairs` | Assets/Physics/BroadphaseCalculatePairSystem.cs:78-79 | `Array.Resize` keeps the old pairs first |
| `PhysicsPairs.PushPair` | Assets/Physics/BroadphaseCalculatePairSystem.cs:78-81 | the pair goes in at `PairLength`, the buffer doubles only when full, and `PairLength <= capacity` |
| `PhysicsPairs.SweepRow` | Assets/Physics/BroadphaseCalculatePairSystem.cs:63-82 | the inner loop succeeds exactly when the reference row does, and then leaves the pairs of the reference search up to row i |
| `PhysicsPairs.SweepChunk` | Assets/Physics/BroadphaseCalculatePairSystem.cs:55-83 | the outer loop succeeds exactly when the brute-force search does, leaves the brute-force pair list, and sums the centres and their squares |
| `PhysicsPairs.SpreadAxis` | Assets/Physics/BroadphaseCalculatePairSystem.cs:85-87 | the next sort axis is 0 or 1 |
| `PhysicsPairs.VarianceFormula` | Assets/Physics/BroadphaseCalculatePairSystem.cs:85 | `s2 / n - s * s / (n * n)` is the variance of the centres |
| `PhysicsPairs.NextAxisWiderSpread` | Assets/Physics/BroadphaseCalculatePairSystem.cs:85-87 | the next axis is 1 exactly when the centres spread more along y than along x |
| `PhysicsPairs.SortChunk` | Assets/Physics/BroadphaseCalculatePairSystem.cs:49-50 | the records in use are permuted into ascending order on the chunk's sort axis |
| `PhysicsPairs.CalculatePairs` | Assets/Physics/BroadphaseCalculatePairSystem.cs:43-88 | the records are a sorted permutation with their bookkeeping kept; the sweep succeeds exactly when the brute-force search does, and then the pairs are the brute-force list and the axis moves to the wider spread |
| `PhysicsPairs.NoDynamicNoPairs` | Assets/Physics/BroadphaseCalculatePairSystem.cs:32-36 | a compacted chunk without dynamic bodies has no pair, so skipping it loses nothing |
| `PhysicsPairs.Recompute` | Assets/Physics/BroadphaseCalculatePairSystem.cs:32-36 | a chunk that is dirty or holds a dynamic body is re-swept, and stays dirty exactly while it holds a dynamic body |
| `PhysicsPairs.PrepareChunk` | Assets/Physics/BroadphaseCalculatePairSystem.cs:29-36 | compaction and then, when needed, the sweep: the records become a permutation of the live ones, and the pairs are the brute-force list |
| `PhysicsPairs.AddAllSpec` | Assets/Physics/BroadphaseCalculatePairSystem.cs:38-39 | adding a list keeps the set free of `Equals` duplicates, and the set then holds a pair equal to `q` exactly when it did before or the list does |
| `PhysicsPairs.Collect` | Assets/Physics/BroadphaseCalculatePairSystem.cs:38-39 | the chunk's first `PairLength` pairs join the set through `AddPair`, which skips a pair `Equals` already finds there: the corrected set, not the as-written `HashSet` |
| `PhysicsPairs.Gained` | Assets/Physics/BroadphaseCalculatePairSystem.cs:38-39 | adding a chunk's pairs keeps the set free of `Equals` duplicates, and afterwards it holds a pair equal to `q` exactly when it did before or the chunk reports `q` |
| `PhysicsPairs.Gather` | Assets/Physics/BroadphaseCalculatePairSystem.cs:38-39 | the set holds, up to `Equals`, what it held before and what the chunk reports, and nothing else |
| `PhysicsPairs.Visit` | Assets/Physics/BroadphaseCalculatePairSystem.cs:28-39 | one chunk is prepared and, on success, the set gains exactly what the chunk reports |
| `PhysicsPairs.PermutedOwned` | Assets/Physics/BroadphaseCalculatePairSystem.cs:29-50 | compaction and sorting keep every record pointing at its own entity and that entity's box |
| `PhysicsPairs.PermutedElement` | Assets/Physics/BroadphaseCalculatePairSystem.cs:29-50 | a record of a permutation of the live records was a record before |
| `PhysicsPairs.PermutedRegistry` | Assets/Physics/BroadphaseCalculatePairSystem.cs:29-50 | compaction and sorting keep the registration invariant |
| `PhysicsPairs.Round` | Assets/Physics/BroadphaseCalculatePairSystem.cs:27-40 | one round of the chunk loop visits the next chunk, or stops the loop at a failing one |
| `PhysicsPairs.VisitAll` | Assets/Physics/BroadphaseCalculatePairSystem.cs:27-40 | the chunks are visited in dictionary order until one fails |
| `PhysicsPairs.Clear` | Assets/Physics/BroadphaseCalculatePairSystem.cs:26 | the set is emptied, and the chunks are kept |
| `PhysicsPairs.Update` | Assets/Physics/BroadphaseCalculatePairSystem.cs:22-41 | on success every chunk is prepared, the set holds, up to `Equals`, exactly the pairs all chunks report (deduplicated with `Equals` through `AddPair`: the corrected set, not the as-written `HashSet`), and every chunk's records are a permutation of its live records; on failure the failing chunk is named |
| `ModelsEcs.TranslationComponent.constructor` | Assets/Models/Components.cs:21-25 | a new translation is zero |
| `ModelsEcs.RotationComponent.constructor` | Assets/Models/Components.cs:27-31 | a new rotation is zero |
| `ModelsEcs.Pushed` | Assets/Models/Components.cs:66-69 | a zero inverse mass leaves the velocity unchanged |
| `ModelsEcs.RigBodyComponent.constructor` | Assets/Models/Components.cs:37-63 | a fresh body has mass and inertia 1 but inverses 0.1, which do not match them |
| `ModelsEcs.RigBodyComponent.SetMass` | Assets/Models/Components.cs:41-49 | the setter stores the mass and its inverse-or-zero |
| `ModelsEcs.RigBodyComponent.SetInertia` | Assets/Models/Components.cs:54-62 | the setter stores the inertia and its inverse-or-zero |
| `ModelsEcs.RigBodyComponent.ApplyForce` | Assets/Models/Components.cs:66-69 | the velocity gains `f * InvMass` |
| `ModelsEcs.PushedByMass` | Assets/Models/Components.cs:41-69 | once the mass is set to m, a force changes the velocity by `f / m`, and not at all when m is within EPSILON of 0 |
| `ModelsEcs.PushedAdditive` | Assets/Models/Components.cs:66-69 | two forces in turn act as their sum, in either order |
| `ModelsEcs.RowMajor` | Assets/Models/Components.cs:97-98 | the eight-scalar `float2x4` constructor takes the x components first and then the y components |
| `ModelsEcs.ColliderComponent.Rect` | Assets/Models/Components.cs:91-99 | the rectangle collider gets its size, corners (-w,-h), (w,-h), (w,h), (-w,h) and normals (0,-1), (1,0), (0,1), (-1,0) |
| `ModelsEcs.ColliderComponent.Circle` | Assets/Models/Components.cs:105-115 | the circle collider's size is its radius on both axes |
| `ModelsEcs.Entity.constructor` | Assets/Models/Systems/CreatorSystem.cs:198-212 | the entity `world.CreateEntity` starts from: its id and no component, before its components are set one by one |
| `ModelsEcs.BroadphaseRef.constructor` | Assets/Models/Components.cs:123-127 | the component holds the given chunk list |
| `ModelsEcs.Tombstone` | Assets/Models/Systems/BroadphaseUpdateSystem.cs:85 | a deletion changes only the id, to `uint.MaxValue` |
| `ModelsEcs.FirstDead` | Assets/Models/Systems/BroadpaseHelper.cs:42-49 | the scan finds the first tombstone, or `int.MaxValue` |
| `ModelsEcs.FindIndex` | Assets/Models/Systems/BroadphaseUpdateSystem.cs:77-81 | the first index with the id, or -1 |
| `ModelsEcs.Unlist` | Assets/Models/Systems/BroadphaseUpdateSystem.cs:77-87 | the first record with the id becomes a tombstone and no other record changes; without one, nothing changes |
| `ModelsEcs.Moved` | Assets/Models/Systems/BroadphaseUpdateSystem.cs:48-55 | the first record with the id gets the new box by value and no other record changes; without one, nothing changes |
| `ModelsEcs.LiveOnlyElements` | Assets/Models/Systems/BroadpaseHelper.cs:54-62 | compaction keeps exactly the live records |
| `ModelsEcs.LiveOnlyIdempotent` | Assets/Models/Systems/BroadpaseHelper.cs:33-65 | compaction leaves no tombstone, so compacting again changes nothing |
| `ModelsEcs.CountIdFound` | Assets/Models/Systems/BroadphaseUpdateSystem.cs:77-81 | the search finds the id exactly when some record carries it |
| `ModelsEcs.UnlistCounts` | Assets/Models/Systems/BroadphaseUpdateSystem.cs:77-87 | deleting an id takes one from its count when it had a record, and keeps every other count |
| `ModelsEcs.MovedCounts` | Assets/Models/Systems/BroadphaseUpdateSystem.cs:48-55 | refreshing a box changes no count |
| `ModelsEcs.LiveOnlyCounts` | Assets/Models/Systems/BroadpaseHelper.cs:54-64 | compaction keeps the count of every live id |
| `ModelsEcs.SAPChunk.constructor` | Assets/Models/Components.cs:129-139 | a new chunk has no record, both flags clear, and capacity 32 for records and for pairs |
| `ModelsEcs.BroadphaseSAP.constructor` | Assets/Models/Components.cs:149-154 | the singleton starts with no chunk and no pair |
| `ModelsHelper.Created` | Assets/Models/Systems/BroadpaseHelper.cs:21-31 | after `GetChunks`, every key has a chunk, and the existing chunks are untouched |
| `ModelsHelper.GetOrCreateChunk` | Assets/Models/Systems/BroadpaseHelper.cs:10-19 | returns the chunk under the key, leaving the map alone when one exists; otherwise stores exactly one fresh, empty chunk |
| `ModelsHelper.GetChunks` | Assets/Models/Systems/BroadpaseHelper.cs:21-31 | the chunks of the covered cells, x-major, for the given cell size, each created when missing |
| `ModelsHelper.ChunksFor` | Assets/Models/Systems/BroadpaseHelper.cs:29-30 | `GetOrCreateChunk` of every key in turn lists the chunk of each key |
| `ModelsHelper.Rebuilt` | Assets/Models/Systems/BroadpaseHelper.cs:33-65 | after `BuildChunks` the chunk holds exactly its live records and `NeedRebuild` is clear |
| `ModelsHelper.RebuiltIdempotent` | Assets/Models/Systems/BroadpaseHelper.cs:42-64 | `BuildChunks` is idempotent |
| `ModelsHelper.RebuiltClean` | Assets/Models/Systems/BroadpaseHelper.cs:42-52 | without a tombstone, only the flag changes |
| `ModelsHelper.RebuiltCounts` | Assets/Models/Systems/BroadpaseHelper.cs:54-64 | compaction keeps the count of every live id |
| `ModelsHelper.BuildChunks` | Assets/Models/Systems/BroadpaseHelper.cs:33-65 | the flag is cleared and the chunk becomes its live records in order; with no tombstone in use, the buffer and `Length` stay as they are |
| `ModelsHelper.FindFree` | Assets/Models/Systems/BroadpaseHelper.cs:42-49 | the scan finds the first tombstone in use, or `int.MaxValue` |
| `ModelsHelper.LeftPack` | Assets/Models/Systems/BroadpaseHelper.cs:54-62 | the compaction loop leaves exactly the live records, in order, in front of the new length |
| `ModelsHelper.Removed` | Assets/Models/Systems/Physics/BroadpaseHelper.cs:67-79 | with the id present, its first record becomes a tombstone and both flags are set; with it absent, the chunk is unchanged |
| `ModelsHelper.RemovedCounts` | Assets/Models/Systems/Physics/BroadpaseHelper.cs:67-79 | removal takes one from the id's count when it is present, and keeps every other count |
| `ModelsHelper.RemoveFormChunk` | Assets/Models/Systems/Physics/BroadpaseHelper.cs:67-79 | the chunk becomes `Removed` of what it was; `Length` and capacity are kept, and an absent id changes nothing |
| `ModelsWorld.Resized` | Assets/Models/Systems/BroadphaseInitSystem.cs:40-41 | `Array.Resize` keeps the old records first and fills the rest with defaults |
| `ModelsWorld.Added` | Assets/Models/Systems/BroadphaseInitSystem.cs:40-50 | appending puts the record at the end, keeps the others, and marks the chunk dirty |
| `ModelsWorld.Refreshed` | Assets/Models/Systems/BroadphaseUpdateSystem.cs:41-55 | a refreshed chunk is dirty and keeps its length |
| `ModelsWorld.AppendRecord` | Assets/Models/Systems/BroadphaseInitSystem.cs:40-49 | the record goes in at `Length`, and the buffer doubles only when full |
| `ModelsWorld.Refresh` | Assets/Models/Systems/BroadphaseUpdateSystem.cs:48-55 | the body's first record gets the box by value, and the chunk becomes dirty when there was one |
| `ModelsWorld.AddAt` | Assets/Models/Systems/BroadphaseInitSystem.cs:40-50 | the chunk under the key gains the record and is marked dirty, and the rest of the view is unchanged |
| `ModelsWorld.RefreshAt` | Assets/Models/Systems/BroadphaseUpdateSystem.cs:41-55 | the chunk under the key is refreshed, and the rest of the view is unchanged |
| `ModelsWorld.DropAt` | Assets/Models/Systems/BroadphaseUpdateSystem.cs:72-88 | the chunk under the key loses the record, and the rest of the view is unchanged |
| `ModelsWorld.CreatedRegistry` | Assets/Models/Systems/BroadpaseHelper.cs:10-19 | creating chunks keeps the registration invariant |
| `ModelsWorld.InsertedRegistry` | Assets/Models/Systems/BroadphaseInitSystem.cs:37-56 | inserting an entity with no list into the chunks of distinct keys keeps the invariant, with its list set to those keys |
| `ModelsWorld.ShiftedCount` | Assets/Models/Systems/BroadphaseUpdateSystem.cs:39-88 | after a move a chunk holds one record of the mover exactly when it is a new chunk, and other counts are kept |
| `ModelsWorld.RelocatedRegistry` | Assets/Models/Systems/BroadphaseUpdateSystem.cs:36-90 | a move from the old list to the chunks of distinct new keys keeps the registration invariant |
| `ModelsWorld.InsertedRoom` | Assets/Models/Systems/BroadphaseInitSystem.cs:43 | an insertion adds at most one record to each chunk |
| `ModelsWorld.RelocatedRoom` | Assets/Models/Systems/BroadphaseUpdateSystem.cs:62 | a move adds at most one record to each chunk |
| `ModelsWorld.CountIdAbsent` | Assets/Models/Systems/BroadphaseUpdateSystem.cs:77-81 | a chunk with no record of an id has no record carrying it |
| `ModelsWorld.CountIdTwo` | Assets/Models/Systems/BroadphaseUpdateSystem.cs:77-81 | two records of an id make its count at least two |
| `ModelsWorld.CountIdOne` | Assets/Models/Systems/BroadphaseUpdateSystem.cs:48-55 | when an id has one record, the loop's break finds that record |
| `ModelsWorld.ShiftedElement` | Assets/Models/Systems/BroadphaseUpdateSystem.cs:39-88 | after a move, a chunk's record of the mover exists only in a new chunk and carries the new box; every other record was there before or is a tombstone |
| `ModelsWorld.CreatedCarried` | Assets/Models/Systems/BroadpaseHelper.cs:10-19 | creating chunks keeps every record carrying its entity's registered box |
| `ModelsWorld.InsertedCarried` | Assets/Models/Systems/BroadphaseInitSystem.cs:37-56 | inserting an entity's records keeps every record carrying its entity's registered box, with that entity's box now the inserted one |
| `ModelsWorld.RelocatedCarried` | Assets/Models/Systems/BroadphaseUpdateSystem.cs:39-88 | a move keeps every record carrying its entity's registered box, with the mover's box now the new one |
| `ModelsWorld.DirtyRaised` | Assets/Models/Systems/BroadphaseUpdateSystem.cs:41 | a chunk marked dirty stays dirty while the system only sets the flag |
| `ModelsWorld.InsertedDirty` | Assets/Models/Systems/BroadphaseInitSystem.cs:37-50 | after an insertion the chunks of the keys are dirty, and no chunk that was dirty is cleared |
| `ModelsWorld.RelocatedDirty` | Assets/Models/Systems/BroadphaseUpdateSystem.cs:39-88 | after a move the chunks of the new keys are dirty, and no chunk that was dirty is cleared |
| `ModelsWorld.DirtyChunks` | Assets/Models/Systems/BroadphaseUpdateSystem.cs:41 | the chunks a component lists for dirty keys are non-null and dirty |
| `ModelsInit.AddRecords` | Assets/Models/Systems/BroadphaseInitSystem.cs:38-53 | the record is appended to the chunk of every key, in key order |
| `ModelsInit.Fill` | Assets/Models/Systems/BroadphaseInitSystem.cs:37-53 | the chunks of the box's cells are looked up or created, and each gains the record |
| `ModelsInit.Attach` | Assets/Models/Systems/BroadphaseInitSystem.cs:55-56 | a fresh component holds the chunks, with their keys and the box recorded |
| `ModelsInit.Insert` | Assets/Models/Systems/BroadphaseInitSystem.cs:29-56 | the entity is registered with its box, its record is (id, layer, `Equal(InvMass, 0)`, box copied by value), and each of its chunks gained it |
| `ModelsInit.Enroll` | Assets/Models/Systems/BroadphaseInitSystem.cs:29-56 | the loop body keeps the registration invariant |
| `ModelsInit.Visit` | Assets/Models/Systems/BroadphaseInitSystem.cs:27-57 | one more entity is done, and the invariant is kept |
| `ModelsInit.Run` | Assets/Models/Systems/BroadphaseInitSystem.cs:27-57 | the loop over the entities leaves all of them done |
| `ModelsInit.Started` | Assets/Models/Systems/BroadphaseInitSystem.cs:20-27 | the invariant on the world starts the loop with no entity done |
| `ModelsInit.Finished` | Assets/Models/Systems/BroadphaseInitSystem.cs:27-57 | at the end the invariant holds, every selected entity is registered with its box and lists only dirty chunks, and the others keep their component |
| `ModelsInit.Update` | Assets/Models/Systems/BroadphaseInitSystem.cs:20-58 | every selected entity is registered with its box and lists only dirty chunks, the others keep their component, and the invariant is kept, including that every record carries the box its entity was registered with |
| `ModelsUpdate.IndexOf` | Assets/Models/Systems/BroadphaseUpdateSystem.cs:43 | `IndexOf` finds the first slot that holds the chunk, or -1 when none does |
| `ModelsUpdate.PendingMatch` | Assets/Models/Systems/BroadphaseUpdateSystem.cs:43-46 | while the keys are matched, a new chunk is among the pending old slots exactly when its key is an old key, and only in that key's slot |
| `ModelsUpdate.EnteredLeft` | Assets/Models/Systems/BroadphaseUpdateSystem.cs:39-88 | the two loops together are the move `Relocated` describes |
| `ModelsUpdate.Enter` | Assets/Models/Systems/BroadphaseUpdateSystem.cs:39-70 | every new chunk is marked dirty and has the record refreshed or appended, and the matched old slots are nulled |
| `ModelsUpdate.Leave` | Assets/Models/Systems/BroadphaseUpdateSystem.cs:72-88 | every old chunk that is not also new has the record tombstoned |
| `ModelsUpdate.Shift` | Assets/Models/Systems/BroadphaseUpdateSystem.cs:39-88 | the two loops leave the view of the move `Relocated` describes |
| `ModelsUpdate.Relocate` | Assets/Models/Systems/BroadphaseUpdateSystem.cs:36-90 | the body moves from the chunks it lists to those of its new cells, and the component lists the new chunks |
| `ModelsUpdate.Move` | Assets/Models/Systems/BroadphaseUpdateSystem.cs:26-90 | the body's box is computed and it is registered with it, with its record copied by value |
| `ModelsUpdate.Follow` | Assets/Models/Systems/BroadphaseUpdateSystem.cs:26-90 | the loop body keeps the registration invariant |
| `ModelsUpdate.Step` | Assets/Models/Systems/BroadphaseUpdateSystem.cs:24-91 | one more entity is done, and every other entity keeps its agreement with the chunks |
| `ModelsUpdate.Run` | Assets/Models/Systems/BroadphaseUpdateSystem.cs:24-91 | the loop leaves every entity done |
| `ModelsUpdate.Swept` | Assets/Models/Systems/BroadphaseUpdateSystem.cs:24-91 | at the end, the invariant holds, every selected entity is registered with its box, and the others keep their list |
| `ModelsUpdate.Update` | Assets/Models/Systems/BroadphaseUpdateSystem.cs:19-92 | every selected entity is registered with the box of its components and lists only dirty chunks, every other component keeps its list, and the invariant is kept, including that every record carries the box its entity was registered with |

## Left out

- Floating point. Coordinates, masses and the variance are `real`, so rounding, NaN and infinities are not modelled.
  - The exception is the NaN comparison in `SpreadAxis`: with no record the quotients are 0 / 0 and the test is false, so the axis is 0, which the model states.
  - `Equal` uses the exact EPSILON.
  - sin and cos of the rotation are parameters of the AABB constructor and of the systems.
- Integer overflow of counters:
  - `Length++`, `2 * Length`, `PairLength++` and the resize to `2 * PairLength` are not modelled past `int.MaxValue`.
  - The methods require room for one more record (`Room` and `Length + 1 < int.MaxValue`).
  - The source would overflow there.
- `Grid.GetChunks`: the loops use `int` counters. The source's `short` counters never end when a bound is 32767, as `Grid.ShortCounterWraps` states.
- `Grid.CellCoord`: a floor outside the `short` range wraps to 16 bits. C# leaves that float-to-short conversion unspecified.
- `Assets/Physics/BroadphaseCalculatePairSystem.cs:29` reads `chunk.NeedRebuild`, which the Physics `SAPChunk` lacks. The model compacts every chunk before the sweep. `BuildChunks` returns at once when `FreeIndex >= Length`, and compaction is needed for the sweep's records to be live.
- `PhysicsPairs.SortRecords`: `Array.Sort` (an unstable introsort) is modelled as an insertion sort. Contracts promise only a sorted permutation, which is all the source relies on.
- `PhysicsPairs.Update`: the registration invariant across the pair system is not stated as `Consistent` on the world. It is derived by `PhysicsPairs.PermutedRegistry` from the contract of `Update`, which says that each chunk's records become a permutation of its live records.
- Dictionary enumeration order is unspecified in C#, so the pair system takes the order of the chunks as a parameter.
- The ECS world and its filters (MiniEcs `EcsWorld`, `EcsFilter`, `GetOrCreateSingleton`):
  - An entity is a class with optional components.
  - A filter is the selection predicate over a sequence of entities.
  - The singleton is an explicit parameter.
- `PhysicsUpdate.Update` uses the corrected test, which compares the cell sets rather than their hashes, so it does not keep a stale list the way the source does. The system as written is `PhysicsUpdate.UpdateAsWritten`, and `PhysicsUpdate.StaleAfterCollision` shows where the two differ.
- `PhysicsPairs.Update` and `PhysicsPairs.Collect` deduplicate with `Equals`, through `AddPair`. The source's `HashSet` uses the order-dependent `GetHashCode` and can keep both orientations of a pair; `BroadphasePair.BothOrientationsKept` and `PhysicsPairs.OppositeOrientations` model that.
- `ModelsInit.Update` and `ModelsUpdate.Update` state each record's box at system level, through `Consistent`, but not its layer or static flag. Those are stated per entity by `ModelsInit.Insert` and `ModelsUpdate.Move`. In the update system a record that stays in its chunk keeps the layer and flag it was appended with, and only a newly appended record takes the current ones.
- `PhysicsUpdate.Update` and `ModelsUpdate.Update` require that no two entities share a broadphase component, and that entity ids are distinct. The source takes both for granted.
- Arrays are `seq` fields: the record and pair buffers of a chunk are reassigned whole, and their length is the capacity.
  - Aliasing between two chunks' buffers cannot happen in the source either.
  - The singleton keeps a ghost map of each chunk's records (`Contents` / `View`), tied to the chunks by `Mirrors()`.
  - `ModelsEcs.BroadphaseRef` carries the ghost key list of its chunks.
- Exceptions:
  - A throwing `RemoveFormChunk` is reported by a `found` result.
  - A throwing `Check` or `GetLayer` is reported by `Failure`.
  - A failed sweep is reported by `ok == false`.
  - What the source leaves half-done after such an exception is stated only for the chunk reached.
- `ModelsHelper.GetChunks` creates all the chunks eagerly. The source's `yield` enumerator creates them as it goes, which ends in the same state once the list is built, as the update system does.
- The Models pair array holds `long` values and is never written by the Models files of this core, so only its capacity is modelled.
- `Assets/Models/Systems/Physics/BroadphaseInitSystem.cs` and `Assets/Models/Systems/Physics/BroadphaseUpdateSystem.cs` call helpers and component fields that no Models file defines, so they are not part of this model.
- `Assets/Physics/BroadphaseClearPairSystem.cs` only clears the pair set, which `PhysicsPairs.Clear` covers.
- Narrowphase contacts, impulse resolution, ray queries, velocity integration, spawning, input and presentation are not part of this model.

## Findings

| source | as written | input that shows it | evidently intended | confidence | as-written member | corrected member |
|---|---|---|---|---|---|---|
| Assets/Physics/BroadpaseHelper.cs:55-63 | `GetHashCode` is `(IdA * 397) ^ IdB`, so two pairs that `Equals` calls equal hash differently, and `HashSet.Add` keeps both orientations | `Pair(1, 2)` and `Pair(2, 1)`: hashes 399 and 795, both end up in `Pairs`; two chunks sorted on different axes report them so (`PhysicsPairs.OppositeOrientations`) | a hash symmetric in the two ids, so the set holds each unordered pair once | not executed | `BroadphasePair.BothOrientationsKept` | `BroadphasePair.OrderedHashCodeRespectsEquals` |
| Assets/Physics/BroadphaseUpdateSystem.cs:38-40 | the body keeps its chunk list whenever the new cell hash equals the stored one, but different cell sets can share a hash | a body over cells (0, 0)-(0, 1) moving to cells (0, 4)-(0, 5): both hash alike (1228 ^ 1535 == 0 ^ 307), so it stays listed in chunks it left and is missing from those it entered | re-register whenever the cell set changes | not executed | `PhysicsUpdate.StaleAfterCollision` | `PhysicsUpdate.RefreshChecked` |
| Assets/Physics/BroadpaseHelper.cs:88-89 | the loop counters of `GetChunks` are `short`, so `k <= maxX` always holds when `maxX` is 32767 and `k++` wraps | a box whose cell coordinate is 32767 on x | the loop ends after the last cell | not executed | `Grid.ShortCounterWraps` | `Grid.GetChunks` |
