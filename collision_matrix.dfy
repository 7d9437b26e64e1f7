/**
 * The collision-layer matrix of Assets/Physics/CollisionMatrix.cs. A table
 * names the layers and gives, as a triangle of flags, which pairs of layers
 * may collide; the constructor turns it into one bit per layer and one mask
 * per layer, and Check tests two layers against each other's masks.
 *
 * Every C# `int` here is a bit mask and is modelled as the set of its 1-bit
 * positions (0 to 31): `a | b` is union and `(a & b) == b` is inclusion.
 */
module CollisionMatrix {
  import opened Wrappers

  type Mask = set<nat>

  /**
   * The constructor's argument. `table[0]` is the list of layer names (the
   * name at index 0 gets no layer); `table[t]` for t >= 1 is a row label
   * followed by flags, and `(bool) table[t][j]` is `Rows[t - 1][j - 1]`.
   */
  datatype Table = Table(Names: seq<string>, Rows: seq<seq<bool>>)

  /** The masks and layer bits the constructor builds (`_data` and `_layers`). */
  datatype Matrix = Matrix(Data: map<Mask, Mask>, Layers: map<string, Mask>)

  /** `table[t].Count`, including the row label. */
  function RowCount(tb: Table, t: int): nat
    requires 1 <= t <= |tb.Rows|
  {
    |tb.Rows[t - 1]| + 1
  }

  /** `(bool) table[t][j]`. */
  function Flag(tb: Table, t: int, j: int): bool
    requires 1 <= t <= |tb.Rows| && 1 <= j < RowCount(tb, t)
  {
    tb.Rows[t - 1][j - 1]
  }

  /**
   * `layers[i]`: 0 for index 0, then 1, 2, 4, ... as `layer *= 2` doubles it;
   * past bit 31 the 32-bit product wraps to 0.
   */
  function LayerBit(i: int): (m: Mask)
    ensures 1 <= i <= 32 ==> m == {i - 1}
    ensures i <= 0 || i > 32 ==> m == {}
  {
    if i <= 0 || i > 32 then {} else {i - 1}
  }

  /** `layer * 2` on a 32-bit int: every bit moves up one place and bit 31 falls off. */
  function Double(m: Mask): Mask
  {
    set b | b in m && b < 31 :: b + 1
  }

  /** Two names after index 0 coincide: `_layers.Add` throws. */
  predicate DuplicateName(tb: Table)
  {
    exists a, b :: 1 <= a < b < |tb.Names| && tb.Names[a] == tb.Names[b]
  }

  /** The row the constructor reads for layer i, `table[layers.Count - i]`, does not exist. */
  predicate RowMissing(tb: Table, i: int)
  {
    |tb.Names| - i > |tb.Rows|
  }

  /** A set flag in the row of layer i lies past the last layer, so `layers[j]` throws. */
  predicate RowFlagOutOfRange(tb: Table, i: int)
    requires 1 <= i < |tb.Names| && !RowMissing(tb, i)
  {
    var t := |tb.Names| - i;
    exists j :: 1 <= j < RowCount(tb, t) && j >= |tb.Names| && Flag(tb, t, j)
  }

  /** A row above the one of layer i is too short to have column i, so `table[j][i]` throws. */
  predicate ColumnMissing(tb: Table, i: int)
    requires 1 <= i < |tb.Names| && !RowMissing(tb, i)
  {
    exists j :: 2 <= j <= |tb.Names| - i - 1 && i >= RowCount(tb, j)
  }

  /** The i-th round of the mask loop throws; from i = 34 on the layer bit is 0 again, so `_data.Add` throws. */
  predicate StepFails(tb: Table, i: int)
    requires 1 <= i < |tb.Names|
  {
    RowMissing(tb, i) || RowFlagOutOfRange(tb, i) || ColumnMissing(tb, i) || i >= 34
  }

  /** The constructor throws. */
  predicate BuildFails(tb: Table)
  {
    DuplicateName(tb) || exists i :: 1 <= i < |tb.Names| && StepFails(tb, i)
  }

  /** Bits the first inner loop collects for layer i: the set flags of its row. */
  function RowPart(tb: Table, i: int): Mask
    requires 1 <= i < |tb.Names| && !RowMissing(tb, i)
  {
    var t := |tb.Names| - i;
    set j | 1 <= j < RowCount(tb, t) && j <= 32 && Flag(tb, t, j) :: j - 1
  }

  /** Bits the second inner loop collects for layer i: column i of rows `table[n - i - 1]` down to `table[2]`, i.e. of layers i + 1 to n - 2. */
  function ColumnPart(tb: Table, i: int): Mask
    requires 1 <= i < |tb.Names| && !RowMissing(tb, i) && !ColumnMissing(tb, i)
  {
    var n := |tb.Names|;
    set j | 2 <= j <= n - i - 1 && n - j <= 32 && Flag(tb, j, i) :: n - j - 1
  }

  function MaskOf(tb: Table, i: int): Mask
    requires 1 <= i < |tb.Names| && !StepFails(tb, i)
  {
    RowPart(tb, i) + ColumnPart(tb, i)
  }

  /** No two names among indices 1 to i - 1 coincide. */
  predicate DistinctBelow(tb: Table, i: int)
    requires i <= |tb.Names|
  {
    forall a, b :: 1 <= a < b < i ==> tb.Names[a] != tb.Names[b]
  }

  /** `_layers` after the names at indices 1 to i - 1 are registered. */
  function LayersBelow(tb: Table, i: int): map<string, Mask>
    requires i <= |tb.Names|
  {
    if i <= 1 then map[] else LayersBelow(tb, i - 1)[tb.Names[i - 1] := LayerBit(i - 1)]
  }

  /** The layer bits a construction without duplicate names registers. */
  function ExpectedLayers(tb: Table): map<string, Mask>
    requires !DuplicateName(tb)
  {
    LayersBelow(tb, |tb.Names|)
  }

  /** The registered names are exactly those at indices 1 to i - 1. */
  lemma {:induction false} LayersBelowKeys(tb: Table, i: int, name: string)
    requires i <= |tb.Names|
    ensures name in LayersBelow(tb, i) <==> exists a :: 1 <= a < i && tb.Names[a] == name
  {
    if i > 1 {
      LayersBelowKeys(tb, i - 1, name);
    }
  }

  /** With distinct names, each name maps to the bit of its own index. */
  lemma {:induction false} LayersBelowValue(tb: Table, i: int, a: int)
    requires i <= |tb.Names| && DistinctBelow(tb, i) && 1 <= a < i
    ensures tb.Names[a] in LayersBelow(tb, i) && LayersBelow(tb, i)[tb.Names[a]] == LayerBit(a)
  {
    if a < i - 1 {
      LayersBelowValue(tb, i - 1, a);
    }
  }

  /** `_data` after the masks of layers 1 to i - 1 are added. */
  function DataBelow(tb: Table, i: int): map<Mask, Mask>
    requires i <= 1 || i <= |tb.Names|
    requires forall a :: 1 <= a < i ==> !StepFails(tb, a)
  {
    if i <= 1 then map[] else DataBelow(tb, i - 1)[LayerBit(i - 1) := MaskOf(tb, i - 1)]
  }

  /** The masks a successful construction stores, keyed by layer bit. */
  function ExpectedData(tb: Table): map<Mask, Mask>
    requires !BuildFails(tb)
  {
    DataBelow(tb, |tb.Names|)
  }

  /** The matrix a successful construction yields. */
  function Expected(tb: Table): Matrix
    requires !BuildFails(tb)
  {
    Matrix(ExpectedData(tb), ExpectedLayers(tb))
  }

  /** The stored keys are the bits of layers 1 to i - 1. */
  lemma {:induction false} DataBelowKeys(tb: Table, i: int, key: Mask)
    requires i <= 1 || i <= |tb.Names|
    requires forall a :: 1 <= a < i ==> !StepFails(tb, a)
    ensures key in DataBelow(tb, i) <==> exists a :: 1 <= a < i && LayerBit(a) == key
  {
    if i > 1 {
      DataBelowKeys(tb, i - 1, key);
    }
  }

  /** The mask stored under the bit of layer a is the one its row and column give. */
  lemma {:induction false} DataBelowValue(tb: Table, i: int, a: int)
    requires 1 <= a < i <= |tb.Names|
    requires forall c :: 1 <= c < i ==> !StepFails(tb, c)
    ensures LayerBit(a) in DataBelow(tb, i) && DataBelow(tb, i)[LayerBit(a)] == MaskOf(tb, a)
  {
    if a < i - 1 {
      DataBelowValue(tb, i - 1, a);
      assert LayerBit(i - 1) != LayerBit(a) by {
        assert !StepFails(tb, i - 1);
      }
    }
  }

  /**
   * The constructor CollisionMatrix(table): first the layer bits, one per
   * name after index 0, then one mask per layer from its row and from column
   * i of the rows above it.
   */
  method Build(tb: Table) returns (r: Result<Matrix>)
    ensures r.Failure? <==> BuildFails(tb)
    ensures r.Success? ==> !BuildFails(tb) && r.value == Expected(tb)
  {
    var n := |tb.Names|;
    var ok, layersOf, layers := RegisterLayers(tb);
    if !ok {
      return Failure;
    }
    var data: map<Mask, Mask> := map[];
    var i := 1;
    while i < n
      invariant i == 1 || 1 <= i <= n
      invariant forall a :: 1 <= a < i ==> !StepFails(tb, a)
      invariant data == DataBelow(tb, i)
    {
      var mask := MaskStep(tb, i, layers);
      if mask.Failure? {
        assert StepFails(tb, i);
        return Failure;
      }
      DataBelowKeys(tb, i, layers[i]);
      if layers[i] in data {
        assert i >= 34 by {
          var a :| 1 <= a < i && LayerBit(a) == LayerBit(i);
          LayerBitInjective(a, i);
        }
        assert StepFails(tb, i);
        return Failure;
      }
      data := data[layers[i] := mask.value];
      i := i + 1;
    }
    assert data == DataBelow(tb, n);
    r := Success(Matrix(data, layersOf));
  }

  /** The name loop: `layers` gets 0 and then one doubling bit per name, `_layers` maps each name to its bit, and a repeated name throws. */
  method RegisterLayers(tb: Table) returns (ok: bool, layersOf: map<string, Mask>, layers: seq<Mask>)
    ensures ok <==> !DuplicateName(tb)
    ensures ok ==> layersOf == ExpectedLayers(tb) && layers == seq(|tb.Names|, a => LayerBit(a))
  {
    var n := |tb.Names|;
    layersOf, layers := map[], [];
    if n > 0 {
      layers := [{}];
      var layer: Mask := {0};
      var i := 1;
      while i < n
        invariant 1 <= i <= n
        invariant layer == LayerBit(i)
        invariant layers == seq(i, a => LayerBit(a))
        invariant DistinctBelow(tb, i)
        invariant layersOf == LayersBelow(tb, i)
      {
        LayersBelowKeys(tb, i, tb.Names[i]);
        if tb.Names[i] in layersOf {
          return false, layersOf, layers;
        }
        layersOf := layersOf[tb.Names[i] := layer];
        layers := layers + [layer];
        layer := Double(layer);
        i := i + 1;
      }
    }
    ok := true;
  }

  /** One round of the mask loop for layer i: read its row, then its column, or Failure where the constructor throws. */
  method MaskStep(tb: Table, i: int, layers: seq<Mask>) returns (r: Result<Mask>)
    requires 1 <= i < |tb.Names|
    requires layers == seq(|tb.Names|, a => LayerBit(a))
    ensures r.Failure? <==> RowMissing(tb, i) || RowFlagOutOfRange(tb, i) || ColumnMissing(tb, i)
    ensures r.Success? ==> r.value == RowPart(tb, i) + ColumnPart(tb, i)
  {
    if RowMissing(tb, i) {
      return Failure;
    }
    var row := RowLoop(tb, i, layers);
    if row.Failure? {
      return Failure;
    }
    r := ColumnLoop(tb, i, layers, row.value);
  }

  /** Distinct indices up to 32 get distinct bits; 0 and everything past 32 share the empty mask. */
  lemma LayerBitInjective(a: nat, b: nat)
    requires a < b && LayerBit(a) == LayerBit(b)
    ensures a == 0 || a >= 33
  {
  }

  /** The first inner loop for layer i: the flags of row `table[n - i]`, or Failure when a set flag has no layer. */
  method RowLoop(tb: Table, i: int, layers: seq<Mask>) returns (r: Result<Mask>)
    requires 1 <= i < |tb.Names| && !RowMissing(tb, i)
    requires layers == seq(|tb.Names|, a => LayerBit(a))
    ensures r.Failure? <==> RowFlagOutOfRange(tb, i)
    ensures r.Success? ==> r.value == RowPart(tb, i)
  {
    var n, t := |tb.Names|, |tb.Names| - i;
    var result: Mask := {};
    var j := 1;
    while j < RowCount(tb, t)
      invariant 1 <= j <= RowCount(tb, t)
      invariant forall b :: 1 <= b < j && Flag(tb, t, b) ==> b < n
      invariant result == set b | 1 <= b < j && b <= 32 && Flag(tb, t, b) :: b - 1
    {
      if Flag(tb, t, j) {
        if j >= n {
          return Failure;
        }
        result := result + layers[j];
      }
      j := j + 1;
    }
    r := Success(result);
  }

  /** The second inner loop for layer i: j from n - i - 1 down to 2 while k counts up from i + 1. */
  method ColumnLoop(tb: Table, i: int, layers: seq<Mask>, rowPart: Mask) returns (r: Result<Mask>)
    requires 1 <= i < |tb.Names| && !RowMissing(tb, i)
    requires layers == seq(|tb.Names|, a => LayerBit(a))
    ensures r.Failure? <==> ColumnMissing(tb, i)
    ensures r.Success? ==> r.value == rowPart + ColumnPart(tb, i)
  {
    var n := |tb.Names|;
    var result := rowPart;
    var k := i + 1;
    var j := n - i - 1;
    while j > 1
      invariant j <= n - i - 1 && k == n - j
      invariant forall c :: j < c <= n - i - 1 && 2 <= c ==> i < RowCount(tb, c)
      invariant result == rowPart + set c | j < c <= n - i - 1 && 2 <= c && n - c <= 32 && Flag(tb, c, i) :: n - c - 1
    {
      if i >= RowCount(tb, j) {
        return Failure;
      }
      if Flag(tb, j, i) {
        result := result + layers[k];
      }
      j := j - 1;
      k := k + 1;
    }
    r := Success(result);
  }

  /** `GetLayer(id)`: the bit of a registered name; an unregistered name throws. */
  function GetLayer(m: Matrix, name: string): (r: Result<Mask>)
    ensures r.Success? <==> name in m.Layers
    ensures r.Success? ==> r.value == m.Layers[name]
  {
    if name in m.Layers then Success(m.Layers[name]) else Failure
  }

  /**
   * `Check(layer1, layer2)`: layer2's bits lie in layer1's mask, or else
   * layer1's bits lie in layer2's mask. A layer without a mask throws when
   * it is looked up; the first lookup is skipped when the first test holds.
   */
  function Check(m: Matrix, layer1: Mask, layer2: Mask): Result<bool>
  {
    if layer1 !in m.Data then Failure
    else if layer2 <= m.Data[layer1] then Success(true)
    else if layer2 !in m.Data then Failure
    else Success(layer1 <= m.Data[layer2])
  }

  /** Check succeeds on exactly the inputs described above and is then symmetric in its arguments. */
  lemma CheckDefinedSymmetric(m: Matrix, a: Mask, b: Mask)
    ensures Check(m, a, b).Failure? <==> a !in m.Data || (b !in m.Data && !(b <= m.Data[a]))
    ensures a in m.Data && b in m.Data ==> Check(m, a, b) == Check(m, b, a)
    ensures a in m.Data ==> Check(m, a, {}) == Success(true)
  {
  }

  /** A table shaped as the constructor expects: one row per layer, the row of layer i at `table[n - i]` with i flags. */
  predicate Triangular(tb: Table)
  {
    |tb.Names| >= 1 && |tb.Rows| >= |tb.Names| - 1 &&
    forall t :: 1 <= t < |tb.Names| ==> RowCount(tb, t) == |tb.Names| - t + 1
  }

  /** Layers a and b (1-based) may collide by the table: the flag in the row of the later one, at the column of the earlier one. */
  function Allowed(tb: Table, a: int, b: int): bool
    requires Triangular(tb) && 1 <= a < |tb.Names| && 1 <= b < |tb.Names|
  {
    var lo, hi := if a <= b then a else b, if a <= b then b else a;
    Flag(tb, |tb.Names| - hi, lo)
  }

  /**
   * For a triangular table with distinct names and at most 32 layers, the
   * constructor succeeds, and Check on the bits of layers a and b answers
   * exactly the table's flag for the pair.
   */
  lemma CheckMatchesTable(tb: Table, a: int, b: int)
    requires Triangular(tb) && !DuplicateName(tb) && |tb.Names| <= 33
    requires 1 <= a < |tb.Names| && 1 <= b < |tb.Names|
    ensures !BuildFails(tb)
    ensures Check(Expected(tb), LayerBit(a), LayerBit(b)) == Success(Allowed(tb, a, b))
  {
    TriangularBuilds(tb);
    DataAt(tb, a);
    DataAt(tb, b);
    MaskMembership(tb, a, b);
    MaskMembership(tb, b, a);
  }

  /** The mask stored under the bit of layer i is the one its row and column give. */
  lemma DataAt(tb: Table, i: int)
    requires !BuildFails(tb) && 1 <= i < |tb.Names|
    ensures LayerBit(i) in Expected(tb).Data && Expected(tb).Data[LayerBit(i)] == MaskOf(tb, i)
  {
    DataBelowValue(tb, |tb.Names|, i);
  }

  /** A triangular table with distinct names and at most 32 layers builds. */
  lemma TriangularBuilds(tb: Table)
    requires Triangular(tb) && !DuplicateName(tb) && |tb.Names| <= 33
    ensures !BuildFails(tb)
  {
    forall i | 1 <= i < |tb.Names|
      ensures !StepFails(tb, i)
    {
      assert !RowMissing(tb, i);
      assert !RowFlagOutOfRange(tb, i);
      assert !ColumnMissing(tb, i);
    }
  }

  /** Bit b - 1 is in the mask of layer a exactly when the table allows (a, b), except that the last layer's bit is only in masks through its own row. */
  lemma MaskMembership(tb: Table, a: int, b: int)
    requires Triangular(tb) && !DuplicateName(tb) && |tb.Names| <= 33
    requires 1 <= a < |tb.Names| && 1 <= b < |tb.Names|
    requires !StepFails(tb, a)
    ensures b <= a ==> (b - 1 in MaskOf(tb, a) <==> Allowed(tb, a, b))
    ensures a < b < |tb.Names| - 1 ==> (b - 1 in MaskOf(tb, a) <==> Allowed(tb, a, b))
    ensures a < b ==> (b - 1 in MaskOf(tb, a) ==> Allowed(tb, a, b))
  {
    var n := |tb.Names|;
    if b <= a {
      assert b - 1 !in ColumnPart(tb, a);
      if Allowed(tb, a, b) {
        assert b - 1 in RowPart(tb, a);
      }
    } else {
      assert b - 1 !in RowPart(tb, a);
      if b < n - 1 && Allowed(tb, a, b) {
        var j := n - b;
        assert 2 <= j <= n - a - 1 && Flag(tb, j, a);
        assert b - 1 in ColumnPart(tb, a);
      }
      if b - 1 in ColumnPart(tb, a) {
        var j :| 2 <= j <= n - a - 1 && n - j <= 32 && Flag(tb, j, a) && n - j - 1 == b - 1;
      }
    }
  }

  /** The table of Assets/PhysicsScene.cs:30-37: None, yellow, blue, Default. */
  function SceneTable(): Table
  {
    Table(["None", "yellow", "blue", "Default"], [[true, true, true], [false, true], [true]])
  }

  /** The scene's table builds, and its names get bits 0, 1 and 2. */
  lemma SceneLayers()
    ensures !BuildFails(SceneTable())
    ensures Expected(SceneTable()).Layers == map["yellow" := {0}, "blue" := {1}, "Default" := {2}]
  {
    var tb := SceneTable();
    assert Triangular(tb);
    assert !DuplicateName(tb);
    TriangularBuilds(tb);
    assert LayersBelow(tb, 2) == map["yellow" := {0}];
    assert LayersBelow(tb, 3) == map["yellow" := {0}, "blue" := {1}];
  }

  /** With the scene's table yellow meets yellow, blue meets blue, Default meets every layer, and yellow and blue pass through each other. */
  lemma SceneMatrix()
    ensures !BuildFails(SceneTable())
    ensures Check(Expected(SceneTable()), {0}, {0}) == Success(true)
    ensures Check(Expected(SceneTable()), {1}, {1}) == Success(true)
    ensures Check(Expected(SceneTable()), {0}, {1}) == Success(false)
    ensures forall x :: 1 <= x <= 3 ==> Check(Expected(SceneTable()), {2}, LayerBit(x)) == Success(true)
  {
    var tb := SceneTable();
    assert Triangular(tb);
    assert !DuplicateName(tb);
    CheckMatchesTable(tb, 1, 1);
    CheckMatchesTable(tb, 2, 2);
    CheckMatchesTable(tb, 1, 2);
    CheckMatchesTable(tb, 3, 1);
    CheckMatchesTable(tb, 3, 2);
    CheckMatchesTable(tb, 3, 3);
  }
}
