/**
 * The uniform grid that partitions the plane into square chunks, and the
 * packing of a cell (x, y) into one 32-bit chunk key. Both revisions share
 * this logic: Assets/Physics/BroadpaseHelper.cs uses cells of size 50,
 * Assets/Models/Systems/Physics/BroadpaseHelper.cs 40 and
 * Assets/Models/Systems/BroadpaseHelper.cs 35.
 *
 * Cell coordinates are C# `short` values and keys are C# `int` values; both are
 * modelled as mathematical integers kept inside their ranges explicitly.
 */
module Grid {
  import opened MathHelper
  import opened Aabb

  const ShortMin: int := -32768
  const ShortMax: int := 32767
  /** 2^16: the number of distinct `short` (and `ushort`) values. */
  const Short16: int := 65536
  const Int32Min: int := -2147483648
  const Int32Max: int := 2147483647

  predicate IsShort(n: int) { ShortMin <= n <= ShortMax }

  predicate IsInt32(n: int) { Int32Min <= n <= Int32Max }

  /** The C# `(short)` conversion of an integer: the value with the same low 16 bits, read as two's complement. */
  function ToShort(n: int): (s: int)
    ensures IsShort(s)
    ensures (n - s) % Short16 == 0
    ensures IsShort(n) ==> s == n
  {
    var m := n % Short16;
    if m > ShortMax then m - Short16 else m
  }

  /** The C# `(ushort)` conversion: the low 16 bits read as an unsigned number. */
  function ToUShort(n: int): (u: int)
    ensures 0 <= u < Short16
    ensures (n - u) % Short16 == 0
  {
    n % Short16
  }

  /**
   * The cell coordinate of a world coordinate: `(short) floor(v / cellSize)`.
   * When the floor is a `short` already, the cell is the half-open interval
   * [c * cellSize, (c + 1) * cellSize) that holds v.
   */
  function CellCoord(v: real, cellSize: real): (c: int)
    requires cellSize > 0.0
    ensures IsShort(c)
    ensures IsShort((v / cellSize).Floor) ==> c == (v / cellSize).Floor
  {
    ToShort((v / cellSize).Floor)
  }

  /** An inclusive rectangle of cells, as the four loop bounds minX, minY, maxX, maxY. */
  datatype CellRange = CellRange(MinX: int, MinY: int, MaxX: int, MaxY: int) {
    predicate Valid()
    {
      IsShort(MinX) && IsShort(MinY) && IsShort(MaxX) && IsShort(MaxY)
    }

    predicate Has(x: int, y: int)
    {
      MinX <= x <= MaxX && MinY <= y <= MaxY
    }
  }

  /** Number of integers in [lo, hi]. */
  function Span(lo: int, hi: int): (n: nat)
    ensures lo <= hi ==> n == hi - lo + 1
    ensures lo > hi ==> n == 0
  {
    if lo <= hi then hi - lo + 1 else 0
  }

  /** The range of cells the box touches, with bounds computed as the source computes them. */
  function RangeOf(box: AABB, cellSize: real): (r: CellRange)
    requires cellSize > 0.0
    ensures r.Valid()
  {
    CellRange(CellCoord(box.Min.x, cellSize), CellCoord(box.Min.y, cellSize),
              CellCoord(box.Max.x, cellSize), CellCoord(box.Max.y, cellSize))
  }

  /** `(k << 16) | (ushort) j` for `short` k and j: the high half holds k, the low half the bits of j. */
  function Key(k: int, j: int): (key: int)
    requires IsShort(k) && IsShort(j)
    ensures IsInt32(key)
  {
    k * Short16 + ToUShort(j)
  }

  /** `key >> 16`: recovers the x coordinate of a cell key. */
  function KeyX(key: int): int
  {
    key / Short16
  }

  /** `(short) key`: recovers the y coordinate of a cell key. */
  function KeyY(key: int): int
  {
    ToShort(key % Short16)
  }

  /** `key >> 16` and `(short) key` recover the cell from its key. */
  lemma KeyDecode(k: int, j: int)
    requires IsShort(k) && IsShort(j)
    ensures KeyX(Key(k, j)) == k && KeyY(Key(k, j)) == j
  {
  }

  /** Packing is injective: distinct cells get distinct keys. */
  lemma KeyInjective(k1: int, j1: int, k2: int, j2: int)
    requires IsShort(k1) && IsShort(j1) && IsShort(k2) && IsShort(j2)
    ensures Key(k1, j1) == Key(k2, j2) <==> k1 == k2 && j1 == j2
  {
    KeyDecode(k1, j1);
    KeyDecode(k2, j2);
  }

  /** Packing is onto the 32-bit integers: every `int` is the key of exactly the cell it decodes to. */
  lemma KeySurjective(key: int)
    requires IsInt32(key)
    ensures IsShort(KeyX(key)) && IsShort(KeyY(key))
    ensures Key(KeyX(key), KeyY(key)) == key
  {
  }

  /** The keys of cells (k, lo), (k, lo + 1), ..., (k, hi): what the inner loop of GetChunks yields. */
  function ColumnKeys(k: int, lo: int, hi: int): (keys: seq<int>)
    requires IsShort(k) && ShortMin <= lo && hi <= ShortMax
    ensures |keys| == Span(lo, hi)
    ensures forall i :: 0 <= i < |keys| ==> keys[i] == Key(k, lo + i)
    decreases hi - lo
  {
    if lo > hi then [] else ColumnKeys(k, lo, hi - 1) + [Key(k, hi)]
  }

  /** The keys of columns MinX, MinX + 1, ..., k of the range, x-major. */
  function KeysThrough(r: CellRange, k: int): seq<int>
    requires r.Valid() && k <= ShortMax
    decreases k - r.MinX
  {
    if k < r.MinX then [] else KeysThrough(r, k - 1) + ColumnKeys(k, r.MinY, r.MaxY)
  }

  /** Every cell of the range, x-major: what GetChunks enumerates. */
  function Keys(r: CellRange): seq<int>
    requires r.Valid()
  {
    KeysThrough(r, r.MaxX)
  }

  lemma {:induction false} KeysThroughCount(r: CellRange, k: int)
    requires r.Valid() && k <= ShortMax
    ensures |KeysThrough(r, k)| == Span(r.MinX, k) * Span(r.MinY, r.MaxY)
    decreases k - r.MinX
  {
    if k >= r.MinX {
      KeysThroughCount(r, k - 1);
      var w, h := Span(r.MinX, k - 1), Span(r.MinY, r.MaxY);
      assert Span(r.MinX, k) == w + 1;
      assert (w + 1) * h == w * h + h;
    }
  }

  /** GetChunks yields (maxX - minX + 1) * (maxY - minY + 1) keys, or none when the range is empty. */
  lemma KeysCount(r: CellRange)
    requires r.Valid()
    ensures |Keys(r)| == Span(r.MinX, r.MaxX) * Span(r.MinY, r.MaxY)
  {
    KeysThroughCount(r, r.MaxX);
  }

  lemma ColumnMembership(k: int, lo: int, hi: int, key: int)
    requires IsShort(k) && ShortMin <= lo && hi <= ShortMax
    ensures key in ColumnKeys(k, lo, hi) <==> IsInt32(key) && KeyX(key) == k && lo <= KeyY(key) <= hi
  {
    var col := ColumnKeys(k, lo, hi);
    if key in col {
      var i :| 0 <= i < |col| && col[i] == key;
      KeyDecode(k, lo + i);
    }
    if IsInt32(key) && KeyX(key) == k && lo <= KeyY(key) <= hi {
      KeySurjective(key);
      assert col[KeyY(key) - lo] == key;
    }
  }

  /** A key is enumerated exactly when it is the key of a cell of the range. */
  lemma {:induction false} KeysThroughMembership(r: CellRange, k: int, key: int)
    requires r.Valid() && k <= r.MaxX
    ensures key in KeysThrough(r, k) <==> IsInt32(key) && KeyX(key) <= k && r.Has(KeyX(key), KeyY(key))
    decreases k - r.MinX
  {
    if k >= r.MinX {
      KeysThroughMembership(r, k - 1, key);
      ColumnMembership(k, r.MinY, r.MaxY, key);
    }
  }

  lemma KeysMembership(r: CellRange, key: int)
    requires r.Valid()
    ensures key in Keys(r) <==> IsInt32(key) && r.Has(KeyX(key), KeyY(key))
  {
    KeysThroughMembership(r, r.MaxX, key);
  }

  /** Cell (x1, y1) comes before (x2, y2) in x-major order. */
  predicate CellBefore(x1: int, y1: int, x2: int, y2: int)
  {
    x1 < x2 || (x1 == x2 && y1 < y2)
  }

  predicate XMajor(keys: seq<int>)
  {
    forall i, j :: 0 <= i < j < |keys| ==> CellBefore(KeyX(keys[i]), KeyY(keys[i]), KeyX(keys[j]), KeyY(keys[j]))
  }

  /** The i-th key of a column decodes to cell (k, lo + i). */
  lemma ColumnDecode(k: int, lo: int, hi: int)
    requires IsShort(k) && ShortMin <= lo && hi <= ShortMax
    ensures forall i :: 0 <= i < |ColumnKeys(k, lo, hi)| ==>
      KeyX(ColumnKeys(k, lo, hi)[i]) == k && KeyY(ColumnKeys(k, lo, hi)[i]) == lo + i
  {
    forall i | 0 <= i < |ColumnKeys(k, lo, hi)|
      ensures KeyX(ColumnKeys(k, lo, hi)[i]) == k && KeyY(ColumnKeys(k, lo, hi)[i]) == lo + i
    {
      KeyDecode(k, lo + i);
    }
  }

  lemma {:induction false} KeysThroughXMajor(r: CellRange, k: int)
    requires r.Valid() && k <= r.MaxX
    ensures XMajor(KeysThrough(r, k))
    decreases k - r.MinX
  {
    if k >= r.MinX {
      KeysThroughXMajor(r, k - 1);
      var prev, col := KeysThrough(r, k - 1), ColumnKeys(k, r.MinY, r.MaxY);
      forall i | 0 <= i < |prev|
        ensures KeyX(prev[i]) < k
      {
        KeysThroughMembership(r, k - 1, prev[i]);
      }
      ColumnDecode(k, r.MinY, r.MaxY);
      var all := prev + col;
      assert all == KeysThrough(r, k);
      forall i, j | 0 <= i < j < |all|
        ensures CellBefore(KeyX(all[i]), KeyY(all[i]), KeyX(all[j]), KeyY(all[j]))
      {
        if j < |prev| {
          assert all[i] == prev[i] && all[j] == prev[j];
        } else if i < |prev| {
          assert all[i] == prev[i] && all[j] == col[j - |prev|];
        } else {
          assert all[i] == col[i - |prev|] && all[j] == col[j - |prev|];
        }
      }
    }
  }

  /**
   * GetChunks yields every cell of the range exactly once, x-major: the keys
   * appear in strictly increasing (x, y) order, so none repeats.
   */
  lemma KeysXMajorDistinct(r: CellRange)
    requires r.Valid()
    ensures XMajor(Keys(r))
    ensures forall i, j :: 0 <= i < j < |Keys(r)| ==> Keys(r)[i] != Keys(r)[j]
  {
    KeysThroughXMajor(r, r.MaxX);
  }

  /**
   * The two nested loops of GetChunks(aabb) over the cells of `r`, which the
   * caller computes as RangeOf(aabb, cellSize). The loop counters are `int`
   * here; see ShortCounterWraps for the `short` counters of the source.
   */
  method GetChunks(r: CellRange) returns (keys: seq<int>)
    requires r.Valid()
    ensures keys == Keys(r)
  {
    keys := [];
    var k := r.MinX;
    while k <= r.MaxX
      invariant k == r.MinX || r.MinX < k <= r.MaxX + 1
      invariant keys == KeysThrough(r, k - 1)
      decreases r.MaxX - k
    {
      keys := AppendColumn(keys, k, r.MinY, r.MaxY);
      k := k + 1;
    }
    assert k - 1 == r.MaxX || k - 1 < r.MinX;
  }

  /** The inner loop of GetChunks: the keys of column `k`, from `lo` up to `hi`, follow `prefix`. */
  method AppendColumn(prefix: seq<int>, k: int, lo: int, hi: int) returns (keys: seq<int>)
    requires IsShort(k) && IsShort(lo) && IsShort(hi)
    ensures keys == prefix + ColumnKeys(k, lo, hi)
  {
    keys := prefix;
    var j := lo;
    while j <= hi
      invariant j == lo || lo < j <= hi + 1
      invariant keys == prefix + ColumnKeys(k, lo, j - 1)
      decreases hi - j
    {
      keys := keys + [Key(k, j)];
      j := j + 1;
    }
  }

  /** The `short` increment `k++`: 32767 + 1 wraps to -32768. */
  function ShortIncrement(k: int): (next: int)
    requires IsShort(k)
    ensures IsShort(next)
    ensures k < ShortMax ==> next == k + 1
  {
    ToShort(k + 1)
  }

  /**
   * With `short` loop counters, as in the source, a range whose upper bound
   * is 32767 never ends the loop: every counter value passes the test
   * `k <= 32767` and the increment keeps it a `short`.
   */
  lemma ShortCounterWraps(k: int)
    requires IsShort(k)
    ensures k <= ShortMax && ShortIncrement(k) <= ShortMax
    ensures ShortIncrement(ShortMax) == ShortMin
  {
  }

  /** Every point of the box lies in a cell the range covers, when no cell coordinate wraps. */
  lemma RangeCoversBox(box: AABB, cellSize: real, p: Float2)
    requires cellSize > 0.0
    requires Contains(box, p)
    requires IsShort((box.Min.x / cellSize).Floor) && IsShort((box.Max.x / cellSize).Floor)
    requires IsShort((box.Min.y / cellSize).Floor) && IsShort((box.Max.y / cellSize).Floor)
    ensures RangeOf(box, cellSize).Has((p.x / cellSize).Floor, (p.y / cellSize).Floor)
  {
    DivMonotone(box.Min.x, p.x, cellSize);
    DivMonotone(p.x, box.Max.x, cellSize);
    DivMonotone(box.Min.y, p.y, cellSize);
    DivMonotone(p.y, box.Max.y, cellSize);
  }

  lemma DivMonotone(a: real, b: real, c: real)
    requires c > 0.0 && a <= b
    ensures (a / c).Floor <= (b / c).Floor
  {
    assert a / c <= b / c by {
      assert b / c - a / c == (b - a) / c;
    }
  }

  /** A C# `int` value as its 32-bit two's complement pattern, so that `*` and `^` wrap as `unchecked` arithmetic does. */
  function ToBv32(n: int): bv32
  {
    (n % 0x1_0000_0000) as bv32
  }

  /** What one key contributes to the hash: `chunkId * 307`, wrapping. */
  function KeyTerm(key: int): bv32
  {
    ToBv32(key) * 307
  }

  /** What the number of keys contributes: `counter * 367`, wrapping. */
  function CountTerm(n: int): bv32
  {
    ToBv32(n) * 367
  }

  /** `acc`, then xor the term of every key in turn, as the foreach loop does. */
  function XorFrom(acc: bv32, keys: seq<int>): bv32
    decreases |keys|
  {
    if |keys| == 0 then acc else XorFrom(acc ^ KeyTerm(keys[0]), keys[1..])
  }

  /** The value CalculateChunksHash computes for the enumerated keys. */
  function ChunksHash(keys: seq<int>): bv32
  {
    XorFrom(647, keys) ^ CountTerm(|keys|)
  }

  /**
   * CalculateChunksHash(aabb): 647, xor every enumerated key times 307, xor
   * the number of keys times 367, all in wrapping 32-bit arithmetic. The
   * range is RangeOf(aabb, cellSize), computed by the caller.
   */
  method CalculateChunksHash(r: CellRange) returns (hash: bv32)
    requires r.Valid()
    ensures hash == ChunksHash(Keys(r))
  {
    var keys := GetChunks(r);
    hash := 647;
    var counter := 0;
    while counter < |keys|
      invariant 0 <= counter <= |keys|
      invariant XorFrom(hash, keys[counter..]) == XorFrom(647, keys)
    {
      XorFromStep(hash, keys, counter);
      hash := hash ^ KeyTerm(keys[counter]);
      counter := counter + 1;
    }
    assert counter == |keys| && keys[counter..] == [];
    hash := hash ^ CountTerm(counter);
  }

  /** One turn of the hash loop: the term of the next key moves into the accumulator. */
  lemma XorFromStep(acc: bv32, keys: seq<int>, c: int)
    requires 0 <= c < |keys|
    ensures XorFrom(acc, keys[c..]) == XorFrom(acc ^ KeyTerm(keys[c]), keys[c + 1..])
  {
    assert keys[c..][1..] == keys[c + 1..];
  }

  /** Two boxes that cover the same cells get the same hash: the hash depends on the range alone. */
  lemma SameRangeSameHash(a: AABB, b: AABB, cellSize: real)
    requires cellSize > 0.0
    requires RangeOf(a, cellSize) == RangeOf(b, cellSize)
    ensures ChunksHash(Keys(RangeOf(a, cellSize))) == ChunksHash(Keys(RangeOf(b, cellSize)))
  {
  }

  /**
   * The converse fails: the column of cells (0, 0)-(0, 1) and the column
   * (0, 4)-(0, 5) are disjoint but hash alike (1228 ^ 1535 == 0 ^ 307), so a
   * body that moves from the first to the second keeps its old chunk list
   * when the update compares hashes.
   */
  lemma HashCollision()
    ensures var r1, r2 := CellRange(0, 0, 0, 1), CellRange(0, 4, 0, 5);
            r1.Valid() && r2.Valid() &&
            (forall key :: key in Keys(r1) ==> key !in Keys(r2)) &&
            ChunksHash(Keys(r1)) == ChunksHash(Keys(r2))
  {
    CollidingKeys();
    CollidingHashes();
  }

  lemma CollidingKeys()
    ensures Keys(CellRange(0, 0, 0, 1)) == [0, 1] && Keys(CellRange(0, 4, 0, 5)) == [4, 5]
  {
    assert ColumnKeys(0, 0, 1) == [0, 1] by {
      assert ColumnKeys(0, 0, 0) == ColumnKeys(0, 0, -1) + [Key(0, 0)];
    }
    assert ColumnKeys(0, 4, 5) == [4, 5] by {
      assert ColumnKeys(0, 4, 4) == ColumnKeys(0, 4, 3) + [Key(0, 4)];
    }
    assert KeysThrough(CellRange(0, 0, 0, 1), -1) == [];
    assert KeysThrough(CellRange(0, 4, 0, 5), -1) == [];
  }

  lemma CollidingHashes()
    ensures ChunksHash([0, 1]) == ChunksHash([4, 5])
  {
    SmallKeyTerms();
    assert [0, 1][1..] == [1] && [4, 5][1..] == [5];
    assert [1][1..] == [] && [5][1..] == [];
    assert XorFrom(647, [0, 1]) == 647 ^ 0 ^ 307;
    assert XorFrom(647, [4, 5]) == 647 ^ 1228 ^ 1535;
  }

  lemma SmallKeyTerms()
    ensures KeyTerm(0) == 0 && KeyTerm(1) == 307 && KeyTerm(4) == 1228 && KeyTerm(5) == 1535
  {
    KeyTermOf(0);
    KeyTermOf(1);
    KeyTermOf(4);
    KeyTermOf(5);
  }

  lemma KeyTermOf(key: nat)
    requires key < 10
    ensures KeyTerm(key) == key as bv32 * 307
  {
    assert key % 0x1_0000_0000 == key;
  }
}
