/**
 * The pair search of the Physics revision
 * (Assets/Physics/BroadphaseCalculatePairSystem.cs): each chunk is compacted,
 * its records are sorted on one axis and swept for overlapping pairs, and the
 * pairs of all chunks are gathered in the singleton's pair set.
 *
 * The sweep is proved equal to a brute-force reference: every index pair
 * i < j of the sorted records, in order, filtered by the same three tests.
 */
module PhysicsPairs {
  import opened MathHelper
  import opened Aabb
  import opened Wrappers
  import opened BroadphasePair
  import opened CollisionMatrix
  import opened PhysicsEcs
  import opened PhysicsHelper
  import opened PhysicsWorld

  /** A record as the sweep sees it: its entity's id, its layer, its static flag and the box its pointer designates. */
  datatype Entry = Entry(Id: nat, Layer: Mask, IsStatic: bool, Box: AABB)

  /** A record the sweep can read: it names an entity and points at a box. */
  predicate Live(r: Record)
  {
    r.Entity != null && r.Box != null
  }

  predicate AllLive(s: seq<Record>)
  {
    forall t :: 0 <= t < |s| ==> Live(s[t])
  }

  /** The components whose boxes the records point at. */
  ghost function BoxesIn(s: seq<Record>): set<BroadphaseRef>
  {
    set i | 0 <= i < |s| && s[i].Box != null :: s[i].Box
  }

  ghost function EntryOf(r: Record): Entry
    reads r.Box`AABB
    requires Live(r)
  {
    Entry(r.Entity.Id, r.Layer, r.IsStatic, r.Box.AABB)
  }

  /** `e` is what the sweep reads through the records `s`. */
  ghost predicate Shows(s: seq<Record>, e: seq<Entry>)
    reads BoxesIn(s)`AABB
  {
    |s| == |e| && forall t :: 0 <= t < |s| ==> Live(s[t]) && EntryOf(s[t]) == e[t]
  }

  /** The entries of live records. */
  ghost function Entries(s: seq<Record>): (e: seq<Entry>)
    reads BoxesIn(s)`AABB
    requires forall t :: 0 <= t < |s| ==> Live(s[t])
    ensures Shows(s, e)
    decreases |s|
  {
    if s == [] then []
    else
      var init := s[..|s| - 1];
      assert BoxesIn(init) <= BoxesIn(s) by {
        forall t | 0 <= t < |init| && init[t].Box != null
          ensures init[t].Box in BoxesIn(s)
        {
          assert init[t] == s[t];
        }
      }
      Entries(init) + [EntryOf(s[|s| - 1])]
  }

  /** What the records show is their entries. */
  lemma ShownEntries(s: seq<Record>, e: seq<Entry>)
    requires Shows(s, e)
    ensures AllLive(s) && Entries(s) == e
  {
  }

  /** The sort key: `Min[axis]` of the box. */
  function Low(e: Entry, axis: int): real
    requires 0 <= axis <= 1
  {
    e.Box.Min.At(axis)
  }

  /** Ascending in `Min[axis]`: what Array.Sort with the AABBComparer leaves (lines 49-50, 90-105). */
  predicate SortedOn(e: seq<Entry>, axis: int)
    requires 0 <= axis <= 1
  {
    forall a, b :: 0 <= a < b < |e| ==> Low(e[a], axis) <= Low(e[b], axis)
  }

  /**
   * The three tests of lines 66-76, in order: two static bodies are skipped,
   * then boxes that do not overlap, then layers the matrix rejects; the
   * matrix lookup throws on a layer it does not know.
   */
  function Admit(a: Entry, b: Entry, m: Matrix): Result<bool>
  {
    if a.IsStatic && b.IsStatic then Success(false)
    else if !Overlap(a.Box, b.Box) then Success(false)
    else Check(m, a.Layer, b.Layer)
  }

  /** A list of pairs grown by the pair (a, b) when it is admitted; a failure stays a failure. */
  function Extend(acc: Result<seq<Pair>>, a: Entry, b: Entry, m: Matrix): Result<seq<Pair>>
  {
    if acc.Failure? then Failure
    else
      match Admit(a, b, m)
      case Failure => Failure
      case Success(keep) => Success(acc.value + if keep then [Pair(a.Id, b.Id)] else [])
  }

  function Join(x: Result<seq<Pair>>, y: Result<seq<Pair>>): Result<seq<Pair>>
  {
    if x.Failure? || y.Failure? then Failure else Success(x.value + y.value)
  }

  /** The admitted pairs (i, j) for i < j < hi, in order of j. */
  function RowPairs(e: seq<Entry>, i: int, hi: int, m: Matrix): Result<seq<Pair>>
    requires 0 <= i < hi <= |e|
    decreases hi
  {
    if hi == i + 1 then Success([]) else Extend(RowPairs(e, i, hi - 1, m), e[i], e[hi - 1], m)
  }

  /** The admitted pairs of the rows i < n, row after row. */
  function SweepPairs(e: seq<Entry>, n: int, m: Matrix): Result<seq<Pair>>
    requires 0 <= n <= |e|
  {
    if n == 0 then Success([]) else Join(SweepPairs(e, n - 1, m), RowPairs(e, n - 1, |e|, m))
  }

  /** The brute-force reference: every index pair i < j, in order. */
  function BrutePairs(e: seq<Entry>, m: Matrix): Result<seq<Pair>>
  {
    SweepPairs(e, |e|, m)
  }

  /**
   * Two chunks can report the same two bodies in opposite orders: two
   * overlapping dynamic boxes on one layer come out as (1, 2) from a chunk
   * sorted along x and as (2, 1) from a chunk sorted along y. Gathered with
   * AddAsWritten, both stay in the singleton's set.
   */
  lemma OppositeOrientations()
    ensures var m := Matrix(map[{0} := {0}], map[]);
      var a := Entry(1, {0}, false, AABB(Float2(0.0, 10.0), Float2(20.0, 30.0)));
      var b := Entry(2, {0}, false, AABB(Float2(10.0, 0.0), Float2(30.0, 20.0)));
      SortedOn([a, b], 0) && SortedOn([b, a], 1) &&
      BrutePairs([a, b], m) == Success([Pair(1, 2)]) && BrutePairs([b, a], m) == Success([Pair(2, 1)]) &&
      AddAsWritten(AddAsWritten({}, Pair(1, 2)), Pair(2, 1)) == {Pair(1, 2), Pair(2, 1)}
  {
    var m := Matrix(map[{0} := {0}], map[]);
    var a := Entry(1, {0}, false, AABB(Float2(0.0, 10.0), Float2(20.0, 30.0)));
    var b := Entry(2, {0}, false, AABB(Float2(10.0, 0.0), Float2(30.0, 20.0)));
    assert Check(m, {0}, {0}) == Success(true);
    TwoBodies(a, b, m);
    TwoBodies(b, a, m);
    BothOrientationsKept();
  }

  /** Two bodies the tests admit make one pair, in the order of the sorted records. */
  lemma TwoBodies(x: Entry, y: Entry, m: Matrix)
    requires Admit(x, y, m) == Success(true)
    ensures BrutePairs([x, y], m) == Success([Pair(x.Id, y.Id)])
  {
    var e := [x, y];
    assert e[0] == x && e[1] == y && RowPairs(e, 0, 1, m) == Success([]);
    assert [] + [Pair(x.Id, y.Id)] == [Pair(x.Id, y.Id)];
    assert RowPairs(e, 0, 2, m) == Success([Pair(x.Id, y.Id)]);
    assert RowPairs(e, 1, 2, m) == Success([]);
    assert SweepPairs(e, 0, m) == Success([]);
    assert SweepPairs(e, 1, m) == Success([Pair(x.Id, y.Id)]);
    assert [Pair(x.Id, y.Id)] + [] == [Pair(x.Id, y.Id)];
    assert SweepPairs(e, 2, m) == Success([Pair(x.Id, y.Id)]);
  }

  /** A row fails exactly when one of its tests throws, and otherwise holds exactly the admitted pairs. */
  lemma {:induction false} RowPairsSpec(e: seq<Entry>, i: int, hi: int, m: Matrix)
    requires 0 <= i < hi <= |e|
    ensures RowPairs(e, i, hi, m).Success? <==> forall j :: i < j < hi ==> Admit(e[i], e[j], m).Success?
    ensures RowPairs(e, i, hi, m).Success? ==> forall p :: p in RowPairs(e, i, hi, m).value <==>
      exists j :: i < j < hi && Admit(e[i], e[j], m) == Success(true) && p == Pair(e[i].Id, e[j].Id)
  {
    if hi > i + 1 {
      RowPairsSpec(e, i, hi - 1, m);
    }
  }

  /**
   * Soundness and completeness of the pair list: the search fails exactly
   * when a test of some index pair throws; otherwise a pair is listed
   * exactly when it is the pair of some i < j whose records are not both
   * static, whose boxes overlap and whose layers the matrix admits.
   */
  lemma {:induction false} SweepPairsSpec(e: seq<Entry>, n: int, m: Matrix)
    requires 0 <= n <= |e|
    ensures SweepPairs(e, n, m).Success? <==> forall i, j :: 0 <= i < n && i < j < |e| ==> Admit(e[i], e[j], m).Success?
    ensures SweepPairs(e, n, m).Success? ==> forall p :: p in SweepPairs(e, n, m).value <==>
      exists i, j :: 0 <= i < n && i < j < |e| && Admit(e[i], e[j], m) == Success(true) && p == Pair(e[i].Id, e[j].Id)
  {
    if n > 0 {
      SweepPairsSpec(e, n - 1, m);
      RowPairsSpec(e, n - 1, |e|, m);
    }
  }

  /**
   * The early exit of the inner loop (lines 65-66) loses nothing: once a
   * record starts beyond the end of `e[i]` on the sort axis, so do all later
   * ones, none of them overlaps `e[i]`, and the rest of the row adds nothing.
   */
  lemma {:induction false} RowCutoff(e: seq<Entry>, i: int, j: int, hi: int, m: Matrix, axis: int)
    requires 0 <= axis <= 1 && SortedOn(e, axis)
    requires 0 <= i < j < |e| && j <= hi <= |e|
    requires Low(e[j], axis) > e[i].Box.Max.At(axis)
    ensures RowPairs(e, i, hi, m) == RowPairs(e, i, j, m)
  {
    if hi > j {
      RowCutoff(e, i, j, hi - 1, m, axis);
      assert Low(e[j], axis) <= Low(e[hi - 1], axis);
      assert Admit(e[i], e[hi - 1], m) == Success(false);
      var acc := RowPairs(e, i, hi - 1, m);
      assert acc.Success? ==> acc.value + [] == acc.value;
    }
  }

  /** One more record of row i: the row fails, stays as it is, or gains the pair, as the three tests decide. */
  lemma RowNext(e: seq<Entry>, i: int, j: int, m: Matrix)
    requires 0 <= i < j < |e| && RowPairs(e, i, j, m).Success?
    ensures Admit(e[i], e[j], m).Failure? ==> RowPairs(e, i, j + 1, m).Failure?
    ensures Admit(e[i], e[j], m) == Success(false) ==> RowPairs(e, i, j + 1, m) == RowPairs(e, i, j, m)
    ensures Admit(e[i], e[j], m) == Success(true) ==>
      RowPairs(e, i, j + 1, m) == Success(RowPairs(e, i, j, m).value + [Pair(e[i].Id, e[j].Id)])
  {
    assert RowPairs(e, i, j, m).value + [] == RowPairs(e, i, j, m).value;
  }

  /** A failure early in a row or a sweep is the failure of the whole sweep. */
  lemma {:induction false} RowFailure(e: seq<Entry>, i: int, j: int, hi: int, m: Matrix)
    requires 0 <= i < j <= hi <= |e| && RowPairs(e, i, j, m).Failure?
    ensures RowPairs(e, i, hi, m).Failure?
  {
    if hi > j {
      RowFailure(e, i, j, hi - 1, m);
    }
  }

  lemma {:induction false} SweepFailure(e: seq<Entry>, n: int, hi: int, m: Matrix)
    requires 0 <= n <= hi <= |e| && SweepPairs(e, n, m).Failure?
    ensures SweepPairs(e, hi, m).Failure?
  {
    if hi > n {
      SweepFailure(e, n, hi - 1, m);
    }
  }

  /** A chunk of static bodies only has no pair: every index pair is skipped before any lookup. */
  lemma {:induction false} StaticOnly(e: seq<Entry>, n: int, m: Matrix)
    requires 0 <= n <= |e| && forall t :: 0 <= t < |e| ==> e[t].IsStatic
    ensures SweepPairs(e, n, m) == Success([])
  {
    if n > 0 {
      StaticOnly(e, n - 1, m);
      StaticRow(e, n - 1, |e|, m);
      var none: seq<Pair> := [];
      assert none + none == none;
    }
  }

  lemma {:induction false} StaticRow(e: seq<Entry>, i: int, hi: int, m: Matrix)
    requires 0 <= i < hi <= |e| && forall t :: 0 <= t < |e| ==> e[t].IsStatic
    ensures RowPairs(e, i, hi, m) == Success([])
  {
    if hi > i + 1 {
      StaticRow(e, i, hi - 1, m);
      assert Admit(e[i], e[hi - 1], m) == Success(false);
      var none: seq<Pair> := [];
      assert none + none == none;
    }
  }

  /** A chunk whose records are all live and hold no dynamic body holds static bodies only. */
  lemma {:induction false} NoDynamicAllStatic(s: seq<Record>)
    requires forall t :: 0 <= t < |s| ==> !Dead(s[t])
    requires CountDynamic(s) == 0
    ensures forall t :: 0 <= t < |s| ==> s[t].IsStatic
  {
    if s != [] {
      NoDynamicAllStatic(s[..|s| - 1]);
    }
  }

  // Counting is blind to order.

  lemma {:induction false} CountsSplit(a: seq<Record>, b: seq<Record>, id: int)
    ensures CountDynamic(a + b) == CountDynamic(a) + CountDynamic(b)
    ensures CountId(a + b, id) == CountId(a, id) + CountId(b, id)
  {
    if b != [] {
      var init := b[..|b| - 1];
      CountsSplit(a, init, id);
      assert (a + b)[..|a + b| - 1] == a + init;
    } else {
      assert a + b == a;
    }
  }

  /** The last record of `s` sits somewhere in its permutation `t`, and the rest of both are permutations. */
  lemma Unpick(s: seq<Record>, t: seq<Record>) returns (p: int)
    requires multiset(s) == multiset(t) && s != []
    ensures 0 <= p < |t| && t[p] == s[|s| - 1]
    ensures multiset(s[..|s| - 1]) == multiset(t[..p] + t[p + 1..])
  {
    var x, init := s[|s| - 1], s[..|s| - 1];
    assert s == init + [x];
    assert x in multiset(t);
    p :| 0 <= p < |t| && t[p] == x;
    var before, after := t[..p], t[p + 1..];
    assert t == before + [x] + after;
    assert multiset(t) == multiset(before) + multiset{x} + multiset(after);
    assert multiset(init) == multiset(s) - multiset{x};
    assert multiset(before + after) == multiset(before) + multiset(after) == multiset(t) - multiset{x};
  }

  /** A permutation has the same dynamic count and the same count of every id. */
  lemma {:induction false} CountsPermuted(s: seq<Record>, t: seq<Record>, id: int)
    requires multiset(s) == multiset(t)
    ensures CountDynamic(s) == CountDynamic(t) && CountId(s, id) == CountId(t, id)
  {
    if s == [] {
      assert |t| == |multiset(t)| == 0;
    } else {
      var p := Unpick(s, t);
      var x, init := s[|s| - 1], s[..|s| - 1];
      var before, after := t[..p], t[p + 1..];
      assert s == init + [x] && t == before + [x] + after;
      CountsPermuted(init, before + after, id);
      assert [x][..0] == [];
      CountsSplit(init, [x], id);
      CountsSplit(before + [x], after, id);
      CountsSplit(before, [x], id);
      CountsSplit(before, after, id);
    }
  }

  /** A permutation of records without tombstones keeps the chunk's bookkeeping. */
  lemma PermutedBookkept(s: seq<Record>, t: seq<Record>, dynamic: int)
    requires Bookkept(s, IntMax, dynamic) && multiset(s) == multiset(t)
    ensures Bookkept(t, IntMax, dynamic)
  {
    CountsPermuted(s, t, 0);
    assert |t| == |multiset(t)| == |s|;
    forall i | 0 <= i < |t|
      ensures WellFormed(t[i]) && !Dead(t[i])
    {
      assert t[i] in multiset(s);
    }
  }

  /** The comparer's key, read through the record's pointer. */
  function KeyOf(r: Record, axis: int): real
    reads r.Box`AABB
    requires r.Box != null && 0 <= axis <= 1
  {
    r.Box.AABB.Min.At(axis)
  }

  /**
   * `Array.Sort(chunk.Items, 0, length, comparer)` (lines 49-50): the records
   * in ascending order of `Min[axis]`, a permutation of the input. The sort
   * here is an insertion sort; Array.Sort promises only a sorted permutation,
   * and nothing else in the model depends on the order it picks among equal
   * keys.
   */
  method SortRecords(s: seq<Record>, axis: int) returns (t: seq<Record>)
    requires 0 <= axis <= 1 && AllLive(s)
    ensures multiset(t) == multiset(s) && AllLive(t)
    ensures SortedOn(Entries(t), axis)
  {
    t := s;
    var i := 0;
    while i < |t|
      invariant 0 <= i <= |t| && multiset(t) == multiset(s) && AllLive(t)
      invariant forall a, b :: 0 <= a < b < i ==> KeyOf(t[a], axis) <= KeyOf(t[b], axis)
    {
      t := Sink(t, i, axis);
      i := i + 1;
    }
    ghost var e := Entries(t);
    assert forall a :: 0 <= a < |t| ==> Low(e[a], axis) == KeyOf(t[a], axis);
  }

  /**
   * The state of the insertion step: `t` is a permutation of `s`, and its
   * first i + 1 keys are ascending except for the record at j, which is below
   * every key after it.
   */
  ghost predicate Sinking(s: seq<Record>, t: seq<Record>, i: int, j: int, axis: int)
    reads BoxesIn(t)`AABB
    requires 0 <= axis <= 1
  {
    0 <= j <= i < |t| && |t| == |s| && multiset(t) == multiset(s) && AllLive(t) &&
    (forall a, b :: 0 <= a < b <= i && a != j && b != j ==> KeyOf(t[a], axis) <= KeyOf(t[b], axis)) &&
    (forall b :: j < b <= i ==> KeyOf(t[j], axis) < KeyOf(t[b], axis))
  }

  /** Swapping the record at j with a larger key before it moves the gap down by one. */
  lemma SinkSwap(s: seq<Record>, t: seq<Record>, i: int, j: int, axis: int)
    requires 0 <= axis <= 1 && Sinking(s, t, i, j, axis) && j > 0
    requires KeyOf(t[j - 1], axis) > KeyOf(t[j], axis)
    ensures Sinking(s, t[j - 1 := t[j]][j := t[j - 1]], i, j - 1, axis)
  {
    var u := t[j - 1 := t[j]][j := t[j - 1]];
    forall a, b | 0 <= a < b <= i && a != j - 1 && b != j - 1
      ensures KeyOf(u[a], axis) <= KeyOf(u[b], axis)
    {
      var a', b' := if a == j then j - 1 else a, if b == j then j - 1 else b;
      assert u[a] == t[a'] && u[b] == t[b'];
    }
    forall b | j - 1 < b <= i
      ensures KeyOf(u[j - 1], axis) < KeyOf(u[b], axis)
    {
      if b > j {
        assert u[b] == t[b];
      }
    }
  }

  /** Once the record at j is not below its predecessor, the first i + 1 keys are ascending. */
  lemma SinkDone(s: seq<Record>, t: seq<Record>, i: int, j: int, axis: int)
    requires 0 <= axis <= 1 && Sinking(s, t, i, j, axis)
    requires j == 0 || KeyOf(t[j - 1], axis) <= KeyOf(t[j], axis)
    ensures forall a, b :: 0 <= a < b <= i ==> KeyOf(t[a], axis) <= KeyOf(t[b], axis)
  {
  }

  /** One step of the insertion sort: `s[i]` moves down past the larger keys before it. */
  method Sink(s: seq<Record>, i: int, axis: int) returns (t: seq<Record>)
    requires 0 <= axis <= 1 && 0 <= i < |s| && AllLive(s)
    requires forall a, b :: 0 <= a < b < i ==> KeyOf(s[a], axis) <= KeyOf(s[b], axis)
    ensures multiset(t) == multiset(s) && |t| == |s| && AllLive(t)
    ensures forall a, b :: 0 <= a < b <= i ==> KeyOf(t[a], axis) <= KeyOf(t[b], axis)
  {
    t := s;
    var j := i;
    while j > 0 && KeyOf(t[j - 1], axis) > KeyOf(t[j], axis)
      invariant Sinking(s, t, i, j, axis)
    {
      SinkSwap(s, t, i, j, axis);
      t := t[j - 1 := t[j]][j := t[j - 1]];
      j := j - 1;
    }
    SinkDone(s, t, i, j, axis);
  }

  /** `Array.Resize(ref chunk.Pairs, size)` to a larger size: the old pairs first, then default slots. */
  function ResizedPairs(pairs: seq<Pair>, size: int): (bigger: seq<Pair>)
    requires |pairs| <= size
    ensures |bigger| == size && bigger[..|pairs|] == pairs
  {
    pairs + seq(size - |pairs|, _ => Pair(0, 0))
  }

  /** Lines 78-81: the pair goes in at PairLength, the buffer doubling first when it is full. */
  method PushPair(chunk: SAPChunk, p: Pair)
    requires 0 <= chunk.PairLength <= |chunk.Pairs| && |chunk.Pairs| >= 1
    modifies chunk`Pairs, chunk`PairLength
    ensures chunk.PairLength == old(chunk.PairLength) + 1 && chunk.PairLength <= |chunk.Pairs|
    ensures chunk.Pairs[..chunk.PairLength] == old(chunk.Pairs[..chunk.PairLength]) + [p]
    ensures |chunk.Pairs| == if old(chunk.PairLength) < old(|chunk.Pairs|) then old(|chunk.Pairs|) else 2 * old(chunk.PairLength)
  {
    if chunk.PairLength >= |chunk.Pairs| {
      chunk.Pairs := ResizedPairs(chunk.Pairs, 2 * chunk.PairLength);
    }
    chunk.Pairs := chunk.Pairs[chunk.PairLength := p];
    chunk.PairLength := chunk.PairLength + 1;
    assert chunk.Pairs[..chunk.PairLength] == old(chunk.Pairs[..chunk.PairLength]) + [p];
  }

  /**
   * The inner loop for record i (lines 62-82): the records after it are
   * tested in turn until one starts beyond its end on the sort axis, and the
   * admitted pairs are appended. The pairs added are exactly row i of the
   * brute-force list; a throwing matrix lookup ends the search.
   */
  method SweepRow(chunk: SAPChunk, m: Matrix, ghost e: seq<Entry>, i: int) returns (ok: bool)
    requires 0 <= chunk.Length <= |chunk.Items| && Shows(chunk.Items[..chunk.Length], e)
    requires 0 <= chunk.SortAxis <= 1 && SortedOn(e, chunk.SortAxis) && 0 <= i < |e|
    requires 0 <= chunk.PairLength <= |chunk.Pairs| && |chunk.Pairs| >= 1
    requires SweepPairs(e, i, m).Success? && chunk.Pairs[..chunk.PairLength] == SweepPairs(e, i, m).value
    modifies chunk`Pairs, chunk`PairLength
    ensures 0 <= chunk.PairLength <= |chunk.Pairs| && |chunk.Pairs| >= 1
    ensures ok <==> SweepPairs(e, i + 1, m).Success?
    ensures ok ==> chunk.Pairs[..chunk.PairLength] == SweepPairs(e, i + 1, m).value
  {
    ghost var before := chunk.Pairs[..chunk.PairLength];
    var axis := chunk.SortAxis;
    var a := chunk.Items[i];
    assert EntryOf(a) == e[i];
    var j := i + 1;
    while j < chunk.Length
      invariant i < j <= |e| && 0 <= chunk.PairLength <= |chunk.Pairs| && |chunk.Pairs| >= 1
      invariant RowPairs(e, i, j, m).Success? && chunk.Pairs[..chunk.PairLength] == before + RowPairs(e, i, j, m).value
    {
      var b := chunk.Items[j];
      assert EntryOf(b) == e[j];
      RowNext(e, i, j, m);
      if b.Box.AABB.Min.At(axis) > a.Box.AABB.Max.At(axis) {
        RowCutoff(e, i, j, |e|, m, axis);
        break;
      }
      if !(a.IsStatic && b.IsStatic) && Overlap(a.Box.AABB, b.Box.AABB) {
        var allowed := Check(m, a.Layer, b.Layer);
        if allowed.Failure? {
          RowFailure(e, i, j + 1, |e|, m);
          return false;
        }
        if allowed.value {
          ghost var row := RowPairs(e, i, j, m).value;
          PushPair(chunk, Pair(a.Entity.Id, b.Entity.Id));
          assert before + row + [Pair(e[i].Id, e[j].Id)] == before + (row + [Pair(e[i].Id, e[j].Id)]);
        }
      }
      j := j + 1;
    }
    assert RowPairs(e, i, |e|, m) == RowPairs(e, i, j, m);
    ok := true;
  }

  /**
   * The outer loop of CalculatePairs (lines 55-83): the rows in order; the
   * pair list is the brute-force list, and `s` and `s2` sum the centres and
   * their squares for the choice of the next sort axis.
   */
  method SweepChunk(chunk: SAPChunk, m: Matrix, ghost e: seq<Entry>) returns (ok: bool, s: Float2, s2: Float2)
    requires 0 <= chunk.Length <= |chunk.Items| && Shows(chunk.Items[..chunk.Length], e)
    requires 0 <= chunk.SortAxis <= 1 && SortedOn(e, chunk.SortAxis)
    requires chunk.PairLength == 0 && |chunk.Pairs| >= 1
    modifies chunk`Pairs, chunk`PairLength
    ensures 0 <= chunk.PairLength <= |chunk.Pairs| && |chunk.Pairs| >= 1
    ensures ok <==> BrutePairs(e, m).Success?
    ensures ok ==> chunk.Pairs[..chunk.PairLength] == BrutePairs(e, m).value
    ensures ok ==> s == CentreSum(e, |e|) && s2 == SquareSum(e, |e|)
  {
    s, s2 := Zero, Zero;
    var i := 0;
    while i < chunk.Length
      invariant 0 <= i <= |e| && 0 <= chunk.PairLength <= |chunk.Pairs| && |chunk.Pairs| >= 1
      invariant SweepPairs(e, i, m).Success? && chunk.Pairs[..chunk.PairLength] == SweepPairs(e, i, m).value
      invariant s == CentreSum(e, i) && s2 == SquareSum(e, i)
    {
      var a := chunk.Items[i];
      assert EntryOf(a) == e[i];
      var p := Scale(Add(a.Box.AABB.Min, a.Box.AABB.Max), 0.5);
      s := Add(s, p);
      s2 := Add(s2, Float2(Square(p.x), Square(p.y)));
      ok := SweepRow(chunk, m, e, i);
      if !ok {
        SweepFailure(e, i + 1, |e|, m);
        return;
      }
      i := i + 1;
    }
    ok := true;
  }

  // The choice of the next sort axis (lines 52-61 and 85-87).

  /** The centre of a record's box, `(Min + Max) * 0.5`. */
  function Centre(e: Entry): Float2
  {
    Scale(Add(e.Box.Min, e.Box.Max), 0.5)
  }

  function Square(x: real): real
  {
    x * x
  }

  /** `s`: the sum of the centres of the first n records. */
  function CentreSum(e: seq<Entry>, n: int): Float2
    requires 0 <= n <= |e|
  {
    if n == 0 then Zero else Add(CentreSum(e, n - 1), Centre(e[n - 1]))
  }

  /** `s2`: the sum of the componentwise squares of the first n centres. */
  function SquareSum(e: seq<Entry>, n: int): Float2
    requires 0 <= n <= |e|
  {
    if n == 0 then Zero
    else
      var p := Centre(e[n - 1]);
      Add(SquareSum(e, n - 1), Float2(Square(p.x), Square(p.y)))
  }

  /** One component of `s2 / n - s * s / (n * n)`. */
  function Spread(s2: real, s: real, n: real): real
    requires n > 0.0
  {
    s2 / n - s * s / (n * n)
  }

  /**
   * Lines 85-87: `v = s2 / n - s * s / (n * n)`, and axis 1 exactly when
   * `v.y > v.x`. With no record both quotients are 0 / 0, NaN in float
   * arithmetic, the comparison is false and the axis is 0.
   */
  function SpreadAxis(s: Float2, s2: Float2, n: int): (axis: int)
    requires n >= 0
    ensures 0 <= axis <= 1
  {
    if n == 0 then 0
    else
      var len := n as real;
      var v := Float2(Spread(s2.x, s.x, len), Spread(s2.y, s.y, len));
      if v.y > v.x then 1 else 0
  }

  /** The sort axis CalculatePairs leaves for the next sweep of the entries `e`. */
  function NextAxis(e: seq<Entry>): (axis: int)
    ensures 0 <= axis <= 1
  {
    SpreadAxis(CentreSum(e, |e|), SquareSum(e, |e|), |e|)
  }

  /** The mean of the centres along an axis. */
  function Mean(e: seq<Entry>, axis: int): real
    requires |e| > 0 && 0 <= axis <= 1
  {
    CentreSum(e, |e|).At(axis) / |e| as real
  }

  /** The sum over the first n centres of the squared distance from `mu` along an axis. */
  function Deviation(e: seq<Entry>, n: int, axis: int, mu: real): real
    requires 0 <= n <= |e| && 0 <= axis <= 1
  {
    if n == 0 then 0.0
    else
      Deviation(e, n - 1, axis, mu) + Square(Centre(e[n - 1]).At(axis) - mu)
  }

  /** The variance of the centres along an axis: the mean squared distance from their mean. */
  function Variance(e: seq<Entry>, axis: int): real
    requires |e| > 0 && 0 <= axis <= 1
  {
    Deviation(e, |e|, axis, Mean(e, axis)) / |e| as real
  }

  /** `s2 - 2 mu s + n mu^2`: the sum of the squared distances from `mu` of n values with sum `s` and sum of squares `s2`. */
  function Expanded(s2: real, s: real, n: real, mu: real): real
  {
    s2 - 2.0 * mu * s + n * mu * mu
  }

  /** One more value `c` adds its squared distance from `mu` to the expansion. */
  lemma ExpandStep(d: real, s2: real, s: real, n: real, c: real, mu: real)
    requires d == Expanded(s2, s, n, mu)
    ensures d + Square(c - mu) == Expanded(s2 + Square(c), s + c, n + 1.0, mu)
  {
  }

  lemma {:induction false} DeviationExpands(e: seq<Entry>, n: int, axis: int, mu: real)
    requires 0 <= n <= |e| && 0 <= axis <= 1
    ensures Deviation(e, n, axis, mu) == Expanded(SquareSum(e, n).At(axis), CentreSum(e, n).At(axis), n as real, mu)
  {
    if n > 0 {
      DeviationExpands(e, n - 1, axis, mu);
      var c := Centre(e[n - 1]).At(axis);
      assert SquareSum(e, n).At(axis) == SquareSum(e, n - 1).At(axis) + Square(c);
      assert CentreSum(e, n).At(axis) == CentreSum(e, n - 1).At(axis) + c;
      ExpandStep(Deviation(e, n - 1, axis, mu), SquareSum(e, n - 1).At(axis), CentreSum(e, n - 1).At(axis), (n - 1) as real, c, mu);
    }
  }

  lemma SquareOfPositive(n: real)
    requires n > 0.0
    ensures n * n > 0.0
  {
  }

  /** Dividing twice by n is dividing once by n * n. */
  lemma DivideTwice(a: real, n: real)
    requires n > 0.0
    ensures (a / n) / n == a / (n * n)
  {
    SquareOfPositive(n);
    var r := a / (n * n);
    assert r * (n * n) == a;
    assert (r * n) * n == a;
    assert r * n == a / n;
  }

  /** With `mu` the mean `s / n`, the expansion over n is `s2 / n - s * s / (n * n)`. */
  lemma MeanSquares(s2: real, s: real, n: real)
    requires n > 0.0
    ensures Expanded(s2, s, n, s / n) / n == Spread(s2, s, n)
  {
    var mu := s / n;
    assert mu * n == s;
    assert n * mu * mu == mu * s;
    assert Expanded(s2, s, n, mu) == s2 - mu * s;
    assert (s2 - mu * s) / n == s2 / n - mu * s / n;
    assert mu * s == s * s / n;
    DivideTwice(s * s, n);
  }

  /** `s2 / n - s * s / (n * n)` on an axis is the variance of the centres along it. */
  lemma VarianceFormula(e: seq<Entry>, axis: int)
    requires |e| > 0 && 0 <= axis <= 1
    ensures Variance(e, axis) == Spread(SquareSum(e, |e|).At(axis), CentreSum(e, |e|).At(axis), |e| as real)
  {
    var n := |e| as real;
    var s, s2 := CentreSum(e, |e|).At(axis), SquareSum(e, |e|).At(axis);
    DeviationExpands(e, |e|, axis, s / n);
    MeanSquares(s2, s, n);
  }

  /**
   * The next sort axis is the one along which the centres spread more: axis 1
   * exactly when the variance along y exceeds the variance along x, axis 0
   * on a tie and for a chunk with no record.
   */
  lemma NextAxisWiderSpread(e: seq<Entry>)
    ensures NextAxis(e) == if |e| > 0 && Variance(e, 1) > Variance(e, 0) then 1 else 0
  {
    if |e| > 0 {
      VarianceFormula(e, 0);
      VarianceFormula(e, 1);
    }
  }

  /** A compacted chunk: FreeIndex is `int.MaxValue`, so every record in use is live. */
  lemma CompactedLive(chunk: SAPChunk)
    requires chunk.Valid() && chunk.FreeIndex == IntMax
    ensures AllLive(chunk.Records()) && forall t :: 0 <= t < chunk.Length ==> !Dead(chunk.Items[t])
  {
    assert forall t :: 0 <= t < chunk.Length ==> chunk.Records()[t] == chunk.Items[t];
  }

  /** The sort of lines 49-50 on the chunk: its records in use are permuted into ascending order on its sort axis. */
  method SortChunk(chunk: SAPChunk)
    requires chunk.Valid() && chunk.FreeIndex == IntMax
    modifies chunk`Items
    ensures chunk.Valid() && |chunk.Items| == old(|chunk.Items|)
    ensures multiset(chunk.Records()) == multiset(old(chunk.Records())) && AllLive(chunk.Records())
    ensures SortedOn(Entries(chunk.Records()), chunk.SortAxis)
  {
    CompactedLive(chunk);
    ghost var s := chunk.Records();
    var sorted := SortRecords(chunk.Items[..chunk.Length], chunk.SortAxis);
    assert |sorted| == |multiset(sorted)| == chunk.Length;
    chunk.Items := sorted + chunk.Items[chunk.Length..];
    assert chunk.Records() == sorted;
    PermutedBookkept(s, sorted, chunk.DynamicCounter);
  }

  /**
   * `CalculatePairs(chunk)` (lines 43-88): PairLength is reset, the records
   * are sorted on the current sort axis and swept; the pair list is then the
   * brute-force list of the sorted records, and the next sort axis is the
   * one along which their centres spread more. A throwing matrix lookup
   * leaves the sort axis as it was.
   */
  method CalculatePairs(chunk: SAPChunk, m: Matrix) returns (ok: bool)
    requires chunk.Valid() && chunk.FreeIndex == IntMax
    modifies chunk`PairLength, chunk`Items, chunk`Pairs, chunk`SortAxis
    ensures |chunk.Items| == old(|chunk.Items|)
    ensures multiset(chunk.Records()) == multiset(old(chunk.Records())) && AllLive(chunk.Records())
    ensures Bookkept(chunk.Records(), IntMax, chunk.DynamicCounter)
    ensures SortedOn(Entries(chunk.Records()), old(chunk.SortAxis))
    ensures 0 <= chunk.PairLength <= |chunk.Pairs| && |chunk.Pairs| >= 1 && 0 <= chunk.SortAxis <= 1
    ensures ok <==> BrutePairs(Entries(chunk.Records()), m).Success?
    ensures ok ==> chunk.Pairs[..chunk.PairLength] == BrutePairs(Entries(chunk.Records()), m).value
    ensures chunk.SortAxis == if ok then NextAxis(Entries(chunk.Records())) else old(chunk.SortAxis)
  {
    chunk.PairLength := 0;
    SortChunk(chunk);
    ghost var e := Entries(chunk.Records());
    var s, s2;
    ok, s, s2 := SweepChunk(chunk, m, e);
    if ok {
      chunk.SortAxis := SpreadAxis(s, s2, chunk.Length);
    }
    ShownEntries(chunk.Records(), e);
  }

  // The pair system (lines 22-41).

  /** A snapshot of a chunk: its records in use, the capacity of its buffer and the fields the pair system reads or writes. */
  datatype ChunkState = ChunkState(Records: seq<Record>, Capacity: int, FreeIndex: int, Pairs: seq<Pair>, PairLength: int,
                                   SortAxis: int, DynamicCounter: int, IsDirty: bool)

  ghost function StateOf(c: SAPChunk): (s: ChunkState)
    reads c
    requires 0 <= c.Length <= |c.Items|
    ensures s.Records == c.Records() && s.Capacity == |c.Items| && s.SortAxis == c.SortAxis
  {
    ChunkState(c.Records(), |c.Items|, c.FreeIndex, c.Pairs, c.PairLength, c.SortAxis, c.DynamicCounter, c.IsDirty)
  }

  /** Lines 32-36 recompute the pairs of a chunk holding a dynamic body or marked dirty. */
  predicate Recomputed(s: ChunkState)
  {
    s.DynamicCounter > 0 || s.IsDirty
  }

  /**
   * A chunk in state `t` after the visit of lines 29-36 to a chunk in state
   * `s`, where `e` is what the records of `t` show: they are the live
   * records of `s`, permuted, with no tombstone left; the visit succeeds
   * exactly when the brute-force search over `e` does, and then the chunk is
   * dirty exactly when it holds a dynamic body and its pair list is the
   * brute-force list. A recomputed chunk was sorted on its old axis and
   * moves on to the next; any other chunk keeps its records in order, its
   * axis and its buffer, and has no pair.
   */
  ghost predicate Prepared(s: ChunkState, t: ChunkState, e: seq<Entry>, m: Matrix, ok: bool)
  {
    0 <= s.SortAxis <= 1 &&
    t.Capacity == s.Capacity && t.FreeIndex == IntMax && t.DynamicCounter == s.DynamicCounter &&
    multiset(t.Records) == multiset(LiveOnly(s.Records)) &&
    (ok <==> BrutePairs(e, m).Success?) &&
    (ok ==> t.IsDirty == (t.DynamicCounter != 0) && 0 <= t.PairLength <= |t.Pairs| &&
            t.Pairs[..t.PairLength] == BrutePairs(e, m).value) &&
    if Recomputed(s) then
      SortedOn(e, s.SortAxis) && t.SortAxis == (if ok then NextAxis(e) else s.SortAxis)
    else
      ok && t.Records == LiveOnly(s.Records) && t.SortAxis == s.SortAxis && t.Pairs == s.Pairs && t.PairLength == 0
  }

  /** Records kept with no tombstone are live, and compaction leaves them as they are. */
  lemma CompactedRecords(s: seq<Record>, dynamic: int)
    requires Bookkept(s, IntMax, dynamic)
    ensures AllLive(s) && LiveOnly(s) == s && forall t :: 0 <= t < |s| ==> !Dead(s[t])
  {
    LiveOnlyPrefix(s, |s|);
    assert s[..|s|] == s;
  }

  /** Compacted records without dynamic bodies have no pair: their brute-force list is empty. */
  lemma NoDynamicNoPairs(s: seq<Record>, m: Matrix)
    requires Bookkept(s, IntMax, 0)
    ensures AllLive(s) && BrutePairs(Entries(s), m) == Success([])
  {
    CompactedRecords(s, 0);
    NoDynamicAllStatic(s);
    StaticOnly(Entries(s), |s|, m);
  }

  /** A visit described against the compacted state is a visit of the state before compaction. */
  lemma PreparedBeforeCompaction(s: ChunkState, t: ChunkState, e: seq<Entry>, m: Matrix, ok: bool)
    requires Prepared(s.(Records := LiveOnly(s.Records)), t, e, m, ok)
    ensures Prepared(s, t, e, m, ok)
  {
    LiveOnlyIdempotent(s.Records);
  }

  /** Lines 32-36 for a chunk that needs it: the pairs are recomputed, and the chunk stays dirty while it holds a dynamic body. */
  method Recompute(chunk: SAPChunk, m: Matrix, ghost boxes: map<BroadphaseRef, AABB>) returns (ok: bool, ghost e: seq<Entry>)
    requires chunk.Valid() && chunk.FreeIndex == IntMax && Recomputed(StateOf(chunk))
    requires Boxed(boxes) && BoxesIn(chunk.Records()) <= boxes.Keys
    modifies chunk`PairLength, chunk`Items, chunk`Pairs, chunk`SortAxis, chunk`IsDirty
    ensures 0 <= chunk.Length <= |chunk.Items| && ShowsIn(chunk.Records(), boxes, e)
    ensures Prepared(old(StateOf(chunk)), StateOf(chunk), e, m, ok) && (ok ==> chunk.Valid())
  {
    ghost var s := StateOf(chunk);
    ok := CalculatePairs(chunk, m);
    e := Entries(chunk.Records());
    Recalculated(s, StateOf(chunk), e, m, ok, boxes);
    if ok {
      chunk.IsDirty := chunk.DynamicCounter != 0;
    }
  }

  /**
   * What CalculatePairs leaves in state `t` completes the visit once the
   * dirty flag is set on success; a chunk left clean then has no pair.
   */
  lemma Recalculated(s: ChunkState, t: ChunkState, e: seq<Entry>, m: Matrix, ok: bool, boxes: map<BroadphaseRef, AABB>)
    requires Recomputed(s) && 0 <= s.SortAxis <= 1 && Bookkept(s.Records, IntMax, s.DynamicCounter)
    requires t.Capacity == s.Capacity && t.FreeIndex == IntMax && t.DynamicCounter == s.DynamicCounter && t.IsDirty == s.IsDirty
    requires multiset(t.Records) == multiset(s.Records) && Bookkept(t.Records, IntMax, t.DynamicCounter) && SortedOn(e, s.SortAxis)
    requires ok <==> BrutePairs(e, m).Success?
    requires ok ==> 0 <= t.PairLength <= |t.Pairs| && t.Pairs[..t.PairLength] == BrutePairs(e, m).value
    requires t.SortAxis == if ok then NextAxis(e) else s.SortAxis
    requires Boxed(boxes) && BoxesIn(s.Records) <= boxes.Keys && Shows(t.Records, e)
    ensures ShowsIn(t.Records, boxes, e)
    ensures Prepared(s, if ok then t.(IsDirty := t.DynamicCounter != 0) else t, e, m, ok)
    ensures ok && t.DynamicCounter == 0 ==> t.PairLength == 0
  {
    CompactedRecords(s.Records, s.DynamicCounter);
    Pictured(s.Records, t.Records, boxes, e);
    if ok && t.DynamicCounter == 0 {
      ShownEntries(t.Records, e);
      NoDynamicNoPairs(t.Records, m);
    }
  }

  /**
   * Lines 29-36 for one chunk: compaction (the source's NeedRebuild test is
   * taken to hold always; see the README), then the pairs are recomputed
   * when the chunk holds a dynamic body or is dirty.
   */
  method PrepareChunk(chunk: SAPChunk, m: Matrix, ghost boxes: map<BroadphaseRef, AABB>) returns (ok: bool, ghost e: seq<Entry>)
    requires chunk.Valid() && Boxed(boxes) && BoxesIn(chunk.Records()) <= boxes.Keys
    modifies chunk`Items, chunk`Length, chunk`FreeIndex, chunk`PairLength, chunk`Pairs, chunk`SortAxis, chunk`IsDirty
    ensures 0 <= chunk.Length <= |chunk.Items| && ShowsIn(chunk.Records(), boxes, e)
    ensures Prepared(old(StateOf(chunk)), StateOf(chunk), e, m, ok) && (ok ==> chunk.Valid())
  {
    ghost var s := StateOf(chunk);
    BuildChunks(chunk);
    assert StateOf(chunk) == s.(Records := LiveOnly(s.Records), FreeIndex := IntMax);
    if chunk.DynamicCounter > 0 || chunk.IsDirty {
      KeptBoxes(s.Records, chunk.Records());
      ok, e := Recompute(chunk, m, boxes);
    } else {
      NoDynamicNoPairs(chunk.Records(), m);
      CompactedRecords(chunk.Records(), 0);
      e := Entries(chunk.Records());
      Pictured(s.Records, chunk.Records(), boxes, e);
      ok := true;
    }
    PreparedBeforeCompaction(s, StateOf(chunk), e, m, ok);
  }

  /** Lines 38-39: the pairs of a list added one by one to a set. */
  function AddAll(s: set<Pair>, ps: seq<Pair>): set<Pair>
  {
    if ps == [] then s else AddPair(AddAll(s, ps[..|ps| - 1]), ps[|ps| - 1])
  }

  /** Some pair of the list is Equal to `q`. */
  predicate HasEqual(ps: seq<Pair>, q: Pair)
  {
    exists i :: 0 <= i < |ps| && Equals(ps[i], q)
  }

  /**
   * Adding a list keeps the set free of Equal pairs, and afterwards the set
   * holds a pair Equal to `q` exactly when it did before or the list does.
   */
  lemma {:induction false} AddAllSpec(s: set<Pair>, ps: seq<Pair>)
    ensures NoEqualPairs(s) ==> NoEqualPairs(AddAll(s, ps))
    ensures forall q :: ContainsEqual(AddAll(s, ps), q) <==> ContainsEqual(s, q) || HasEqual(ps, q)
  {
    if ps != [] {
      var init, p := ps[..|ps| - 1], ps[|ps| - 1];
      AddAllSpec(s, init);
      forall q
        ensures HasEqual(ps, q) <==> HasEqual(init, q) || Equals(p, q)
      {
        if HasEqual(ps, q) && !Equals(p, q) {
          var i :| 0 <= i < |ps| && Equals(ps[i], q);
          assert init[i] == ps[i];
        }
        if HasEqual(init, q) {
          var i :| 0 <= i < |init| && Equals(init[i], q);
          assert ps[i] == init[i];
        }
      }
    }
  }

  /** The chunk reports a pair Equal to `q`: one of its first PairLength pairs. */
  predicate Reports(c: ChunkState, q: Pair)
  {
    0 <= c.PairLength <= |c.Pairs| && HasEqual(c.Pairs[..c.PairLength], q)
  }

  /** Lines 38-39: the chunk's pairs go into the singleton's set, a pair Equal to one already there being left out. */
  method Collect(sap: BroadphaseSAP, chunk: SAPChunk)
    requires 0 <= chunk.PairLength <= |chunk.Pairs|
    modifies sap`Pairs
    ensures sap.Pairs == AddAll(old(sap.Pairs), chunk.Pairs[..chunk.PairLength])
  {
    var i := 0;
    while i < chunk.PairLength
      invariant 0 <= i <= chunk.PairLength
      invariant sap.Pairs == AddAll(old(sap.Pairs), chunk.Pairs[..i])
    {
      sap.Pairs := AddPair(sap.Pairs, chunk.Pairs[i]);
      assert chunk.Pairs[..i + 1][..i] == chunk.Pairs[..i];
      i := i + 1;
    }
  }

  /** Lines 29-36 for a chunk of the singleton: the chunk is prepared and its view follows its records. */
  method PrepareHeld(sap: BroadphaseSAP, chunk: SAPChunk, m: Matrix, ghost boxes: map<BroadphaseRef, AABB>) returns (ok: bool, ghost e: seq<Entry>)
    requires sap.Valid() && sap.Mirrors() && sap.Holds(chunk)
    requires Boxed(boxes) && BoxesIn(sap.Contents[chunk.Id]) <= boxes.Keys
    modifies sap`Contents, chunk`Items, chunk`Length, chunk`FreeIndex, chunk`PairLength, chunk`Pairs, chunk`SortAxis, chunk`IsDirty
    ensures sap.Mirrors() && sap.Contents == old(sap.Contents)[chunk.Id := chunk.Records()]
    ensures ShowsIn(chunk.Records(), boxes, e) && Prepared(old(StateOf(chunk)), StateOf(chunk), e, m, ok)
    ensures ok ==> sap.Valid()
  {
    ok, e := PrepareChunk(chunk, m, boxes);
    sap.Contents := sap.Contents[chunk.Id := chunk.Records()];
  }

  /** Lines 28-39 for one chunk of the singleton: the chunk is prepared, and on success its pairs join the set. */
  method Visit(sap: BroadphaseSAP, chunk: SAPChunk, m: Matrix, ghost boxes: map<BroadphaseRef, AABB>) returns (ok: bool, ghost e: seq<Entry>)
    requires sap.Valid() && sap.Mirrors() && sap.Holds(chunk)
    requires Boxed(boxes) && BoxesIn(sap.Contents[chunk.Id]) <= boxes.Keys
    modifies sap`Pairs, sap`Contents, chunk`Items, chunk`Length, chunk`FreeIndex, chunk`PairLength, chunk`Pairs, chunk`SortAxis, chunk`IsDirty
    ensures sap.Mirrors() && sap.Contents == old(sap.Contents)[chunk.Id := chunk.Records()]
    ensures ShowsIn(chunk.Records(), boxes, e) && Prepared(old(StateOf(chunk)), StateOf(chunk), e, m, ok)
    ensures ok ==> sap.Valid()
    ensures ok ==> forall q :: ContainsEqual(sap.Pairs, q) <==> ContainsEqual(old(sap.Pairs), q) || Reports(StateOf(chunk), q)
  {
    ok, e := PrepareHeld(sap, chunk, m, boxes);
    if ok {
      Gather(sap, chunk);
    }
  }

  /** Lines 38-39 for a prepared chunk: its pairs join the set, which still holds no two equal pairs. */
  method Gather(sap: BroadphaseSAP, chunk: SAPChunk)
    requires sap.Valid() && chunk.Valid()
    modifies sap`Pairs
    ensures sap.Valid()
    ensures forall q :: ContainsEqual(sap.Pairs, q) <==> ContainsEqual(old(sap.Pairs), q) || Reports(StateOf(chunk), q)
  {
    Collect(sap, chunk);
    Gained(old(sap.Pairs), StateOf(chunk), sap.Pairs);
  }

  /** The set after lines 38-39 holds, up to orientation, what it held and what the chunk reports. */
  lemma Gained(before: set<Pair>, c: ChunkState, after: set<Pair>)
    requires 0 <= c.PairLength <= |c.Pairs| && after == AddAll(before, c.Pairs[..c.PairLength])
    ensures NoEqualPairs(before) ==> NoEqualPairs(after)
    ensures forall q :: ContainsEqual(after, q) <==> ContainsEqual(before, q) || Reports(c, q)
  {
    AddAllSpec(before, c.Pairs[..c.PairLength]);
  }

  /** `order` lists every key once: the order in which `foreach` visits the chunks of the dictionary. */
  predicate Listing(order: seq<int>, keys: set<int>)
  {
    keys == Prefix(order, |order|) && forall a, b :: 0 <= a < b < |order| ==> order[a] != order[b]
  }

  /** The keys of the first j places of `order`. */
  function Prefix(order: seq<int>, j: int): set<int>
    requires 0 <= j <= |order|
  {
    set t | 0 <= t < j :: order[t]
  }

  /** One more place of a listing adds its key, which was not among the earlier ones. */
  lemma PrefixStep(order: seq<int>, keys: set<int>, j: int)
    requires Listing(order, keys) && 0 <= j < |order|
    ensures order[j] in keys && order[j] !in Prefix(order, j) && Prefix(order, j + 1) == Prefix(order, j) + {order[j]}
  {
    assert order[j] in Prefix(order, |order|);
  }

  /** `states` are the snapshots of the chunks. */
  ghost predicate Bounded(chunks: map<int, SAPChunk>)
    reads chunks.Values
  {
    forall k :: k in chunks ==> 0 <= chunks[k].Length <= |chunks[k].Items|
  }

  ghost function Snapshots(chunks: map<int, SAPChunk>): map<int, ChunkState>
    reads chunks.Values
    requires Bounded(chunks)
  {
    map k | k in chunks :: StateOf(chunks[k])
  }

  ghost predicate Current(chunks: map<int, SAPChunk>, states: map<int, ChunkState>)
    reads chunks.Values
  {
    Bounded(chunks) && states == Snapshots(chunks)
  }

  /** The chunk under `k` has a new snapshot and the others keep theirs. */
  lemma Resnapshot(chunks: map<int, SAPChunk>, states: map<int, ChunkState>, k: int, after: ChunkState)
    requires states.Keys == chunks.Keys && k in chunks
    requires 0 <= chunks[k].Length <= |chunks[k].Items| && StateOf(chunks[k]) == after
    requires forall k' :: k' in chunks && k' != k ==> 0 <= chunks[k'].Length <= |chunks[k'].Items| && StateOf(chunks[k']) == states[k']
    ensures Current(chunks, states[k := after])
  {
  }

  /** `boxes` holds the current box of each component it names. */
  ghost predicate Boxed(boxes: map<BroadphaseRef, AABB>)
    reads boxes.Keys`AABB
  {
    forall b :: b in boxes ==> b.AABB == boxes[b]
  }

  /** `e` is what the records `s` show through the boxes `boxes`. */
  ghost predicate ShowsIn(s: seq<Record>, boxes: map<BroadphaseRef, AABB>, e: seq<Entry>)
  {
    |s| == |e| &&
    forall t :: 0 <= t < |s| ==> Live(s[t]) && s[t].Box in boxes && e[t] == Entry(s[t].Entity.Id, s[t].Layer, s[t].IsStatic, boxes[s[t].Box])
  }

  /** While `boxes` holds the current boxes, the records show through it what they show through the heap. */
  lemma Snapshot(s: seq<Record>, boxes: map<BroadphaseRef, AABB>, e: seq<Entry>)
    requires Boxed(boxes) && BoxesIn(s) <= boxes.Keys
    ensures ShowsIn(s, boxes, e) <==> Shows(s, e)
  {
    if Shows(s, e) {
      forall t | 0 <= t < |s|
        ensures s[t].Box in boxes
      {
        assert s[t].Box in BoxesIn(s);
      }
    }
  }

  /** Records kept from `s` show through a snapshot of the boxes of `s` what they show through the heap. */
  lemma Pictured(s: seq<Record>, t: seq<Record>, boxes: map<BroadphaseRef, AABB>, e: seq<Entry>)
    requires Boxed(boxes) && BoxesIn(s) <= boxes.Keys && multiset(t) == multiset(LiveOnly(s)) && Shows(t, e)
    ensures ShowsIn(t, boxes, e)
  {
    KeptBoxes(s, t);
    Snapshot(t, boxes, e);
  }

  /** The live records kept from `s` point only at boxes `s` points at. */
  lemma KeptBoxes(s: seq<Record>, t: seq<Record>)
    requires multiset(t) == multiset(LiveOnly(s))
    ensures BoxesIn(t) <= BoxesIn(s)
  {
    LiveOnlyElements(s);
    forall i | 0 <= i < |t| && t[i].Box != null
      ensures t[i].Box in BoxesIn(s)
    {
      assert t[i] in multiset(t);
      assert t[i] in LiveOnly(s);
      var j :| 0 <= j < |s| && s[j] == t[i];
    }
  }

  /**
   * The loop of lines 27-40 on the snapshots of the chunks, the visited ones
   * being the keys of `views`: those are prepared from their states at the
   * start and show their entries through `boxes`, the others are as they
   * were, and `pairs` holds, up to orientation, exactly the pairs the
   * visited chunks report.
   */
  /** `boxes` names every box the records of the snapshots point at. */
  ghost predicate Covers(start: map<int, ChunkState>, boxes: map<BroadphaseRef, AABB>)
  {
    forall k :: k in start ==> BoxesIn(start[k].Records) <= boxes.Keys
  }

  ghost predicate Visited(start: map<int, ChunkState>, boxes: map<BroadphaseRef, AABB>, states: map<int, ChunkState>,
                          views: map<int, seq<Entry>>, pairs: set<Pair>, m: Matrix)
  {
    states.Keys == start.Keys && views.Keys <= start.Keys &&
    (forall k :: k in start && k !in views ==> states[k] == start[k]) &&
    (forall k :: k in views ==> Prepared(start[k], states[k], views[k], m, true) && ShowsIn(states[k].Records, boxes, views[k])) &&
    forall q :: ContainsEqual(pairs, q) <==> exists k :: k in views && Reports(states[k], q)
  }

  /** The view of the singleton is exact, the snapshots are those of its chunks and `boxes` is current. */
  ghost predicate Shown(sap: BroadphaseSAP, boxes: map<BroadphaseRef, AABB>, states: map<int, ChunkState>)
    reads sap, sap.Chunks.Values, boxes.Keys`AABB
  {
    sap.Mirrors() && Current(sap.Chunks, states) && Boxed(boxes)
  }

  /** One round of the loop of lines 27-40 on the chunk under `k`: the other chunks keep their snapshots. */
  method VisitStep(sap: BroadphaseSAP, k: int, chunk: SAPChunk, ghost boxes: map<BroadphaseRef, AABB>,
                   ghost states: map<int, ChunkState>, m: Matrix)
      returns (ok: bool, ghost after: ChunkState, ghost e: seq<Entry>)
    requires sap.Valid() && Shown(sap, boxes, states) && k in sap.Chunks && sap.Chunks[k] == chunk
    requires BoxesIn(states[k].Records) <= boxes.Keys
    modifies sap`Pairs, sap`Contents, chunk`Items, chunk`Length, chunk`FreeIndex, chunk`PairLength, chunk`Pairs, chunk`SortAxis, chunk`IsDirty
    ensures sap.Chunks == old(sap.Chunks) && Shown(sap, boxes, states[k := after])
    ensures Prepared(states[k], after, e, m, ok) && ShowsIn(after.Records, boxes, e)
    ensures ok ==> sap.Valid() && forall q :: ContainsEqual(sap.Pairs, q) <==> ContainsEqual(old(sap.Pairs), q) || Reports(after, q)
  {
    assert chunk.Id == k;
    ok, e := Visit(sap, chunk, m, boxes);
    after := StateOf(chunk);
    forall k' | k' in sap.Chunks && k' != k
      ensures 0 <= sap.Chunks[k'].Length <= |sap.Chunks[k'].Items| && StateOf(sap.Chunks[k']) == states[k']
    {
      assert sap.Chunks[k'].Id == k';
    }
    Resnapshot(sap.Chunks, states, k, after);
  }

  /** The set after a round holds, up to orientation, what the visited chunks and the new one report. */
  lemma Gathered(states: map<int, ChunkState>, views: map<int, seq<Entry>>, pairs: set<Pair>,
                 k: int, after: ChunkState, e: seq<Entry>, pairs': set<Pair>,
                 states': map<int, ChunkState>, views': map<int, seq<Entry>>)
    requires k in states && k !in views && views.Keys <= states.Keys
    requires states' == states[k := after] && views' == views[k := e]
    requires forall q :: ContainsEqual(pairs, q) <==> exists k' :: k' in views && Reports(states[k'], q)
    requires forall q :: ContainsEqual(pairs', q) <==> ContainsEqual(pairs, q) || Reports(after, q)
    ensures forall q :: ContainsEqual(pairs', q) <==> exists k' :: k' in views' && Reports(states'[k'], q)
  {
    forall q
      ensures ContainsEqual(pairs', q) <==> exists k' :: k' in views' && Reports(states'[k'], q)
    {
      if exists k' :: k' in views && Reports(states[k'], q) {
        var k' :| k' in views && Reports(states[k'], q);
        assert k' != k && Reports(states'[k'], q);
      }
      if Reports(after, q) {
        assert k in views' && Reports(states'[k], q);
      }
    }
  }

  /** The snapshots after a round: the chunk visited is prepared, and the set gained what it reports. */
  lemma Advanced(start: map<int, ChunkState>, boxes: map<BroadphaseRef, AABB>, states: map<int, ChunkState>,
                 views: map<int, seq<Entry>>, pairs: set<Pair>, k: int, after: ChunkState, e: seq<Entry>, pairs': set<Pair>, m: Matrix)
    requires Visited(start, boxes, states, views, pairs, m) && k in start && k !in views
    requires Prepared(states[k], after, e, m, true) && ShowsIn(after.Records, boxes, e)
    requires forall q :: ContainsEqual(pairs', q) <==> ContainsEqual(pairs, q) || Reports(after, q)
    ensures Visited(start, boxes, states[k := after], views[k := e], pairs', m)
  {
    Gathered(states, views, pairs, k, after, e, pairs', states[k := after], views[k := e]);
  }

  /**
   * The registration invariant survives the pair system: each view becomes a
   * permutation of its live records, which keeps the count of every id that
   * is not the tombstone id.
   */
  lemma PermutedRegistry(chunks: map<int, SAPChunk>, contents: map<int, seq<Record>>, contents': map<int, seq<Record>>,
                         ids: seq<int>, lists: seq<seq<SAPChunk?>>)
    requires Registry(chunks, contents, ids, lists) && contents'.Keys == contents.Keys
    requires forall k :: k in contents ==> multiset(contents'[k]) == multiset(LiveOnly(contents[k]))
    requires forall i :: 0 <= i < |ids| ==> ids[i] != UIntMax
    ensures Registry(chunks, contents', ids, lists)
  {
    forall i, k | 0 <= i < |ids| && k in chunks && k in contents'
      ensures CountId(contents'[k], ids[i]) == if chunks[k] in lists[i] then 1 else 0
    {
      CountsPermuted(contents'[k], LiveOnly(contents[k]), ids[i]);
      LiveOnlyCounts(contents[k], ids[i]);
    }
  }

  /**
   * The pair system keeps every record its entity's: it only drops
   * tombstones and reorders records.
   */
  lemma PermutedOwned(contents: map<int, seq<Record>>, contents': map<int, seq<Record>>, world: seq<Entity>, refs: seq<BroadphaseRef?>)
    requires Owned(contents, world, refs) && contents'.Keys == contents.Keys
    requires forall k :: k in contents ==> multiset(contents'[k]) == multiset(LiveOnly(contents[k]))
    ensures Owned(contents', world, refs)
  {
    forall k, i, x: Record | k in contents' && 0 <= i < |world| && x in contents'[k] && x.Id == world[i].Id
      ensures x.Entity == world[i] && x.Box == refs[i]
    {
      PermutedElement(contents[k], contents'[k], x);
    }
  }

  /** A record of a permutation of the live records is one of the records. */
  lemma PermutedElement(s: seq<Record>, t: seq<Record>, x: Record)
    requires multiset(t) == multiset(LiveOnly(s)) && x in t
    ensures x in s
  {
    assert x in multiset(t);
    LiveOnlyElements(s);
  }

  /**
   * The state of the loop of lines 27-40 after the first j chunks of `order`:
   * the singleton is valid, the snapshots and boxes are current, and exactly
   * the first j chunks are visited.
   */
  ghost predicate Progress(sap: BroadphaseSAP, order: seq<int>, j: int, start: map<int, ChunkState>, boxes: map<BroadphaseRef, AABB>,
                           states: map<int, ChunkState>, views: map<int, seq<Entry>>, m: Matrix)
    reads sap, sap.Chunks.Values, boxes.Keys`AABB
  {
    0 <= j <= |order| && views.Keys == Prefix(order, j) &&
    sap.Valid() && Shown(sap, boxes, states) && Visited(start, boxes, states, views, sap.Pairs, m)
  }

  /** One round of the loop of lines 27-40: the next chunk of `order` is visited. */
  method Round(sap: BroadphaseSAP, order: seq<int>, j: int, ghost start: map<int, ChunkState>, ghost boxes: map<BroadphaseRef, AABB>,
               ghost states: map<int, ChunkState>, ghost views: map<int, seq<Entry>>, m: Matrix)
      returns (ok: bool, ghost states': map<int, ChunkState>, ghost views': map<int, seq<Entry>>)
    requires Listing(order, start.Keys) && Covers(start, boxes)
    requires Progress(sap, order, j, start, boxes, states, views, m) && j < |order|
    modifies sap`Pairs, sap`Contents, sap.Chunks.Values`Items, sap.Chunks.Values`Length, sap.Chunks.Values`FreeIndex, sap.Chunks.Values`PairLength, sap.Chunks.Values`Pairs, sap.Chunks.Values`SortAxis, sap.Chunks.Values`IsDirty
    ensures sap.Chunks == old(sap.Chunks)
    ensures ok ==> Progress(sap, order, j + 1, start, boxes, states', views', m)
    ensures !ok ==> Halted(sap, start, boxes, states', views', order[j], m)
  {
    var k := order[j];
    PrefixStep(order, start.Keys, j);
    ghost var pairs := sap.Pairs;
    ghost var after, e;
    ok, after, e := VisitStep(sap, k, sap.Chunks[k], boxes, states, m);
    states', views' := states[k := after], views[k := e];
    if ok {
      Advanced(start, boxes, states, views, pairs, k, after, e, sap.Pairs, m);
    } else {
      Stopped(sap, start, boxes, states, views, k, after, e, m);
    }
  }

  /** A failed visit of a chunk not yet visited halts the loop there. */
  lemma Stopped(sap: BroadphaseSAP, start: map<int, ChunkState>, boxes: map<BroadphaseRef, AABB>, states: map<int, ChunkState>,
                views: map<int, seq<Entry>>, k: int, after: ChunkState, e: seq<Entry>, m: Matrix)
    requires k in start && k in states && states[k] == start[k]
    requires Shown(sap, boxes, states[k := after]) && ShowsIn(after.Records, boxes, e) && Prepared(states[k], after, e, m, false)
    ensures Halted(sap, start, boxes, states[k := after], views[k := e], k, m)
  {
  }

  /** The loop stopped at the chunk under `failed`: its visit failed, and the chunks keep their snapshots. */
  ghost predicate Halted(sap: BroadphaseSAP, start: map<int, ChunkState>, boxes: map<BroadphaseRef, AABB>,
                         states: map<int, ChunkState>, views: map<int, seq<Entry>>, failed: int, m: Matrix)
    reads sap, sap.Chunks.Values, boxes.Keys`AABB
  {
    Shown(sap, boxes, states) && failed in start && failed in states && failed in views &&
    ShowsIn(states[failed].Records, boxes, views[failed]) && Prepared(start[failed], states[failed], views[failed], m, false)
  }

  /**
   * The loop of lines 27-40: the chunks are visited in `order` until one
   * fails. On success all are visited; on failure the chunk reached is
   * prepared with a failing search.
   */
  method VisitAll(sap: BroadphaseSAP, m: Matrix, order: seq<int>, ghost start: map<int, ChunkState>, ghost boxes: map<BroadphaseRef, AABB>)
      returns (ok: bool, ghost states: map<int, ChunkState>, ghost views: map<int, seq<Entry>>, ghost failed: int)
    requires Listing(order, start.Keys) && Covers(start, boxes)
    requires Progress(sap, order, 0, start, boxes, start, map[], m)
    modifies sap`Pairs, sap`Contents, sap.Chunks.Values`Items, sap.Chunks.Values`Length, sap.Chunks.Values`FreeIndex, sap.Chunks.Values`PairLength, sap.Chunks.Values`Pairs, sap.Chunks.Values`SortAxis, sap.Chunks.Values`IsDirty
    ensures sap.Chunks == old(sap.Chunks)
    ensures ok ==> Progress(sap, order, |order|, start, boxes, states, views, m)
    ensures !ok ==> Halted(sap, start, boxes, states, views, failed, m)
  {
    states, views := start, map[];
    ok, failed := true, 0;
    var j := 0;
    while j < |order|
      invariant ok && sap.Chunks == old(sap.Chunks) && Progress(sap, order, j, start, boxes, states, views, m)
    {
      failed := order[j];
      ok, states, views := Round(sap, order, j, start, boxes, states, views, m);
      if !ok {
        return;
      }
      j := j + 1;
    }
  }

  /** Line 26 clears the set; the chunks keep their snapshots. */
  method Clear(sap: BroadphaseSAP)
    requires sap.Valid() && sap.Mirrors()
    modifies sap`Pairs
    ensures sap.Pairs == {} && sap.Valid() && sap.Mirrors() && Snapshots(sap.Chunks) == old(Snapshots(sap.Chunks))
  {
    sap.Pairs := {};
  }

  /** The boxes of all snapshots. */
  ghost function BoxesOf(states: map<int, ChunkState>): (bs: set<BroadphaseRef>)
    ensures forall k :: k in states ==> BoxesIn(states[k].Records) <= bs
  {
    set k, i | k in states && 0 <= i < |states[k].Records| && states[k].Records[i].Box != null :: states[k].Records[i].Box
  }

  /** The current boxes of the components the records of `states` point at. */
  ghost function BoxesNow(states: map<int, ChunkState>): (boxes: map<BroadphaseRef, AABB>)
    reads BoxesOf(states)`AABB
    ensures Boxed(boxes) && Covers(states, boxes)
  {
    map b | b in BoxesOf(states) :: b.AABB
  }

  /** Before the first round nothing is visited and the set is empty. */
  lemma Begun(sap: BroadphaseSAP, order: seq<int>, start: map<int, ChunkState>, boxes: map<BroadphaseRef, AABB>, m: Matrix)
    requires sap.Valid() && sap.Mirrors() && sap.Pairs == {} && Bounded(sap.Chunks) && start == Snapshots(sap.Chunks) && Boxed(boxes)
    ensures Progress(sap, order, 0, start, boxes, start, map[], m)
  {
  }

  /**
   * After a visit of every chunk: each chunk shows its view and is prepared
   * from its state at the start, the set holds exactly what the chunks
   * report, and each view of the singleton is a permutation of its live
   * records at the start.
   */
  lemma Concluded(chunks: map<int, SAPChunk>, contents: map<int, seq<Record>>, start: map<int, ChunkState>,
                  boxes: map<BroadphaseRef, AABB>, states: map<int, ChunkState>, views: map<int, seq<Entry>>, pairs: set<Pair>, m: Matrix)
    requires Current(chunks, states) && Boxed(boxes) && Covers(start, boxes)
    requires Visited(start, boxes, states, views, pairs, m) && views.Keys == start.Keys
    requires contents.Keys == chunks.Keys && forall k :: k in chunks ==> contents[k] == chunks[k].Records()
    ensures forall k :: k in chunks ==>
      k in views && Shows(chunks[k].Records(), views[k]) && Prepared(start[k], StateOf(chunks[k]), views[k], m, true)
    ensures forall q :: ContainsEqual(pairs, q) <==> exists k :: k in chunks && Reports(StateOf(chunks[k]), q)
    ensures forall k :: k in start ==> multiset(contents[k]) == multiset(LiveOnly(start[k].Records))
  {
    forall k | k in chunks
      ensures Shows(chunks[k].Records(), views[k])
    {
      KeptBoxes(start[k].Records, states[k].Records);
      Snapshot(states[k].Records, boxes, views[k]);
    }
  }

  /** After a failed visit: the chunk reached shows its view and is prepared from its state at the start with a failing search. */
  lemma Failed(chunks: map<int, SAPChunk>, start: map<int, ChunkState>, boxes: map<BroadphaseRef, AABB>,
               states: map<int, ChunkState>, views: map<int, seq<Entry>>, failed: int, m: Matrix)
    requires Current(chunks, states) && Boxed(boxes) && Covers(start, boxes) && start.Keys == chunks.Keys
    requires failed in start && failed in views
    requires ShowsIn(states[failed].Records, boxes, views[failed]) && Prepared(start[failed], states[failed], views[failed], m, false)
    ensures failed in chunks && Shows(chunks[failed].Records(), views[failed])
    ensures Prepared(start[failed], StateOf(chunks[failed]), views[failed], m, false)
  {
    KeptBoxes(start[failed].Records, states[failed].Records);
    Snapshot(states[failed].Records, boxes, views[failed]);
  }

  /**
   * `Update` (lines 22-41): the set is cleared and every chunk is visited in
   * the dictionary's order. On success every chunk is prepared as Prepared
   * states, and the set holds, up to orientation and without two Equal
   * pairs, exactly the pairs the chunks report; the registration invariant
   * is kept. A throwing matrix lookup ends the update at a chunk, `failed`,
   * whose brute-force search fails.
   */
  method Update(sap: BroadphaseSAP, m: Matrix, order: seq<int>)
      returns (ok: bool, ghost views: map<int, seq<Entry>>, ghost failed: int)
    requires sap.Valid() && sap.Mirrors() && Listing(order, sap.Chunks.Keys)
    modifies sap`Pairs, sap`Contents, sap.Chunks.Values`Items, sap.Chunks.Values`Length, sap.Chunks.Values`FreeIndex, sap.Chunks.Values`PairLength, sap.Chunks.Values`Pairs, sap.Chunks.Values`SortAxis, sap.Chunks.Values`IsDirty
    ensures sap.Mirrors()
    ensures ok ==> sap.Valid()
    ensures ok ==> forall k :: k in sap.Chunks ==>
      (k in views && Shows(sap.Chunks[k].Records(), views[k]) &&
       Prepared(old(StateOf(sap.Chunks[k])), StateOf(sap.Chunks[k]), views[k], m, true))
    ensures ok ==> forall q :: ContainsEqual(sap.Pairs, q) <==> exists k :: k in sap.Chunks && Reports(StateOf(sap.Chunks[k]), q)
    ensures !ok ==> failed in sap.Chunks && failed in views && Shows(sap.Chunks[failed].Records(), views[failed]) &&
                    Prepared(old(StateOf(sap.Chunks[failed])), StateOf(sap.Chunks[failed]), views[failed], m, false)
    ensures ok ==> forall k :: k in sap.Chunks ==> multiset(sap.Contents[k]) == multiset(LiveOnly(old(sap.Contents[k])))
  {
    Clear(sap);
    ghost var start := Snapshots(sap.Chunks);
    ghost var boxes := BoxesNow(start);
    Begun(sap, order, start, boxes, m);
    ghost var states;
    ok, states, views, failed := VisitAll(sap, m, order, start, boxes);
    if ok {
      Concluded(sap.Chunks, sap.Contents, start, boxes, states, views, sap.Pairs, m);
    } else {
      Failed(sap.Chunks, start, boxes, states, views, failed, m);
    }
  }
}
