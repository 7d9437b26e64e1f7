/**
 * BroadphasePair (Assets/Physics/BroadpaseHelper.cs): an unordered pair of
 * entities reported by the broadphase. Entities are identified by their
 * `uint` ids; MiniEcs hands out one entity object per id, so comparing the
 * objects by reference is comparing the ids.
 */
module BroadphasePair {
  import opened Grid

  const UIntMax: int := 4294967295

  predicate IsUInt(n: int) { 0 <= n <= UIntMax }

  datatype Pair = Pair(EntityA: nat, EntityB: nat)

  /** `Equals`: the same two entities, in either order. */
  predicate Equals(p: Pair, q: Pair)
  {
    (p.EntityA == q.EntityA && p.EntityB == q.EntityB) || (p.EntityB == q.EntityA && p.EntityA == q.EntityB)
  }

  function Swap(p: Pair): (q: Pair)
    ensures q.EntityA == p.EntityB && q.EntityB == p.EntityA
  {
    Pair(p.EntityB, p.EntityA)
  }

  /** Equals is an equivalence whose classes are {p, Swap(p)}. */
  lemma EqualsIsEquivalence(p: Pair, q: Pair, s: Pair)
    ensures Equals(p, p)
    ensures Equals(p, q) <==> Equals(q, p)
    ensures Equals(p, q) && Equals(q, s) ==> Equals(p, s)
    ensures Equals(p, q) <==> q == p || q == Swap(p)
  {
  }

  /** `GetHashCode` as written: `((int) A.Id * 397) ^ (int) B.Id`, unchecked. */
  function HashCode(p: Pair): bv32
  {
    (ToBv32(p.EntityA) * 397) ^ ToBv32(p.EntityB)
  }

  /**
   * Equal pairs may hash differently: Pair(1, 2) equals Pair(2, 1), yet their
   * hashes are 399 and 795. A HashSet that relies on this hash can keep both
   * orientations of the same two entities.
   */
  lemma HashCodeBreaksEquals()
    ensures Equals(Pair(1, 2), Pair(2, 1))
    ensures HashCode(Pair(1, 2)) == 399 && HashCode(Pair(2, 1)) == 795
  {
    assert ToBv32(1) == 1;
    assert ToBv32(2) == 2;
  }

  /** A hash consistent with Equals: hash the pair with the smaller id first. */
  function OrderedHashCode(p: Pair): bv32
  {
    if p.EntityA <= p.EntityB then HashCode(p) else HashCode(Swap(p))
  }

  lemma OrderedHashCodeRespectsEquals(p: Pair, q: Pair)
    requires Equals(p, q)
    ensures OrderedHashCode(p) == OrderedHashCode(q)
  {
    if q != p {
      assert q == Swap(p);
    }
  }

  /** Some element of `s` equals `p`: what `HashSet.Contains` answers when the hash respects Equals. */
  predicate ContainsEqual(s: set<Pair>, p: Pair)
  {
    p in s || Swap(p) in s
  }

  /**
   * `HashSet.Add(p)` under a hash that respects Equals: p is added only when
   * no equal pair is present already.
   */
  function AddPair(s: set<Pair>, p: Pair): (t: set<Pair>)
    ensures ContainsEqual(t, p)
    ensures forall q :: ContainsEqual(t, q) <==> ContainsEqual(s, q) || Equals(p, q)
    ensures NoEqualPairs(s) ==> NoEqualPairs(t)
  {
    if ContainsEqual(s, p) then s else s + {p}
  }

  /**
   * `HashSet<BroadphasePair>.Add(p)` as written: the set looks for a member
   * Equal to `p` only among the members whose hash code is that of `p`, and
   * adds `p` when it finds none.
   */
  function AddAsWritten(s: set<Pair>, p: Pair): (t: set<Pair>)
    ensures ContainsEqual(t, p) && s <= t && t <= s + {p}
    ensures t == s <==> exists q :: q in s && HashCode(q) == HashCode(p) && Equals(q, p)
  {
    if exists q :: q in s && HashCode(q) == HashCode(p) && Equals(q, p) then s
    else
      assert p !in s by {
        if p in s {
          assert HashCode(p) == HashCode(p) && Equals(p, p);
        }
      }
      s + {p}
  }

  /**
   * Adding the two orientations of the same two entities keeps both: the set
   * ends up with two members that are Equal, which AddPair never allows.
   */
  lemma BothOrientationsKept()
    ensures AddAsWritten(AddAsWritten({}, Pair(1, 2)), Pair(2, 1)) == {Pair(1, 2), Pair(2, 1)}
    ensures Equals(Pair(1, 2), Pair(2, 1)) && !NoEqualPairs({Pair(1, 2), Pair(2, 1)})
    ensures AddPair(AddPair({}, Pair(1, 2)), Pair(2, 1)) == {Pair(1, 2)}
  {
    HashCodeBreaksEquals();
    assert Swap(Pair(1, 2)) == Pair(2, 1);
  }

  /** No two distinct members of the set are Equal. */
  predicate NoEqualPairs(s: set<Pair>)
  {
    forall p :: p in s ==> p == Swap(p) || Swap(p) !in s
  }
}
