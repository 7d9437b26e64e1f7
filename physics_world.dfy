/**
 * The registration invariant that ties the entities of the world to the
 * chunks of the broadphase singleton (Physics revision), and the chunk
 * operations of Assets/Physics/BroadpaseHelper.cs lifted to the singleton:
 * each changes one chunk, keeps the singleton valid, and updates the ghost
 * view `Contents` by a function of the old view.
 */
module PhysicsWorld {
  import opened BroadphasePair
  import opened PhysicsEcs
  import opened PhysicsHelper

  /** Entity ids are unsigned, never the tombstone id, and distinct. */
  predicate DistinctIds(world: seq<Entity>)
  {
    (forall i :: 0 <= i < |world| ==> IsUInt(world[i].Id) && world[i].Id != UIntMax) &&
    (forall i, j :: 0 <= i < |world| && 0 <= j < |world| && i != j ==> world[i].Id != world[j].Id)
  }

  ghost function Members(world: seq<Entity>): set<object>
  {
    set i | 0 <= i < |world| :: world[i]
  }

  ghost function Refs(world: seq<Entity>): set<object>
    reads Members(world)
  {
    set i | 0 <= i < |world| && world[i].BpRef != null :: world[i].BpRef
  }

  /** The chunk list of an entity: that of its BroadphaseRefComponent, none without one. */
  ghost function ListOf(e: Entity): seq<SAPChunk?>
    reads e, e.BpRef
  {
    if e.BpRef == null then [] else e.BpRef.Chunks
  }

  /** The ids of the entities, in world order. */
  function Ids(world: seq<Entity>): (ids: seq<int>)
    ensures |ids| == |world| && forall i :: 0 <= i < |world| ==> ids[i] == world[i].Id
  {
    seq(|world|, i requires 0 <= i < |world| => world[i].Id)
  }

  /** The chunk lists of the entities, in world order. */
  ghost function Lists(world: seq<Entity>): (lists: seq<seq<SAPChunk?>>)
    reads Members(world), Refs(world)
    ensures |lists| == |world| && forall i :: 0 <= i < |world| ==> lists[i] == ListOf(world[i])
  {
    seq(|world|, i requires 0 <= i < |world| reads Members(world), Refs(world) => ListOf(world[i]))
  }

  /** A chunk list as an entity keeps it: chunks stored under their own ids, each once. */
  ghost predicate ListOk(chunks: map<int, SAPChunk>, list: seq<SAPChunk?>)
  {
    (forall i :: 0 <= i < |list| ==> list[i] != null && list[i].Id in chunks && chunks[list[i].Id] == list[i]) &&
    (forall i, j :: 0 <= i < j < |list| ==> list[i] != list[j])
  }

  /**
   * The registration invariant on values: every list is well kept, and every
   * chunk holds exactly one record of each id whose list names it and none of
   * any other id.
   */
  ghost predicate Registry(chunks: map<int, SAPChunk>, contents: map<int, seq<Record>>, ids: seq<int>, lists: seq<seq<SAPChunk?>>)
  {
    |ids| == |lists| &&
    (forall i :: 0 <= i < |lists| ==> ListOk(chunks, lists[i])) &&
    (forall i, k :: 0 <= i < |ids| && k in chunks && k in contents ==>
      CountId(contents[k], ids[i]) == if chunks[k] in lists[i] then 1 else 0)
  }

  /** The BroadphaseRefComponents of the entities, in world order. */
  ghost function BpRefs(world: seq<Entity>): (refs: seq<BroadphaseRef?>)
    reads Members(world)
    ensures |refs| == |world| && forall i :: 0 <= i < |world| ==> refs[i] == world[i].BpRef
  {
    seq(|world|, i requires 0 <= i < |world| reads Members(world) => world[i].BpRef)
  }

  /**
   * Every record of an entity is that entity's record: it names the entity
   * and points at the box of the entity's component `refs[i]`.
   */
  ghost predicate Owned(contents: map<int, seq<Record>>, world: seq<Entity>, refs: seq<BroadphaseRef?>)
  {
    |refs| == |world| &&
    forall k, i, x :: k in contents && 0 <= i < |world| && x in contents[k] && x.Id == world[i].Id ==>
      x.Entity == world[i] && x.Box == refs[i]
  }

  /**
   * The registration invariant: a valid singleton whose view is exact, lists
   * and records that agree, and records that point at their entity's box.
   */
  ghost predicate Consistent(sap: BroadphaseSAP, world: seq<Entity>)
    reads sap, sap.Chunks.Values, Members(world), Refs(world)
  {
    sap.Valid() && sap.Mirrors() && Registry(sap.Chunks, sap.Contents, Ids(world), Lists(world)) &&
    Owned(sap.Contents, world, BpRefs(world))
  }

  /** What the appends leave in a view: its old records and `r`. */
  lemma {:induction false} AppendedElements(contents: map<int, seq<Record>>, keys: seq<int>, r: Record, k: int, x: Record)
    requires k in contents && x in Appended(contents, keys, r)[k]
    ensures x in contents[k] || x == r
  {
    if keys != [] {
      var m := Appended(contents, keys[..|keys| - 1], r);
      if k == keys[|keys| - 1] && x !in m[k] {
        assert x in m[k] + [r];
      } else {
        AppendedElements(contents, keys[..|keys| - 1], r, k, x);
      }
    }
  }

  /** A count of zero means no record carries the id. */
  lemma CountIdNone(s: seq<Record>, id: int, x: Record)
    requires CountId(s, id) == 0 && x in s
    ensures x.Id != id
  {
    if x.Id == id {
      CountIdPositiveOf(s, id, x);
    }
  }

  /** A record with the id makes its count positive. */
  lemma {:induction false} CountIdPositiveOf(s: seq<Record>, id: int, x: Record)
    requires x in s && x.Id == id
    ensures CountId(s, id) > 0
  {
    var last := |s| - 1;
    if s[last] != x {
      assert x in s[..last] by {
        assert s == s[..last] + [s[last]];
      }
      CountIdPositiveOf(s[..last], id, x);
    }
  }

  /**
   * The records of an entity that had none, appended to the chunks of some
   * keys, are its own: every record stays its entity's record with the
   * entity's component `ref`.
   */
  lemma OwnedAppended(contents: map<int, seq<Record>>, world: seq<Entity>, refs: seq<BroadphaseRef?>, keys: seq<int>,
                      p: int, ref: BroadphaseRef?, r: Record)
    requires Owned(contents, world, refs) && DistinctIds(world) && 0 <= p < |world|
    requires r.Id == world[p].Id && r.Entity == world[p] && r.Box == ref
    requires forall k :: k in contents ==> CountId(contents[k], r.Id) == 0
    ensures Owned(Appended(contents, keys, r), world, refs[p := ref])
  {
    var m := Appended(contents, keys, r);
    forall k, i, x: Record | k in m && 0 <= i < |world| && x in m[k] && x.Id == world[i].Id
      ensures x.Entity == world[i] && x.Box == refs[p := ref][i]
    {
      AppendedElements(contents, keys, r, k, x);
      if x == r {
        assert i == p;
      } else {
        CountIdNone(contents[k], r.Id, x);
      }
    }
  }

  /** Every chunk can take `n` more records before its length reaches `int.MaxValue`. */
  ghost predicate Room(sap: BroadphaseSAP, n: int)
    reads sap
  {
    0 <= n < IntMax && forall k :: k in sap.Contents ==> |sap.Contents[k]| + n < IntMax
  }

  /**
   * The singleton only gains chunks: every chunk it held is still stored under
   * its key, and the others are new.
   */
  twostate predicate Grown(sap: BroadphaseSAP)
    reads sap
  {
    (forall k :: k in old(sap.Chunks) ==> k in sap.Chunks && sap.Chunks[k] == old(sap.Chunks[k])) &&
    (forall k :: k in sap.Chunks && k !in old(sap.Chunks) ==> fresh(sap.Chunks[k]))
  }

  /** The views after appending `r` to the chunk of every key in turn. */
  function Appended(contents: map<int, seq<Record>>, keys: seq<int>, r: Record): (m: map<int, seq<Record>>)
    ensures m.Keys == contents.Keys
  {
    if keys == [] then contents
    else
      var m := Appended(contents, keys[..|keys| - 1], r);
      var k := keys[|keys| - 1];
      if k in m then m[k := m[k] + [r]] else m
  }

  /** One more key: its view, as far as it exists, gains `r` at its end. */
  lemma AppendedStep(contents: map<int, seq<Record>>, keys: seq<int>, j: int, r: Record)
    requires 0 <= j < |keys|
    ensures var m := Appended(contents, keys[..j], r);
      Appended(contents, keys[..j + 1], r) == if keys[j] in m then m[keys[j] := m[keys[j]] + [r]] else m
  {
    assert keys[..j + 1][..j] == keys[..j];
  }

  /** With distinct keys, each listed view gains `r` once at its end, and every other view is unchanged. */
  lemma {:induction false} AppendedAt(contents: map<int, seq<Record>>, keys: seq<int>, r: Record, k: int)
    requires forall i, j :: 0 <= i < j < |keys| ==> keys[i] != keys[j]
    requires k in contents
    ensures Appended(contents, keys, r)[k] == contents[k] + (if k in keys then [r] else [])
  {
    if keys != [] {
      var init := keys[..|keys| - 1];
      AppendedAt(contents, init, r, k);
      assert k in keys <==> k in init || k == keys[|keys| - 1];
      if k == keys[|keys| - 1] {
        assert k !in init;
      }
    }
  }

  /** Appending to the chunks of distinct keys adds one to the count of the record's id in each listed view. */
  lemma AppendedCount(contents: map<int, seq<Record>>, keys: seq<int>, r: Record, k: int, id: int)
    requires forall i, j :: 0 <= i < j < |keys| ==> keys[i] != keys[j]
    requires k in contents
    ensures CountId(Appended(contents, keys, r)[k], id) == CountId(contents[k], id) + (if k in keys && r.Id == id then 1 else 0)
  {
    AppendedAt(contents, keys, r, k);
    if k in keys {
      CountIdAppend(contents[k], r, id);
    } else {
      assert contents[k] + [] == contents[k];
    }
  }

  /**
   * Adding chunks keeps the registration invariant when every new chunk is
   * stored under its own id and holds no record: no list can name it.
   */
  lemma Extended(chunks: map<int, SAPChunk>, contents: map<int, seq<Record>>, ids: seq<int>, lists: seq<seq<SAPChunk?>>,
                 chunks': map<int, SAPChunk>, contents': map<int, seq<Record>>)
    requires Registry(chunks, contents, ids, lists)
    requires forall k :: k in chunks ==> k in chunks' && chunks'[k] == chunks[k]
    requires forall k :: k in chunks && k in contents ==> k in contents' && contents'[k] == contents[k]
    requires forall k :: k in chunks' && k !in chunks ==> chunks'[k].Id == k && (k in contents' ==> contents'[k] == [])
    requires forall k :: k in chunks && k !in contents ==> k !in contents'
    ensures Registry(chunks', contents', ids, lists)
  {
    forall i, k | 0 <= i < |ids| && k in chunks' && k in contents' && k !in chunks
      ensures CountId(contents'[k], ids[i]) == if chunks'[k] in lists[i] then 1 else 0
    {
      assert ListOk(chunks, lists[i]);
      forall j | 0 <= j < |lists[i]|
        ensures lists[i][j] != chunks'[k]
      {
        assert lists[i][j].Id in chunks;
      }
    }
  }

  /**
   * The registration of one more list: when the entity at `p` had no list and
   * no record, giving it the chunks of distinct keys and appending its record
   * to each of them restores the invariant.
   */
  lemma Enrolled(chunks: map<int, SAPChunk>, contents: map<int, seq<Record>>, ids: seq<int>, lists: seq<seq<SAPChunk?>>,
                 p: int, keys: seq<int>, list: seq<SAPChunk?>, r: Record)
    requires Registry(chunks, contents, ids, lists) && 0 <= p < |ids| && lists[p] == []
    requires r.Id == ids[p] && forall i :: 0 <= i < |ids| && i != p ==> ids[i] != r.Id
    requires forall k :: k in chunks ==> chunks[k].Id == k
    requires |list| == |keys| && forall i :: 0 <= i < |keys| ==> keys[i] in chunks && keys[i] in contents && list[i] == chunks[keys[i]]
    requires forall i, j :: 0 <= i < j < |keys| ==> keys[i] != keys[j]
    ensures Registry(chunks, Appended(contents, keys, r), ids, lists[p := list])
  {
    var lists' := lists[p := list];
    forall i | 0 <= i < |lists'|
      ensures ListOk(chunks, lists'[i])
    {
      if i == p {
        forall a, b | 0 <= a < b < |list|
          ensures list[a] != list[b]
        {
          assert list[a].Id == keys[a] && list[b].Id == keys[b];
        }
      }
    }
    forall i, k | 0 <= i < |ids| && k in chunks && k in Appended(contents, keys, r)
      ensures CountId(Appended(contents, keys, r)[k], ids[i]) == if chunks[k] in lists'[i] then 1 else 0
    {
      AppendedCount(contents, keys, r, k, ids[i]);
      if i == p {
        if chunks[k] in list {
          var j :| 0 <= j < |list| && list[j] == chunks[k];
          assert k == keys[j];
        }
        if k in keys {
          var j :| 0 <= j < |keys| && keys[j] == k;
          assert list[j] == chunks[k];
        }
      }
    }
  }

  /** AppendRecord on a chunk of the singleton: its view gains the record, and the singleton stays valid. */
  method Append(sap: BroadphaseSAP, chunk: SAPChunk, r: Record)
    requires sap.Valid() && sap.Mirrors() && sap.Holds(chunk) && WellFormed(r) && !Dead(r)
    requires |sap.Contents[chunk.Id]| + 1 < IntMax
    modifies sap`Contents, chunk
    ensures sap.Valid() && sap.Mirrors() && sap.Chunks == old(sap.Chunks)
    ensures sap.Contents == old(sap.Contents)[chunk.Id := old(sap.Contents[chunk.Id]) + [r]]
  {
    AppendRecord(chunk, r);
    sap.Contents := sap.Contents[chunk.Id := chunk.Records()];
  }

  /** RemoveFormChunk on a chunk of the singleton: its view loses the first record of the id, and the singleton stays valid. */
  method Remove(sap: BroadphaseSAP, chunk: SAPChunk, id: int) returns (found: bool)
    requires sap.Valid() && sap.Mirrors() && sap.Holds(chunk) && IsUInt(id) && id != UIntMax
    modifies sap`Contents, chunk
    ensures sap.Valid() && sap.Mirrors() && sap.Chunks == old(sap.Chunks)
    ensures found <==> CountId(old(sap.Contents[chunk.Id]), id) > 0
    ensures sap.Contents == old(sap.Contents)[chunk.Id := Unlist(old(sap.Contents[chunk.Id]), id)]
  {
    found := RemoveFormChunk(chunk, id);
    sap.Contents := sap.Contents[chunk.Id := chunk.Records()];
  }
}
