/** The generic id-indexed registry behind the connected clients, the players and
    the spores (objects/sharedCollection.go). The mutex that guards it in Go is
    not modelled: every operation is one atomic step on an immutable value. */
module Collection {
  import opened Wrappers

  /** Ids are Go `uint64` values. */
  const U64: int := 0x1_0000_0000_0000_0000

  type Id = x: int | 0 <= x < U64

  datatype Collection<T> = Collection(objects: map<Id, T>, nextId: Id)

  /** Go's `nextId++` on a `uint64`: it wraps to 0 past the largest value. */
  function Succ(n: Id): Id
  {
    if n == U64 - 1 then 0 else n + 1
  }

  /** NewSharedCollection: an empty map whose counter starts at 1. */
  function New<T>(): (c: Collection<T>)
    ensures Len(c) == 0
    ensures forall k :: Get(c, k) == None
    ensures c.nextId == 1
  {
    Collection(map[], 1)
  }

  /** Get: the stored object and whether it was found. */
  function Get<T>(c: Collection<T>, id: Id): (r: Option<T>)
    ensures r.Some? <==> id in c.objects
    ensures r.Some? ==> r.value == c.objects[id]
  {
    if id in c.objects then Some(c.objects[id]) else None
  }

  /** Len: the number of stored entries. */
  function Len<T>(c: Collection<T>): (n: nat)
    ensures n == 0 <==> c.objects == map[]
    ensures forall k :: k in c.objects ==> n > 0
  {
    |c.objects|
  }

  /** Add: stores `obj` under the explicit id when one is given and under the
      counter otherwise, overwriting whatever was there; the counter advances
      in both cases. Returns the collection and the id used. */
  function Add<T>(c: Collection<T>, obj: T, id: Option<Id>): (r: (Collection<T>, Id))
    ensures id.Some? ==> r.1 == id.value
    ensures id.None? ==> r.1 == c.nextId
    ensures Get(r.0, r.1) == Some(obj)
    ensures forall k :: k != r.1 ==> Get(r.0, k) == Get(c, k)
    ensures c.nextId < U64 - 1 ==> r.0.nextId == c.nextId + 1
  {
    var thisId := if id.Some? then id.value else c.nextId;
    (Collection(c.objects[thisId := obj], Succ(c.nextId)), thisId)
  }

  /** Remove: deletes the entry under `id`, if any. */
  function Remove<T>(c: Collection<T>, id: Id): (r: Collection<T>)
    ensures Get(r, id) == None
    ensures forall k :: k != id ==> Get(r, k) == Get(c, k)
    ensures r.nextId == c.nextId
    ensures id !in c.objects ==> r == c
  {
    Collection(c.objects - {id}, c.nextId)
  }

  /** Rewrites the object under an existing id without touching the counter.
      Go stores pointers, so a write through a stored pointer changes the entry
      in place; this is how the model expresses such a write. */
  function Update<T>(c: Collection<T>, id: Id, obj: T): (r: Collection<T>)
    requires id in c.objects
    ensures r.objects.Keys == c.objects.Keys
    ensures r.nextId == c.nextId
    ensures Get(r, id) == Some(obj)
    ensures forall k :: k != id ==> Get(r, k) == Get(c, k)
  {
    Collection(c.objects[id := obj], c.nextId)
  }

  /** No id occurs twice in the sequence. */
  ghost predicate Unique(ids: seq<Id>)
  {
    forall i, j :: 0 <= i < j < |ids| ==> ids[i] != ids[j]
  }

  /** The ids of a sequence of entries, in order. */
  function IdsOf<T>(visits: seq<(Id, T)>): (ids: seq<Id>)
    ensures |ids| == |visits|
    ensures forall i :: 0 <= i < |visits| ==> ids[i] == visits[i].0
  {
    seq(|visits|, i requires 0 <= i < |visits| => visits[i].0)
  }

  /** No id occurs twice among the entries. */
  ghost predicate DistinctIds<T>(visits: seq<(Id, T)>)
  {
    Unique(IdsOf(visits))
  }

  /** `order` lists every key of `keys` exactly once: one iteration order Go's
      `range` over a map may pick. */
  ghost predicate IsEnumeration(order: seq<Id>, keys: set<Id>)
  {
    && Unique(order)
    && (forall i :: 0 <= i < |order| ==> order[i] in keys)
    && (forall k :: k in keys ==> k in order)
  }

  /** The entries a snapshot iteration visits when the runtime picks `order`. */
  function Snapshot<T>(c: Collection<T>, order: seq<Id>): (s: seq<(Id, T)>)
    ensures |s| <= |order|
    ensures forall i :: 0 <= i < |s| ==> s[i].0 in c.objects && s[i].1 == c.objects[s[i].0]
  {
    if |order| == 0 then []
    else if order[0] in c.objects then [(order[0], c.objects[order[0]])] + Snapshot(c, order[1..])
    else Snapshot(c, order[1..])
  }

  /** The snapshot visits every entry of the collection exactly once. */
  ghost predicate VisitsEachOnce<T>(c: Collection<T>, s: seq<(Id, T)>)
  {
    && (forall i :: 0 <= i < |s| ==> s[i].0 in c.objects && s[i].1 == c.objects[s[i].0])
    && DistinctIds(s)
    && (forall k :: k in c.objects ==> exists i :: 0 <= i < |s| && s[i].0 == k)
  }

  /** Under an enumeration order the snapshot is exactly the entries, each once,
      in that order. */
  lemma {:induction false} SnapshotOfEnumeration<T>(c: Collection<T>, order: seq<Id>)
    requires IsEnumeration(order, c.objects.Keys)
    ensures |Snapshot(c, order)| == |order|
    ensures forall i :: 0 <= i < |order| ==> Snapshot(c, order)[i] == (order[i], c.objects[order[i]])
    decreases |order|
  {
    if |order| > 0 {
      // The tail enumerates the keys of the collection without the head.
      var rest := order[1..];
      var c' := Collection(c.objects - {order[0]}, c.nextId);
      assert IsEnumeration(rest, c'.objects.Keys) by {
        forall k | k in c'.objects.Keys ensures k in rest {
          var i :| 0 <= i < |order| && order[i] == k;
          assert rest[i - 1] == k;
        }
        forall i | 0 <= i < |rest| ensures rest[i] in c'.objects.Keys {
          assert rest[i] == order[i + 1];
        }
      }
      SnapshotOfEnumeration(c', rest);
      SnapshotAgree(c, c', rest);
    }
  }

  /** The visit sequence of an enumeration order meets every entry exactly once. */
  lemma SnapshotVisitsEachOnce<T>(c: Collection<T>, order: seq<Id>)
    requires IsEnumeration(order, c.objects.Keys)
    ensures VisitsEachOnce(c, Snapshot(c, order))
    ensures |Snapshot(c, order)| == Len(c)
  {
    var s := Snapshot(c, order);
    SnapshotOfEnumeration(c, order);
    forall k | k in c.objects ensures exists i :: 0 <= i < |s| && s[i].0 == k {
      var i :| 0 <= i < |order| && order[i] == k;
      assert s[i].0 == k;
    }
    EnumerationSize(order, c.objects.Keys);
  }

  /** An enumeration is exactly as long as the set it enumerates. */
  lemma {:induction false} EnumerationSize(order: seq<Id>, keys: set<Id>)
    requires IsEnumeration(order, keys)
    ensures |order| == |keys|
    decreases |order|
  {
    if |order| == 0 {
      assert keys == {};
    } else {
      var rest := order[1..];
      assert IsEnumeration(rest, keys - {order[0]}) by {
        forall k | k in keys - {order[0]} ensures k in rest {
          var i :| 0 <= i < |order| && order[i] == k;
          assert rest[i - 1] == k;
        }
        forall i | 0 <= i < |rest| ensures rest[i] in keys - {order[0]} {
          assert rest[i] == order[i + 1];
        }
      }
      EnumerationSize(rest, keys - {order[0]});
    }
  }

  /** Two collections that agree on every key of `order` give the same snapshot. */
  lemma {:induction false} SnapshotAgree<T>(c: Collection<T>, d: Collection<T>, order: seq<Id>)
    requires forall i :: 0 <= i < |order| ==> (order[i] in c.objects <==> order[i] in d.objects)
    requires forall i :: 0 <= i < |order| && order[i] in c.objects ==> c.objects[order[i]] == d.objects[order[i]]
    ensures Snapshot(c, order) == Snapshot(d, order)
    decreases |order|
  {
    if |order| > 0 {
      SnapshotAgree(c, d, order[1..]);
    }
  }

  /** ForEach: copies the map, then visits each entry of the copy once, in an
      order the runtime picks. The visitor is left to the caller: the method
      returns the visits in order. */
  method ForEach<T>(c: Collection<T>) returns (visits: seq<(Id, T)>)
    ensures VisitsEachOnce(c, visits)
    ensures |visits| == Len(c)
  {
    var copy := c.objects;
    var pending := copy.Keys;
    visits := [];
    while pending != {}
      invariant pending <= copy.Keys
      invariant forall i :: 0 <= i < |visits| ==> visits[i].0 in copy && visits[i].0 !in pending && visits[i].1 == copy[visits[i].0]
      invariant forall i, j :: 0 <= i < j < |visits| ==> visits[i].0 != visits[j].0
      invariant forall k :: k in copy && k !in pending ==> exists i :: 0 <= i < |visits| && visits[i].0 == k
      decreases pending
    {
      var k :| k in pending;
      var visits' := visits + [(k, copy[k])];
      forall k' | k' in copy && k' !in pending - {k}
        ensures exists i :: 0 <= i < |visits'| && visits'[i].0 == k'
      {
        if k' == k {
          assert visits'[|visits|].0 == k';
        } else {
          var i :| 0 <= i < |visits| && visits[i].0 == k';
          assert visits'[i].0 == k';
        }
      }
      visits := visits';
      pending := pending - {k};
    }
    VisitsSize(c, visits);
  }

  /** A sequence that visits every entry once is as long as the collection. */
  lemma VisitsSize<T>(c: Collection<T>, visits: seq<(Id, T)>)
    requires VisitsEachOnce(c, visits)
    ensures |visits| == Len(c)
  {
    var ids := IdsOf(visits);
    assert IsEnumeration(ids, c.objects.Keys) by {
      forall k | k in c.objects.Keys ensures k in ids {
        var i :| 0 <= i < |visits| && visits[i].0 == k;
        assert ids[i] == k;
      }
    }
    EnumerationSize(ids, c.objects.Keys);
  }

  /** Adding under a key that was absent grows the collection by one; adding
      under a present key (an overwrite) leaves its size unchanged. */
  lemma LenAfterAdd<T>(c: Collection<T>, obj: T, id: Option<Id>)
    ensures Add(c, obj, id).1 !in c.objects ==> Len(Add(c, obj, id).0) == Len(c) + 1
    ensures Add(c, obj, id).1 in c.objects ==> Len(Add(c, obj, id).0) == Len(c)
  {
  }

  /** Removing a present key shrinks the collection by one; removing an absent
      key changes nothing. */
  lemma LenAfterRemove<T>(c: Collection<T>, id: Id)
    ensures id in c.objects ==> Len(Remove(c, id)) == Len(c) - 1
    ensures id !in c.objects ==> Len(Remove(c, id)) == Len(c)
  {
  }

  /** Every stored id is positive and below the counter. This holds of a new
      collection and survives automatic Adds and Removes; while it holds, an
      automatic Add never overwrites an entry. */
  ghost predicate IdsBelowNext<T>(c: Collection<T>)
  {
    && 0 < c.nextId
    && forall k :: k in c.objects ==> 0 < k < c.nextId
  }

  lemma NewIdsBelowNext<T>()
    ensures IdsBelowNext(New<T>())
  {
  }

  lemma AutoAddIsFresh<T>(c: Collection<T>, obj: T)
    requires IdsBelowNext(c)
    requires c.nextId < U64 - 1
    ensures Add(c, obj, None).1 !in c.objects
    ensures Len(Add(c, obj, None).0) == Len(c) + 1
    ensures IdsBelowNext(Add(c, obj, None).0)
  {
    assert Add(c, obj, None).0.objects == c.objects[c.nextId := obj];
    LenAfterAdd(c, obj, None);
  }

  lemma RemoveKeepsIdsBelowNext<T>(c: Collection<T>, id: Id)
    ensures IdsBelowNext(c) ==> IdsBelowNext(Remove(c, id))
  {
  }

  /** A run of automatic Adds, one per object, with the ids they return. */
  function AddEach<T>(c: Collection<T>, objs: seq<T>): (r: (Collection<T>, seq<Id>))
    ensures |r.1| == |objs|
    decreases |objs|
  {
    if |objs| == 0 then (c, [])
    else
      var (c1, id) := Add(c, objs[0], None);
      var rest := AddEach(c1, objs[1..]);
      (rest.0, [id] + rest.1)
  }

  /** Automatic Adds hand out consecutive ids starting at the counter, so the
      ids are strictly increasing and pairwise distinct (until the counter
      would wrap). */
  lemma {:induction false} AutoIdsIncrease<T>(c: Collection<T>, objs: seq<T>)
    requires c.nextId + |objs| < U64
    ensures forall i :: 0 <= i < |objs| ==> AddEach(c, objs).1[i] == c.nextId + i
    ensures forall i, j :: 0 <= i < j < |objs| ==> AddEach(c, objs).1[i] < AddEach(c, objs).1[j]
    ensures AddEach(c, objs).0.nextId == c.nextId + |objs|
    decreases |objs|
  {
    if |objs| > 0 {
      var (c1, id) := Add(c, objs[0], None);
      AutoIdsIncrease(c1, objs[1..]);
    }
  }
}
