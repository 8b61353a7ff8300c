/** The document store: one keyed collection per model, and the loops the
    controllers run over it (checking a list of ids against a collection). */
module Store {
  import opened Common

  /** The keys of `docs` below `bound`, in ascending order. */
  function SortedKeys<T>(docs: map<Id, T>, bound: nat): (r: seq<Id>)
    ensures forall i :: 0 <= i < |r| ==> r[i] in docs && r[i] < bound
  {
    if bound == 0 then []
    else SortedKeys(docs, bound - 1) + (if bound - 1 in docs then [bound - 1] else [])
  }

  lemma {:induction false} SortedKeysMembers<T>(docs: map<Id, T>, bound: nat)
    ensures forall k :: k in SortedKeys(docs, bound) <==> k in docs && k < bound
  {
    if bound > 0 {
      SortedKeysMembers(docs, bound - 1);
    }
  }

  /** Strictly ascending ids. */
  predicate Increasing(xs: seq<Id>)
  {
    forall i, j :: 0 <= i < j < |xs| ==> xs[i] < xs[j]
  }

  lemma {:induction false} SortedKeysIncreasing<T>(docs: map<Id, T>, bound: nat)
    ensures Increasing(SortedKeys(docs, bound))
  {
    if bound > 0 {
      SortedKeysIncreasing(docs, bound - 1);
      SortedKeysMembers(docs, bound - 1);
      var ks := SortedKeys(docs, bound - 1);
      assert forall i :: 0 <= i < |ks| ==> ks[i] in ks;
    }
  }

  /** Only which keys exist below `bound` matters, not the documents. */
  lemma {:induction false} SortedKeysSameKeys<T>(docs: map<Id, T>, docs': map<Id, T>, bound: nat)
    requires forall k :: k < bound ==> (k in docs <==> k in docs')
    ensures SortedKeys(docs, bound) == SortedKeys(docs', bound)
  {
    if bound > 0 {
      SortedKeysSameKeys(docs, docs', bound - 1);
    }
  }

  function Reverse<T>(xs: seq<T>): (r: seq<T>)
    ensures |r| == |xs|
    ensures forall i :: 0 <= i < |xs| ==> r[i] == xs[|xs| - 1 - i]
  {
    if xs == [] then [] else Reverse(xs[1..]) + [xs[0]]
  }

  lemma ReverseMembers<T>(xs: seq<T>)
    ensures forall x :: x in Reverse(xs) <==> x in xs
  {
    var r := Reverse(xs);
    forall x | x in xs
      ensures x in r
    {
      var j :| 0 <= j < |xs| && xs[j] == x;
      assert r[|xs| - 1 - j] == x;
    }
  }

  /** An ascending list reversed is descending: oldest-first becomes newest-first. */
  lemma ReverseDecreasing(xs: seq<Id>)
    requires Increasing(xs)
    ensures forall i, j :: 0 <= i < j < |Reverse(xs)| ==> Reverse(xs)[i] > Reverse(xs)[j]
  {
  }

  /** A collection of documents of one model, keyed by id. Ids are handed
      out in increasing order, so ascending id order is insertion order. */
  class Collection<T> {
    var docs: map<Id, T>
    var nextId: Id

    ghost predicate Valid()
      reads this
    {
      forall k :: k in docs ==> k < nextId
    }

    constructor ()
      ensures Valid() && docs == map[]
    {
      docs := map[];
      nextId := 0;
    }

    /** `new Model(...).save()`: a fresh id, newer than every existing one. */
    method Insert(d: T) returns (id: Id)
      requires Valid()
      modifies this
      ensures Valid()
      ensures id !in old(docs) && docs == old(docs)[id := d]
      ensures forall k :: k in old(docs) ==> k < id
      ensures SortedKeys(docs, nextId) == SortedKeys(old(docs), old(nextId)) + [id]
    {
      id := nextId;
      SortedKeysSameKeys(docs, docs[id := d], id);
      docs := docs[id := d];
      nextId := nextId + 1;
    }

    /** `doc.save()` or `findByIdAndUpdate` on an existing document. */
    method Put(id: Id, d: T)
      requires Valid() && id in docs
      modifies this
      ensures Valid() && nextId == old(nextId)
      ensures docs == old(docs)[id := d]
      ensures SortedKeys(docs, nextId) == SortedKeys(old(docs), nextId)
    {
      SortedKeysSameKeys(docs, docs[id := d], nextId);
      docs := docs[id := d];
    }

    /** `findByIdAndDelete` on an existing document. */
    method Delete(id: Id)
      requires Valid()
      modifies this
      ensures Valid() && nextId == old(nextId)
      ensures docs == old(docs) - {id}
    {
      docs := docs - {id};
    }

    /** `Model.find()` in natural order: every id, oldest first. */
    method Keys() returns (ks: seq<Id>)
      ensures ks == SortedKeys(docs, nextId)
    {
      ks := [];
      var i := 0;
      while i < nextId
        invariant i <= nextId
        invariant ks == SortedKeys(docs, i)
      {
        if i in docs {
          ks := ks + [i];
        }
        i := i + 1;
      }
    }
  }

  /** `Model.findOne(filter)`: the oldest document that matches, if any. The
      filter sees the id too, for conditions such as `_id: {$ne: self}`. */
  method FindOne<T>(c: Collection<T>, matches: (Id, T) -> bool) returns (found: Option<Id>)
    requires c.Valid()
    ensures found.None? <==> forall k :: k in c.docs ==> !matches(k, c.docs[k])
    ensures found.Some? ==>
      found.value in c.docs && matches(found.value, c.docs[found.value]) &&
      forall k :: k in c.docs && k < found.value ==> !matches(k, c.docs[k])
  {
    var i := 0;
    while i < c.nextId
      invariant i <= c.nextId
      invariant forall k :: k in c.docs && k < i ==> !matches(k, c.docs[k])
    {
      if i in c.docs && matches(i, c.docs[i]) {
        return Some(i);
      }
      i := i + 1;
    }
    return None;
  }

  /** The ids of `ids` that name an existing document, in the order given;
      unknown ids are dropped (the "verified ids" loops). */
  function KeepExisting(ids: seq<Id>, keys: set<Id>): (r: seq<Id>)
    ensures |r| <= |ids|
    ensures forall i :: 0 <= i < |r| ==> r[i] in keys
  {
    if ids == [] then []
    else (if ids[0] in keys then [ids[0]] else []) + KeepExisting(ids[1..], keys)
  }

  lemma {:induction false} KeepExistingConcat(a: seq<Id>, b: seq<Id>, keys: set<Id>)
    ensures KeepExisting(a + b, keys) == KeepExisting(a, keys) + KeepExisting(b, keys)
  {
    if a != [] {
      KeepExistingConcat(a[1..], b, keys);
      assert (a + b)[1..] == a[1..] + b;
    } else {
      assert a + b == b;
    }
  }

  lemma {:induction false} KeepExistingMembers(ids: seq<Id>, keys: set<Id>)
    ensures forall x :: x in KeepExisting(ids, keys) <==> x in ids && x in keys
    ensures |KeepExisting(ids, keys)| <= |ids|
  {
    if ids != [] {
      KeepExistingMembers(ids[1..], keys);
      assert ids == [ids[0]] + ids[1..];
    }
  }

  lemma {:induction false} KeepExistingAll(ids: seq<Id>, keys: set<Id>)
    requires forall i :: 0 <= i < |ids| ==> ids[i] in keys
    ensures KeepExisting(ids, keys) == ids
  {
    if ids != [] {
      KeepExistingAll(ids[1..], keys);
    }
  }

  /** The loop `for (id of ids) { if (await Model.findOne({_id: id})) verified.push(id) }`. */
  method VerifiedIds<T>(ids: seq<Id>, docs: map<Id, T>) returns (verified: seq<Id>)
    ensures verified == KeepExisting(ids, docs.Keys)
  {
    verified := [];
    var i := 0;
    while i < |ids|
      invariant i <= |ids|
      invariant verified == KeepExisting(ids[..i], docs.Keys)
    {
      KeepExistingConcat(ids[..i], [ids[i]], docs.Keys);
      assert ids[..i + 1] == ids[..i] + [ids[i]];
      if ids[i] in docs {
        verified := verified + [ids[i]];
      }
      i := i + 1;
    }
    assert ids[..i] == ids;
  }

  /** `ids[i]` is `x`, names no document, and every id before it does. */
  predicate IsFirstMissing(ids: seq<Id>, keys: set<Id>, i: int, x: Id)
  {
    0 <= i < |ids| && ids[i] == x && x !in keys && forall j :: 0 <= j < i ==> ids[j] in keys
  }

  /** The all-or-nothing loop: the first id that names no document, if any. */
  method FirstMissing<T>(ids: seq<Id>, docs: map<Id, T>) returns (missing: Option<Id>)
    ensures missing.None? <==> forall i :: 0 <= i < |ids| ==> ids[i] in docs
    ensures missing.Some? ==> missing.value !in docs && exists i :: IsFirstMissing(ids, docs.Keys, i, missing.value)
  {
    var i := 0;
    while i < |ids|
      invariant i <= |ids|
      invariant forall j :: 0 <= j < i ==> ids[j] in docs
    {
      if ids[i] !in docs {
        assert IsFirstMissing(ids, docs.Keys, i, ids[i]);
        return Some(ids[i]);
      }
      i := i + 1;
    }
    return None;
  }
}
