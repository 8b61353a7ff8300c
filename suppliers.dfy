/** The supplier controller: the supplier list, the purchase total shown on
    a supplier's page, and creation with its phone-or-email conflict rule,
    update, deletion and the status toggle. */
module Suppliers {
  import opened Common
  import opened Entities
  import Store

  /** The ids of `ks` whose supplier matches the `status` filter, in order;
      no filter keeps them all. */
  function WithStatus(docs: map<Id, Supplier>, ks: seq<Id>, status: Option<bool>): (r: seq<Id>)
    requires forall i :: 0 <= i < |ks| ==> ks[i] in docs
    ensures |r| <= |ks|
  {
    if ks == [] then []
    else
      var last := ks[|ks| - 1];
      WithStatus(docs, ks[..|ks| - 1], status) +
        (if status.None? || docs[last].status == status.value then [last] else [])
  }

  /** Without a status filter every supplier is listed, in the same order. */
  lemma {:induction false} WithStatusNone(docs: map<Id, Supplier>, ks: seq<Id>)
    requires forall i :: 0 <= i < |ks| ==> ks[i] in docs
    ensures WithStatus(docs, ks, None) == ks
  {
    if ks != [] {
      WithStatusNone(docs, ks[..|ks| - 1]);
      assert ks == ks[..|ks| - 1] + [ks[|ks| - 1]];
    }
  }

  lemma {:induction false} WithStatusMembers(docs: map<Id, Supplier>, ks: seq<Id>, status: Option<bool>)
    requires forall i :: 0 <= i < |ks| ==> ks[i] in docs
    ensures forall k :: k in WithStatus(docs, ks, status) <==>
      k in ks && (status.None? || docs[k].status == status.value)
  {
    if ks != [] {
      WithStatusMembers(docs, ks[..|ks| - 1], status);
      assert ks == ks[..|ks| - 1] + [ks[|ks| - 1]];
    }
  }

  lemma {:induction false} WithStatusIncreasing(docs: map<Id, Supplier>, ks: seq<Id>, status: Option<bool>)
    requires forall i :: 0 <= i < |ks| ==> ks[i] in docs
    requires Store.Increasing(ks)
    ensures Store.Increasing(WithStatus(docs, ks, status))
  {
    if ks != [] {
      var init, last := ks[..|ks| - 1], ks[|ks| - 1];
      WithStatusIncreasing(docs, init, status);
      WithStatusMembers(docs, init, status);
      var r0 := WithStatus(docs, init, status);
      forall i | 0 <= i < |r0|
        ensures r0[i] < last
      {
        assert r0[i] in r0;
        var j :| 0 <= j < |init| && init[j] == r0[i];
        assert init[j] == ks[j];
      }
      var r := WithStatus(docs, ks, status);
      assert r == r0 + (if status.None? || docs[last].status == status.value then [last] else []);
      forall i, j | 0 <= i < j < |r|
        ensures r[i] < r[j]
      {
        if j < |r0| {
          assert r[i] == r0[i] && r[j] == r0[j];
        } else {
          assert r[i] == r0[i] && r[j] == last;
        }
      }
    }
  }

  /** The answer of `getSupplier`: exactly the matching suppliers, newest
      (highest id) first. */
  lemma NewestFirst(docs: map<Id, Supplier>, bound: nat, status: Option<bool>)
    ensures var r := Store.Reverse(WithStatus(docs, Store.SortedKeys(docs, bound), status));
      (forall k :: k in r <==> k in docs && k < bound && (status.None? || docs[k].status == status.value)) &&
      (forall i, j :: 0 <= i < j < |r| ==> r[i] > r[j])
  {
    var ks := Store.SortedKeys(docs, bound);
    Store.SortedKeysMembers(docs, bound);
    Store.SortedKeysIncreasing(docs, bound);
    WithStatusMembers(docs, ks, status);
    WithStatusIncreasing(docs, ks, status);
    var m := WithStatus(docs, ks, status);
    Store.ReverseMembers(m);
    Store.ReverseDecreasing(m);
  }

  /** `getSupplier` with the status filter: the matching suppliers, newest
      first; an empty answer is reported as 404. */
  method GetSuppliers(suppliers: Store.Collection<Supplier>, status: Option<bool>)
    returns (st: Status, result: seq<Id>)
    requires suppliers.Valid()
    ensures result == Store.Reverse(WithStatus(suppliers.docs, Store.SortedKeys(suppliers.docs, suppliers.nextId), status))
    ensures forall k :: k in result <==> k in suppliers.docs && (status.None? || suppliers.docs[k].status == status.value)
    ensures forall i, j :: 0 <= i < j < |result| ==> result[i] > result[j]
    ensures st == NotFound <==> result == []
    ensures st == Ok || st == NotFound
  {
    var ks := suppliers.Keys();
    var matching := [];
    var i := 0;
    while i < |ks|
      invariant i <= |ks|
      invariant matching == WithStatus(suppliers.docs, ks[..i], status)
    {
      assert ks[..i + 1][..i] == ks[..i];
      if status.None? || suppliers.docs[ks[i]].status == status.value {
        matching := matching + [ks[i]];
      }
      i := i + 1;
    }
    assert ks[..i] == ks;
    result := Store.Reverse(matching);
    NewestFirst(suppliers.docs, suppliers.nextId, status);
    st := if result == [] then NotFound else Ok;
  }

  /** `achat.total || 0`. */
  function Amount(a: Achat): int
  {
    if a.total.Some? then a.total.value else 0
  }

  /** The purchase total of `supplierId` over the purchases `ks`, in order. */
  function SupplierTotal(docs: map<Id, Achat>, ks: seq<Id>, supplierId: Id): int
    requires forall i :: 0 <= i < |ks| ==> ks[i] in docs
  {
    if ks == [] then 0
    else
      var last := ks[|ks| - 1];
      SupplierTotal(docs, ks[..|ks| - 1], supplierId) + (if docs[last].supplier == supplierId then Amount(docs[last]) else 0)
  }

  /** A supplier none of whose purchases is listed totals 0. */
  lemma {:induction false} SupplierTotalNone(docs: map<Id, Achat>, ks: seq<Id>, supplierId: Id)
    requires forall i :: 0 <= i < |ks| ==> ks[i] in docs && docs[ks[i]].supplier != supplierId
    ensures SupplierTotal(docs, ks, supplierId) == 0
  {
    if ks != [] {
      SupplierTotalNone(docs, ks[..|ks| - 1], supplierId);
    }
  }

  /** Non-negative purchase totals give a non-negative sum. */
  lemma {:induction false} SupplierTotalNonNegative(docs: map<Id, Achat>, ks: seq<Id>, supplierId: Id)
    requires forall i :: 0 <= i < |ks| ==> ks[i] in docs && Amount(docs[ks[i]]) >= 0
    ensures SupplierTotal(docs, ks, supplierId) >= 0
  {
    if ks != [] {
      SupplierTotalNonNegative(docs, ks[..|ks| - 1], supplierId);
    }
  }

  /** The ids among `ks` of the purchases made from `supplierId`, in order. */
  function PurchasesOf(docs: map<Id, Achat>, ks: seq<Id>, supplierId: Id): (r: seq<Id>)
    requires forall i :: 0 <= i < |ks| ==> ks[i] in docs
    ensures |r| <= |ks|
  {
    if ks == [] then []
    else
      var last := ks[|ks| - 1];
      PurchasesOf(docs, ks[..|ks| - 1], supplierId) + (if docs[last].supplier == supplierId then [last] else [])
  }

  /** `Achat.find({supplier})` lists exactly the listed purchases made from
      that supplier. */
  lemma {:induction false} PurchasesOfMembers(docs: map<Id, Achat>, ks: seq<Id>, supplierId: Id)
    requires forall i :: 0 <= i < |ks| ==> ks[i] in docs
    ensures forall k :: k in PurchasesOf(docs, ks, supplierId) <==> k in ks && docs[k].supplier == supplierId
  {
    if ks != [] {
      PurchasesOfMembers(docs, ks[..|ks| - 1], supplierId);
      assert ks == ks[..|ks| - 1] + [ks[|ks| - 1]];
    }
  }

  /** The total only looks at the purchases listed, and at nothing else in
      the store. */
  lemma {:induction false} SupplierTotalFrame(docs: map<Id, Achat>, docs': map<Id, Achat>, ks: seq<Id>, supplierId: Id)
    requires forall i :: 0 <= i < |ks| ==> ks[i] in docs && ks[i] in docs' && docs[ks[i]] == docs'[ks[i]]
    ensures SupplierTotal(docs, ks, supplierId) == SupplierTotal(docs', ks, supplierId)
  {
    if ks != [] {
      SupplierTotalFrame(docs, docs', ks[..|ks| - 1], supplierId);
    }
  }

  /** Recording one more purchase raises its supplier's total by that
      purchase's amount and leaves every other supplier's total unchanged. */
  lemma {:induction false} SupplierTotalAfterPurchase(achats: map<Id, Achat>, nextId: Id, a: Achat, supplierId: Id)
    requires forall k :: k in achats ==> k < nextId
    ensures Store.SortedKeys(achats[nextId := a], nextId + 1) == Store.SortedKeys(achats, nextId) + [nextId]
    ensures SupplierTotal(achats[nextId := a], Store.SortedKeys(achats[nextId := a], nextId + 1), supplierId) ==
      SupplierTotal(achats, Store.SortedKeys(achats, nextId), supplierId) + (if a.supplier == supplierId then Amount(a) else 0)
  {
    var after := achats[nextId := a];
    Store.SortedKeysSameKeys(achats, after, nextId);
    var ks := Store.SortedKeys(achats, nextId);
    Store.SortedKeysMembers(achats, nextId);
    SupplierTotalFrame(achats, after, ks, supplierId);
    assert (ks + [nextId])[..|ks + [nextId]| - 1] == ks;
  }

  /** `getOneSupplier`: total the supplier's purchases, a purchase without a
      total counting 0, store it as `totalPayment`, and answer with the
      supplier's purchases in natural order. */
  method GetOneSupplier(suppliers: Store.Collection<Supplier>, achats: Store.Collection<Achat>, supplierId: Id)
    returns (st: Status, purchases: seq<Id>)
    requires suppliers.Valid()
    modifies suppliers
    ensures suppliers.Valid()
    ensures supplierId !in old(suppliers.docs) ==> st == NotFound && suppliers.docs == old(suppliers.docs) && purchases == []
    ensures supplierId in old(suppliers.docs) ==>
      var ks := Store.SortedKeys(achats.docs, achats.nextId);
      st == Ok && purchases == PurchasesOf(achats.docs, ks, supplierId) &&
      suppliers.docs == old(suppliers.docs)[supplierId := old(suppliers.docs)[supplierId].(
        totalPayment := SupplierTotal(achats.docs, ks, supplierId))]
  {
    if supplierId !in suppliers.docs {
      return NotFound, [];
    }
    var ks := achats.Keys();
    var totalPurchases := 0;
    purchases := [];
    var i := 0;
    while i < |ks|
      invariant i <= |ks|
      invariant totalPurchases == SupplierTotal(achats.docs, ks[..i], supplierId)
      invariant purchases == PurchasesOf(achats.docs, ks[..i], supplierId)
    {
      assert ks[..i + 1][..i] == ks[..i];
      var achat := achats.docs[ks[i]];
      if achat.supplier == supplierId {
        purchases := purchases + [ks[i]];
        totalPurchases := totalPurchases + Amount(achat);
      }
      i := i + 1;
    }
    assert ks[..i] == ks;
    var supplier := suppliers.docs[supplierId];
    suppliers.Put(supplierId, supplier.(totalPayment := totalPurchases));
    st := Ok;
  }

  /** The `$or` lookup of `createSupplier` finds `x`. An absent phone or
      email leaves an empty filter in its branch, which every supplier
      matches. */
  predicate LookupMatches(x: Supplier, phone: Option<string>, email: Option<string>)
  {
    phone.None? || x.phone == phone || email.None? || Some(x.email) == email
  }

  /** `createSupplier`. Any supplier found by the phone-or-email lookup is a
      conflict; the schema then requires a non-empty last name and email. */
  method CreateSupplier(suppliers: Store.Collection<Supplier>, firstName: Option<string>, lastName: Option<string>,
                        email: Option<string>, phone: Option<string>, address: Option<string>, status: Option<bool>)
    returns (st: Status)
    requires suppliers.Valid()
    modifies suppliers
    ensures suppliers.Valid()
    ensures st == Conflict <==>
      exists k :: k in old(suppliers.docs) &&
        LookupMatches(old(suppliers.docs)[k], phone, email)
    ensures (forall k :: k in old(suppliers.docs) ==>
               !LookupMatches(old(suppliers.docs)[k], phone, email)) &&
            !(Given(lastName) && Given(email)) ==>
      st == InternalServerError && suppliers.docs == old(suppliers.docs)
    ensures st == Created <==>
      (forall k :: k in old(suppliers.docs) ==>
         !LookupMatches(old(suppliers.docs)[k], phone, email)) &&
      Given(lastName) && Given(email)
    ensures st == Created ==>
      exists id: Id ::
        id !in old(suppliers.docs) &&
        suppliers.docs == old(suppliers.docs)[id := Supplier(firstName, lastName.value, email.value, phone, address,
          if status.Some? then status.value else true, [], 0)]
    ensures st != Created ==> suppliers.docs == old(suppliers.docs)
    ensures st == Created || st == Conflict || st == InternalServerError
  {
    var ks := suppliers.Keys();
    Store.SortedKeysMembers(suppliers.docs, suppliers.nextId);
    var i := 0;
    while i < |ks|
      invariant i <= |ks|
      invariant forall j :: 0 <= j < i ==> !LookupMatches(suppliers.docs[ks[j]], phone, email)
    {
      var existing := suppliers.docs[ks[i]];
      if LookupMatches(existing, phone, email) {
        return Conflict;
      }
      i := i + 1;
    }
    assert forall k :: k in suppliers.docs ==> !LookupMatches(suppliers.docs[k], phone, email) by {
      forall k | k in suppliers.docs
        ensures !LookupMatches(suppliers.docs[k], phone, email)
      {
        assert k in ks;
        var j :| 0 <= j < |ks| && ks[j] == k;
      }
    }
    if !Given(lastName) || !Given(email) {
      return InternalServerError;
    }
    var id := suppliers.Insert(Supplier(firstName, lastName.value, email.value, phone, address,
                                        if status.Some? then status.value else true, [], 0));
    st := Created;
  }

  /** The fields `updateSupplier` may send; each one present overwrites the
      stored field, empty strings included. */
  datatype SupplierPatch = SupplierPatch(
    firstName: Option<string>,
    lastName: Option<string>,
    email: Option<string>,
    phone: Option<string>,
    address: Option<string>,
    status: Option<bool>,
    articles: Option<seq<Id>>,
    totalPayment: Option<int>)

  function ApplyPatch(s: Supplier, p: SupplierPatch): (r: Supplier)
    ensures p == SupplierPatch(None, None, None, None, None, None, None, None) ==> r == s
    ensures p.firstName.Some? ==> r.firstName == p.firstName
    ensures p.firstName.None? ==> r.firstName == s.firstName
    ensures p.lastName.Some? ==> r.lastName == p.lastName.value
    ensures p.lastName.None? ==> r.lastName == s.lastName
    ensures p.email.Some? ==> r.email == p.email.value
    ensures p.email.None? ==> r.email == s.email
    ensures p.phone.Some? ==> r.phone == p.phone
    ensures p.phone.None? ==> r.phone == s.phone
    ensures p.address.Some? ==> r.address == p.address
    ensures p.address.None? ==> r.address == s.address
    ensures p.status.Some? ==> r.status == p.status.value
    ensures p.status.None? ==> r.status == s.status
    ensures p.articles.Some? ==> r.articles == p.articles.value
    ensures p.articles.None? ==> r.articles == s.articles
    ensures p.totalPayment.Some? ==> r.totalPayment == p.totalPayment.value
    ensures p.totalPayment.None? ==> r.totalPayment == s.totalPayment
  {
    Supplier(
      OptionOr(p.firstName, s.firstName),
      ValueOr(p.lastName, s.lastName),
      ValueOr(p.email, s.email),
      OptionOr(p.phone, s.phone),
      OptionOr(p.address, s.address),
      ValueOr(p.status, s.status),
      ValueOr(p.articles, s.articles),
      ValueOr(p.totalPayment, s.totalPayment))
  }

  /** Sending the same update twice has the effect of sending it once. */
  lemma ApplyPatchIdempotent(s: Supplier, p: SupplierPatch)
    ensures ApplyPatch(ApplyPatch(s, p), p) == ApplyPatch(s, p)
  {
  }

  /** `updateSupplier`: `findByIdAndUpdate` with the body as it came. */
  method UpdateSupplier(suppliers: Store.Collection<Supplier>, supplierId: Id, p: SupplierPatch) returns (st: Status)
    requires suppliers.Valid()
    modifies suppliers
    ensures suppliers.Valid()
    ensures supplierId !in old(suppliers.docs) ==> st == NotFound && suppliers.docs == old(suppliers.docs)
    ensures supplierId in old(suppliers.docs) ==>
      st == Ok && suppliers.docs == old(suppliers.docs)[supplierId := ApplyPatch(old(suppliers.docs)[supplierId], p)]
  {
    if supplierId !in suppliers.docs {
      return NotFound;
    }
    suppliers.Put(supplierId, ApplyPatch(suppliers.docs[supplierId], p));
    st := Ok;
  }

  /** `deleteSupplier`: the supplier goes; its purchases and articles stay. */
  method DeleteSupplier(suppliers: Store.Collection<Supplier>, supplierId: Id) returns (st: Status)
    requires suppliers.Valid()
    modifies suppliers
    ensures suppliers.Valid()
    ensures supplierId !in old(suppliers.docs) ==> st == NotFound && suppliers.docs == old(suppliers.docs)
    ensures supplierId in old(suppliers.docs) ==> st == Ok && suppliers.docs == old(suppliers.docs) - {supplierId}
  {
    if supplierId !in suppliers.docs {
      return NotFound;
    }
    suppliers.Delete(supplierId);
    st := Ok;
  }

  /** `toggleStatus`: flips the supplier's `status`. */
  method ToggleStatus(suppliers: Store.Collection<Supplier>, supplierId: Id) returns (st: Status)
    requires suppliers.Valid()
    modifies suppliers
    ensures suppliers.Valid()
    ensures supplierId !in old(suppliers.docs) ==> st == NotFound && suppliers.docs == old(suppliers.docs)
    ensures supplierId in old(suppliers.docs) ==>
      st == Ok && suppliers.docs == old(suppliers.docs)[supplierId := old(suppliers.docs)[supplierId].(
        status := !old(suppliers.docs)[supplierId].status)]
  {
    if supplierId !in suppliers.docs {
      return NotFound;
    }
    var supplier := suppliers.docs[supplierId];
    suppliers.Put(supplierId, supplier.(status := !supplier.status));
    st := Ok;
  }
}
