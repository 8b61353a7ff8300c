/** The sales controller: creating and deleting sales, and adding, editing
    and deleting the payments embedded in a sale. */
module SalesController {
  import opened Common
  import opened Entities
  import opened SalesModel
  import Store
  import Refs

  /** Every id of `ids` names a document. */
  predicate AllIn<T>(ids: seq<Id>, docs: map<Id, T>)
  {
    forall i :: 0 <= i < |ids| ==> ids[i] in docs
  }

  /** The sum of `value[id]` over `ids`, each occurrence counted, in order. */
  function SumOf(ids: seq<Id>, value: map<Id, int>): int
    requires AllIn(ids, value)
  {
    if ids == [] then 0 else SumOf(ids[..|ids| - 1], value) + value[ids[|ids| - 1]]
  }

  /** With non-negative prices the total is non-negative and at least the
      price of every listed article. */
  lemma {:induction false} SumOfBounds(ids: seq<Id>, value: map<Id, int>)
    requires AllIn(ids, value)
    requires forall i :: 0 <= i < |ids| ==> value[ids[i]] >= 0
    ensures SumOf(ids, value) >= 0
    ensures forall i :: 0 <= i < |ids| ==> value[ids[i]] <= SumOf(ids, value)
  {
    if ids != [] {
      var init := ids[..|ids| - 1];
      SumOfBounds(init, value);
      forall i | 0 <= i < |ids|
        ensures value[ids[i]] <= SumOf(ids, value)
      {
        if i < |init| {
          assert ids[i] == init[i];
        }
      }
    }
  }

  lemma {:induction false} SumOfConcat(a: seq<Id>, b: seq<Id>, value: map<Id, int>)
    requires AllIn(a, value) && AllIn(b, value)
    ensures AllIn(a + b, value)
    ensures SumOf(a + b, value) == SumOf(a, value) + SumOf(b, value)
  {
    if b == [] {
      assert a + b == a;
    } else {
      SumOfConcat(a, b[..|b| - 1], value);
      assert (a + b)[..|a + b| - 1] == a + b[..|b| - 1];
    }
  }

  /** Listing an article twice charges it twice. */
  lemma SumOfRepeated(ids: seq<Id>, value: map<Id, int>)
    requires AllIn(ids, value)
    ensures AllIn(ids + ids, value) && SumOf(ids + ids, value) == 2 * SumOf(ids, value)
  {
    SumOfConcat(ids, ids, value);
  }

  function SellPrices(docs: map<Id, Article>): (m: map<Id, int>)
    ensures m.Keys == docs.Keys
  {
    map id | id in docs :: docs[id].sellPrice
  }

  function Weights(docs: map<Id, Article>): (m: map<Id, int>)
    ensures m.Keys == docs.Keys
  {
    map id | id in docs :: docs[id].weight
  }

  /** The loop of `createSale`: look every article up in order, stop at the
      first unknown one, and otherwise add up sell prices and weights. */
  method SelectArticles(ids: seq<Id>, docs: map<Id, Article>)
    returns (missing: Option<Id>, total: int, totalWeight: int, selected: seq<Id>)
    ensures missing.None? <==> AllIn(ids, docs)
    ensures missing.Some? ==> exists i :: Store.IsFirstMissing(ids, docs.Keys, i, missing.value)
    ensures missing.None? ==>
      selected == ids && total == SumOf(ids, SellPrices(docs)) && totalWeight == SumOf(ids, Weights(docs))
  {
    total, totalWeight, selected := 0, 0, [];
    var i := 0;
    while i < |ids|
      invariant i <= |ids|
      invariant AllIn(ids[..i], docs) && selected == ids[..i]
      invariant total == SumOf(ids[..i], SellPrices(docs))
      invariant totalWeight == SumOf(ids[..i], Weights(docs))
    {
      var articleId := ids[i];
      if articleId !in docs {
        assert Store.IsFirstMissing(ids, docs.Keys, i, articleId);
        return Some(articleId), total, totalWeight, selected;
      }
      assert ids[..i + 1][..i] == ids[..i];
      selected := selected + [articleId];
      total := total + docs[articleId].sellPrice;
      totalWeight := totalWeight + docs[articleId].weight;
      i := i + 1;
    }
    assert ids[..i] == ids;
    missing := None;
  }

  /** `createSale`. The new sale keeps the schema's `notPaid` default of 0.
      An empty `date` string is cast to null, which the schema's required
      `date` refuses on save: the controller then answers 500. */
  method CreateSale(sales: Store.Collection<Sale>, articles: Store.Collection<Article>,
                    clients: Store.Collection<Client>, description: Option<string>,
                    articleIds: Option<seq<Id>>, clientId: Id, date: Option<string>, now: string)
    returns (st: Status)
    requires sales.Valid()
    modifies sales
    ensures sales.Valid()
    ensures (articleIds.None? || articleIds.value == []) ==> st == BadRequest && sales.docs == old(sales.docs)
    ensures articleIds.Some? && articleIds.value != [] && !AllIn(articleIds.value, articles.docs) ==>
      st == NotFound && sales.docs == old(sales.docs)
    ensures (articleIds.Some? && articleIds.value != [] && AllIn(articleIds.value, articles.docs) &&
             clientId !in clients.docs) ==> st == NotFound && sales.docs == old(sales.docs)
    ensures (articleIds.Some? && articleIds.value != [] && AllIn(articleIds.value, articles.docs) &&
             clientId in clients.docs && date == Some("")) ==>
      st == InternalServerError && sales.docs == old(sales.docs)
    ensures st == Created <==>
      articleIds.Some? && articleIds.value != [] && AllIn(articleIds.value, articles.docs) && clientId in clients.docs &&
      date != Some("")
    ensures st == Created ==> exists id: Id, ref: int ::
      id !in old(sales.docs) && Refs.IsNextRef(Refs.SaleRefs(old(sales.docs)), |old(sales.docs)|, ref) &&
      sales.docs == old(sales.docs)[id := NewSale(ref, description, articleIds.value, clientId,
        SumOf(articleIds.value, SellPrices(articles.docs)), SumOf(articleIds.value, Weights(articles.docs)),
        if date.Some? then date.value else now)]
  {
    if articleIds.None? || articleIds.value == [] {
      return BadRequest;
    }
    var missing, total, totalWeight, selected := SelectArticles(articleIds.value, articles.docs);
    if missing.Some? {
      return NotFound;
    }
    if clientId !in clients.docs {
      return NotFound;
    }
    var ref := Refs.GenerateSalesReference(sales);
    if date == Some("") {
      return InternalServerError;
    }
    var sale := NewSale(ref, description, selected, clientId, total, totalWeight,
                        if date.Some? then date.value else now);
    var id := sales.Insert(sale);
    st := Created;
  }

  /** `deleteSale`: the sale goes; no stock or client record is touched. */
  method DeleteSale(sales: Store.Collection<Sale>, saleId: Id) returns (st: Status)
    requires sales.Valid()
    modifies sales
    ensures sales.Valid()
    ensures saleId !in old(sales.docs) ==> st == NotFound && sales.docs == old(sales.docs)
    ensures saleId in old(sales.docs) ==> st == Ok && sales.docs == old(sales.docs) - {saleId}
  {
    if saleId !in sales.docs {
      return NotFound;
    }
    sales.Delete(saleId);
    st := Ok;
  }

  predicate NoPaymentWithId(ps: seq<Payment>, paymentId: Id)
  {
    forall j :: 0 <= j < |ps| ==> ps[j].id != paymentId
  }

  /** `payment.findIndex(p => p._id.equals(paymentId))`. */
  method FindPayment(ps: seq<Payment>, paymentId: Id) returns (index: int)
    ensures -1 <= index < |ps|
    ensures index == -1 <==> NoPaymentWithId(ps, paymentId)
    ensures index >= 0 ==> ps[index].id == paymentId && forall j :: 0 <= j < index ==> ps[j].id != paymentId
  {
    index := 0;
    while index < |ps|
      invariant 0 <= index <= |ps|
      invariant forall j :: 0 <= j < index ==> ps[j].id != paymentId
    {
      if ps[index].id == paymentId {
        return;
      }
      index := index + 1;
    }
    index := -1;
  }

  /** An id for a new embedded payment, distinct from those of the sale. */
  function FreshPaymentId(ps: seq<Payment>): (r: Id)
    ensures forall j :: 0 <= j < |ps| ==> ps[j].id < r
  {
    if ps == [] then 0
    else
      var r0 := FreshPaymentId(ps[..|ps| - 1]);
      var last := ps[|ps| - 1].id;
      if r0 <= last then last + 1 else r0
  }

  /** The sale after `sale.payment.push(...)` and `updatePayments()`. */
  function WithPaymentAdded(s: Sale, p: Payment): Sale
  {
    Reconcile(s.(payment := s.payment + [p]))
  }

  /** `addPayment`: any amount is accepted, whatever is still owed. */
  method AddPayment(sales: Store.Collection<Sale>, saleId: Id, paymentMethod: Option<string>,
                    amount: Option<int>, date: Option<string>) returns (st: Status)
    requires sales.Valid()
    modifies sales
    ensures sales.Valid()
    ensures !Given(paymentMethod) || !GivenNum(amount) || !Given(date) ==>
      st == BadRequest && sales.docs == old(sales.docs)
    ensures Given(paymentMethod) && GivenNum(amount) && Given(date) && saleId !in old(sales.docs) ==>
      st == NotFound && sales.docs == old(sales.docs)
    ensures Given(paymentMethod) && GivenNum(amount) && Given(date) && saleId in old(sales.docs) ==>
      st == Ok && sales.docs == old(sales.docs)[saleId := WithPaymentAdded(old(sales.docs)[saleId],
        Payment(FreshPaymentId(old(sales.docs)[saleId].payment), paymentMethod.value, amount.value, date.value))]
  {
    if !Given(paymentMethod) || !GivenNum(amount) || !Given(date) {
      return BadRequest;
    }
    if saleId !in sales.docs {
      return NotFound;
    }
    var sale := sales.docs[saleId];
    var p := Payment(FreshPaymentId(sale.payment), paymentMethod.value, amount.value, date.value);
    sale := sale.(payment := sale.payment + [p]);
    var saved := UpdatePayments(sales, saleId, sale);
    st := Ok;
  }

  /** After adding a payment the list grows by exactly that payment at the
      end, `paid` grows by its amount and the balance holds. */
  lemma {:induction false} AddedPaymentBalance(s: Sale, p: Payment)
    requires Reconciled(s)
    ensures var r := WithPaymentAdded(s, p);
      r.payment == s.payment + [p] && r.total == s.total &&
      r.paid == s.paid + p.amount && r.notPaid == s.notPaid - p.amount && Reconciled(r)
  {
    PaymentsTotalConcat(s.payment, [p]);
    PaymentsTotalSingle(p);
  }

  /** No overpay check: a payment above what is owed leaves `notPaid` negative. */
  lemma {:induction false} OverpaymentAccepted(s: Sale, p: Payment)
    requires Reconciled(s) && p.amount > s.notPaid
    ensures WithPaymentAdded(s, p).notPaid < 0
  {
    AddedPaymentBalance(s, p);
  }

  /** The sale after `editPayment`'s index assignment; nothing is recomputed. */
  function WithPaymentEdited(s: Sale, i: nat, paymentMethod: string, amount: int, date: string): (r: Sale)
    requires i < |s.payment|
    ensures r == s.(payment := r.payment) && |r.payment| == |s.payment|
    ensures r.payment[i] == Payment(s.payment[i].id, paymentMethod, amount, date)
    ensures forall j :: 0 <= j < |s.payment| && j != i ==> r.payment[j] == s.payment[j]
  {
    s.(payment := s.payment[i := Payment(s.payment[i].id, paymentMethod, amount, date)])
  }

  /** `editPayment`: replaces the matching entry in place and saves without
      calling `updatePayments`. */
  method EditPayment(sales: Store.Collection<Sale>, saleId: Id, paymentId: Id, paymentMethod: Option<string>,
                     amount: Option<int>, date: Option<string>) returns (st: Status)
    requires sales.Valid()
    modifies sales
    ensures sales.Valid()
    ensures !Given(paymentMethod) || !GivenNum(amount) || !Given(date) ==>
      st == BadRequest && sales.docs == old(sales.docs)
    ensures Given(paymentMethod) && GivenNum(amount) && Given(date) && saleId !in old(sales.docs) ==>
      st == NotFound && sales.docs == old(sales.docs)
    ensures (Given(paymentMethod) && GivenNum(amount) && Given(date) && saleId in old(sales.docs) &&
             NoPaymentWithId(old(sales.docs)[saleId].payment, paymentId)) ==>
      st == NotFound && sales.docs == old(sales.docs)
    ensures (Given(paymentMethod) && GivenNum(amount) && Given(date) && saleId in old(sales.docs) &&
             !NoPaymentWithId(old(sales.docs)[saleId].payment, paymentId)) ==> st == Ok
    ensures st == Ok ==> saleId in old(sales.docs) && exists i ::
      0 <= i < |old(sales.docs)[saleId].payment| && old(sales.docs)[saleId].payment[i].id == paymentId &&
      (forall j :: 0 <= j < i ==> old(sales.docs)[saleId].payment[j].id != paymentId) &&
      sales.docs == old(sales.docs)[saleId := WithPaymentEdited(old(sales.docs)[saleId], i,
        paymentMethod.value, amount.value, date.value)]
    ensures st != Ok ==> sales.docs == old(sales.docs)
  {
    if !Given(paymentMethod) || !GivenNum(amount) || !Given(date) {
      return BadRequest;
    }
    if saleId !in sales.docs {
      return NotFound;
    }
    var sale := sales.docs[saleId];
    var paymentIndex := FindPayment(sale.payment, paymentId);
    if paymentIndex == -1 {
      return NotFound;
    }
    sale := WithPaymentEdited(sale, paymentIndex, paymentMethod.value, amount.value, date.value);
    sales.Put(saleId, sale);
    st := Ok;
  }

  /** Editing keeps the list's length and every other entry; `paid` and
      `notPaid` keep their old values, so the stored `paid` still matches the
      payments only if the amount did not change. */
  lemma EditedPaymentBalance(s: Sale, i: nat, paymentMethod: string, amount: int, date: string)
    requires i < |s.payment| && Reconciled(s)
    ensures var r := WithPaymentEdited(s, i, paymentMethod, amount, date);
      |r.payment| == |s.payment| &&
      (forall j :: 0 <= j < |s.payment| && j != i ==> r.payment[j] == s.payment[j]) &&
      r.payment[i].id == s.payment[i].id && r.paid == s.paid && r.notPaid == s.notPaid &&
      (Reconciled(r) <==> amount == s.payment[i].amount)
  {
    PaymentsTotalReplace(s.payment, i, Payment(s.payment[i].id, paymentMethod, amount, date));
  }

  /** `deletePayment`: splices the matching entry out and saves without
      calling `updatePayments`. */
  method DeletePayment(sales: Store.Collection<Sale>, saleId: Id, paymentId: Id) returns (st: Status)
    requires sales.Valid()
    modifies sales
    ensures sales.Valid()
    ensures saleId !in old(sales.docs) ==> st == NotFound && sales.docs == old(sales.docs)
    ensures (saleId in old(sales.docs) && NoPaymentWithId(old(sales.docs)[saleId].payment, paymentId)) ==>
      st == NotFound && sales.docs == old(sales.docs)
    ensures (saleId in old(sales.docs) && !NoPaymentWithId(old(sales.docs)[saleId].payment, paymentId)) ==>
      st == Ok
    ensures st == Ok ==> saleId in old(sales.docs) && exists i ::
      0 <= i < |old(sales.docs)[saleId].payment| && old(sales.docs)[saleId].payment[i].id == paymentId &&
      (forall j :: 0 <= j < i ==> old(sales.docs)[saleId].payment[j].id != paymentId) &&
      sales.docs == old(sales.docs)[saleId := old(sales.docs)[saleId].(payment :=
        RemoveAt(old(sales.docs)[saleId].payment, i))]
    ensures st != Ok ==> sales.docs == old(sales.docs)
  {
    if saleId !in sales.docs {
      return NotFound;
    }
    var sale := sales.docs[saleId];
    var paymentIndex := FindPayment(sale.payment, paymentId);
    if paymentIndex == -1 {
      return NotFound;
    }
    sale := sale.(payment := RemoveAt(sale.payment, paymentIndex));
    sales.Put(saleId, sale);
    st := Ok;
  }

  /** Deleting keeps `paid` and `notPaid`, so after deleting a non-zero
      payment the stored `paid` no longer matches the payments. */
  lemma DeletedPaymentBalance(s: Sale, i: nat)
    requires i < |s.payment| && Reconciled(s)
    ensures var r := s.(payment := RemoveAt(s.payment, i));
      r.paid == s.paid && r.notPaid == s.notPaid &&
      (Reconciled(r) <==> s.payment[i].amount == 0)
  {
    PaymentsTotalRemove(s.payment, i);
  }
}
