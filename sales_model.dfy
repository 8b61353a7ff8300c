/** The sale model's `updatePayments` method and its schema defaults. */
module SalesModel {
  import opened Common
  import opened Entities
  import Store

  /** `payment.reduce((total, p) => total + p.amount, 0)`: a left fold. */
  function PaymentsTotal(ps: seq<Payment>): int
  {
    if ps == [] then 0 else PaymentsTotal(ps[..|ps| - 1]) + ps[|ps| - 1].amount
  }

  /** With non-negative amounts the sum is non-negative and at least every
      single amount. */
  lemma {:induction false} PaymentsTotalBounds(ps: seq<Payment>)
    requires forall i :: 0 <= i < |ps| ==> ps[i].amount >= 0
    ensures PaymentsTotal(ps) >= 0
    ensures forall i :: 0 <= i < |ps| ==> ps[i].amount <= PaymentsTotal(ps)
  {
    if ps != [] {
      var init := ps[..|ps| - 1];
      PaymentsTotalBounds(init);
      forall i | 0 <= i < |ps|
        ensures ps[i].amount <= PaymentsTotal(ps)
      {
        if i < |init| {
          assert ps[i] == init[i];
        }
      }
    }
  }

  lemma {:induction false} PaymentsTotalConcat(a: seq<Payment>, b: seq<Payment>)
    ensures PaymentsTotal(a + b) == PaymentsTotal(a) + PaymentsTotal(b)
  {
    if b == [] {
      assert a + b == a;
    } else {
      PaymentsTotalConcat(a, b[..|b| - 1]);
      assert (a + b)[..|a + b| - 1] == a + b[..|b| - 1];
    }
  }

  lemma PaymentsTotalSingle(p: Payment)
    ensures PaymentsTotal([p]) == p.amount
  {
    assert [p][..0] == [];
  }

  /** Replacing one payment changes the sum by the difference of the amounts. */
  lemma PaymentsTotalReplace(ps: seq<Payment>, i: nat, p: Payment)
    requires i < |ps|
    ensures PaymentsTotal(ps[i := p]) == PaymentsTotal(ps) - ps[i].amount + p.amount
  {
    assert ps == ps[..i] + [ps[i]] + ps[i + 1..];
    assert ps[i := p] == ps[..i] + [p] + ps[i + 1..];
    PaymentsTotalConcat(ps[..i] + [ps[i]], ps[i + 1..]);
    PaymentsTotalConcat(ps[..i], [ps[i]]);
    PaymentsTotalConcat(ps[..i] + [p], ps[i + 1..]);
    PaymentsTotalConcat(ps[..i], [p]);
    PaymentsTotalSingle(ps[i]);
    PaymentsTotalSingle(p);
  }

  /** Removing one payment lowers the sum by exactly its amount. */
  lemma PaymentsTotalRemove(ps: seq<Payment>, i: nat)
    requires i < |ps|
    ensures PaymentsTotal(RemoveAt(ps, i)) == PaymentsTotal(ps) - ps[i].amount
  {
    var front, back := ps[..i], ps[i + 1..];
    RemoveAtSplit(ps, i);
    PaymentsTotalConcat(front + [ps[i]], back);
    PaymentsTotalConcat(front, [ps[i]]);
    PaymentsTotalConcat(front, back);
    PaymentsTotalSingle(ps[i]);
  }

  /** The balance the model promises after `updatePayments`. */
  predicate Reconciled(s: Sale)
  {
    s.paid == PaymentsTotal(s.payment) && s.paid + s.notPaid == s.total
  }

  /** The document `updatePayments` leaves: `paid` is the sum of the
      payments, `notPaid` the rest of the total, every other field kept. */
  function Reconcile(s: Sale): (r: Sale)
    ensures Reconciled(r)
    ensures r.payment == s.payment && r.total == s.total
    ensures r == s.(paid := r.paid, notPaid := r.notPaid)
    ensures Reconciled(s) ==> r == s
  {
    var totalPayments := PaymentsTotal(s.payment);
    s.(paid := totalPayments, notPaid := s.total - totalPayments)
  }

  /** With no payments, nothing is paid and the whole total is owed. */
  lemma ReconcileNoPayments(s: Sale)
    requires s.payment == []
    ensures Reconcile(s).paid == 0 && Reconcile(s).notPaid == s.total
  {
  }

  /** A second `updatePayments` changes nothing. */
  lemma ReconcileIdempotent(s: Sale)
    ensures Reconcile(Reconcile(s)) == Reconcile(s)
  {
  }

  /** `sale.updatePayments()`: assign `paid` and `notPaid`, then save. */
  method UpdatePayments(sales: Store.Collection<Sale>, id: Id, sale: Sale) returns (saved: Sale)
    requires sales.Valid() && id in sales.docs
    modifies sales
    ensures sales.Valid()
    ensures saved == Reconcile(sale)
    ensures sales.docs == old(sales.docs)[id := saved]
  {
    var totalPayments := PaymentsTotal(sale.payment);
    saved := sale.(paid := totalPayments);
    saved := saved.(notPaid := saved.total - totalPayments);
    sales.Put(id, saved);
  }

  /** `new Sale({...})` with the schema defaults for the fields not given:
      status "Pending", `paid` and `notPaid` 0, no payments. */
  function NewSale(ref: int, description: Option<string>, articles: seq<Id>, client: Id,
                   total: int, totalWeight: int, date: string): (s: Sale)
    ensures s.status == "Pending" && s.paid == 0 && s.notPaid == 0 && s.payment == []
    ensures s.total == total && s.totalWeight == totalWeight && s.articles == articles
    ensures s.client == client && s.ref == ref
    ensures s.description == (if description.Some? then description.value else "")
  {
    Sale(ref, "Pending", if description.Some? then description.value else "",
         articles, client, totalWeight, total, 0, 0, [], date)
  }

  /** A fresh sale is balanced only when its total is zero, because its
      `notPaid` keeps the default 0 instead of the total. */
  lemma NewSaleReconciledIff(ref: int, description: Option<string>, articles: seq<Id>, client: Id,
                             total: int, totalWeight: int, date: string)
    ensures Reconciled(NewSale(ref, description, articles, client, total, totalWeight, date)) <==> total == 0
  {
  }
}
