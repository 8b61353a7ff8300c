/** Values shared by every controller: optional request fields, the HTTP
    status codes the controllers answer with, and JavaScript truthiness. */
module Common {

  /** A request-body field that may be absent (`undefined` in the source). */
  datatype Option<+T> = None | Some(value: T)

  /** Document identities (the store's object ids). */
  type Id = nat

  /** The status codes a controller answers with. */
  datatype Status = Ok | Created | BadRequest | Unauthorized | NotFound | Conflict | InternalServerError
  {
    /** The numeric HTTP status code. */
    function Code(): int
    {
      match this
      case Ok => 200
      case Created => 201
      case BadRequest => 400
      case Unauthorized => 401
      case NotFound => 404
      case Conflict => 409
      case InternalServerError => 500
    }
  }

  /** `if (s)` on a string field: present and not the empty string. */
  predicate Given(s: Option<string>)
  {
    s.Some? && s.value != ""
  }

  /** `if (n)` on a number field: present and not zero. */
  predicate GivenNum(n: Option<int>)
  {
    n.Some? && n.value != 0
  }

  /** `s || fallback` on a string field. */
  function OrElse(s: Option<string>, fallback: string): string
  {
    if Given(s) then s.value else fallback
  }

  /** A field that an update writes only when the body carries it. */
  function ValueOr<T>(o: Option<T>, fallback: T): T
  {
    if o.Some? then o.value else fallback
  }

  /** An optional field that an update writes only when the body carries it. */
  function OptionOr<T>(o: Option<T>, fallback: Option<T>): Option<T>
  {
    if o.Some? then o else fallback
  }

  /** `n || fallback` on a number field: zero and absent both keep the fallback. */
  function NumOr(n: Option<int>, fallback: int): int
  {
    if GivenNum(n) then n.value else fallback
  }

  /** `xs.filter(e => e != x)`: every occurrence of `x` dropped, order kept. */
  function Without(xs: seq<Id>, x: Id): (r: seq<Id>)
    ensures |r| <= |xs| && x !in r
  {
    if xs == [] then []
    else (if xs[0] == x then [] else [xs[0]]) + Without(xs[1..], x)
  }

  lemma {:induction false} WithoutMembers(xs: seq<Id>, x: Id)
    ensures forall y :: y in Without(xs, x) <==> y in xs && y != x
  {
    if xs != [] {
      WithoutMembers(xs[1..], x);
      assert xs == [xs[0]] + xs[1..];
    }
  }

  lemma {:induction false} WithoutAbsent(xs: seq<Id>, x: Id)
    requires x !in xs
    ensures Without(xs, x) == xs
  {
    if xs != [] {
      WithoutAbsent(xs[1..], x);
      assert xs == [xs[0]] + xs[1..];
    }
  }

  /** `a.splice(i, 1)`: the element at `i` removed, the others kept in order. */
  function RemoveAt<T>(xs: seq<T>, i: nat): (r: seq<T>)
    requires i < |xs|
    ensures |r| == |xs| - 1
    ensures forall j :: 0 <= j < i ==> r[j] == xs[j]
    ensures forall j :: i <= j < |r| ==> r[j] == xs[j + 1]
  {
    xs[..i] + xs[i + 1..]
  }

  /** The list around position `i`, with and without the element there. */
  lemma RemoveAtSplit<T>(xs: seq<T>, i: nat)
    requires i < |xs|
    ensures xs == (xs[..i] + [xs[i]]) + xs[i + 1..]
    ensures RemoveAt(xs, i) == xs[..i] + xs[i + 1..]
  {
    assert xs == xs[..i] + xs[i..];
    assert xs[i..] == [xs[i]] + xs[i + 1..];
  }

  /** A non-empty list put in front of another keeps its head, and its tail
      goes in front of the other. */
  lemma ConsConcat<T>(xs: seq<T>, ys: seq<T>)
    requires xs != []
    ensures (xs + ys)[0] == xs[0] && (xs + ys)[1..] == xs[1..] + ys
  {
  }
}
