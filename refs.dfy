/** The sequential reference allocators for sales and purchases: start at
    the number of documents plus one and count up past every reference
    already in use. */
module Refs {
  import opened Common
  import opened Entities
  import Store

  /** `r` is the least integer from `count + 1` on that is not in `used`. */
  predicate IsNextRef(used: set<int>, count: nat, r: int)
  {
    r >= count + 1 && r !in used && forall k :: count + 1 <= k < r ==> k in used
  }

  /** The allocator's answer is determined by the used refs and the count. */
  lemma NextRefUnique(used: set<int>, count: nat, r1: int, r2: int)
    requires IsNextRef(used, count, r1) && IsNextRef(used, count, r2)
    ensures r1 == r2
  {
  }

  /** The used references from `from` on; finite, and it shrinks while the
      probe runs, which is why the loop ends. */
  function UsedFrom(used: set<int>, from: int): set<int>
  {
    set k | k in used && k >= from
  }

  /** The do-while probe loop shared by both generators: take the candidate,
      ask whether it is occupied, and if so increment and ask again. */
  method ProbeFreeRef(used: set<int>, count: nat) returns (r: int)
    ensures IsNextRef(used, count, r)
    ensures count + 1 !in used ==> r == count + 1
  {
    var incrementedCount := count + 1;
    var isOccupied := true;
    r := incrementedCount;
    while isOccupied
      invariant incrementedCount >= count + 1
      invariant forall k :: count + 1 <= k < incrementedCount ==> k in used
      invariant !isOccupied ==> r == incrementedCount && r !in used
      decreases |UsedFrom(used, incrementedCount)|, isOccupied
    {
      r := incrementedCount;
      isOccupied := r in used;
      if isOccupied {
        assert UsedFrom(used, incrementedCount + 1) == UsedFrom(used, incrementedCount) - {r};
        incrementedCount := incrementedCount + 1;
      }
    }
  }

  function SaleRefs(docs: map<Id, Sale>): set<int>
  {
    set id | id in docs :: docs[id].ref
  }

  function AchatRefs(docs: map<Id, Achat>): set<int>
  {
    set id | id in docs :: docs[id].ref
  }

  /** `GenerateSalesReference`: count the sales, then probe their refs. */
  method GenerateSalesReference(sales: Store.Collection<Sale>) returns (ref: int)
    ensures IsNextRef(SaleRefs(sales.docs), |sales.docs|, ref)
    ensures forall id :: id in sales.docs ==> sales.docs[id].ref != ref
  {
    var salesCount := |sales.docs|;
    ref := ProbeFreeRef(SaleRefs(sales.docs), salesCount);
  }

  /** `GenerateAchatReference`: count the purchases, then probe their refs. */
  method GenerateAchatReference(achats: Store.Collection<Achat>) returns (ref: int)
    ensures IsNextRef(AchatRefs(achats.docs), |achats.docs|, ref)
    ensures forall id :: id in achats.docs ==> achats.docs[id].ref != ref
  {
    var achatsCount := |achats.docs|;
    ref := ProbeFreeRef(AchatRefs(achats.docs), achatsCount);
  }

  /** Allocating twice in a row, recording the first reference in between,
      never hands out the same reference twice. */
  lemma SequentialRefsDistinct(used: set<int>, count: nat, r1: int, r2: int)
    requires IsNextRef(used, count, r1)
    requires IsNextRef(used + {r1}, count + 1, r2)
    ensures r2 != r1 && r2 > r1
  {
  }
}
