/** The third-party priority heap, known only by its contract: the smallest key pops first. */
module Heap {
  class PriorityHeap {
    var keys: multiset<nat>

    constructor ()
      ensures keys == multiset{}
    {
      keys := multiset{};
    }

    method Insert(key: nat)
      modifies this
      ensures keys == old(keys) + multiset{key}
    {
      keys := keys + multiset{key};
    }

    method Pop() returns (key: nat)
      requires keys != multiset{}
      modifies this
      ensures key in old(keys) && forall k :: k in old(keys) ==> key <= k
      ensures keys == old(keys) - multiset{key}
    {
      LeastExists(keys);
      key :| key in keys && forall k :: k in keys ==> key <= k;
      keys := keys - multiset{key};
    }

    method Clone() returns (copy: PriorityHeap)
      ensures fresh(copy) && copy.keys == keys
    {
      copy := new PriorityHeap();
      copy.keys := keys;
    }
  }

  lemma {:induction false} LeastExists(m: multiset<nat>)
    requires m != multiset{}
    ensures exists x :: x in m && forall k :: k in m ==> x <= k
  {
    var x :| x in m;
    LeastBelow(m, x);
  }

  lemma {:induction false} LeastBelow(m: multiset<nat>, x: nat)
    requires x in m
    ensures exists y :: y in m && forall k :: k in m ==> y <= k
    decreases x
  {
    if k :| k in m && k < x {
      LeastBelow(m, k);
    }
  }
}
