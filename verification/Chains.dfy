/** Singly linked structures in memory: an address space in which each node names its successor. */
module Chains {

  /** A machine address; 0 is the null pointer. */
  type Address = nat

  const NULL: Address := 0

  /** The node reached after k links, or null once the chain has ended. */
  function At(next: Address -> Address, head: Address, k: nat): Address {
    if k == 0 then head
    else
      var p := At(next, head, k - 1);
      if p == NULL then NULL else next(p)
  }

  lemma AtNext(next: Address -> Address, head: Address, k: nat)
    ensures At(next, head, 0) == head
    ensures At(next, head, k + 1) == if At(next, head, k) == NULL then NULL else next(At(next, head, k))
  {
  }

  lemma {:induction false} NullStays(next: Address -> Address, head: Address, j: nat, k: nat)
    requires j <= k && At(next, head, j) == NULL
    ensures At(next, head, k) == NULL
  {
    if j < k { NullStays(next, head, j, k - 1); }
  }

  /** From two equal nodes on, a chain goes through equal nodes. */
  lemma {:induction false} RepeatStays(next: Address -> Address, head: Address, i: nat, j: nat, d: nat)
    requires At(next, head, i) == At(next, head, j)
    ensures At(next, head, i + d) == At(next, head, j + d)
  {
    if d > 0 { RepeatStays(next, head, i, j, d - 1); }
  }
}
