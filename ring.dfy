/**
 * Circular singly linked lists kept in an arena (a map from ids to nodes).
 * The list is reached through its newest node `last`; `last.next` is the
 * oldest. A ghost sequence `order` lists the nodes oldest first.
 */
module Ring {
  import opened Wrappers

  /**
   * `order` (oldest first) is the circular list whose newest node is
   * `last`: each node links to the following one and `last` back to the
   * first, and `last` occurs only at the end (so no node occurs twice).
   */
  ghost predicate IsRing<T>(nodes: map<nat, T>, next: T -> Option<nat>, last: nat, order: seq<nat>)
  {
    && |order| > 0
    && order[|order| - 1] == last
    && (forall i :: 0 <= i < |order| ==> order[i] in nodes)
    && (forall i :: 0 <= i < |order| - 1 ==> order[i] != last)
    && (forall i :: 0 <= i < |order| - 1 ==> next(nodes[order[i]]) == Some(order[i + 1]))
    && next(nodes[last]) == Some(order[0])
  }

  /** `order` is an open chain: each node links to the following one; the last link is free. */
  ghost predicate IsChain<T>(nodes: map<nat, T>, next: T -> Option<nat>, order: seq<nat>)
  {
    && (forall i :: 0 <= i < |order| ==> order[i] in nodes)
    && (forall i, j :: 0 <= i < j < |order| ==> order[i] != order[j])
    && (forall i :: 0 <= i < |order| - 1 ==> next(nodes[order[i]]) == Some(order[i + 1]))
  }

  /** The ids met by following `next` from `start`, at most `n` of them. */
  ghost function Walk<T>(nodes: map<nat, T>, next: T -> Option<nat>, start: nat, n: nat): (r: seq<nat>)
    ensures |r| <= n
    decreases n
  {
    if n == 0 || start !in nodes then []
    else
      match next(nodes[start])
      case None => [start]
      case Some(s) => [start] + Walk(nodes, next, s, n - 1)
  }

  lemma {:induction false} WalkSuffix<T>(nodes: map<nat, T>, next: T -> Option<nat>, last: nat, order: seq<nat>, k: nat)
    requires IsRing(nodes, next, last, order)
    requires k < |order|
    ensures Walk(nodes, next, order[k], |order| - k) == order[k..]
    decreases |order| - k
  {
    if k == |order| - 1 {
      assert Walk(nodes, next, order[k], 1) == [order[k]];
    } else {
      WalkSuffix(nodes, next, last, order, k + 1);
      assert next(nodes[order[k]]) == Some(order[k + 1]);
      assert order[k..] == [order[k]] + order[k + 1..];
    }
  }

  /** Walking `|order|` steps from `last.next` meets every node once, oldest first. */
  lemma WalkFromOldest<T>(nodes: map<nat, T>, next: T -> Option<nat>, last: nat, order: seq<nat>)
    requires IsRing(nodes, next, last, order)
    ensures next(nodes[last]).Some? && next(nodes[last]).value == order[0]
    ensures Walk(nodes, next, next(nodes[last]).value, |order|) == order
  {
    WalkSuffix(nodes, next, last, order, 0);
    assert order[0..] == order;
  }

  lemma {:induction false} RingShift<T>(nodes: map<nat, T>, next: T -> Option<nat>, last: nat, order: seq<nat>, i: nat, j: nat, d: nat)
    requires IsRing(nodes, next, last, order)
    requires i < j && j + d < |order| && order[i] == order[j]
    ensures order[i + d] == order[j + d]
    decreases d
  {
    if d > 0 {
      RingShift(nodes, next, last, order, i, j, d - 1);
      assert next(nodes[order[i + d - 1]]) == Some(order[i + d]);
      assert next(nodes[order[j + d - 1]]) == Some(order[j + d]);
    }
  }

  /** No node occurs twice in a ring: a repeated node would reach `last` early. */
  lemma RingDistinct<T>(nodes: map<nat, T>, next: T -> Option<nat>, last: nat, order: seq<nat>)
    requires IsRing(nodes, next, last, order)
    ensures forall i, j :: 0 <= i < j < |order| ==> order[i] != order[j]
  {
    forall i, j | 0 <= i < j < |order|
      ensures order[i] != order[j]
    {
      if order[i] == order[j] {
        RingShift(nodes, next, last, order, i, j, |order| - 1 - j);
      }
    }
  }

  /** Closing a chain by linking its last node back to its first makes a ring. */
  lemma ChainCloses<T>(nodes: map<nat, T>, next: T -> Option<nat>, order: seq<nat>)
    requires IsChain(nodes, next, order) && |order| > 0
    requires next(nodes[order[|order| - 1]]) == Some(order[0])
    ensures IsRing(nodes, next, order[|order| - 1], order)
  {
  }
}
