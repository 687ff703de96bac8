/**
 * Walks along `return` links. The commit phase climbs from a fiber to its
 * ancestors (`getHostParent`, `getHostSibling` in commitWork.ts) with no
 * bound of its own: a climb ends because the chain of `return` links
 * ends in null. `RetChain` names such a finite chain; no fiber repeats in
 * it, so it is never longer than the arena holds fibers, which is the
 * bound the modelled climbs run with.
 */
module FiberChains {
  import opened Wrappers
  import opened Fiber

  /** The links of fiber `id` lead to fibers of the arena. */
  ghost predicate LinksIn(fibers: map<FiberId, Fiber>, id: FiberId)
    requires id in fibers
  {
    && (fibers[id].ret.Some? ==> fibers[id].ret.value in fibers)
    && (fibers[id].sibling.Some? ==> fibers[id].sibling.value in fibers)
    && (fibers[id].child.Some? ==> fibers[id].child.value in fibers)
  }

  /**
   * Every link of every fiber leads to a fiber of the arena. (The trigger
   * keeps the solver from following links on its own: a proof that steps
   * to a linked fiber names `LinksIn` of the fiber it steps from.)
   */
  ghost predicate Closed(fibers: map<FiberId, Fiber>)
  {
    forall id {:trigger LinksIn(fibers, id)} :: id in fibers ==> LinksIn(fibers, id)
  }

  /** `up` is exactly the list of fibers reached from `first` by `return` links, ending in null. */
  ghost predicate RetChain(fibers: map<FiberId, Fiber>, first: Option<FiberId>, up: seq<FiberId>)
  {
    && (|up| == 0 <==> first.None?)
    && (|up| > 0 ==> first == Some(up[0]))
    && (forall i :: 0 <= i < |up| ==> up[i] in fibers)
    && (forall i {:trigger RetAt(fibers, up, i)} :: 0 <= i < |up| ==> RetAt(fibers, up, i))
  }

  /** The `return` link of the `i`-th fiber of `up` leads to the next one, or to null after the last. */
  ghost predicate RetAt(fibers: map<FiberId, Fiber>, up: seq<FiberId>, i: int)
  {
    0 <= i < |up| && up[i] in fibers && fibers[up[i]].ret == (if i + 1 < |up| then Some(up[i + 1]) else None)
  }

  ghost predicate NoRepeats(s: seq<FiberId>)
  {
    forall i, j :: 0 <= i < j < |s| ==> s[i] != s[j]
  }

  lemma RetChainTail(fibers: map<FiberId, Fiber>, first: Option<FiberId>, up: seq<FiberId>)
    requires RetChain(fibers, first, up) && |up| > 0
    ensures RetChain(fibers, fibers[up[0]].ret, up[1..])
  {
    var rest := up[1..];
    assert RetAt(fibers, up, 0);
    forall i | 0 <= i < |rest|
      ensures RetAt(fibers, rest, i)
    {
      assert RetAt(fibers, up, i + 1);
      assert rest[i] == up[i + 1];
      assert i + 1 < |rest| ==> rest[i + 1] == up[i + 2];
    }
  }

  /** Two positions holding the same fiber keep holding equal fibers further along the chain. */
  lemma {:induction false} RetChainShift(fibers: map<FiberId, Fiber>, first: Option<FiberId>, up: seq<FiberId>, i: nat, j: nat, d: nat)
    requires RetChain(fibers, first, up)
    requires i < j && j + d < |up| && up[i] == up[j]
    ensures up[i + d] == up[j + d]
    decreases d
  {
    if d > 0 {
      RetChainShift(fibers, first, up, i, j, d - 1);
      var a, b := i + d - 1, j + d - 1;
      RetNext(fibers, first, up, a);
      RetNext(fibers, first, up, b);
      assert Some(up[a + 1]) == Some(up[b + 1]);
    }
  }

  lemma RetNext(fibers: map<FiberId, Fiber>, first: Option<FiberId>, up: seq<FiberId>, k: nat)
    requires RetChain(fibers, first, up) && k + 1 < |up|
    ensures fibers[up[k]].ret == Some(up[k + 1])
  {
    assert RetAt(fibers, up, k);
  }

  /** No fiber occurs twice in a finite `return` chain: a repeat would reach the null end early. */
  lemma RetChainNoRepeats(fibers: map<FiberId, Fiber>, first: Option<FiberId>, up: seq<FiberId>)
    requires RetChain(fibers, first, up)
    ensures NoRepeats(up)
  {
    forall i, j | 0 <= i < j < |up|
      ensures up[i] != up[j]
    {
      if up[i] == up[j] {
        var d := |up| - 1 - j;
        RetChainShift(fibers, first, up, i, j, d);
        RetChainEndsOnce(fibers, first, up, i + d);
        assert false;
      }
    }
  }

  /** Only the last fiber of a `return` chain links to null. */
  lemma RetChainEndsOnce(fibers: map<FiberId, Fiber>, first: Option<FiberId>, up: seq<FiberId>, k: nat)
    requires RetChain(fibers, first, up) && k + 1 < |up|
    ensures up[k] != up[|up| - 1]
  {
    RetNext(fibers, first, up, k);
    assert RetAt(fibers, up, |up| - 1);
  }

  lemma {:induction false} SubsetCard<T>(a: set<T>, b: set<T>)
    requires a <= b
    ensures |a| <= |b|
    decreases |b|
  {
    if a != {} {
      var x :| x in a;
      SubsetCard(a - {x}, b - {x});
    }
  }

  ghost function Members(s: seq<FiberId>): set<FiberId>
  {
    set x | x in s
  }

  lemma {:induction false} NoRepeatsCard(s: seq<FiberId>)
    requires NoRepeats(s)
    ensures |Members(s)| == |s|
    decreases |s|
  {
    if |s| > 0 {
      var rest := s[1..];
      assert NoRepeats(rest) by {
        forall i, j | 0 <= i < j < |rest| ensures rest[i] != rest[j] {
          assert rest[i] == s[i + 1] && rest[j] == s[j + 1];
        }
      }
      NoRepeatsCard(rest);
      var all, tail := Members(s), Members(rest);
      assert all == {s[0]} + tail by {
        assert s == [s[0]] + rest;
      }
      assert s[0] !in tail by {
        forall k | 0 <= k < |rest| ensures rest[k] != s[0] {
          assert rest[k] == s[k + 1];
        }
      }
      assert |all| == |tail| + 1;
    }
  }

  /** A finite `return` chain holds at most as many fibers as the arena: a climb bounded by the arena's size never stops short. */
  lemma RetChainFits(fibers: map<FiberId, Fiber>, first: Option<FiberId>, up: seq<FiberId>)
    requires RetChain(fibers, first, up)
    ensures |up| <= |fibers|
  {
    RetChainNoRepeats(fibers, first, up);
    NoRepeatsCard(up);
    SubsetCard(Members(up), fibers.Keys);
    assert |fibers.Keys| == |fibers|;
  }

  /** A fiber whose `return` is the head of a chain heads the chain one longer. */
  lemma RetChainCons(fibers: map<FiberId, Fiber>, x: FiberId, up: seq<FiberId>)
    requires x in fibers && RetChain(fibers, fibers[x].ret, up)
    ensures RetChain(fibers, Some(x), [x] + up)
  {
    var all := [x] + up;
    forall i | 0 <= i < |all|
      ensures RetAt(fibers, all, i)
    {
      if i > 0 {
        assert RetAt(fibers, up, i - 1);
        assert all[i] == up[i - 1];
        assert i + 1 < |all| ==> all[i + 1] == up[i];
      }
    }
  }

  /** The chain from a fiber is determined by the arena. */
  lemma {:induction false} RetChainUnique(fibers: map<FiberId, Fiber>, first: Option<FiberId>, a: seq<FiberId>, b: seq<FiberId>)
    requires RetChain(fibers, first, a) && RetChain(fibers, first, b)
    ensures a == b
    decreases |a|
  {
    if |a| > 0 {
      assert |b| > 0 && a[0] == b[0];
      RetChainTail(fibers, first, a);
      RetChainTail(fibers, first, b);
      RetChainUnique(fibers, fibers[a[0]].ret, a[1..], b[1..]);
      assert a == [a[0]] + a[1..] && b == [b[0]] + b[1..];
    }
  }
}
