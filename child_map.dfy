/**
 * The `existingChildren` map of `reconcileChildrenArray`
 * (packages/react-reconciler/src/childFiber.ts): what `mapRemainingChildren`
 * files, and what `map.delete` leaves behind.
 */
module ChildMap {
  import opened JsValues
  import opened Fiber
  import opened ChildFiber
  import opened ChildArray

  /** No two of the fibers `s` are filed under the same key. */
  ghost predicate UniqueKeys(fibers: map<FiberId, Fiber>, s: seq<FiberId>)
  {
    && (forall i :: 0 <= i < |s| ==> s[i] in fibers)
    && forall a, b :: 0 <= a < b < |s| ==> MapKeyOf(fibers[s[a]]) != MapKeyOf(fibers[s[b]])
  }

  /** Each entry files a fiber of `s` under that fiber's own key; no fiber is filed twice. */
  ghost predicate FiledFrom(fibers: map<FiberId, Fiber>, s: seq<FiberId>, m: Entries)
  {
    && (forall k :: 0 <= k < |m| ==> m[k].1 in s && m[k].1 in fibers && m[k].0 == MapKeyOf(fibers[m[k].1]))
    && Distinct(Values(m))
  }

  lemma ValuesAppend(a: Entries, b: Entries)
    ensures Values(a + b) == Values(a) + Values(b)
  {
    var v := Values(a + b);
    assert forall j :: 0 <= j < |v| ==> v[j] == (Values(a) + Values(b))[j];
  }

  /** `mapRemainingChildren` files every fiber it meets under its key; a later one with the same key wins. */
  lemma {:induction false} RemainingFiled(fibers: map<FiberId, Fiber>, s: seq<FiberId>)
    requires (forall i :: 0 <= i < |s| ==> s[i] in fibers) && Distinct(s)
    ensures FiledFrom(fibers, s, RemainingEntries(fibers, s))
    decreases |s|
  {
    if |s| > 0 {
      var p := s[..|s| - 1];
      var last := s[|s| - 1];
      RemainingFiled(fibers, p);
      var P := RemainingEntries(fibers, p);
      var key := MapKeyOf(fibers[last]);
      var E := MapSet(P, key, last);
      assert last !in p by {
        forall i | 0 <= i < |p| ensures p[i] != last {
          assert s[i] == p[i];
        }
      }
      forall k | 0 <= k < |E| ensures E[k].1 in s && E[k].1 in fibers && E[k].0 == MapKeyOf(fibers[E[k].1]) {
        if E[k] != (key, last) {
          assert E[k] == P[k];
          assert P[k].1 in p;
        }
      }
      forall a, b | 0 <= a < b < |E| ensures Values(E)[a] != Values(E)[b] {
        if E[a] == (key, last) {
          assert E[b] == P[b] && P[b].1 in p;
        } else if E[b] == (key, last) {
          assert E[a] == P[a] && P[a].1 in p;
        } else {
          assert E[a] == P[a] && E[b] == P[b];
          assert Values(P)[a] != Values(P)[b];
        }
      }
    }
  }

  lemma PrefixKeys(fibers: map<FiberId, Fiber>, s: seq<FiberId>)
    requires UniqueKeys(fibers, s) && Distinct(s) && |s| > 0
    ensures UniqueKeys(fibers, s[..|s| - 1]) && Distinct(s[..|s| - 1])
  {
    var p := s[..|s| - 1];
    forall a, b | 0 <= a < b < |p| ensures MapKeyOf(fibers[p[a]]) != MapKeyOf(fibers[p[b]]) && p[a] != p[b] {
      assert p[a] == s[a] && p[b] == s[b];
    }
  }

  /** The last fiber's key is not among those filed for the ones before it. */
  lemma LastKeyFresh(fibers: map<FiberId, Fiber>, s: seq<FiberId>)
    requires UniqueKeys(fibers, s) && |s| > 0
    requires FiledFrom(fibers, s[..|s| - 1], RemainingEntries(fibers, s[..|s| - 1]))
    ensures Find(RemainingEntries(fibers, s[..|s| - 1]), MapKeyOf(fibers[s[|s| - 1]])) < 0
  {
    var p := s[..|s| - 1];
    var P := RemainingEntries(fibers, p);
    var key := MapKeyOf(fibers[s[|s| - 1]]);
    forall k | 0 <= k < |P| ensures P[k].0 != key {
      var x := P[k].1;
      var a :| 0 <= a < |p| && p[a] == x;
      assert s[a] == x;
    }
  }

  /** With no key shared, `mapRemainingChildren` files every fiber it meets, each once. */
  lemma {:induction false} RemainingAll(fibers: map<FiberId, Fiber>, s: seq<FiberId>)
    requires UniqueKeys(fibers, s) && Distinct(s)
    ensures multiset(Values(RemainingEntries(fibers, s))) == multiset(s)
    decreases |s|
  {
    if |s| > 0 {
      var p := s[..|s| - 1];
      var last := s[|s| - 1];
      PrefixKeys(fibers, s);
      RemainingAll(fibers, p);
      RemainingFiled(fibers, p);
      LastKeyFresh(fibers, s);
      var P := RemainingEntries(fibers, p);
      var key := MapKeyOf(fibers[last]);
      assert RemainingEntries(fibers, s) == P + [(key, last)];
      ValuesAppend(P, [(key, last)]);
      assert s == p + [last];
    }
  }

  /** The map depends only on the keys of the fibers filed. */
  lemma {:induction false} RemainingFrame(a: map<FiberId, Fiber>, b: map<FiberId, Fiber>, s: seq<FiberId>)
    requires forall i :: 0 <= i < |s| ==> s[i] in a && s[i] in b && MapKeyOf(a[s[i]]) == MapKeyOf(b[s[i]])
    ensures RemainingEntries(a, s) == RemainingEntries(b, s)
    decreases |s|
  {
    if |s| > 0 {
      RemainingFrame(a, b, s[..|s| - 1]);
    }
  }

  /** `map.delete(k)` for a key at position `i`: the entries before it and after it, in order. */
  lemma MapDeleteShape(m: Entries, k: Value)
    requires Find(m, k) >= 0
    ensures var i := Find(m, k);
      && MapDelete(m, k) == m[..i] + m[i + 1..]
      && Values(m) == Values(m[..i]) + [m[i].1] + Values(m[i + 1..])
      && Values(MapDelete(m, k)) == Values(m[..i]) + Values(m[i + 1..])
  {
    var i := Find(m, k);
    assert m == m[..i] + [m[i]] + m[i + 1..];
    ValuesAppend(m[..i], m[i + 1..]);
    ValuesAppend(m[..i] + [m[i]], m[i + 1..]);
    ValuesAppend(m[..i], [m[i]]);
  }

  /**
   * `map.delete(k)` for a key that is there: the one entry under `k` goes,
   * every other stays, and its fiber is no longer filed.
   */
  lemma MapDeleteFiled(m: Entries, k: Value)
    requires Find(m, k) >= 0 && Distinct(Values(m))
    ensures var r := MapDelete(m, k); var gone := m[Find(m, k)].1;
      && (forall q :: 0 <= q < |r| ==> r[q] in m && r[q].1 != gone)
      && Distinct(Values(r))
      && multiset(Values(r)) + multiset{gone} == multiset(Values(m))
  {
    var i := Find(m, k);
    var r := MapDelete(m, k);
    MapDeleteShape(m, k);
    MapDeleteEntries(m, i, r);
  }

  lemma MapDeleteEntries(m: Entries, i: nat, r: Entries)
    requires i < |m| && r == m[..i] + m[i + 1..] && Distinct(Values(m))
    ensures forall q :: 0 <= q < |r| ==> r[q] in m && r[q].1 != m[i].1
    ensures Distinct(Values(r))
  {
    forall q | 0 <= q < |r| ensures r[q] in m && r[q].1 != m[i].1 {
      var t := if q < i then q else q + 1;
      assert r[q] == m[t] && Values(m)[t] != Values(m)[i];
    }
    MapDeleteDistinct(m, i, r);
  }

  lemma MapDeleteDistinct(m: Entries, i: nat, r: Entries)
    requires i < |m| && r == m[..i] + m[i + 1..] && Distinct(Values(m))
    ensures Distinct(Values(r))
  {
    var vm, vr := Values(m), Values(r);
    forall a, b | 0 <= a < b < |r| ensures vr[a] != vr[b] {
      var ta := if a < i then a else a + 1;
      var tb := if b < i then b else b + 1;
      assert vr[a] == vm[ta] && vr[b] == vm[tb];
    }
  }
}
