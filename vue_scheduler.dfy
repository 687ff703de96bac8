/**
 * The job queue of mini-vue (mini-vue/packages/runtime-core/src/scheduler.ts).
 *
 * Jobs are queued at most once, one flush at a time is scheduled as a
 * microtask, and a flush runs the queue sorted by job id, including jobs
 * queued while it runs. What a job does is user code: the model takes, for
 * each job, the jobs it queues when it runs (`spawns`), and records the
 * jobs run in order (`ran`).
 */
module VueScheduler {
  import opened Wrappers

  /** A job: its function and its optional numeric `id`. */
  datatype Job = Job(fn: nat, id: Option<int>)

  /** `getId(a) <= getId(b)`, with a missing id as `Infinity`. */
  predicate IdAtMost(a: Job, b: Job)
  {
    b.id.None? || (a.id.Some? && a.id.value <= b.id.value)
  }

  predicate SortedById(q: seq<Job>)
  {
    forall i, j :: 0 <= i < j < |q| ==> IdAtMost(q[i], q[j])
  }

  predicate NoDuplicates(q: seq<Job>)
  {
    forall i, j :: 0 <= i < j < |q| ==> q[i] != q[j]
  }

  /** Inserts `x` after every job whose id is not larger, keeping the sort stable. */
  function Insert(s: seq<Job>, x: Job): (r: seq<Job>)
    ensures multiset(r) == multiset(s) + multiset{x}
    ensures forall y :: y in r ==> y in s || y == x
    decreases |s|
  {
    if |s| == 0 then [x]
    else if IdAtMost(s[|s| - 1], x) then s + [x]
    else
      var r := Insert(s[..|s| - 1], x) + [s[|s| - 1]];
      assert s == s[..|s| - 1] + [s[|s| - 1]];
      r
  }

  lemma {:induction false} InsertSorted(s: seq<Job>, x: Job)
    requires SortedById(s)
    ensures SortedById(Insert(s, x))
    decreases |s|
  {
    if |s| > 0 && !IdAtMost(s[|s| - 1], x) {
      var last := s[|s| - 1];
      var init := s[..|s| - 1];
      InsertSorted(init, x);
      var r0 := Insert(init, x);
      forall y | y in r0
        ensures IdAtMost(y, last)
      {
        if y in init {
          var k :| 0 <= k < |init| && init[k] == y;
          assert s[k] == y;
        }
      }
      var r := r0 + [last];
      forall i, j | 0 <= i < j < |r|
        ensures IdAtMost(r[i], r[j])
      {
        if j == |r| - 1 {
          assert r[i] in r0;
        }
      }
    }
  }

  /** `queue.sort((a, b) => getId(a) - getId(b))`; the sort is stable, so jobs without an id keep their order. */
  function SortJobs(q: seq<Job>): (r: seq<Job>)
    ensures multiset(r) == multiset(q)
    ensures SortedById(r)
    decreases |q|
  {
    if |q| == 0 then []
    else
      assert q == q[..|q| - 1] + [q[|q| - 1]];
      InsertSorted(SortJobs(q[..|q| - 1]), q[|q| - 1]);
      Insert(SortJobs(q[..|q| - 1]), q[|q| - 1])
  }

  function Elems(q: seq<Job>): set<Job>
  {
    set j | j in q
  }

  /** `queueJob` for each of `ks` in turn: a job already in the queue is not added again. */
  function AddAll(q: seq<Job>, ks: seq<Job>): (r: seq<Job>)
    ensures |q| <= |r| && r[..|q|] == q
    decreases |ks|
  {
    if |ks| == 0 then q
    else
      var before := AddAll(q, ks[..|ks| - 1]);
      var k := ks[|ks| - 1];
      if k in before then before else before + [k]
  }

  /** The queue after `AddAll` holds exactly the old jobs and the added ones, still each once. */
  lemma {:induction false} AddAllFacts(q: seq<Job>, ks: seq<Job>)
    ensures var r := AddAll(q, ks);
      && (forall j :: j in r <==> j in q || j in ks)
      && (NoDuplicates(q) ==> NoDuplicates(r))
    decreases |ks|
  {
    if |ks| > 0 {
      var k := ks[|ks| - 1];
      AddAllFacts(q, ks[..|ks| - 1]);
      assert ks == ks[..|ks| - 1] + [k];
    }
  }

  /** Every job a job of `universe` queues is in `universe`. */
  ghost predicate Closed(universe: set<Job>, spawns: Job -> seq<Job>)
  {
    forall j, k :: j in universe && k in spawns(j) ==> k in universe
  }

  lemma AddAllShrinksRest(q: seq<Job>, ks: seq<Job>, universe: set<Job>)
    requires Elems(q) <= universe && (forall k :: k in ks ==> k in universe)
    ensures Elems(AddAll(q, ks)) <= universe
    ensures |AddAll(q, ks)| > |q| ==> |universe - Elems(AddAll(q, ks))| < |universe - Elems(q)|
    ensures |AddAll(q, ks)| == |q| ==> AddAll(q, ks) == q
  {
    var r := AddAll(q, ks);
    AddAllFacts(q, ks);
    assert Elems(r) <= universe;
    if |r| > |q| {
      var x := r[|q|];
      AddAllNewAreNew(q, ks, |q|);
      assert Elems(q) <= Elems(r) by {
        forall j | j in Elems(q) ensures j in Elems(r) { assert j in q; }
      }
      ProperSubsetSmaller(universe - Elems(r), universe - Elems(q), x);
    } else {
      assert r == r[..|q|];
    }
  }

  lemma ProperSubsetSmaller(a: set<Job>, b: set<Job>, x: Job)
    requires a <= b && x in b && x !in a
    ensures |a| < |b|
  {
    assert b == a + (b - a);
    assert x in b - a;
  }

  /** Jobs `AddAll` appends were not in the queue before. */
  lemma {:induction false} AddAllNewAreNew(q: seq<Job>, ks: seq<Job>, i: nat)
    requires |q| <= i < |AddAll(q, ks)|
    ensures AddAll(q, ks)[i] !in q
    decreases |ks|
  {
    if |ks| > 0 {
      var before := AddAll(q, ks[..|ks| - 1]);
      if i < |before| {
        AddAllNewAreNew(q, ks[..|ks| - 1], i);
      }
    }
  }

  /**
   * The jobs a flush runs, from the `i`-th job of `q` on: each job run
   * queues its spawned jobs at the end, and the loop re-reads the length.
   */
  ghost function Drain(q: seq<Job>, i: nat, spawns: Job -> seq<Job>, universe: set<Job>): (r: seq<Job>)
    requires i <= |q| && Closed(universe, spawns) && Elems(q) <= universe
    decreases |universe - Elems(q)|, |q| - i
  {
    if i == |q| then q
    else
      var q2 := AddAll(q, spawns(q[i]));
      AddAllShrinksRest(q, spawns(q[i]), universe);
      Drain(q2, i + 1, spawns, universe)
  }

  /** The jobs queued by the first `n` jobs of `q` are all in `q`. */
  ghost predicate SpawnsIn(q: seq<Job>, n: nat, spawns: Job -> seq<Job>)
    requires n <= |q|
  {
    forall a, k :: 0 <= a < n && k in spawns(q[a]) ==> k in q
  }

  /** `r` extends `q`, holds every job once, and stays in `universe`. */
  ghost predicate Extends(q: seq<Job>, r: seq<Job>, universe: set<Job>)
  {
    |q| <= |r| && r[..|q|] == q && NoDuplicates(r) && Elems(r) <= universe
  }

  /** What a flush runs starts with the queue it found, keeps every job once, and stays in `universe`. */
  lemma {:induction false} DrainShape(q: seq<Job>, i: nat, spawns: Job -> seq<Job>, universe: set<Job>)
    requires i <= |q| && Closed(universe, spawns) && Elems(q) <= universe && NoDuplicates(q)
    ensures Extends(q, Drain(q, i, spawns, universe), universe)
    decreases |universe - Elems(q)|, |q| - i
  {
    if i < |q| {
      var q2 := AddAll(q, spawns(q[i]));
      AddAllShrinksRest(q, spawns(q[i]), universe);
      AddAllFacts(q, spawns(q[i]));
      DrainShape(q2, i + 1, spawns, universe);
      var r := Drain(q2, i + 1, spawns, universe);
      assert Drain(q, i, spawns, universe) == r;
      ExtendsTrans(q, q2, r, universe);
    } else {
      assert q[..|q|] == q;
    }
  }

  lemma ExtendsTrans(q: seq<Job>, q2: seq<Job>, r: seq<Job>, universe: set<Job>)
    requires |q| <= |q2| && q2[..|q|] == q && Extends(q2, r, universe)
    ensures Extends(q, r, universe)
  {
    assert r[..|q|] == r[..|q2|][..|q|];
  }

  /** Every job queued by a job the flush ran was run in the same flush. */
  lemma {:induction false} DrainRunsSpawned(q: seq<Job>, i: nat, spawns: Job -> seq<Job>, universe: set<Job>)
    requires i <= |q| && Closed(universe, spawns) && Elems(q) <= universe && NoDuplicates(q)
    requires SpawnsIn(q, i, spawns)
    ensures var r := Drain(q, i, spawns, universe);
      |q| <= |r| && SpawnsIn(r, |r|, spawns)
    decreases |universe - Elems(q)|, |q| - i
  {
    if i < |q| {
      var q2 := AddAll(q, spawns(q[i]));
      AddAllShrinksRest(q, spawns(q[i]), universe);
      SpawnsInStep(q, i, spawns);
      DrainRunsSpawned(q2, i + 1, spawns, universe);
      assert Drain(q, i, spawns, universe) == Drain(q2, i + 1, spawns, universe);
    }
  }

  /** Running the `i`-th job keeps every job queued so far in the queue, and adds the ones it queues. */
  lemma SpawnsInStep(q: seq<Job>, i: nat, spawns: Job -> seq<Job>)
    requires i < |q| && NoDuplicates(q) && SpawnsIn(q, i, spawns)
    ensures var q2 := AddAll(q, spawns(q[i]));
      i + 1 <= |q2| && NoDuplicates(q2) && SpawnsIn(q2, i + 1, spawns)
  {
    var q2 := AddAll(q, spawns(q[i]));
    AddAllFacts(q, spawns(q[i]));
    forall a, k | 0 <= a < i + 1 && k in spawns(q2[a])
      ensures k in q2
    {
      assert q2[a] == q[a];
    }
  }

  /** The module state: `queue`, `isFlushPending`, the flushes waiting in the microtask queue, and the jobs run so far. */
  class Scheduler {
    var queue: seq<Job>
    var flushPending: bool
    var scheduledFlushes: nat
    var ran: seq<Job>

    ghost predicate Valid()
      reads this
    {
      NoDuplicates(queue) && scheduledFlushes == (if flushPending then 1 else 0)
    }

    constructor ()
      ensures Valid() && queue == [] && !flushPending && ran == []
    {
      queue := [];
      flushPending := false;
      scheduledFlushes := 0;
      ran := [];
    }

    /** `queueJob(job)` */
    method QueueJob(job: Job)
      requires Valid()
      modifies this`queue, this`flushPending, this`scheduledFlushes
      ensures Valid()
      ensures queue == AddAll(old(queue), [job])
      ensures job in old(queue) ==> flushPending == old(flushPending)
      ensures job !in old(queue) ==> flushPending
    {
      if job !in queue {
        queue := queue + [job];
        QueueFlush();
      }
    }

    /** `queueFlush()`: a flush is scheduled only when none is pending. */
    method QueueFlush()
      requires scheduledFlushes == (if flushPending then 1 else 0)
      modifies this`flushPending, this`scheduledFlushes
      ensures flushPending && scheduledFlushes == 1
    {
      if !flushPending {
        flushPending := true;
        scheduledFlushes := scheduledFlushes + 1;
      }
    }

    /**
     * `flushJobs()`, run from the microtask queue: the pending flag is
     * cleared, the queue is sorted and every job is run, with the jobs it
     * queues; then the queue is emptied. A job queued during the flush runs
     * in it and also schedules one more (empty) flush.
     */
    method FlushJobs(spawns: Job -> seq<Job>, ghost universe: set<Job>)
      requires Valid() && flushPending
      requires Closed(universe, spawns) && Elems(queue) <= universe
      modifies this
      ensures Valid() && queue == []
      ensures var sorted := SortJobs(old(queue));
        Elems(sorted) <= universe && ran == old(ran) + Drain(sorted, 0, spawns, universe)
      ensures flushPending <==> |ran| > |old(ran)| + |old(queue)|
    {
      flushPending := false;
      scheduledFlushes := scheduledFlushes - 1;
      ghost var q0 := queue;
      queue := SortJobs(queue);
      SortedKeepsElems(q0);
      SortNoDuplicates(q0);
      assert |queue| == |q0| by {
        assert |multiset(queue)| == |multiset(q0)|;
      }
      ghost var sorted := queue;
      RunQueue(spawns, universe);
      DrainShape(sorted, 0, spawns, universe);
      queue := [];
    }

    /** `for (let i = 0; i < queue.length; i++) queue[i]()`: the length is read again after every job. */
    method RunQueue(spawns: Job -> seq<Job>, ghost universe: set<Job>)
      requires Valid() && Closed(universe, spawns) && Elems(queue) <= universe
      modifies this`queue, this`flushPending, this`scheduledFlushes, this`ran
      ensures Valid() && queue == Drain(old(queue), 0, spawns, universe)
      ensures ran == old(ran) + queue
      ensures flushPending <==> old(flushPending) || queue != old(queue)
    {
      var i := 0;
      ghost var q0, ran0, pending0 := queue, ran, flushPending;
      ProgressStart(q0, ran0, spawns, universe);
      while i < |queue|
        invariant Valid() && Progress(q0, ran0, queue, ran, i, spawns, universe)
        invariant flushPending == (pending0 || queue != q0)
        decreases |universe - Elems(queue)|, |queue| - i
      {
        RunStep(i, spawns, q0, ran0, pending0, universe);
        i := i + 1;
      }
      ProgressDone(q0, ran0, queue, ran, i, spawns, universe);
    }

    /** One turn of the flush loop: runs `queue[i]` and keeps the loop's invariant. */
    method RunStep(i: nat, spawns: Job -> seq<Job>, ghost q0: seq<Job>, ghost ran0: seq<Job>, ghost pending0: bool, ghost universe: set<Job>)
      requires Valid() && Progress(q0, ran0, queue, ran, i, spawns, universe) && i < |queue|
      requires flushPending == (pending0 || queue != q0)
      modifies this`queue, this`flushPending, this`scheduledFlushes, this`ran
      ensures Valid() && Progress(q0, ran0, queue, ran, i + 1, spawns, universe)
      ensures flushPending == (pending0 || queue != q0)
      ensures |universe - Elems(queue)| < |universe - Elems(old(queue))| || queue == old(queue)
    {
      ghost var before := queue;
      ghost var ranBefore := ran;
      RunAt(i, spawns);
      ProgressStep(q0, ran0, before, ranBefore, queue, ran, i, spawns, universe);
    }

    /** `queue[i]()`: the job is run and queues the jobs it spawns. */
    method RunAt(i: nat, spawns: Job -> seq<Job>)
      requires Valid() && i < |queue|
      modifies this`queue, this`flushPending, this`scheduledFlushes, this`ran
      ensures Valid() && queue == AddAll(old(queue), spawns(old(queue)[i]))
      ensures ran == old(ran) + [old(queue)[i]]
      ensures flushPending <==> old(flushPending) || |queue| > |old(queue)|
    {
      var job := queue[i];
      ran := ran + [job];
      RunJob(spawns(job));
    }

    /** A job running queues the jobs it spawns, in order. */
    method RunJob(ks: seq<Job>)
      requires Valid()
      modifies this`queue, this`flushPending, this`scheduledFlushes
      ensures Valid() && queue == AddAll(old(queue), ks)
      ensures flushPending <==> old(flushPending) || |queue| > |old(queue)|
    {
      var j := 0;
      while j < |ks|
        invariant j <= |ks| && Valid() && queue == AddAll(old(queue), ks[..j])
        invariant flushPending <==> old(flushPending) || |queue| > |old(queue)|
      {
        assert ks[..j + 1][..j] == ks[..j];
        ghost var qj := queue;
        QueueJob(ks[j]);
        AddAllOne(qj, ks[j]);
        AddAllStep(old(queue), ks[..j + 1]);
        j := j + 1;
      }
      assert ks[..j] == ks;
    }
  }

  /** After `i` jobs of the flush started with `q0`: `q` is the queue, `ran` the log, and what remains is the same flush. */
  ghost predicate Progress(q0: seq<Job>, ran0: seq<Job>, q: seq<Job>, ran: seq<Job>, i: nat, spawns: Job -> seq<Job>, universe: set<Job>)
  {
    i <= |q| && |q0| <= |q| && Closed(universe, spawns) && Elems(q0) <= universe && Elems(q) <= universe
    && Drain(q, i, spawns, universe) == Drain(q0, 0, spawns, universe)
    && ran == ran0 + q[..i]
  }

  lemma ProgressStep(q0: seq<Job>, ran0: seq<Job>, before: seq<Job>, ranBefore: seq<Job>, after: seq<Job>, ran: seq<Job>,
                     i: nat, spawns: Job -> seq<Job>, universe: set<Job>)
    requires Progress(q0, ran0, before, ranBefore, i, spawns, universe) && i < |before|
    requires after == AddAll(before, spawns(before[i])) && ran == ranBefore + [before[i]]
    ensures Progress(q0, ran0, after, ran, i + 1, spawns, universe)
    ensures |universe - Elems(after)| < |universe - Elems(before)| || (after == before)
  {
    AddAllShrinksRest(before, spawns(before[i]), universe);
    DrainStep(before, i, spawns, universe);
    KeptPrefix(before, after, i, 0);
    Assoc(ran0, before[..i], [before[i]]);
  }

  lemma Assoc(a: seq<Job>, b: seq<Job>, c: seq<Job>)
    ensures a + b + c == a + (b + c)
  {
  }

  lemma ProgressStart(q0: seq<Job>, ran0: seq<Job>, spawns: Job -> seq<Job>, universe: set<Job>)
    requires Closed(universe, spawns) && Elems(q0) <= universe
    ensures Progress(q0, ran0, q0, ran0, 0, spawns, universe)
  {
    assert q0[..0] == [];
  }

  /** A flush that has run its whole queue ran `Drain` of the queue it started from. */
  lemma ProgressDone(q0: seq<Job>, ran0: seq<Job>, q: seq<Job>, ran: seq<Job>, i: nat, spawns: Job -> seq<Job>, universe: set<Job>)
    requires Progress(q0, ran0, q, ran, i, spawns, universe) && i == |q|
    ensures q == Drain(q0, 0, spawns, universe) && ran == ran0 + q
  {
    assert q[..i] == q;
  }

  lemma DrainStep(q: seq<Job>, i: nat, spawns: Job -> seq<Job>, universe: set<Job>)
    requires i < |q| && Closed(universe, spawns) && Elems(q) <= universe
    ensures Elems(AddAll(q, spawns(q[i]))) <= universe
    ensures Drain(q, i, spawns, universe) == Drain(AddAll(q, spawns(q[i])), i + 1, spawns, universe)
  {
    AddAllShrinksRest(q, spawns(q[i]), universe);
  }

  lemma KeptPrefix(before: seq<Job>, after: seq<Job>, i: nat, n: nat)
    requires i < |before| <= |after| && n <= |before| && after[..|before|] == before
    ensures after[..i + 1] == before[..i] + [before[i]]
    ensures after[..n] == before[..n]
  {
    assert after[..i + 1] == after[..|before|][..i + 1];
    assert after[..n] == after[..|before|][..n];
  }

  lemma AddAllOne(q: seq<Job>, k: Job)
    ensures AddAll(q, [k]) == if k in q then q else q + [k]
  {
    assert [k][..0] == [];
  }

  lemma AddAllStep(q: seq<Job>, ks: seq<Job>)
    requires |ks| > 0
    ensures AddAll(q, ks) == AddAll(AddAll(q, ks[..|ks| - 1]), [ks[|ks| - 1]])
  {
  }

  lemma {:induction false} InsertNoDuplicates(s: seq<Job>, x: Job)
    requires NoDuplicates(s) && x !in s
    ensures NoDuplicates(Insert(s, x))
    decreases |s|
  {
    if |s| > 0 && !IdAtMost(s[|s| - 1], x) {
      var init := s[..|s| - 1];
      var last := s[|s| - 1];
      assert x !in init by { forall k | 0 <= k < |init| ensures init[k] != x { assert init[k] == s[k]; } }
      assert NoDuplicates(init) by {
        forall i, j | 0 <= i < j < |init| ensures init[i] != init[j] { assert init[i] == s[i] && init[j] == s[j]; }
      }
      InsertNoDuplicates(init, x);
      var r0 := Insert(init, x);
      assert last !in init by {
        forall k | 0 <= k < |init| ensures init[k] != last { assert init[k] == s[k]; }
      }
    } else if |s| > 0 {
      assert forall i :: 0 <= i < |s| ==> (s + [x])[i] == s[i];
    }
  }

  lemma {:induction false} SortNoDuplicates(q: seq<Job>)
    requires NoDuplicates(q)
    ensures NoDuplicates(SortJobs(q))
    decreases |q|
  {
    if |q| > 0 {
      var init := q[..|q| - 1];
      var x := q[|q| - 1];
      assert NoDuplicates(init) by {
        forall i, j | 0 <= i < j < |init| ensures init[i] != init[j] { assert init[i] == q[i] && init[j] == q[j]; }
      }
      SortNoDuplicates(init);
      var s := SortJobs(init);
      assert x !in init by {
        forall k | 0 <= k < |init| ensures init[k] != x { assert init[k] == q[k]; }
      }
      assert x !in multiset(s);
      InsertNoDuplicates(s, x);
    }
  }

  lemma SortedKeepsElems(q: seq<Job>)
    ensures Elems(SortJobs(q)) == Elems(q)
  {
    var s := SortJobs(q);
    assert forall j :: j in s <==> j in multiset(s);
    assert forall j :: j in q <==> j in multiset(q);
  }
}
