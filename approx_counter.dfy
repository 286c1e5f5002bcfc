/** The approximate (sloppy) counter of homework7/approx_counter.c, in its
    sequential semantics: per-CPU local counts that are flushed into the
    global count once they reach the threshold. */
module ApproxCounter {

  const MAX_THREADS: nat := 64

  function Sum(s: seq<int>): int
  {
    if s == [] then 0 else Sum(s[..|s| - 1]) + s[|s| - 1]
  }

  /** Changing one entry changes the sum by the same amount. */
  lemma {:induction false} SumUpdate(s: seq<int>, i: nat, v: int)
    requires i < |s|
    ensures Sum(s[i := v]) == Sum(s) - s[i] + v
  {
    var s' := s[i := v];
    if i < |s| - 1 {
      assert s'[..|s'| - 1] == s[..|s| - 1][i := v];
      SumUpdate(s[..|s| - 1], i, v);
    } else {
      assert s'[..|s'| - 1] == s[..|s| - 1];
    }
  }

  lemma {:induction false} SumZeros(n: nat)
    ensures Sum(seq(n, _ => 0)) == 0
  {
    if n > 0 {
      assert seq(n, _ => 0)[..n - 1] == seq(n - 1, _ => 0);
      SumZeros(n - 1);
    }
  }

  /** One approx_increment on the global count and the local counts. */
  function Step(global: int, threshold: int, locals: seq<int>, tid: nat): (r: (int, seq<int>))
    requires tid < |locals|
    ensures |r.1| == |locals|
  {
    var v := locals[tid] + 1;
    if v >= threshold then (global + v, locals[tid := 0]) else (global, locals[tid := v])
  }

  /** Global plus the first n local counts goes up by exactly one. */
  lemma StepTotal(global: int, threshold: int, locals: seq<int>, tid: nat, n: nat)
    requires tid < n <= |locals|
    ensures var r := Step(global, threshold, locals, tid);
      r.0 + Sum(r.1[..n]) == global + Sum(locals[..n]) + 1
  {
    var r := Step(global, threshold, locals, tid);
    assert r.1[..n] == locals[..n][tid := r.1[tid]];
    SumUpdate(locals[..n], tid, r.1[tid]);
  }

  /** With a positive threshold: locals in [0, threshold) and global a
      multiple of the threshold. */
  ghost predicate BoundedState(global: int, threshold: int, locals: seq<int>)
  {
    threshold >= 1 && MultipleOf(global, threshold)
    && forall i :: 0 <= i < |locals| ==> 0 <= locals[i] < threshold
  }

  /** An increment keeps the bound, and a flush adds exactly the threshold. */
  lemma StepBounded(global: int, threshold: int, locals: seq<int>, tid: nat, n: nat)
    requires tid < n <= |locals| && BoundedState(global, threshold, locals[..n])
    ensures var r := Step(global, threshold, locals, tid);
      BoundedState(r.0, threshold, r.1[..n]) && (r.0 != global ==> r.0 == global + threshold)
  {
    var r := Step(global, threshold, locals, tid);
    assert locals[..n][tid] == locals[tid];
    if r.0 != global {
      assert r.0 == global + threshold;
    }
    forall i | 0 <= i < n
      ensures 0 <= r.1[..n][i] < threshold
    {
      assert r.1[..n][i] == r.1[i];
      if i != tid {
        assert r.1[i] == locals[..n][i];
      }
    }
  }

  /** g is a whole number of t's: 0, t, 2t, ... */
  ghost predicate MultipleOf(g: int, t: int)
    requires t >= 1
    decreases g
  {
    g == 0 || (g >= t && MultipleOf(g - t, t))
  }

  class ApproxCounter {
    const local: array<int>
    var global: int
    var threshold: int
    var numCpus: nat

    ghost predicate Valid()
      reads this
    {
      local.Length == MAX_THREADS && numCpus <= MAX_THREADS
    }

    /** The exact count: global plus every CPU's local count. */
    ghost function Total(): int
      reads this, local
      requires Valid()
    {
      global + Sum(local[..numCpus])
    }

    /** With a positive threshold: each local count stays below it and the
        global count is a whole number of flushes. */
    ghost predicate Bounded()
      reads this, local
      requires Valid()
    {
      BoundedState(global, threshold, local[..numCpus])
    }

    /** init_approx_counter */
    constructor (threshold: int, numCpus: nat)
      requires numCpus <= MAX_THREADS
      ensures Valid() && fresh(local)
      ensures this.threshold == threshold && this.numCpus == numCpus
      ensures global == 0 && forall i :: 0 <= i < numCpus ==> local[i] == 0
      ensures Total() == 0
      ensures threshold >= 1 ==> Bounded()
    {
      var counts := new int[MAX_THREADS];
      for i := 0 to numCpus
        invariant forall j :: 0 <= j < i ==> counts[j] == 0
      {
        counts[i] := 0;
      }
      this.threshold := threshold;
      this.numCpus := numCpus;
      global := 0;
      local := counts;
      new;
      assert local[..numCpus] == seq(numCpus, _ => 0);
      SumZeros(numCpus);
    }

    /** approx_increment: one more on the CPU's local count, flushed into
        the global count once it reaches the threshold. */
    method Increment(threadId: nat)
      requires Valid() && threadId < numCpus
      modifies this`global, local
      ensures Valid()
      ensures (global, local[..]) == Step(old(global), threshold, old(local[..]), threadId)
      ensures Total() == old(Total()) + 1
      ensures old(Bounded()) ==> Bounded() && (global != old(global) ==> global == old(global) + threshold)
    {
      ghost var before := local[..];
      local[threadId] := local[threadId] + 1;
      if local[threadId] >= threshold {
        global := global + local[threadId];
        local[threadId] := 0;
      }
      assert local[..] == Step(old(global), threshold, before, threadId).1;
      StepTotal(old(global), threshold, before, threadId, numCpus);
      if old(Bounded()) {
        StepBounded(old(global), threshold, before, threadId, numCpus);
      }
    }

    /** approx_get: global plus each local count in turn; changes nothing. */
    method Get() returns (total: int)
      requires Valid()
      ensures total == Total()
    {
      total := global;
      for i := 0 to numCpus
        invariant total == global + Sum(local[..i])
      {
        assert local[..i + 1][..i] == local[..i];
        total := total + local[i];
      }
    }
  }

  /** main: every one of numThreads workers makes numIncrements increments
      on its own CPU slot, then the total is read. Run one worker after the
      other, the result is exact. */
  method RunWorkers(numThreads: nat, numIncrements: nat, threshold: int) returns (final: int)
    requires numThreads <= MAX_THREADS
    ensures final == numThreads * numIncrements
  {
    var c := new ApproxCounter(threshold, numThreads);
    for t := 0 to numThreads
      invariant c.Valid() && fresh(c.local) && c.numCpus == numThreads
      invariant c.Total() == t * numIncrements
    {
      for i := 0 to numIncrements
        invariant c.Valid() && fresh(c.local) && c.numCpus == numThreads
        invariant c.Total() == t * numIncrements + i
      {
        c.Increment(t);
      }
    }
    final := c.Get();
  }
}
