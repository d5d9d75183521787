/** In which order the pool starts jobs: each group's from the first to the last, whatever threads take them. */
module ExecutorOrder {
  import opened TaskExecutor

  /** Older groups come first, and within a group smaller indices. */
  predicate Earlier(a: Job, b: Job) {
    a.group < b.group || (a.group == b.group && a.index < b.index)
  }

  ghost predicate QueueInOrder(s: State) {
    && (forall i, j :: 0 <= i < j < |s.queue| ==> Earlier(s.queue[i], s.queue[j]))
    && (forall k :: 0 <= k < |s.queue| ==> s.queue[k].group < |s.groups|)
  }

  /** A job that has been started comes before all jobs of its group that still wait. */
  ghost predicate StartsInOrder(s: State) {
    forall j, k :: j in s.started && 0 <= k < |s.queue| && s.queue[k].group == j.group ==> j.index < s.queue[k].index
  }

  ghost predicate StartedKnown(s: State) {
    forall j :: j in s.started ==> j.group < |s.groups|
  }

  ghost predicate InTurn(s: State) {
    QueueInOrder(s) && StartsInOrder(s) && StartedKnown(s)
  }

  /** What a thread takes is the earliest queued job of its group, and for a worker the earliest of all. */
  lemma TakesEarliest(s: State, step: Step)
    requires QueueInOrder(s) && Enabled(s, step) && Takes(s, step)
    ensures var j := s.queue[Taken(s, step)];
      && (forall k :: 0 <= k < |s.queue| && s.queue[k].group == j.group ==> j.index <= s.queue[k].index)
      && (Top(s.threads[step.thread]).Loop? ==> forall k :: 0 <= k < |s.queue| && k != Taken(s, step) ==> Earlier(j, s.queue[k]))
  {
    hide Enabled;
    var i := Taken(s, step);
    forall k | 0 <= k < |s.queue| && s.queue[k].group == s.queue[i].group
      ensures s.queue[i].index <= s.queue[k].index
    {
      if k > i { assert Earlier(s.queue[i], s.queue[k]); }
    }
  }

  function Without(q: seq<Job>, i: nat): (r: seq<Job>)
    requires i < |q|
    ensures |r| == |q| - 1
    ensures forall k :: 0 <= k < |r| ==> r[k] == q[if k < i then k else k + 1]
  {
    q[..i] + q[i + 1..]
  }

  lemma WithoutInOrder(q: seq<Job>, i: nat)
    requires i < |q| && forall k, l :: 0 <= k < l < |q| ==> Earlier(q[k], q[l])
    ensures var r := Without(q, i); forall k, l :: 0 <= k < l < |r| ==> Earlier(r[k], r[l])
  {
    hide Without, Earlier;
  }

  lemma Apart(s: State, k: nat, l: nat)
    requires QueueInOrder(s) && k < |s.queue| && l < |s.queue| && k != l
    ensures s.queue[k] != s.queue[l]
  {
    assert Earlier(s.queue[if k < l then k else l], s.queue[if k < l then l else k]);
  }

  lemma InTurnTake(s: State, step: Step)
    requires InTurn(s) && Enabled(s, step) && Takes(s, step)
    ensures InTurn(Next(s, step))
  {
    TakesEarliest(s, step);
    TakeEffect(s, step);
    hide Next, Enabled, Takes, Taken;
    var i, s' := Taken(s, step), Next(s, step);
    assert s'.queue == Without(s.queue, i);
    WithoutInOrder(s.queue, i);
    hide Without;
    assert QueueInOrder(s');
    assert StartedKnown(s');
    forall j, k: nat | j in s'.started && k < |s'.queue| && s'.queue[k].group == j.group ensures j.index < s'.queue[k].index {
      var l := if k < i then k else k + 1;
      assert s'.queue[k] == s.queue[l];
      if j !in s.started {
        assert j == s.queue[i];
        Apart(s, l, i);
      }
    }
  }

  lemma InTurnCall(s: State, step: Step)
    requires InTurn(s) && Enabled(s, step) && step.Call?
    ensures InTurn(Next(s, step))
  {
    var s' := Next(s, step);
    if s' != s {
      assert s'.queue == s.queue + JobsOf(|s.groups|, step.count);
      hide Enabled;
    }
  }

  /** Every step keeps the jobs in turn. */
  lemma InTurnKept(s: State, step: Step)
    requires InTurn(s) && Enabled(s, step)
    ensures InTurn(Next(s, step))
  {
    if step.Call? {
      InTurnCall(s, step);
    } else if Takes(s, step) {
      InTurnTake(s, step);
    } else {
      hide Next, Enabled, Takes;
      if Finishes(s, step) { FinishEffect(s, step); } else { NeutralEffect(s, step); }
    }
  }

  lemma {:induction false} RunInTurn(s: State, steps: seq<Step>)
    requires InTurn(s) && IsRun(s, steps)
    ensures InTurn(After(s, steps))
    decreases steps
  {
    if steps != [] {
      InTurnKept(s, steps[0]);
      RunInTurn(Next(s, steps[0]), steps[1..]);
    }
  }

  /** In every run of every pool, each group's jobs are started in the order of their indices. */
  lemma JobsStartInOrder(workers: nat, callers: nat, steps: seq<Step>)
    requires IsRun(Initial(workers, callers), steps)
    ensures var s := After(Initial(workers, callers), steps);
      && (forall j, k :: j in s.started && 0 <= k < |s.queue| && s.queue[k].group == j.group ==> j.index < s.queue[k].index)
      && (forall i, j :: 0 <= i < j < |s.queue| ==> Earlier(s.queue[i], s.queue[j]))
  {
    assert InTurn(Initial(workers, callers));
    RunInTurn(Initial(workers, callers), steps);
  }
}
