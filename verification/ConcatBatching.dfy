/** The batching policy of the CONCAT operator: how many waiting batches a task takes, and
    when a task may start before the source is done. */
module ConcatBatching {
  import opened Common

  /** A data batch, told by its id, and its size in bytes. */
  datatype Batch = Batch(id: nat, bytes: nat)

  /** The waiting batches, partition by partition, oldest first. */
  type Repo = seq<seq<Batch>>

  datatype Task = Task(partition: nat, batches: seq<Batch>)

  datatype Policy = Policy(threshold: nat, concatAll: bool)

  function Bytes(bs: seq<Batch>): nat {
    if bs == [] then 0 else Bytes(bs[..|bs| - 1]) + bs[|bs| - 1].bytes
  }

  lemma BytesStep(bs: seq<Batch>, n: nat)
    requires n < |bs|
    ensures Bytes(bs[..n + 1]) == Bytes(bs[..n]) + bs[n].bytes
  {
    assert bs[..n + 1][..n] == bs[..n];
  }

  lemma {:induction false} BytesGrow(bs: seq<Batch>, m: nat, n: nat)
    requires m <= n <= |bs|
    ensures Bytes(bs[..m]) <= Bytes(bs[..n])
    decreases n
  {
    if m < n {
      BytesStep(bs, n - 1);
      BytesGrow(bs, m, n - 1);
    }
  }

  /** The number of batches one task takes of a partition: as many from the front as stay
      within the threshold, but at least one; all of them if that is asked for. */
  ghost predicate Takes(p: Policy, bs: seq<Batch>, n: nat) {
    && n <= |bs| && (bs != [] ==> n > 0)
    && (p.concatAll ==> n == |bs|)
    && (!p.concatAll ==>
          && (n > 1 ==> Bytes(bs[..n]) <= p.threshold)
          && (n < |bs| ==> Bytes(bs[..n + 1]) > p.threshold || (n == 1 && Bytes(bs[..1]) > p.threshold)))
  }

  /** The count is determined. */
  lemma TakesUnique(p: Policy, bs: seq<Batch>, m: nat, n: nat)
    requires Takes(p, bs, m) && Takes(p, bs, n)
    ensures m == n
  {
    TakesNotMore(p, bs, m, n);
    TakesNotMore(p, bs, n, m);
  }

  lemma TakesNotMore(p: Policy, bs: seq<Batch>, m: nat, n: nat)
    requires Takes(p, bs, m) && Takes(p, bs, n)
    ensures n <= m
  {
    if m < n && bs != [] {
      BytesGrow(bs, m + 1, n);
      BytesGrow(bs, 1, n);
    }
  }

  /** No partition before `i` has a batch. */
  predicate EmptyBefore(repo: Repo, i: nat) { i <= |repo| && forall j :: 0 <= j < i ==> repo[j] == [] }

  predicate AllEmpty(repo: Repo) { EmptyBefore(repo, |repo|) }

  /** What one pull does: it takes from the first partition that has a batch. */
  ghost predicate Pulled(p: Policy, repo: Repo, repo': Repo, task: Option<Task>) {
    match task
    case None => AllEmpty(repo) && repo' == repo
    case Some(t) =>
      && t.partition < |repo| && EmptyBefore(repo, t.partition) && repo[t.partition] != []
      && Takes(p, repo[t.partition], |t.batches|)
      && t.batches == repo[t.partition][..|t.batches|]
      && repo' == repo[t.partition := repo[t.partition][|t.batches|..]]
  }

  datatype Hint = Ready | WaitForInput | NoHint

  class Concat {
    const policy: Policy
    var repo: Repo

    constructor (policy: Policy, partitions: nat)
      ensures this.policy == policy && repo == seq(partitions, _ => [])
    {
      this.policy := policy;
      repo := seq(partitions, _ => []);
    }

    method Arrive(i: nat, b: Batch)
      requires i < |repo|
      modifies this
      ensures repo == old(repo)[i := old(repo)[i] + [b]]
    {
      repo := repo[i := repo[i] + [b]];
    }

    /** The pull: over the partitions, then over the batches that waited in one. */
    method Pull() returns (task: Option<Task>)
      modifies this
      ensures Pulled(policy, old(repo), repo, task)
    {
      var i := 0;
      while i < |repo|
        invariant repo == old(repo) && EmptyBefore(repo, i)
      {
        var input := PullFrom(i);
        if |input| != 0 {
          return Some(Task(i, input));
        }
        i := i + 1;
      }
      return None;
    }

    method PullFrom(i: nat) returns (input: seq<Batch>)
      requires i < |repo|
      modifies this
      ensures Takes(policy, old(repo)[i], |input|) && input == old(repo)[i][..|input|]
      ensures repo == old(repo)[i := old(repo)[i][|input|..]]
    {
      input := [];
      var waiting := repo[i];
      var total := 0;
      var k := 0;
      assert waiting[..0] == [] && waiting[0..] == waiting;
      while k < |waiting|
        invariant k <= |waiting| && |input| == k && input == waiting[..k] && total == Bytes(waiting[..k])
        invariant repo == old(repo)[i := waiting[k..]]
        invariant !policy.concatAll && k > 0 ==> total <= policy.threshold
      {
        var batch := waiting[k];
        BytesStep(waiting, k);
        total := total + batch.bytes;
        if !policy.concatAll && total > policy.threshold {
          if |input| == 0 {
            repo := repo[i := repo[i][1..]];
            input := input + [batch];
          }
          break;
        } else {
          assert waiting[k..][1..] == waiting[k + 1..];
          repo := repo[i := repo[i][1..]];
          input := input + [batch];
          k := k + 1;
        }
      }
    }

    /** Ready when the source is done and a batch waits, or early; no hint when the source is
        done and nothing waits. */
    method NextHint(sourceFinished: bool) returns (hint: Hint)
      ensures sourceFinished ==> hint == if AllEmpty(repo) then NoHint else Ready
      ensures !sourceFinished ==>
                hint ==
                  if !policy.concatAll && exists i :: 0 <= i < |repo| && Overfull(policy, repo[i]) then Ready
                  else WaitForInput
    {
      if sourceFinished {
        WaitingZeroIff(repo);
        return if Waiting(repo) > 0 then Ready else NoHint;
      }
      var early := HintEarly();
      return if early then Ready else WaitForInput;
    }

    /** The look-ahead while the source still runs: some partition holds more than a task
        would take. */
    method HintEarly() returns (ready: bool)
      ensures ready <==> !policy.concatAll && exists i :: 0 <= i < |repo| && Overfull(policy, repo[i])
    {
      if policy.concatAll { return false; }
      var i := 0;
      while i < |repo|
        invariant i <= |repo| && forall j :: 0 <= j < i ==> !Overfull(policy, repo[j])
      {
        var over := LooksOverfull(repo[i]);
        if over { return true; }
        i := i + 1;
      }
      return false;
    }

    method LooksOverfull(waiting: seq<Batch>) returns (over: bool)
      requires !policy.concatAll
      ensures over == Overfull(policy, waiting)
    {
      var total, pulled := 0, 0;
      assert waiting[..0] == [] && waiting[..|waiting|] == waiting;
      while pulled < |waiting|
        invariant pulled <= |waiting| && total == Bytes(waiting[..pulled]) <= policy.threshold
      {
        BytesStep(waiting, pulled);
        total := total + waiting[pulled].bytes;
        if total > policy.threshold {
          BytesGrow(waiting, pulled + 1, |waiting|);
          return pulled > 0 || |waiting| > 1;
        } else {
          pulled := pulled + 1;
        }
      }
      return false;
    }
  }

  predicate Overfull(p: Policy, bs: seq<Batch>) { |bs| > 1 && Bytes(bs) > p.threshold }

  /** A partition is overfull exactly when a task would leave some of its batches behind. */
  lemma OverfullIff(p: Policy, bs: seq<Batch>, n: nat)
    requires !p.concatAll && Takes(p, bs, n)
    ensures Overfull(p, bs) <==> n < |bs|
  {
    assert bs[..|bs|] == bs;
    if n < |bs| {
      BytesGrow(bs, n + 1, |bs|);
      BytesGrow(bs, 1, |bs|);
    }
  }

  // ---- Early tasks ------------------------------------------------------------------------------

  /** More batches may have arrived. */
  predicate Extends(repo: Repo, repo': Repo) {
    |repo| == |repo'| && forall i :: 0 <= i < |repo| ==> repo[i] <= repo'[i]
  }

  /** An early READY is kept: whatever arrives before the next pull, that pull gives a task
      and leaves a batch behind. */
  lemma EarlyTaskLeavesMore(p: Policy, repo: Repo, i: nat, now: Repo, after: Repo, task: Option<Task>)
    requires !p.concatAll && i < |repo| && Overfull(p, repo[i]) && Extends(repo, now) && Pulled(p, now, after, task)
    ensures task.Some? && task.value.batches != [] && !AllEmpty(after)
  {
    var bs := now[i];
    assert repo[i] == bs[..|repo[i]|];
    assert bs != [];
    var t := task.value;
    var n := |t.batches|;
    if t.partition == i {
      BytesGrow(bs, |repo[i]|, |bs|);
      assert bs[..|bs|] == bs;
      assert n < |bs|;
      assert after[i] != [];
    } else {
      assert after[i] == bs;
    }
  }

  // ---- Whole runs ---------------------------------------------------------------------------------

  datatype Event = Arrived(i: nat, b: Batch) | Took(task: Option<Task>)

  ghost predicate Step(p: Policy, repo: Repo, e: Event, repo': Repo) {
    match e
    case Arrived(i, b) => i < |repo| && repo' == repo[i := repo[i] + [b]]
    case Took(task) => Pulled(p, repo, repo', task)
  }

  ghost predicate Run(p: Policy, repos: seq<Repo>, events: seq<Event>) {
    && |repos| == |events| + 1
    && forall k :: 0 <= k < |events| ==> Step(p, repos[k], events[k], repos[k + 1])
  }

  /** What arrived for partition `i`, in order. */
  function In(i: nat, events: seq<Event>): seq<Batch> {
    if events == [] then []
    else
      var e := events[|events| - 1];
      In(i, events[..|events| - 1]) + if e.Arrived? && e.i == i then [e.b] else []
  }

  /** What tasks took of partition `i`, in order. */
  function Out(i: nat, events: seq<Event>): seq<Batch> {
    if events == [] then []
    else
      var e := events[|events| - 1];
      Out(i, events[..|events| - 1]) +
        if e.Took? && e.task.Some? && e.task.value.partition == i then e.task.value.batches else []
  }

  /** In every run, of every partition, what was taken followed by what waits is what waited
      at the start followed by what arrived: nothing is lost, repeated, reordered or moved
      to another partition. */
  lemma {:induction false} RunConserves(p: Policy, repos: seq<Repo>, events: seq<Event>, i: nat)
    requires Run(p, repos, events) && i < |repos[0]|
    ensures |repos[|events|]| == |repos[0]|
    ensures Out(i, events) + repos[|events|][i] == repos[0][i] + In(i, events)
    decreases |events|
  {
    if events == [] {
      assert Out(i, events) + repos[0][i] == repos[0][i] + In(i, events);
    } else {
      var n := |events| - 1;
      var es, e := events[..n], events[n];
      assert Run(p, repos[..n + 1], es);
      RunConserves(p, repos[..n + 1], es, i);
      var before, after := repos[n], repos[n + 1];
      assert Step(p, before, e, after);
      StepConserves(p, before, e, after, i, Out(i, es), repos[0][i], In(i, es));
    }
  }

  lemma StepConserves(p: Policy, before: Repo, e: Event, after: Repo, i: nat, out: seq<Batch>, start: seq<Batch>,
      into: seq<Batch>)
    requires Step(p, before, e, after) && i < |before| && out + before[i] == start + into
    ensures |after| == |before|
    ensures (out + if e.Took? && e.task.Some? && e.task.value.partition == i then e.task.value.batches else []) +
            after[i]
            == start + (into + if e.Arrived? && e.i == i then [e.b] else [])
  {
    if e.Took? && e.task.Some? && e.task.value.partition == i {
      var t := e.task.value.batches;
      assert before[i] == t + after[i];
      assert (out + t) + after[i] == out + (t + after[i]);
      assert into + [] == into;
    } else if e.Arrived? && e.i == i {
      assert (out + []) + (before[i] + [e.b]) == (out + before[i]) + [e.b];
      assert start + (into + [e.b]) == (start + into) + [e.b];
    } else {
      assert after[i] == before[i];
      assert out + [] == out && into + [] == into;
    }
  }

  /** Every task of a run is of one partition, is not empty, and stays within the threshold
      unless it is a single batch or everything is to be one batch. */
  lemma TasksWithinThreshold(p: Policy, repos: seq<Repo>, events: seq<Event>, k: nat)
    requires Run(p, repos, events) && k < |events| && events[k].Took? && events[k].task.Some?
    ensures var t := events[k].task.value;
            && t.batches != [] && t.partition < |repos[k]| && t.batches <= repos[k][t.partition]
            && (p.concatAll ==> t.batches == repos[k][t.partition])
            && (!p.concatAll && |t.batches| > 1 ==> Bytes(t.batches) <= p.threshold)
  {
    assert Step(p, repos[k], events[k], repos[k + 1]);
  }

  /** How many batches wait. */
  function Waiting(repo: Repo): nat { if repo == [] then 0 else Waiting(repo[..|repo| - 1]) + |repo[|repo| - 1]| }

  lemma {:induction false} WaitingUpdate(repo: Repo, i: nat, bs: seq<Batch>)
    requires i < |repo|
    ensures Waiting(repo[i := bs]) == Waiting(repo) - |repo[i]| + |bs|
    decreases |repo|
  {
    var n := |repo| - 1;
    if i == n {
      assert repo[i := bs][..n] == repo[..n];
    } else {
      assert repo[i := bs][..n] == repo[..n][i := bs];
      WaitingUpdate(repo[..n], i, bs);
    }
  }

  lemma {:induction false} WaitingZeroIff(repo: Repo)
    ensures Waiting(repo) == 0 <==> AllEmpty(repo)
    decreases |repo|
  {
    if repo != [] {
      var n := |repo| - 1;
      WaitingZeroIff(repo[..n]);
      if AllEmpty(repo[..n]) && repo[n] == [] {
        forall j | 0 <= j < |repo| ensures repo[j] == [] {
          if j < n { assert repo[..n][j] == []; }
        }
      }
      if AllEmpty(repo) { assert forall j :: 0 <= j < n ==> repo[..n][j] == repo[j] == []; }
    }
  }

  /** Each pull with a task takes at least one batch, and a pull without one finds nothing:
      so once nothing arrives, as many pulls as batches wait drain the repository. */
  lemma PullsDrain(p: Policy, before: Repo, after: Repo, task: Option<Task>)
    requires Pulled(p, before, after, task)
    ensures task.Some? <==> Waiting(before) > 0
    ensures task.Some? ==> Waiting(after) < Waiting(before)
  {
    WaitingZeroIff(before);
    if task.Some? {
      var t := task.value;
      WaitingUpdate(before, t.partition, before[t.partition][|t.batches|..]);
      assert !AllEmpty(before);
    }
  }

  /** Pulling until a pull comes back empty: it ends, with nothing waiting. */
  method Drain(c: Concat) returns (tasks: seq<Task>)
    modifies c
    ensures AllEmpty(c.repo) && |c.repo| == |old(c.repo)|
    ensures forall i: nat :: i < |c.repo| ==> Out(i, Events(tasks)) == old(c.repo)[i]
  {
    tasks := [];
    var more := true;
    ghost var repos: seq<Repo>, events: seq<Event> := [c.repo], [];
    while more
      invariant |repos| == |events| + 1 && repos[0] == old(c.repo) && repos[|events|] == c.repo &&
                |c.repo| == |old(c.repo)|
      invariant Run(c.policy, repos, events) && events == Events(tasks) && (!more ==> AllEmpty(c.repo))
      decreases Waiting(c.repo), more
    {
      ghost var before := c.repo;
      var task := c.Pull();
      PullsDrain(c.policy, before, c.repo, task);
      if task.None? {
        more := false;
      } else {
        RunGrows(c.policy, repos, events, Took(task), c.repo);
        repos, events := repos + [c.repo], events + [Took(task)];
        EventsAppend(tasks, task.value);
        tasks := tasks + [task.value];
      }
    }
    forall i: nat | i < |c.repo| ensures Out(i, Events(tasks)) == old(c.repo)[i] {
      RunConserves(c.policy, repos, events, i);
      NothingArrived(i, tasks);
      assert c.repo[i] == [];
      assert Out(i, events) + [] == Out(i, events) && repos[0][i] + [] == repos[0][i];
    }
  }

  function Events(tasks: seq<Task>): seq<Event> { seq(|tasks|, i requires 0 <= i < |tasks| => Took(Some(tasks[i]))) }

  lemma EventsAppend(tasks: seq<Task>, t: Task)
    ensures Events(tasks + [t]) == Events(tasks) + [Took(Some(t))]
  {
  }

  lemma {:induction false} NothingArrived(i: nat, tasks: seq<Task>)
    ensures In(i, Events(tasks)) == []
    decreases |tasks|
  {
    if tasks != [] {
      var n := |tasks| - 1;
      assert Events(tasks)[..n] == Events(tasks[..n]);
      NothingArrived(i, tasks[..n]);
    }
  }

  lemma RunGrows(p: Policy, repos: seq<Repo>, events: seq<Event>, e: Event, repo: Repo)
    requires Run(p, repos, events) && Step(p, repos[|events|], e, repo)
    ensures Run(p, repos + [repo], events + [e])
  {
    hide Step;
  }
}
