/**
 * `ServiceUpdater.run_job_for_all_services`: one job per ECS service of the application, queued in
 * service order with a rotating display colour, run in consecutive batches of at most
 * `DEPLOYMENT_CONCURRENCY` jobs, each batch waited for as a whole, and a single failure raised at
 * the end when any job exited with a nonzero status.
 *
 * The processes themselves are not modelled: the exit status each job ends with is a parameter,
 * and the run is recorded as the sequence of process starts and exits it performs.
 */
module ServiceUpdater {
  import opened Wrappers
  import opened Dicts
  import opened Errors

  /** `DEPLOYMENT_COLORS`. */
  const DeploymentColors: seq<string> := ["blue", "magenta", "white", "cyan"]

  /** The batch size used when `CLOUDLIFT_DEPLOYMENT_CONCURRENCY` is not set. */
  const DefaultConcurrency: nat := 4

  /** The colour job `index` is queued with. */
  function ColorOf(index: nat): string {
    DeploymentColors[index % 3]
  }

  /** One entry of the service information the fetcher gathers for an application. */
  datatype ServiceInfo = ServiceInfo(ecsServiceName: string, secretsName: Option<string>)

  /** A keyword-argument value: one the caller passed in, a string, or `None`. */
  datatype KwArg<A> = Passed(value: A) | Text(text: string) | NoneArg

  /** Keyword arguments by name; a call does not depend on their order. */
  type KwArgs<A> = map<string, KwArg<A>>

  /** The functions a job can run in its own process. */
  datatype Target = DeployNewVersion | RevertLastDeployment

  /** A queued process: its target and its own copy of the keyword arguments. */
  datatype Job<A> = Job(target: Target, kwargs: KwArgs<A>)

  /** What the run does to the processes, in order. */
  datatype Event = Started(job: nat) | Exited(job: nat, code: int)

  function Min(a: int, b: int): int {
    if a <= b then a else b
  }

  /** The value `secrets_name` is set to: `ecs_service_info.get('secrets_name')`. */
  function SecretsArg<A>(secretsName: Option<string>): KwArg<A> {
    if secretsName.Some? then Text(secretsName.value) else NoneArg
  }

  /** The keys each job adds to the caller's keyword arguments. */
  const JobKeys: set<string> := {"ecs_service_name", "secrets_name", "color"}

  /**
   * The keyword arguments of job `index`: the caller's ones, with the service name, the secrets
   * name and the colour of its own service set on top.
   */
  ghost predicate QueuedWith<A>(args: KwArgs<A>, base: KwArgs<A>, info: ServiceInfo, index: nat) {
    && args.Keys == base.Keys + JobKeys
    && args["ecs_service_name"] == Text(info.ecsServiceName)
    && args["secrets_name"] == SecretsArg(info.secretsName)
    && args["color"] == Text(ColorOf(index))
    && (forall k :: k in base && k !in JobKeys ==> args[k] == base[k])
  }

  /*** Batching ***/

  /** `chunks(xs, k)`: consecutive slices of `k` elements, the last one possibly shorter. */
  function Chunks<T>(xs: seq<T>, k: nat): (r: seq<seq<T>>)
    requires k > 0
    ensures forall b :: 0 <= b < |r| ==> 0 < |r[b]| <= k
    decreases |xs|
  {
    if xs == [] then []
    else
      var n := Min(k, |xs|);
      [xs[..n]] + Chunks(xs[n..], k)
  }

  function Flatten<T>(xss: seq<seq<T>>): seq<T> {
    if xss == [] then [] else xss[0] + Flatten(xss[1..])
  }

  /** The batches hold every job once, in order. */
  lemma {:induction false} ChunksFlatten<T>(xs: seq<T>, k: nat)
    requires k > 0
    ensures Flatten(Chunks(xs, k)) == xs
    decreases |xs|
  {
    if xs != [] {
      var n := Min(k, |xs|);
      ChunksFlatten(xs[n..], k);
      assert Chunks(xs, k)[1..] == Chunks(xs[n..], k);
      assert xs[..n] + xs[n..] == xs;
    }
  }

  /** Every batch is non-empty and holds at most `k` jobs; all but the last hold exactly `k`. */
  lemma {:induction false} ChunksBounded<T>(xs: seq<T>, k: nat)
    requires k > 0
    ensures forall b :: 0 <= b < |Chunks(xs, k)| ==> 0 < |Chunks(xs, k)[b]| <= k
    ensures forall b :: 0 <= b < |Chunks(xs, k)| - 1 ==> |Chunks(xs, k)[b]| == k
    decreases |xs|
  {
    if xs != [] {
      var n := Min(k, |xs|);
      var rest := Chunks(xs[n..], k);
      ChunksBounded(xs[n..], k);
      assert Chunks(xs, k) == [xs[..n]] + rest;
      if n < k {
        assert rest == [];
      }
    }
  }

  /** With the default concurrency, six jobs run as a batch of four and then a batch of two. */
  lemma SixJobsInTwoBatches<T>(xs: seq<T>)
    requires |xs| == 6
    ensures Chunks(xs, DefaultConcurrency) == [xs[..4], xs[4..]]
  {
    var rest := xs[4..];
    assert rest[..2] == rest && rest[2..] == [];
    assert Chunks(rest, DefaultConcurrency) == [rest] + Chunks([], DefaultConcurrency);
  }

  /*** The run, as the sequence of starts and exits ***/

  /** Starting jobs `from` up to `to`, in order. */
  function Starts(from: nat, to: nat): (r: seq<Event>)
    requires from <= to
    ensures |r| == to - from
    ensures forall n :: 0 <= n < |r| ==> r[n] == Started(from + n)
  {
    seq(to - from, n requires 0 <= n < to - from => Started(from + n))
  }

  /** Jobs `from` up to `to` all having exited with their status, in order. */
  function Exits(codes: seq<int>, from: nat, to: nat): (r: seq<Event>)
    requires from <= to <= |codes|
    ensures |r| == to - from
    ensures forall n :: 0 <= n < |r| ==> r[n] == Exited(from + n, codes[from + n])
  {
    seq(to - from, n requires 0 <= n < to - from => Exited(from + n, codes[from + n]))
  }

  /**
   * The run of the jobs from `from` on, in batches of `k`: each batch is started as a whole, then
   * waited for until every job of it has an exit status, before the next batch starts.
   */
  function Schedule(codes: seq<int>, k: nat, from: nat): (r: seq<Event>)
    requires k > 0 && from <= |codes|
    ensures |r| == 2 * (|codes| - from)
    decreases |codes| - from
  {
    if from == |codes| then []
    else
      var to := Min(from + k, |codes|);
      Starts(from, to) + Exits(codes, from, to) + Schedule(codes, k, to)
  }

  /** The run only touches the jobs it was given. */
  lemma {:induction false} ScheduleRange(codes: seq<int>, k: nat, from: nat)
    requires k > 0 && from <= |codes|
    ensures forall e :: e in Schedule(codes, k, from) ==> from <= e.job < |codes|
    decreases |codes| - from
  {
    if from < |codes| {
      var to := Min(from + k, |codes|);
      ScheduleRange(codes, k, to);
    }
  }

  /** Every job is started, and later exits with its own status. */
  lemma {:induction false} ScheduleComplete(codes: seq<int>, k: nat, from: nat, j: nat)
    requires k > 0 && from <= j < |codes|
    ensures exists p, q :: 0 <= p < q < |Schedule(codes, k, from)|
                           && Schedule(codes, k, from)[p] == Started(j)
                           && Schedule(codes, k, from)[q] == Exited(j, codes[j])
    decreases |codes| - from
  {
    var to := Min(from + k, |codes|);
    var s := Schedule(codes, k, from);
    var head := Starts(from, to) + Exits(codes, from, to);
    assert s == head + Schedule(codes, k, to);
    if j < to {
      var p, q := j - from, (to - from) + (j - from);
      assert s[p] == head[p] == Started(j);
      assert s[q] == head[q] == Exited(j, codes[j]);
    } else {
      ScheduleComplete(codes, k, to, j);
      var rest := Schedule(codes, k, to);
      var p, q :| 0 <= p < q < |rest| && rest[p] == Started(j) && rest[q] == Exited(j, codes[j]);
      assert s[|head| + p] == rest[p];
      assert s[|head| + q] == rest[q];
    }
  }

  /**
   * The batch barrier: when job `j` starts, every job at least `k` places before it has already
   * exited. So no more than `k` jobs ever run at once.
   */
  lemma {:induction false} ScheduleBarrier(codes: seq<int>, k: nat, from: nat, q: nat, j: nat, i: nat)
    requires k > 0 && from <= |codes|
    requires q < |Schedule(codes, k, from)| && Schedule(codes, k, from)[q] == Started(j)
    requires from <= i && i + k <= j < |codes|
    ensures Exited(i, codes[i]) in Schedule(codes, k, from)[..q]
    decreases |codes| - from
  {
    var to := Min(from + k, |codes|);
    var s := Schedule(codes, k, from);
    var head := Starts(from, to) + Exits(codes, from, to);
    var rest := Schedule(codes, k, to);
    assert s == head + rest;
    if q < |head| {
      assert false;
    } else {
      var q' := q - |head|;
      assert rest[q'] == s[q];
      ScheduleRange(codes, k, to);
      assert rest[q'] in rest;
      assert to <= j;
      if i < to {
        assert s[(to - from) + (i - from)] == Exited(i, codes[i]);
      } else {
        ScheduleBarrier(codes, k, to, q', j, i);
        assert rest[..q'] == s[|head|..q];
      }
    }
  }

  /** A product of a positive count and a batch size is at least the batch size. */
  lemma MulAtLeast(a: int, k: int)
    requires a >= 1 && k > 0
    ensures a * k >= k
  {
  }

  /** The quotient is the only whole number of batches that leaves a remainder below the batch size. */
  lemma DivUnique(x: int, k: int, q: int, r: int)
    requires k > 0 && 0 <= r < k && x == q * k + r
    ensures x / k == q
  {
    var q', r' := x / k, x % k;
    assert x == q' * k + r' && 0 <= r' < k;
    if q > q' {
      MulAtLeast(q - q', k);
      assert false;
    } else if q < q' {
      MulAtLeast(q' - q, k);
      assert false;
    }
  }

  /** Moving the count on by a whole batch moves its batch number on by one. */
  lemma BatchOfShift(x: int, k: int)
    requires k > 0 && x >= k
    ensures (x - k) / k == x / k - 1
  {
    var d, m := x / k, x % k;
    assert x == d * k + m && 0 <= m < k;
    assert x - k == (d - 1) * k + m;
    DivUnique(x - k, k, d - 1, m);
  }

  /** A job fewer than `k` places into the run is in its first batch, and one `k` or more places in is not. */
  lemma FirstBatch(x: int, k: int)
    requires k > 0 && 0 <= x
    ensures x < k <==> x / k == 0
  {
    if x < k {
      DivUnique(x, k, 0, x);
    } else {
      BatchOfShift(x, k);
      assert (x - k) / k >= 0;
    }
  }

  /**
   * The batch barrier: when a job of a later batch starts, every job of an earlier batch has
   * already exited with its status (batches are numbered from `from` on, `k` jobs each).
   */
  lemma {:induction false} ScheduleBatchBarrier(codes: seq<int>, k: nat, from: nat, q: nat, j: nat, i: nat)
    requires k > 0 && from <= |codes|
    requires q < |Schedule(codes, k, from)| && Schedule(codes, k, from)[q] == Started(j)
    requires from <= i < |codes| && from <= j < |codes| && (i - from) / k < (j - from) / k
    ensures Exited(i, codes[i]) in Schedule(codes, k, from)[..q]
    decreases |codes| - from
  {
    var to := Min(from + k, |codes|);
    var s := Schedule(codes, k, from);
    var head := Starts(from, to) + Exits(codes, from, to);
    var rest := Schedule(codes, k, to);
    assert s == head + rest;
    FirstBatch(i - from, k);
    FirstBatch(j - from, k);
    assert to == from + k <= j;
    if q < |head| {
      assert false;
    }
    var q' := q - |head|;
    assert rest[q'] == s[q];
    if i < to {
      assert s[(to - from) + (i - from)] == Exited(i, codes[i]);
    } else {
      BatchOfShift(i - from, k);
      BatchOfShift(j - from, k);
      ScheduleBatchBarrier(codes, k, to, q', j, i);
      InLaterPart(head, rest, q, Exited(i, codes[i]));
    }
  }

  /** What the second part of a run holds before its position `q - |head|`, the whole run holds before `q`. */
  lemma InLaterPart(head: seq<Event>, rest: seq<Event>, q: nat, e: Event)
    requires |head| <= q <= |head| + |rest| && e in rest[..q - |head|]
    ensures e in (head + rest)[..q]
  {
    assert rest[..q - |head|] == (head + rest)[|head|..q];
  }

  /**
   * A batch is started as a whole before any waiting: when a job of a batch exits, every job of
   * that batch has already been started.
   */
  lemma {:induction false} ScheduleBatchStarted(codes: seq<int>, k: nat, from: nat, q: nat, i: nat, j: nat)
    requires k > 0 && from <= |codes|
    requires from <= i < |codes| && from <= j < |codes| && (i - from) / k == (j - from) / k
    requires q < |Schedule(codes, k, from)| && Schedule(codes, k, from)[q] == Exited(i, codes[i])
    ensures Started(j) in Schedule(codes, k, from)[..q]
    decreases |codes| - from
  {
    var to := Min(from + k, |codes|);
    var s := Schedule(codes, k, from);
    var head := Starts(from, to) + Exits(codes, from, to);
    var rest := Schedule(codes, k, to);
    assert s == head + rest;
    FirstBatch(i - from, k);
    FirstBatch(j - from, k);
    if q < |head| {
      assert s[q] == head[q];
      assert to - from <= q;
      assert i < to;
      assert s[j - from] == Started(j);
    } else {
      var q' := q - |head|;
      assert rest[q'] == s[q];
      ScheduleRange(codes, k, to);
      assert rest[q'] in rest;
      assert to <= i && to == from + k;
      BatchOfShift(i - from, k);
      BatchOfShift(j - from, k);
      ScheduleBatchStarted(codes, k, to, q', i, j);
      InLaterPart(head, rest, q, Started(j));
    }
  }

  /**
   * The run from the first job on, in batches `0..k-1`, `k..2k-1`, ...: a job of a later batch
   * starts only once every job of an earlier batch has exited, and every job of a batch starts
   * before any of them is waited for.
   */
  lemma RunBatchesInTurn(codes: seq<int>, k: nat, i: nat, j: nat, q: nat)
    requires k > 0 && i < |codes| && j < |codes| && q < |Schedule(codes, k, 0)|
    ensures Schedule(codes, k, 0)[q] == Started(j) && i / k < j / k ==> Exited(i, codes[i]) in Schedule(codes, k, 0)[..q]
    ensures Schedule(codes, k, 0)[q] == Exited(i, codes[i]) && i / k == j / k ==> Started(j) in Schedule(codes, k, 0)[..q]
  {
    if Schedule(codes, k, 0)[q] == Started(j) && i / k < j / k {
      ScheduleBatchBarrier(codes, k, 0, q, j, i);
    }
    if Schedule(codes, k, 0)[q] == Exited(i, codes[i]) && i / k == j / k {
      ScheduleBatchStarted(codes, k, 0, q, i, j);
    }
  }

  /*** run_job_for_all_services ***/

  /**
   * Queues one job per service, in service order, each with its own copy of `kwargs` updated with
   * its service's names and colour; runs them in batches of `concurrency`; and fails with
   * `<job name> failed` after the last batch when any exit status is nonzero. `exitCodes[i]` is the
   * status job `i` ends with. `kwargsAfter` is the caller's dictionary after the in-place updates.
   */
  method RunJobForAllServices<A>(jobName: string, target: Target, kwargs: KwArgs<A>,
                                 serviceInfo: Dict<ServiceInfo>, concurrency: nat, exitCodes: seq<int>)
    returns (jobs: seq<Job<A>>, kwargsAfter: KwArgs<A>, log: seq<Event>, allExitCodes: seq<int>,
             r: Result<(), Exception>)
    requires concurrency > 0
    requires |exitCodes| == |serviceInfo|
    ensures jobs == QueuedJobs(target, kwargs, serviceInfo, |serviceInfo|)
    ensures kwargsAfter == if serviceInfo == [] then kwargs
                           else UpdateJobArgs(kwargs, serviceInfo[|serviceInfo| - 1].value, |serviceInfo| - 1)
    ensures log == Schedule(exitCodes, concurrency, 0)
    ensures allExitCodes == exitCodes
    ensures r.Err? <==> exists i :: 0 <= i < |exitCodes| && exitCodes[i] != 0
    ensures r.Err? ==> r.error == UnrecoverableException(jobName + " failed")
  {
    jobs, kwargsAfter := QueueJobs(target, kwargs, serviceInfo);
    log, allExitCodes := RunInBatches(jobs, concurrency, exitCodes);
    if exists i :: 0 <= i < |allExitCodes| && allExitCodes[i] != 0 {
      r := Err(UnrecoverableException(jobName + " failed"));
    } else {
      r := Ok(());
    }
  }

  /** `kwargs.update(dict(ecs_service_name=..., secrets_name=..., color=...))` for job `index`. */
  function UpdateJobArgs<A>(kwargs: KwArgs<A>, info: ServiceInfo, index: nat): KwArgs<A> {
    kwargs["ecs_service_name" := Text(info.ecsServiceName)]
          ["secrets_name" := SecretsArg(info.secretsName)]
          ["color" := Text(ColorOf(index))]
  }

  /** The update sets the job's three arguments and leaves every other one as the caller passed it. */
  lemma UpdateJobArgsQueued<A>(kwargs: KwArgs<A>, info: ServiceInfo, index: nat)
    ensures QueuedWith(UpdateJobArgs(kwargs, info, index), kwargs, info, index)
  {
  }

  /**
   * Updating the dictionary again for the next job gives the same arguments as updating the
   * caller's original one, so nothing of one job's arguments carries over into the next.
   */
  lemma UpdateJobArgsAgain<A>(kwargs: KwArgs<A>, first: ServiceInfo, i: nat, second: ServiceInfo, j: nat)
    ensures UpdateJobArgs(UpdateJobArgs(kwargs, first, i), second, j) == UpdateJobArgs(kwargs, second, j)
  {
  }

  /** The first `n` jobs the run queues, in service order. */
  function QueuedJobs<A>(target: Target, kwargs: KwArgs<A>, serviceInfo: Dict<ServiceInfo>, n: nat)
    : (r: seq<Job<A>>)
    requires n <= |serviceInfo|
    ensures |r| == n
  {
    if n == 0 then []
    else
      QueuedJobs(target, kwargs, serviceInfo, n - 1)
      + [Job(target, UpdateJobArgs(kwargs, serviceInfo[n - 1].value, n - 1))]
  }

  /**
   * One job per service, in order: job `i` runs the target with the caller's arguments updated for
   * service `i` alone (what that update holds is `UpdateJobArgsQueued`).
   */
  lemma {:induction false} QueuedJobsEach<A>(target: Target, kwargs: KwArgs<A>, serviceInfo: Dict<ServiceInfo>,
                                             n: nat, i: nat)
    requires i < n <= |serviceInfo|
    ensures QueuedJobs(target, kwargs, serviceInfo, n)[i] == Job(target, UpdateJobArgs(kwargs, serviceInfo[i].value, i))
  {
    if i < n - 1 {
      QueuedJobsEach(target, kwargs, serviceInfo, n - 1, i);
    } else if n > 1 {
      QueuedJobsEach(target, kwargs, serviceInfo, n - 1, 0);
    }
  }

  /** The queueing loop of `run_job_for_all_services`, updating the caller's dictionary in place. */
  method QueueJobs<A>(target: Target, kwargs: KwArgs<A>, serviceInfo: Dict<ServiceInfo>)
    returns (jobs: seq<Job<A>>, current: KwArgs<A>)
    ensures jobs == QueuedJobs(target, kwargs, serviceInfo, |serviceInfo|)
    ensures current == if serviceInfo == [] then kwargs
                       else UpdateJobArgs(kwargs, serviceInfo[|serviceInfo| - 1].value, |serviceInfo| - 1)
  {
    jobs := [];
    current := kwargs;
    for i := 0 to |serviceInfo|
      invariant jobs == QueuedJobs(target, kwargs, serviceInfo, i)
      invariant current == if i == 0 then kwargs else UpdateJobArgs(kwargs, serviceInfo[i - 1].value, i - 1)
    {
      if i > 0 {
        UpdateJobArgsAgain(kwargs, serviceInfo[i - 1].value, i - 1, serviceInfo[i].value, i);
      }
      current := UpdateJobArgs(current, serviceInfo[i].value, i);
      jobs := jobs + [Job(target, current)];
    }
  }

  /**
   * The batch loop of `run_job_for_all_services`: for each chunk of the jobs, start every process,
   * wait until all of them have exited, then append their exit statuses.
   */
  method RunInBatches<A>(jobs: seq<Job<A>>, concurrency: nat, exitCodes: seq<int>)
    returns (log: seq<Event>, allExitCodes: seq<int>)
    requires concurrency > 0 && |exitCodes| == |jobs|
    ensures log == Schedule(exitCodes, concurrency, 0)
    ensures allExitCodes == exitCodes
  {
    log := [];
    allExitCodes := [];
    ghost var batches: seq<seq<Job<A>>> := [];
    var start := 0;
    while start < |jobs|
      invariant start <= |jobs|
      invariant log + Schedule(exitCodes, concurrency, start) == Schedule(exitCodes, concurrency, 0)
      invariant allExitCodes == exitCodes[..start]
      invariant batches + Chunks(jobs[start..], concurrency) == Chunks(jobs, concurrency)
      decreases |jobs| - start
    {
      var end := Min(start + concurrency, |jobs|);
      var chunk := jobs[start..end];
      BatchesStep(batches, jobs, concurrency, start);
      batches := batches + [chunk];
      ghost var logged := log;
      log := RunBatch(log, start, end, exitCodes);
      ScheduleStep(logged, exitCodes, concurrency, start);
      allExitCodes := allExitCodes + exitCodes[start..end];
      assert exitCodes[..start] + exitCodes[start..end] == exitCodes[..end];
      start := end;
    }
    assert allExitCodes == exitCodes[..|jobs|] == exitCodes;
  }

  /** The batches from `start` on are the one starting there, then those after it. */
  lemma ChunksStep<T>(xs: seq<T>, k: nat, start: nat)
    requires k > 0 && start < |xs|
    ensures Chunks(xs[start..], k) == [xs[start..Min(start + k, |xs|)]] + Chunks(xs[Min(start + k, |xs|)..], k)
  {
    var end := Min(start + k, |xs|);
    assert xs[start..][..end - start] == xs[start..end] && xs[start..][end - start..] == xs[end..];
  }

  /** The batches taken so far, then the one starting at `start`, then those after it. */
  lemma BatchesStep<T>(batches: seq<seq<T>>, xs: seq<T>, k: nat, start: nat)
    requires k > 0 && start < |xs| && batches + Chunks(xs[start..], k) == Chunks(xs, k)
    ensures batches + [xs[start..Min(start + k, |xs|)]] + Chunks(xs[Min(start + k, |xs|)..], k) == Chunks(xs, k)
  {
    ChunksStep(xs, k, start);
  }

  /** The run from `start` on is the batch starting there, then the run from the next batch on. */
  lemma ScheduleStep(log: seq<Event>, codes: seq<int>, k: nat, start: nat)
    requires k > 0 && start < |codes|
    ensures var end := Min(start + k, |codes|);
            log + Schedule(codes, k, start)
            == (log + (Starts(start, end) + Exits(codes, start, end))) + Schedule(codes, k, end)
  {
    var end := Min(start + k, |codes|);
    assert Schedule(codes, k, start) == Starts(start, end) + Exits(codes, start, end) + Schedule(codes, k, end);
  }

  /** One batch: start jobs `start` up to `end`, then record each one's exit. */
  method RunBatch(log0: seq<Event>, start: nat, end: nat, exitCodes: seq<int>) returns (log: seq<Event>)
    requires start <= end <= |exitCodes|
    ensures log == log0 + (Starts(start, end) + Exits(exitCodes, start, end))
  {
    log := log0;
    for p := 0 to end - start
      invariant log == log0 + Starts(start, start + p)
    {
      assert Starts(start, start + p + 1) == Starts(start, start + p) + [Started(start + p)];
      log := log + [Started(start + p)];
    }
    ghost var started := log;
    for p := 0 to end - start
      invariant log == started + Exits(exitCodes, start, start + p)
    {
      assert Exits(exitCodes, start, start + p + 1)
          == Exits(exitCodes, start, start + p) + [Exited(start + p, exitCodes[start + p])];
      log := log + [Exited(start + p, exitCodes[start + p])];
    }
  }

  /*** Colours ***/

  /** Colours rotate with period three, so `cyan`, the fourth colour, is never used. */
  lemma {:induction false} ColorsRotate(index: nat)
    ensures ColorOf(index + 3) == ColorOf(index)
    ensures ColorOf(index) in DeploymentColors[..3]
    ensures ColorOf(index) != "cyan"
  {
    var c := index % 3;
    assert (index + 3) % 3 == c;
    assert DeploymentColors[..3] == ["blue", "magenta", "white"];
    assert ColorOf(index) == DeploymentColors[c];
    if c == 0 {
      assert ColorOf(index)[0] == 'b';
    } else if c == 1 {
      assert ColorOf(index)[0] == 'm';
    } else {
      assert ColorOf(index)[0] == 'w';
    }
  }
}
