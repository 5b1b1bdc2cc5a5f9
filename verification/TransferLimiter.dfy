/**
 The limiter of concurrent transfers (src/BinarySync.ts:100-126). `run` is cut at its awaits: a
 job arrives and either starts or parks; a finishing job wakes every parked one; a woken job
 checks again, at any later time, and may park again.
 */
module TransferLimiter {
  type JobId = nat

  datatype Limits = Limits(maxJobs: nat, maxBytes: nat)

  datatype Place = Parked | Woken | Running | Done

  datatype Job = Job(size: nat, place: Place)

  /** `active` and `bytes` are the limiter's counters; `jobs` says where each job really is. */
  datatype State = State(active: int, bytes: int, jobs: map<JobId, Job>)

  const IDLE := State(0, 0, map[])

  datatype Action = Arrive(job: JobId, size: nat) | Recheck(job: JobId) | Finish(job: JobId)

  predicate Is(s: State, job: JobId, place: Place) {
    job in s.jobs && s.jobs[job].place == place
  }

  predicate MustWait(l: Limits, active: int, bytes: int, size: int) {
    active > 0 && (active >= l.maxJobs || bytes + size > l.maxBytes)
  }

  function Enter(l: Limits, s: State, job: JobId, size: nat): State {
    if MustWait(l, s.active, s.bytes, size) then s.(jobs := s.jobs[job := Job(size, Parked)])
    else State(s.active + 1, s.bytes + size, s.jobs[job := Job(size, Running)])
  }

  /** Where a job is once `finished` completed: every parked one is woken. */
  function Wake(job: JobId, j: Job, finished: JobId): Job {
    if job == finished then j.(place := Done) else if j.place == Parked then j.(place := Woken) else j
  }

  function Next(l: Limits, s: State, a: Action): State {
    match a
    case Arrive(job, size) => if job in s.jobs then s else Enter(l, s, job, size)
    case Recheck(job) => if Is(s, job, Woken) then Enter(l, s, job, s.jobs[job].size) else s
    case Finish(job) =>
      if !Is(s, job, Running) then s
      else State(s.active - 1, s.bytes - s.jobs[job].size, map k | k in s.jobs :: Wake(k, s.jobs[k], job))
  }

  function Run(l: Limits, s: State, actions: seq<Action>): State
    decreases |actions|
  {
    if actions == [] then s else Run(l, Next(l, s, actions[0]), actions[1..])
  }

  function RunningJobs(s: State): set<JobId> {
    set k | k in s.jobs && s.jobs[k].place == Running
  }

  /** The bytes held by a set of jobs. */
  ghost function Sum(jobs: map<JobId, Job>, of: set<JobId>): nat
    requires of <= jobs.Keys
    decreases |of|
  {
    if of == {} then 0 else var j :| j in of; jobs[j].size + Sum(jobs, of - {j})
  }

  lemma {:induction false} SumWithout(jobs: map<JobId, Job>, of: set<JobId>, j: JobId)
    requires of <= jobs.Keys && j in of
    ensures Sum(jobs, of) == jobs[j].size + Sum(jobs, of - {j})
    decreases |of|
  {
    var k :| k in of && Sum(jobs, of) == jobs[k].size + Sum(jobs, of - {k});
    if k != j {
      SumWithout(jobs, of - {k}, j);
      SumWithout(jobs, of - {j}, k);
      assert of - {k} - {j} == of - {j} - {k};
    }
  }

  lemma {:induction false} SumAgrees(a: map<JobId, Job>, b: map<JobId, Job>, of: set<JobId>)
    requires of <= a.Keys && of <= b.Keys && forall j :: j in of ==> a[j].size == b[j].size
    ensures Sum(a, of) == Sum(b, of)
    decreases |of|
  {
    if of != {} {
      var j :| j in of;
      SumWithout(a, of, j);
      SumWithout(b, of, j);
      SumAgrees(a, b, of - {j});
    }
  }

  /** The counters are the count and the size of the running jobs. */
  ghost predicate Counted(s: State) {
    s.active == |RunningJobs(s)| && s.bytes == Sum(s.jobs, RunningJobs(s))
  }

  /** The limits hold except for a job running alone, and nobody is parked while nothing runs. */
  predicate Limited(l: Limits, s: State) {
    && (s.active <= l.maxJobs || s.active <= 1)
    && (s.bytes <= l.maxBytes || s.active <= 1)
    && (s.active == 0 ==> forall k :: k in s.jobs ==> s.jobs[k].place != Parked)
  }

  ghost predicate Inv(l: Limits, s: State) {
    Counted(s) && Limited(l, s)
  }

  /** A job that is not running yet enters. */
  lemma EnterKeeps(l: Limits, s: State, job: JobId, size: nat)
    requires Inv(l, s) && !Is(s, job, Running)
    ensures Inv(l, Enter(l, s, job, size))
  {
    var s', before := Enter(l, s, job, size), RunningJobs(s);
    SumAgrees(s.jobs, s'.jobs, before);
    assert before == {} ==> s.active == 0;
    if MustWait(l, s.active, s.bytes, size) {
      assert RunningJobs(s') == before;
    } else {
      assert RunningJobs(s') == before + {job};
      SumWithout(s'.jobs, before + {job}, job);
      assert before + {job} - {job} == before;
    }
  }

  lemma FinishKeeps(l: Limits, s: State, job: JobId)
    requires Inv(l, s) && Is(s, job, Running)
    ensures Inv(l, Next(l, s, Finish(job)))
  {
    var s', before := Next(l, s, Finish(job)), RunningJobs(s);
    assert RunningJobs(s') == before - {job};
    SumWithout(s.jobs, before, job);
    SumAgrees(s.jobs, s'.jobs, before - {job});
    assert |before - {job}| == |before| - 1;
  }

  lemma NextKeeps(l: Limits, s: State, a: Action)
    requires Inv(l, s)
    ensures Inv(l, Next(l, s, a))
  {
    hide Inv;
    match a
    case Arrive(job, size) => if job !in s.jobs { EnterKeeps(l, s, job, size); }
    case Recheck(job) => if Is(s, job, Woken) { EnterKeeps(l, s, job, s.jobs[job].size); }
    case Finish(job) => if Is(s, job, Running) { FinishKeeps(l, s, job); }
  }

  /** Under every interleaving of arrivals, re-checks and completions. */
  lemma {:induction false} LimitsHold(l: Limits, s: State, actions: seq<Action>)
    requires Inv(l, s)
    ensures Inv(l, Run(l, s, actions))
    decreases |actions|
  {
    hide Inv, Next;
    if actions != [] {
      NextKeeps(l, s, actions[0]);
      LimitsHold(l, Next(l, s, actions[0]), actions[1..]);
    }
  }

  /**
   From an idle limiter, however jobs arrive: at most `maxJobs` run and they hold at most `maxBytes`,
   unless a single one runs; the counters say so; and when nothing runs nobody is parked, so the first
   waiter to check again starts.
   */
  lemma NeverOverLimitNorStuck(l: Limits, actions: seq<Action>)
    ensures var s := Run(l, IDLE, actions);
            var running := RunningJobs(s);
            && s.active == |running| && s.bytes == Sum(s.jobs, running)
            && (|running| <= l.maxJobs || |running| <= 1)
            && (Sum(s.jobs, running) <= l.maxBytes || |running| <= 1)
            && (running == {} ==> forall k :: k in s.jobs ==>
                  s.jobs[k].place != Parked && (s.jobs[k].place == Woken ==> Is(Next(l, s, Recheck(k)), k, Running)))
  {
    assert RunningJobs(IDLE) == {};
    LimitsHold(l, IDLE, actions);
  }

  /** A job may start: nothing runs, or the running ones and it stay within both limits. */
  ghost predicate MayStart(l: Limits, s: State, size: nat) {
    var running := RunningJobs(s);
    running == {} || (|running| + 1 <= l.maxJobs && Sum(s.jobs, running) + size <= l.maxBytes)
  }

  /**
   Admission, exactly, over every run: a job that arrives, or checks again, runs afterwards if and only if
   nothing was running or it and the running ones fit both limits; otherwise it is parked. No other job is
   touched.
   */
  lemma AdmittedExactly(l: Limits, actions: seq<Action>, job: JobId, size: nat, other: JobId)
    ensures var s := Run(l, IDLE, actions);
            && (job !in s.jobs ==>
                  var s' := Next(l, s, Arrive(job, size));
                  && job in s'.jobs && s'.jobs[job] == Job(size, if MayStart(l, s, size) then Running else Parked)
                  && (other != job && other in s.jobs ==> other in s'.jobs && s'.jobs[other] == s.jobs[other]))
            && (Is(s, job, Woken) ==>
                  var s' := Next(l, s, Recheck(job));
                  var held := s.jobs[job].size;
                  && job in s'.jobs && s'.jobs[job] == Job(held, if MayStart(l, s, held) then Running else Parked)
                  && (other != job && other in s.jobs ==> other in s'.jobs && s'.jobs[other] == s.jobs[other]))
  {
    hide Run;
    assert RunningJobs(IDLE) == {};
    LimitsHold(l, IDLE, actions);
    var s := Run(l, IDLE, actions);
    assert RunningJobs(s) == {} <==> s.active == 0;
  }

  /** A job that finishes is done; every parked one is woken, and the running ones go on. */
  lemma FinishWakesAll(l: Limits, s: State, job: JobId, other: JobId)
    requires Is(s, job, Running)
    ensures var s' := Next(l, s, Finish(job));
            && Is(s', job, Done) && s'.jobs.Keys == s.jobs.Keys
            && (other in s.jobs && other != job ==>
                  s'.jobs[other] == (if Is(s, other, Parked) then Job(s.jobs[other].size, Woken) else s.jobs[other]))
  {
  }

  /** The limiter's own fields, changed in place by the two ends of `run`. */
  class Limiter {
    const maxJobs: nat
    const maxBytes: nat
    var active: int
    var bytes: int
    var waiters: seq<JobId>

    constructor (maxJobs: nat, maxBytes: nat)
      ensures this.maxJobs == maxJobs && this.maxBytes == maxBytes
      ensures active == IDLE.active && bytes == IDLE.bytes && waiters == []
    {
      this.maxJobs, this.maxBytes := maxJobs, maxBytes;
      active, bytes, waiters := 0, 0, [];
    }

    /** The fields show the state `s`. */
    ghost predicate Shows(s: State)
      reads this
    {
      active == s.active && bytes == s.bytes && forall j :: j in waiters <==> Is(s, j, Parked)
    }

    /** One turn of the loop in `run`: start the job or park it. */
    method TryEnter(job: JobId, size: nat, ghost s: State) returns (started: bool)
      requires Shows(s) && !Is(s, job, Parked)
      modifies this
      ensures Shows(Enter(Limits(maxJobs, maxBytes), s, job, size))
      ensures started <==> old(active) <= 0 || (old(active) + 1 <= maxJobs && old(bytes) + size <= maxBytes)
    {
      if active > 0 && (active >= maxJobs || bytes + size > maxBytes) {
        waiters := waiters + [job];
        return false;
      }
      active, bytes := active + 1, bytes + size;
      started := true;
    }

    /** The `finally` of `run`: give the budget back and wake every waiter. */
    method Leave(job: JobId, size: nat, ghost s: State) returns (wake: seq<JobId>)
      requires Shows(s) && Is(s, job, Running) && s.jobs[job].size == size
      modifies this
      ensures Shows(Next(Limits(maxJobs, maxBytes), s, Finish(job)))
      ensures forall j :: j in wake <==> Is(s, j, Parked)
    {
      active, bytes := active - 1, bytes - size;
      wake, waiters := waiters, [];
    }
  }
}
