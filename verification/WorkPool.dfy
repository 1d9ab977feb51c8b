// The compile step's workers: each claims the next job off a shared counter until the
// jobs run out, and pushes what fails on a shared list. Any interleaving.

module WorkPool {
  import opened Wrappers
  import opened KernelVariants

  type Job = (string, Variant)

  datatype Outcome = Fine | Failed(why: string)

  // What a worker does next: claim, compile the job it holds, push its error, nothing.
  datatype Worker = Claiming | Holding(job: nat) | Failing(why: string) | Returned

  // `compiled` records the compilations, in order.
  datatype Pool = Pool(next: nat, workers: seq<Worker>, failures: seq<string>, compiled: seq<nat>)

  // The jobs' outcomes, which no worker can change.
  datatype Build = Build(jobs: seq<Job>, compile: Job -> Outcome) {
    // 1 for a job that fails with this error.
    function FailsWith(why: string): nat -> nat {
      (i: nat) => if i < |jobs| && compile(jobs[i]) == Failed(why) then 1 else 0
    }
  }

  function Start(width: nat): Pool {
    Pool(0, seq(width, _ => Claiming), [], [])
  }

  // Worker w's next atomic step.
  function Take(b: Build, p: Pool, w: nat): Pool
    requires w < |p.workers|
  {
    match p.workers[w]
    case Claiming =>
      p.(next := p.next + 1, workers := p.workers[w := if p.next < |b.jobs| then Holding(p.next) else Returned])
    case Holding(i) =>
      var outcome := if i < |b.jobs| then b.compile(b.jobs[i]) else Fine;
      p.(compiled := p.compiled + [i], workers := p.workers[w := if outcome.Failed? then Failing(outcome.why) else Claiming])
    case Failing(why) => p.(failures := p.failures + [why], workers := p.workers[w := Claiming])
    case Returned => p
  }

  // The state after a schedule: who takes each step is anyone's choice.
  function Run(b: Build, width: nat, schedule: seq<nat>): (p: Pool)
    requires Scheduled(width, schedule)
    ensures |p.workers| == width
  {
    if schedule == [] then Start(width)
    else Take(b, Run(b, width, schedule[..|schedule| - 1]), schedule[|schedule| - 1])
  }

  predicate Scheduled(width: nat, schedule: seq<nat>) {
    forall k :: 0 <= k < |schedule| ==> schedule[k] < width
  }

  // ------------------------------------------------------------------------- sums

  function Sum<T>(s: seq<T>, f: T -> nat): nat {
    if s == [] then 0 else Sum(s[..|s| - 1], f) + f(s[|s| - 1])
  }

  function Times<T(==)>(s: seq<T>, x: T): nat {
    multiset(s)[x]
  }

  ghost predicate SameTimes<T(!new)>(s: seq<T>, t: seq<T>) {
    forall x :: Times(s, x) == Times(t, x)
  }

  lemma HasSome<T>(s: seq<T>)
    ensures s == [] || Times(s, s[0]) > 0
  {
  }

  lemma TimesWithout<T>(s: seq<T>, k: nat, x: T)
    requires k < |s|
    ensures Times(s, x) == Times(s[..k] + s[k + 1..], x) + if s[k] == x then 1 else 0
  {
    assert s == s[..k] + [s[k]] + s[k + 1..];
  }

  // One entry's change is the sum's change.
  lemma {:induction false} SumChange<T>(s: seq<T>, k: nat, x: T, f: T -> nat)
    requires k < |s|
    ensures Sum(s[k := x], f) + f(s[k]) == Sum(s, f) + f(x)
  {
    var n, now := |s| - 1, s[k := x];
    if k < n {
      SumChange(s[..n], k, x, f);
      assert now[..n] == s[..n][k := x];
    } else {
      assert now[..n] == s[..n];
    }
  }

  lemma SumAppend<T>(s: seq<T>, x: T, f: T -> nat)
    ensures Sum(s + [x], f) == Sum(s, f) + f(x)
  {
    assert (s + [x])[..|s|] == s;
  }

  lemma {:induction false} SumWithout<T>(s: seq<T>, k: nat, f: T -> nat)
    requires k < |s|
    ensures Sum(s[..k] + s[k + 1..], f) + f(s[k]) == Sum(s, f)
  {
    var n := |s| - 1;
    if k < n {
      SumWithout(s[..n], k, f);
      assert s[..k] + s[k + 1..] == s[..n][..k] + s[..n][k + 1..] + [s[n]];
      SumAppend(s[..n][..k] + s[..n][k + 1..], s[n], f);
    } else {
      assert s[..k] + s[k + 1..] == s[..n];
    }
  }

  // Order does not matter.
  lemma {:induction false} SumPermutes<T(!new)>(s: seq<T>, t: seq<T>, f: T -> nat)
    requires SameTimes(s, t)
    ensures Sum(s, f) == Sum(t, f)
  {
    if s == [] {
      HasSome(t);
    } else {
      var n := |s| - 1;
      assert Times(s, s[n]) == Times(t, s[n]);
      var k :| 0 <= k < |t| && t[k] == s[n];
      var rest := t[..k] + t[k + 1..];
      assert s[..n] + s[n + 1..] == s[..n];
      forall x ensures Times(s[..n], x) == Times(rest, x) {
        assert Times(s, x) == Times(t, x);
        TimesWithout(s, n, x);
        TimesWithout(t, k, x);
      }
      SumPermutes(s[..n], rest, f);
      SumWithout(t, k, f);
    }
  }

  lemma {:induction false} SumZero<T>(s: seq<T>, f: T -> nat)
    requires forall k :: 0 <= k < |s| ==> f(s[k]) == 0
    ensures Sum(s, f) == 0
  {
    if s != [] {
      SumZero(s[..|s| - 1], f);
    }
  }

  function Holds(job: nat): Worker -> nat {
    w => if w == Holding(job) then 1 else 0
  }

  function Pushes(why: string): Worker -> nat {
    w => if w == Failing(why) then 1 else 0
  }

  // The steps a worker has left with the job it has.
  function StepsLeft(): Worker -> nat {
    (w: Worker) => match w case Claiming => 1 case Holding(_) => 3 case Failing(_) => 2 case Returned => 0
  }

  // ------------------------------------------------------------------ the invariant

  function Claimed(b: Build, p: Pool): nat {
    if p.next < |b.jobs| then p.next else |b.jobs|
  }

  // A claimed job is held by one worker or has been compiled, once; an unclaimed one
  // is neither.
  ghost predicate JobOnce(b: Build, p: Pool, job: nat) {
    Times(p.compiled, job) + Sum(p.workers, Holds(job)) == if job < Claimed(b, p) then 1 else 0
  }

  // Every compilation's error has been pushed or is about to be, as often as it arose.
  ghost predicate ErrorsOnce(b: Build, p: Pool, why: string) {
    Times(p.failures, why) + Sum(p.workers, Pushes(why)) == Sum(p.compiled, b.FailsWith(why))
  }

  // A worker only holds jobs there are, and returns only when none are left.
  ghost predicate WorkerOk(b: Build, p: Pool, w: Worker) {
    && (w.Holding? ==> w.job < |b.jobs|)
    && (w.Returned? ==> p.next >= |b.jobs|)
  }

  ghost predicate Inv(b: Build, p: Pool) {
    && (forall job: nat :: JobOnce(b, p, job))
    && (forall why :: ErrorsOnce(b, p, why))
    && (forall w :: 0 <= w < |p.workers| ==> WorkerOk(b, p, p.workers[w]))
  }

  // Steps left in all, were every later job to fail.
  function Left(b: Build, p: Pool): nat {
    Sum(p.workers, StepsLeft()) + 3 * (|b.jobs| - Claimed(b, p))
  }

  lemma StartInv(b: Build, width: nat)
    ensures Inv(b, Start(width)) && Left(b, Start(width)) == width + 3 * |b.jobs|
  {
    var ws := Start(width).workers;
    forall job: nat ensures JobOnce(b, Start(width), job) {
      SumZero(ws, Holds(job));
    }
    forall why ensures ErrorsOnce(b, Start(width), why) {
      SumZero(ws, Pushes(why));
    }
    StartSteps(width);
  }

  lemma {:induction false} StartSteps(width: nat)
    ensures Sum(Start(width).workers, StepsLeft()) == width
  {
    if width > 0 {
      StartSteps(width - 1);
      assert Start(width).workers[..width - 1] == Start(width - 1).workers;
    }
  }

  lemma TakeKeepsInv(b: Build, p: Pool, w: nat)
    requires Inv(b, p) && w < |p.workers|
    ensures Inv(b, Take(b, p, w))
    ensures !p.workers[w].Returned? ==> Left(b, Take(b, p, w)) < Left(b, p)
  {
    hide JobOnce, ErrorsOnce, WorkerOk, Take, Left;
    var p' := Take(b, p, w);
    forall job: nat ensures JobOnce(b, p', job) {
      TakeKeepsJob(b, p, w, job);
    }
    forall why ensures ErrorsOnce(b, p', why) {
      TakeKeepsError(b, p, w, why);
    }
    TakeKeepsWorkers(b, p, w);
    TakeMovesOn(b, p, w);
  }

  lemma TakeKeepsJob(b: Build, p: Pool, w: nat, job: nat)
    requires w < |p.workers| && JobOnce(b, p, job)
    ensures JobOnce(b, Take(b, p, w), job)
  {
    hide Sum;
    SumChange(p.workers, w, Take(b, p, w).workers[w], Holds(job));
    assert p.workers[w := p.workers[w]] == p.workers;
  }

  lemma TakeKeepsError(b: Build, p: Pool, w: nat, why: string)
    requires w < |p.workers| && ErrorsOnce(b, p, why) && WorkerOk(b, p, p.workers[w])
    ensures ErrorsOnce(b, Take(b, p, w), why)
  {
    hide Sum;
    SumChange(p.workers, w, Take(b, p, w).workers[w], Pushes(why));
    if p.workers[w].Holding? {
      SumAppend(p.compiled, p.workers[w].job, b.FailsWith(why));
    }
  }

  lemma TakeKeepsWorkers(b: Build, p: Pool, w: nat)
    requires w < |p.workers| && forall v :: 0 <= v < |p.workers| ==> WorkerOk(b, p, p.workers[v])
    ensures var p' := Take(b, p, w); forall v :: 0 <= v < |p'.workers| ==> WorkerOk(b, p', p'.workers[v])
  {
    var p' := Take(b, p, w);
    forall v | 0 <= v < |p'.workers| ensures WorkerOk(b, p', p'.workers[v]) {
      assert WorkerOk(b, p, p.workers[v]);
    }
  }

  lemma TakeMovesOn(b: Build, p: Pool, w: nat)
    requires w < |p.workers|
    ensures !p.workers[w].Returned? ==> Left(b, Take(b, p, w)) < Left(b, p)
  {
    hide Sum;
    SumChange(p.workers, w, Take(b, p, w).workers[w], StepsLeft());
  }

  // ------------------------------------------------------------------ whole runs

  lemma {:induction false} EveryRunKeepsInv(b: Build, width: nat, schedule: seq<nat>)
    requires Scheduled(width, schedule)
    ensures Inv(b, Run(b, width, schedule))
  {
    hide Inv, Take, Start;
    if schedule == [] {
      StartInv(b, width);
    } else {
      var n := |schedule| - 1;
      EveryRunKeepsInv(b, width, schedule[..n]);
      TakeKeepsInv(b, Run(b, width, schedule[..n]), schedule[n]);
    }
  }

  // Every step of the schedule is one its worker can take.
  ghost predicate Busy(b: Build, width: nat, schedule: seq<nat>)
    requires Scheduled(width, schedule)
  {
    schedule != [] ==>
      var n := |schedule| - 1;
      !Run(b, width, schedule[..n]).workers[schedule[n]].Returned? && Busy(b, width, schedule[..n])
  }

  // No interleaving takes more steps than this.
  lemma {:induction false} RunsAreBounded(b: Build, width: nat, schedule: seq<nat>)
    requires Scheduled(width, schedule) && Busy(b, width, schedule)
    ensures |schedule| + Left(b, Run(b, width, schedule)) <= width + 3 * |b.jobs|
  {
    hide Inv, Take, Start, Left;
    if schedule == [] {
      StartInv(b, width);
    } else {
      var n := |schedule| - 1;
      RunsAreBounded(b, width, schedule[..n]);
      EveryRunKeepsInv(b, width, schedule[..n]);
      TakeKeepsInv(b, Run(b, width, schedule[..n]), schedule[n]);
    }
  }

  ghost predicate AllReturned(p: Pool) {
    forall w :: 0 <= w < |p.workers| ==> p.workers[w].Returned?
  }

  // The jobs in order.
  function InOrder(n: nat): seq<nat> {
    seq<nat>(n, i => i)
  }

  // Once every worker has returned, each job has been compiled exactly once, and the
  // list holds each error as often as jobs fail with it.
  ghost predicate Finished(b: Build, p: Pool) {
    && (forall job: nat :: Times(p.compiled, job) == if job < |b.jobs| then 1 else 0)
    && (forall why :: Times(p.failures, why) == Sum(InOrder(|b.jobs|), b.FailsWith(why)))
  }

  lemma ReturnedIsFinished(b: Build, p: Pool)
    requires Inv(b, p) && AllReturned(p) && p.workers != []
    ensures Finished(b, p)
  {
    hide Sum, Times;
    var all := InOrder(|b.jobs|);
    assert WorkerOk(b, p, p.workers[0]);
    forall job: nat ensures Times(p.compiled, job) == if job < |b.jobs| then 1 else 0 {
      assert JobOnce(b, p, job);
      SumZero(p.workers, Holds(job));
    }
    assert SameTimes(p.compiled, all) by {
      forall job: nat ensures Times(p.compiled, job) == Times(all, job) {
        InOrderOnce(|b.jobs|, job);
      }
    }
    forall why ensures Times(p.failures, why) == Sum(all, b.FailsWith(why)) {
      assert ErrorsOnce(b, p, why);
      SumZero(p.workers, Pushes(why));
      SumPermutes(p.compiled, all, b.FailsWith(why));
    }
  }

  lemma {:induction false} InOrderOnce(n: nat, job: nat)
    ensures Times(InOrder(n), job) == if job < n then 1 else 0
  {
    if n > 0 {
      InOrderOnce(n - 1, job);
      assert InOrder(n) == InOrder(n - 1) + [n - 1];
    }
  }

  // -------------------------------------------------------------------- the pool

  datatype Verdict = Built | Panicked(failures: seq<string>)

  // How many workers: no more than there are jobs, and at least one.
  function Width(cores: nat, jobs: nat): (width: nat)
    requires cores > 0
    ensures 0 < width <= cores && (width <= jobs || width == 1)
    ensures width == cores || width >= jobs
  {
    var enough := if jobs > 1 then jobs else 1;
    if cores < enough then cores else enough
  }

  lemma {:induction false} SumAtLeast<T>(s: seq<T>, k: nat, f: T -> nat)
    requires k < |s|
    ensures Sum(s, f) >= f(s[k])
  {
    if k < |s| - 1 {
      SumAtLeast(s[..|s| - 1], k, f);
    }
  }

  // Nothing was pushed exactly when no job fails.
  lemma PassesIffFine(b: Build, p: Pool)
    requires Finished(b, p)
    ensures p.failures == [] <==> forall i :: 0 <= i < |b.jobs| ==> b.compile(b.jobs[i]).Fine?
  {
    hide Sum;
    var all := InOrder(|b.jobs|);
    if p.failures == [] {
      forall i | 0 <= i < |b.jobs| ensures b.compile(b.jobs[i]).Fine? {
        if b.compile(b.jobs[i]).Failed? {
          var why := b.compile(b.jobs[i]).why;
          assert Times(p.failures, why) == Sum(all, b.FailsWith(why));
          SumAtLeast(all, i, b.FailsWith(why));
        }
      }
    } else {
      var why := p.failures[0];
      HasSome(p.failures);
      assert Times(p.failures, why) == Sum(all, b.FailsWith(why));
      if forall i :: 0 <= i < |b.jobs| ==> b.compile(b.jobs[i]).Fine? {
        SumZero(all, b.FailsWith(why));
      }
    }
  }

  // `compile_all`. Whichever unreturned worker goes next, the pool comes to rest and
  // the build passes exactly when every job compiles.
  method CompileAll(b: Build, cores: nat) returns (v: Verdict, p: Pool)
    requires cores > 0
    ensures Finished(b, p) && AllReturned(p) && |p.workers| == Width(cores, |b.jobs|)
    ensures v == if p.failures == [] then Built else Panicked(p.failures)
    ensures v.Built? <==> forall i :: 0 <= i < |b.jobs| ==> b.compile(b.jobs[i]).Fine?
  {
    hide Inv, Left, Finished;
    var width := Width(cores, |b.jobs|);
    p := Start(width);
    StartInv(b, width);
    var w := Unreturned(p);
    while w.Some?
      invariant Inv(b, p) && |p.workers| == width
      invariant if w.Some? then w.value < width && !p.workers[w.value].Returned? else AllReturned(p)
      decreases Left(b, p)
    {
      TakeKeepsInv(b, p, w.value);
      p := Take(b, p, w.value);
      w := Unreturned(p);
    }
    ReturnedIsFinished(b, p);
    PassesIffFine(b, p);
    v := if p.failures == [] then Built else Panicked(p.failures);
  }

  // Some worker that has not returned, if there is one: any of them.
  method Unreturned(p: Pool) returns (w: Option<nat>)
    ensures if w.Some? then w.value < |p.workers| && !p.workers[w.value].Returned? else AllReturned(p)
  {
    if v: nat :| v < |p.workers| && !p.workers[v].Returned? {
      w := Some(v);
    } else {
      w := None;
    }
  }
}
