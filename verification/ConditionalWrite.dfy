/** The code of one WriteBytesIfMatch call: the lock-acquisition loop with its backoff, and the
    read-compare-replace sequence under the lock. Times are in nanoseconds. */
module ConditionalWrite {
  import opened Logs
  import opened Wire
  import opened FileCas

  const MILLISECOND := 1_000_000
  const RETRY_INITIAL := 10 * MILLISECOND
  const RETRY_MAX := 200 * MILLISECOND
  const DEFAULT_BOUND := 5_000 * MILLISECOND

  // ---- Acquiring the lock ----

  datatype OpenResult = Created | Exists | OtherError

  datatype LockOutcome = Acquired | OpenFailed | TimedOut | ContextDone

  /** One attempt to create the lock file: when, and the backoff and jitter of the wait after it. */
  datatype Attempt = Attempt(at: int, backoff: int, jitter: int)

  /** What the surroundings answer the i-th time round: the open call, the random number, by how
      much the timer and the calls are late, whether the context ends during the wait. */
  datatype Surroundings = Surroundings(
    open: nat -> OpenResult, rand: nat -> nat, late: nat -> nat, ctxDone: nat -> bool)

  function Backoff(i: nat): nat {
    if i == 0 then RETRY_INITIAL
    else if 2 * Backoff(i - 1) > RETRY_MAX then RETRY_MAX
    else 2 * Backoff(i - 1)
  }

  /** The time that has passed at least before attempt i. */
  function Elapsed(i: nat): int {
    if i == 0 then 0 else Elapsed(i - 1) + Backoff(i - 1)
  }

  lemma {:induction false} BackoffRange(i: nat)
    ensures RETRY_INITIAL <= Backoff(i) <= RETRY_MAX
    ensures i >= 5 ==> Backoff(i) == RETRY_MAX
  {
    if i == 0 {
    } else {
      BackoffRange(i - 1);
      if i <= 5 {
        assert Backoff(1) == 20 * MILLISECOND;
        assert Backoff(2) == 40 * MILLISECOND;
        assert Backoff(3) == 80 * MILLISECOND;
        assert Backoff(4) == 160 * MILLISECOND;
      }
    }
  }

  lemma {:induction false} ElapsedAfter(i: nat)
    ensures i >= 5 ==> Elapsed(i) == (310 + 200 * (i - 5)) * MILLISECOND
    ensures i < 5 ==> Elapsed(i) <= 310 * MILLISECOND
  {
    if i > 5 {
      BackoffRange(i - 1);
      ElapsedAfter(i - 1);
    } else {
      assert Elapsed(1) == 10 * MILLISECOND;
      assert Elapsed(2) == 30 * MILLISECOND;
      assert Elapsed(3) == 70 * MILLISECOND;
      assert Elapsed(4) == 150 * MILLISECOND;
      assert Elapsed(5) == 310 * MILLISECOND;
    }
  }

  function Deadline(now: int, ctxDeadline: Option<int>): int {
    if ctxDeadline.Some? && ctxDeadline.value < now + DEFAULT_BOUND then ctxDeadline.value else now + DEFAULT_BOUND
  }

  /** The i-th random number, drawn from 0 to half the backoff. */
  function Jitter(env: Surroundings, i: nat, backoff: nat): (jitter: nat)
    ensures jitter <= backoff / 2
  {
    env.rand(i) % (backoff / 2 + 1)
  }

  /** Attempt a is followed by b: later by its backoff and jitter, and by as much as the timer was late. */
  predicate Follows(env: Surroundings, a: Attempt, b: Attempt, i: nat) {
    b.at == a.at + a.backoff + a.jitter + env.late(i)
  }

  /** The i-th attempt has the i-th backoff, which doubles up to the limit, and the i-th jitter. */
  predicate Drawn(env: Surroundings, a: Attempt, i: nat) {
    a.backoff == Backoff(i) && a.jitter == Jitter(env, i, Backoff(i))
  }

  predicate InOrder(env: Surroundings, attempts: seq<Attempt>, i: nat)
    requires i < |attempts| - 1
  {
    Follows(env, attempts[i], attempts[i + 1], i)
  }

  predicate Scheduled(env: Surroundings, now: int, attempts: seq<Attempt>) {
    && (attempts != [] ==> attempts[0].at == now)
    && (forall i | 0 <= i < |attempts| :: Drawn(env, attempts[i], i))
    && (forall i | 0 <= i < |attempts| - 1 :: InOrder(env, attempts, i))
  }

  /** Attempt i found the lock file there, in time and with the context still open. */
  predicate Retried(env: Surroundings, a: Attempt, i: nat, deadline: int) {
    env.open(i) == Exists && a.at < deadline && !env.ctxDone(i)
  }

  predicate AllRetried(env: Surroundings, attempts: seq<Attempt>, n: nat, deadline: int) {
    n <= |attempts| && forall i | 0 <= i < n :: Retried(env, attempts[i], i, deadline)
  }

  lemma NothingTriedYet(env: Surroundings, now: int, deadline: int)
    ensures Scheduled(env, now, []) && AllRetried(env, [], 0, deadline)
  {}

  lemma AllRetriedSnoc(env: Surroundings, attempts: seq<Attempt>, b: Attempt, deadline: int)
    requires AllRetried(env, attempts, |attempts|, deadline)
    ensures AllRetried(env, attempts + [b], |attempts|, deadline)
    ensures Retried(env, b, |attempts|, deadline) ==> AllRetried(env, attempts + [b], |attempts| + 1, deadline)
  {
    forall i | 0 <= i < |attempts| ensures Retried(env, (attempts + [b])[i], i, deadline) {
      assert Retried(env, attempts[i], i, deadline);
    }
  }

  /** The answer that attempt i ends the loop with, for each reason it may have. */
  predicate Answers(env: Surroundings, a: Attempt, i: nat, deadline: int, outcome: LockOutcome) {
    && (outcome == Acquired <==> env.open(i) == Created)
    && (outcome == OpenFailed <==> env.open(i) == OtherError)
    && (outcome == TimedOut <==> env.open(i) == Exists && a.at >= deadline)
    && (outcome == ContextDone <==> env.open(i) == Exists && a.at < deadline && env.ctxDone(i))
  }

  lemma ScheduledSnoc(env: Surroundings, now: int, attempts: seq<Attempt>, b: Attempt)
    requires Scheduled(env, now, attempts) && Drawn(env, b, |attempts|)
    requires if attempts == [] then b.at == now else Follows(env, Last(attempts), b, |attempts| - 1)
    ensures Scheduled(env, now, attempts + [b])
  {
    var longer := attempts + [b];
    forall i | 0 <= i < |longer| ensures Drawn(env, longer[i], i) {
      assert i < |attempts| ==> Drawn(env, attempts[i], i);
    }
    forall i | 0 <= i < |longer| - 1 ensures InOrder(env, longer, i) {
      assert i < |attempts| - 1 ==> InOrder(env, attempts, i);
    }
  }

  /** No attempt starts before the sum of the backoffs has passed. */
  lemma {:induction false} ElapsedAtLeast(env: Surroundings, now: int, attempts: seq<Attempt>, i: nat)
    requires Scheduled(env, now, attempts) && i < |attempts|
    ensures attempts[i].at >= now + Elapsed(i)
  {
    if i == 0 {
    } else {
      ElapsedAtLeast(env, now, attempts, i - 1);
      assert Drawn(env, attempts[i - 1], i - 1) && InOrder(env, attempts, i - 1);
    }
  }

  /** Every wait takes from 10 to 300 ms, and as much longer as the timer is late. */
  lemma WaitBounds(env: Surroundings, now: int, attempts: seq<Attempt>, i: nat)
    requires Scheduled(env, now, attempts) && i < |attempts| - 1
    ensures RETRY_INITIAL <= attempts[i + 1].at - attempts[i].at - env.late(i) <= RETRY_MAX + RETRY_MAX / 2
  {
    BackoffRange(i);
    assert Drawn(env, attempts[i], i) && InOrder(env, attempts, i);
  }

  /** An attempt that starts before the default deadline is not the last one allowed. */
  lemma RoomForAnother(n: nat, spent: int)
    requires Elapsed(n) <= spent < DEFAULT_BOUND
    ensures n < 29
  {
    ElapsedAfter(n);
  }

  /** There are at most 30 attempts when all but the last one were timely, and the last one
      starts less than 300 ms after the deadline if its timer was not late. */
  lemma EndsSoon(env: Surroundings, now: int, attempts: seq<Attempt>, deadline: int)
    requires attempts != [] && Scheduled(env, now, attempts) && deadline <= now + DEFAULT_BOUND
    requires AllRetried(env, attempts, |attempts| - 1, deadline)
    ensures |attempts| <= 30
    ensures |attempts| > 1 && env.late(|attempts| - 2) == 0 ==> Last(attempts).at < deadline + 300 * MILLISECOND
  {
    var n := |attempts| - 1;
    if n > 0 {
      assert Retried(env, attempts[n - 1], n - 1, deadline);
      ElapsedAtLeast(env, now, attempts, n - 1);
      RoomForAnother(n - 1, attempts[n - 1].at - now);
      WaitBounds(env, now, attempts, n - 1);
    }
  }

  /** One round of the loop up to the next attempt: the answer, or none after the wait. */
  method TryLock(env: Surroundings, a: Attempt, i: nat, deadline: int) returns (answer: Option<LockOutcome>)
    ensures answer == None <==> Retried(env, a, i, deadline)
    ensures answer.Some? ==> Answers(env, a, i, deadline, answer.value)
  {
    match env.open(i)
    case Created => return Some(Acquired);
    case OtherError => return Some(OpenFailed);
    case Exists =>
    if a.at >= deadline {
      return Some(TimedOut);
    }
    if env.ctxDone(i) {
      return Some(ContextDone);
    }
    return None;
  }

  /** The attempts in plain numbers: backoffs of 10 ms doubled up to 200 ms, the drawn part added. */
  lemma ScheduleIs(env: Surroundings, now: int, attempts: seq<Attempt>, i: nat)
    requires Scheduled(env, now, attempts) && i < |attempts|
    ensures attempts[0].at == now && attempts[0].backoff == 10_000_000
    ensures attempts[i].jitter == env.rand(i) % (attempts[i].backoff / 2 + 1)
    ensures i + 1 < |attempts| ==>
              && attempts[i + 1].at == attempts[i].at + attempts[i].backoff + attempts[i].jitter + env.late(i)
              && attempts[i + 1].backoff ==
                 if 2 * attempts[i].backoff > 200_000_000 then 200_000_000 else 2 * attempts[i].backoff
  {
    assert Drawn(env, attempts[i], i) && Drawn(env, attempts[0], 0);
    if i + 1 < |attempts| {
      assert Drawn(env, attempts[i + 1], i + 1) && InOrder(env, attempts, i);
    }
  }

  /** The attempts and the answer in plain numbers: 5 s or the context's deadline, whichever is first. */
  lemma AnswerIs(env: Surroundings, now: int, ctxDeadline: Option<int>, attempts: seq<Attempt>, outcome: LockOutcome)
    requires attempts != [] && AllRetried(env, attempts, |attempts| - 1, Deadline(now, ctxDeadline))
    requires Answers(env, Last(attempts), |attempts| - 1, Deadline(now, ctxDeadline), outcome)
    ensures forall i | 0 <= i < |attempts| - 1 :: env.open(i) == Exists && !env.ctxDone(i)
    ensures forall i | 0 <= i < |attempts| - 1 ::
              attempts[i].at < now + 5_000_000_000 && (ctxDeadline.Some? ==> attempts[i].at < ctxDeadline.value)
    ensures var n, at := |attempts| - 1, Last(attempts).at;
            var late := at >= now + 5_000_000_000 || (ctxDeadline.Some? && at >= ctxDeadline.value);
            && (outcome == Acquired <==> env.open(n) == Created)
            && (outcome == OpenFailed <==> env.open(n) == OtherError)
            && (outcome == TimedOut <==> env.open(n) == Exists && late)
            && (outcome == ContextDone <==> env.open(n) == Exists && !late && env.ctxDone(n))
  {
    forall i | 0 <= i < |attempts| - 1
      ensures env.open(i) == Exists && !env.ctxDone(i) && attempts[i].at < Deadline(now, ctxDeadline)
    {
      assert Retried(env, attempts[i], i, Deadline(now, ctxDeadline));
    }
  }

  /** The acquisition loop. It always ends, after at most 30 attempts, the last of which starts,
      if timers and calls take no longer than asked, less than 300 ms after the deadline. Every
      attempt but the last found the file there, in time, and was followed by its wait; the
      answer is what the last one found. */
  method AcquireConditionalWriteLock(now: int, ctxDeadline: Option<int>, env: Surroundings)
    returns (outcome: LockOutcome, attempts: seq<Attempt>)
    ensures 1 <= |attempts| <= 30 && Scheduled(env, now, attempts)
    ensures AllRetried(env, attempts, |attempts| - 1, Deadline(now, ctxDeadline))
    ensures Answers(env, Last(attempts), |attempts| - 1, Deadline(now, ctxDeadline), outcome)
    ensures |attempts| > 1 && env.late(|attempts| - 2) == 0 ==>
              Last(attempts).at < Deadline(now, ctxDeadline) + 300 * MILLISECOND
    ensures forall i | 0 <= i < |attempts| - 1 :: env.open(i) == Exists && !env.ctxDone(i)
    ensures forall i | 0 <= i < |attempts| - 1 ::
              attempts[i].at < now + 5_000_000_000 && (ctxDeadline.Some? ==> attempts[i].at < ctxDeadline.value)
    ensures var n, at := |attempts| - 1, Last(attempts).at;
            var late := at >= now + 5_000_000_000 || (ctxDeadline.Some? && at >= ctxDeadline.value);
            && (outcome == Acquired <==> env.open(n) == Created)
            && (outcome == OpenFailed <==> env.open(n) == OtherError)
            && (outcome == TimedOut <==> env.open(n) == Exists && late)
            && (outcome == ContextDone <==> env.open(n) == Exists && !late && env.ctxDone(n))
  {
    hide Scheduled, AllRetried, Answers, Retried;
    var deadline := now + DEFAULT_BOUND;
    if ctxDeadline.Some? && ctxDeadline.value < deadline {
      deadline := ctxDeadline.value;
    }
    var backoff := RETRY_INITIAL;
    var clock := now;
    attempts := [];
    NothingTriedYet(env, now, deadline);
    while true
      invariant |attempts| <= 30 && backoff == Backoff(|attempts|)
      invariant if attempts == [] then clock == now
                else Follows(env, Last(attempts), Attempt(clock, 0, 0), |attempts| - 1)
      invariant Scheduled(env, now, attempts) && AllRetried(env, attempts, |attempts|, deadline)
      decreases 30 - |attempts|
    {
      var attempt := Attempt(clock, backoff, Jitter(env, |attempts|, backoff));
      ScheduledSnoc(env, now, attempts, attempt);
      AllRetriedSnoc(env, attempts, attempt, deadline);
      var answer := TryLock(env, attempt, |attempts|, deadline);
      attempts := attempts + [attempt];
      EndsSoon(env, now, attempts, deadline);
      if answer.Some? {
        AnswerIs(env, now, ctxDeadline, attempts, answer.value);
        return answer.value, attempts;
      }
      clock := clock + backoff + attempt.jitter + env.late(|attempts| - 1);
      backoff := backoff * 2;
      if backoff > RETRY_MAX {
        backoff := RETRY_MAX;
      }
    }
  }

  // ---- Replacing the file ----

  /** Which of the file system calls fail; discard and unlock remove the temporary file and the lock. */
  datatype Faults = Faults(
    read: bool, stat: bool, mkdir: bool, create: bool, write: bool, close: bool, chmod: bool, rename: bool,
    discard: bool, unlock: bool)
  {
    /** A call that works on the temporary file fails. */
    predicate Replacing() {
      write || close || chmod || rename
    }
  }

  /** A call that the operation has to make fails: reading a file that is there, or, when its tag matches
      and it is not a dry run, creating, filling or renaming the temporary file. */
  predicate CannotDo(g: Tags, op: Op, faults: Faults, file: Option<File>) {
    && file.Some?
    && (faults.read ||
        ((g.strong(file.value.content) == op.ifMatch || (!faults.stat && g.weak(file.value) == op.ifMatch)) &&
         !op.dryRun && (faults.mkdir || faults.create || faults.Replacing())))
  }

  /** One path of a file system: the file, its lock file, and the temporary files beside it. */
  class Disk {
    var file: Option<File>
    var lock: bool
    var temps: set<int>

    /** The body of WriteBytesIfMatch. Under the lock it is one compare-and-swap: it answers as the
        specification does and leaves the specification's file, or a call failed and the file is
        as before. The lock and the temporary file are gone in every case in which removing them does
        not fail; such a failure is not reported. */
    method WriteBytesIfMatch(g: Tags, op: Op, faults: Faults, mtime: int, temp: int) returns (outcome: Outcome)
      requires temp !in temps
      modifies this
      ensures old(lock) ==> outcome == Failed && unchanged(this)
      ensures lock == (old(lock) || faults.unlock)
      ensures temps == old(temps) || (faults.discard && faults.Replacing() && temps == old(temps) + {temp})
      ensures outcome != Failed ==> (file, outcome) == Cas(g, old(file), op, !faults.stat, mtime)
      ensures outcome == Failed ==> file == old(file)
      ensures outcome == Failed <==> old(lock) || CannotDo(g, op, faults, old(file))
    {
      if lock {
        return Failed;
      }
      lock := true;
      outcome := ReplaceIfMatch(g, op, faults, mtime, temp);
      if !faults.unlock {
        lock := false;
      }
    }

    method ReplaceIfMatch(g: Tags, op: Op, faults: Faults, mtime: int, temp: int) returns (outcome: Outcome)
      requires temp !in temps
      modifies `file, `temps
      ensures temps == old(temps) || (faults.discard && faults.Replacing() && temps == old(temps) + {temp})
      ensures outcome != Failed ==> (file, outcome) == Cas(g, old(file), op, !faults.stat, mtime)
      ensures outcome == Failed ==> file == old(file)
      ensures outcome == Failed <==> CannotDo(g, op, faults, old(file))
    {
      if file.None? {
        return Mismatch;
      }
      if faults.read {
        return Failed;
      }
      var matched := g.strong(file.value.content) == op.ifMatch;
      if !matched && !faults.stat {
        matched := g.weak(file.value) == op.ifMatch;
      }
      if !matched {
        return Mismatch;
      }
      if op.dryRun {
        return DryRunOk;
      }
      if faults.mkdir || faults.create {
        return Failed;
      }
      temps := temps + {temp};
      if faults.Replacing() {
        if !faults.discard {
          temps := temps - {temp};
        }
        return Failed;
      }
      file := Some(File(op.data, mtime));
      temps := temps - {temp};
      return Committed;
    }
  }
}
