// Brute-force protection of a host's PIN.
module Lockout {
  import opened Bits

  // Times are clock readings counted from the zero time, where lockUntil starts.
  datatype Gate = Gate(failures: nat, lockUntil: nat)

  datatype Verdict = Passed | BadPin | Locked

  // One attempt: the clock read on entry, the clock read again when it trips the lockout, and
  // whether the PIN is the right one.
  datatype Attempt = Attempt(now: nat, later: nat, correct: bool)

  datatype Reply = Reply(g: Gate, verdict: Verdict, justLocked: bool)

  function Try(max: nat, lockout: nat, g: Gate, a: Attempt): Reply {
    if a.now < g.lockUntil then Reply(g, Locked, false)
    else if a.correct then Reply(g.(failures := 0), Passed, false)
    else if g.failures + 1 >= max then Reply(Gate(0, a.later + lockout), Locked, true)
    else Reply(g.(failures := g.failures + 1), BadPin, false)
  }

  // An attempt whose PIN is compared and found wrong.
  predicate WrongCompared(g: Gate, a: Attempt) {
    g.lockUntil <= a.now && !a.correct
  }

  function After(max: nat, lockout: nat, g: Gate, attempts: seq<Attempt>): Gate
    decreases |attempts|
  {
    if attempts == [] then g else After(max, lockout, Try(max, lockout, g, attempts[0]).g, attempts[1..])
  }

  // The number of wrong PINs compared.
  function Guesses(max: nat, lockout: nat, g: Gate, attempts: seq<Attempt>): nat
    decreases |attempts|
  {
    if attempts == [] then 0
    else
      (if WrongCompared(g, attempts[0]) then 1 else 0)
      + Guesses(max, lockout, Try(max, lockout, g, attempts[0]).g, attempts[1..])
  }

  // The number of attempts reported as tripping the lockout.
  function Trips(max: nat, lockout: nat, g: Gate, attempts: seq<Attempt>): nat
    decreases |attempts|
  {
    if attempts == [] then 0
    else
      var r := Try(max, lockout, g, attempts[0]);
      (if r.justLocked then 1 else 0) + Trips(max, lockout, r.g, attempts[1..])
  }

  predicate NonePasses(max: nat, lockout: nat, g: Gate, attempts: seq<Attempt>)
    decreases |attempts|
  {
    attempts != [] ==>
      var r := Try(max, lockout, g, attempts[0]);
      r.verdict != Passed && NonePasses(max, lockout, r.g, attempts[1..])
  }

  // The clock never runs backwards, starting from t.
  predicate Clocked(t: nat, attempts: seq<Attempt>)
    decreases |attempts|
  {
    attempts != [] ==>
      t <= attempts[0].now <= attempts[0].later && Clocked(attempts[0].later, attempts[1..])
  }

  predicate AllBy(end: nat, attempts: seq<Attempt>) {
    forall k :: 0 <= k < |attempts| ==> attempts[k].now <= end
  }

  // The counter stays below the limit, so every lockout takes a full round of wrong PINs: over a
  // stretch without a correct PIN, guesses and the failures carried in equal max for each trip
  // plus the failures left over.
  lemma {:induction false} Conservation(max: nat, lockout: nat, g: Gate, attempts: seq<Attempt>)
    requires g.failures < max
    ensures After(max, lockout, g, attempts).failures < max
    ensures NonePasses(max, lockout, g, attempts) ==>
      g.failures + Guesses(max, lockout, g, attempts)
      == max * Trips(max, lockout, g, attempts) + After(max, lockout, g, attempts).failures
    decreases |attempts|
  {
    if attempts != [] { Conservation(max, lockout, Try(max, lockout, g, attempts[0]).g, attempts[1..]); }
  }

  // A run of wrong PINs is compared to its end and trips the lockout exactly when it fills the count.
  lemma {:induction false} WrongRun(max: nat, lockout: nat, g: Gate, attempts: seq<Attempt>)
    requires g.failures < max && g.failures + |attempts| <= max
    requires forall k :: 0 <= k < |attempts| ==> WrongCompared(g, attempts[k])
    ensures Guesses(max, lockout, g, attempts) == |attempts|
    ensures Trips(max, lockout, g, attempts) == if g.failures + |attempts| == max then 1 else 0
    decreases |attempts|
  {
    if attempts != [] {
      assert WrongCompared(g, attempts[0]);
      var next := Try(max, lockout, g, attempts[0]).g;
      if |attempts| > 1 {
        forall k | 0 <= k < |attempts[1..]| ensures WrongCompared(next, attempts[1..][k]) {
          assert WrongCompared(g, attempts[1..][k]) by { assert attempts[1..][k] == attempts[k + 1]; }
        }
        WrongRun(max, lockout, next, attempts[1..]);
      }
    }
  }

  // The right PIN clears the count: after it max wrong PINs are needed to trip the lockout.
  lemma SuccessClears(max: nat, lockout: nat, g: Gate, a: Attempt, attempts: seq<Attempt>)
    requires 0 < max && Try(max, lockout, g, a).verdict == Passed && |attempts| <= max
    requires forall k :: 0 <= k < |attempts| ==> g.lockUntil <= attempts[k].now && !attempts[k].correct
    ensures Trips(max, lockout, Try(max, lockout, g, a).g, attempts) == if |attempts| == max then 1 else 0
  {
    WrongRun(max, lockout, Try(max, lockout, g, a).g, attempts);
  }

  // While it is locked nothing gets through, right or wrong, and nothing changes; the first attempt
  // at or after its end passes if and only if its PIN is right.
  lemma {:induction false} LockedUntil(max: nat, lockout: nat, g: Gate, attempts: seq<Attempt>, a: Attempt)
    requires forall k :: 0 <= k < |attempts| ==> attempts[k].now < g.lockUntil
    ensures After(max, lockout, g, attempts) == g
    ensures Guesses(max, lockout, g, attempts) == Trips(max, lockout, g, attempts) == 0
    ensures NonePasses(max, lockout, g, attempts)
    ensures g.lockUntil <= a.now ==>
      (Try(max, lockout, After(max, lockout, g, attempts), a).verdict == Passed <==> a.correct)
    decreases |attempts|
  {
    if attempts != [] {
      assert attempts[0].now < g.lockUntil;
      forall k | 0 <= k < |attempts[1..]| ensures attempts[1..][k].now < g.lockUntil {
        assert attempts[1..][k] == attempts[k + 1];
      }
      LockedUntil(max, lockout, g, attempts[1..], a);
    }
  }

  // What the viewer is told, and when the host is alerted: the wrong PIN that fills the count is
  // answered as locked, any other as a bad PIN.
  lemma Answers(max: nat, lockout: nat, g: Gate, a: Attempt)
    ensures var r := Try(max, lockout, g, a);
      && (r.verdict == Passed <==> g.lockUntil <= a.now && a.correct)
      && (r.verdict == BadPin <==> WrongCompared(g, a) && g.failures + 1 < max)
      && (r.justLocked <==> WrongCompared(g, a) && g.failures + 1 >= max)
  {
  }

  // The wrong PIN that fills the count locks the host for one lockout from the second reading of the
  // clock: until then every attempt is refused without a new alert, and then PINs are compared again.
  lemma TripLocks(max: nat, lockout: nat, g: Gate, a: Attempt, attempts: seq<Attempt>, b: Attempt)
    requires WrongCompared(g, a) && g.failures + 1 >= max
    requires forall k :: 0 <= k < |attempts| ==> attempts[k].now < a.later + lockout
    ensures var r := Try(max, lockout, g, a);
      && r.verdict == Locked && NonePasses(max, lockout, r.g, attempts)
      && Guesses(max, lockout, r.g, attempts) == Trips(max, lockout, r.g, attempts) == 0
      && var last := Try(max, lockout, After(max, lockout, r.g, attempts), b);
      if b.now < a.later + lockout then last.verdict == Locked && !last.justLocked
      else last.verdict == Passed <==> b.correct
  {
    LockedUntil(max, lockout, Try(max, lockout, g, a).g, attempts, b);
  }

  // The most guesses that fit between the times from and end when f failures are carried in.
  function Allowance(max: nat, lockout: nat, f: nat, from: nat, end: nat): int
    requires lockout > 0
  {
    if from > end then 0 else max * ((end - from) / lockout + 1) - f
  }

  function Later(a: nat, b: nat): nat {
    if a >= b then a else b
  }

  lemma MulMono(k: nat, a: int, b: int)
    requires a <= b
    ensures k * a <= k * b
  {
  }

  lemma DivMono(a: nat, b: nat, d: nat)
    requires a <= b && d > 0
    ensures a / d <= b / d
  {
    if a / d > b / d {
      MulMono(d, b / d + 1, a / d);
    }
  }

  lemma OneLess(d: nat, n: nat)
    requires 0 < n <= d
    ensures (d - n) / n + 1 == d / n
  {
    var q, r := d / n, d % n;
    assert n * (q - 1) == n * q - n;
    Quotient(d - n, n, q - 1, r);
  }

  // One lockout later there is room for one round less.
  lemma OneLockout(max: nat, lockout: nat, now: nat, until: nat, end: nat)
    requires lockout > 0 && now + lockout <= until && now <= end
    ensures Allowance(max, lockout, 0, until, end) <= max * ((end - now) / lockout)
  {
    if until <= end {
      var d := end - now;
      OneLess(d, lockout);
      DivMono(end - until, d - lockout, lockout);
      MulMono(max, (end - until) / lockout + 1, d / lockout);
    }
  }

  lemma StartLater(max: nat, lockout: nat, f: nat, from: nat, from': nat, end: nat)
    requires lockout > 0 && f <= max && from <= from'
    ensures Allowance(max, lockout, f, from', end) <= Allowance(max, lockout, f, from, end)
  {
    if from' <= end {
      DivMono(end - from', end - from, lockout);
      MulMono(max, (end - from') / lockout + 1, (end - from) / lockout + 1);
    } else if from <= end {
      MulMono(max, 1, (end - from) / lockout + 1);
    }
  }

  lemma TripBudget(max: nat, lockout: nat, f: nat, now: nat, from: nat, until: nat, end: nat)
    requires lockout > 0 && f + 1 == max && from <= now <= end && now + lockout <= until
    ensures 1 + Allowance(max, lockout, 0, until, end) <= Allowance(max, lockout, f, from, end)
  {
    OneLockout(max, lockout, now, until, end);
    DivMono(end - now, end - from, lockout);
    MulMono(max, (end - now) / lockout, (end - from) / lockout);
    assert max * ((end - from) / lockout + 1) == max * ((end - from) / lockout) + max;
  }

  // What one attempt uses up of the allowance.
  lemma BudgetStep(max: nat, lockout: nat, g: Gate, a: Attempt, t: nat, end: nat)
    requires lockout > 0 && g.failures < max && t <= a.now <= a.later && a.now <= end
    requires Try(max, lockout, g, a).verdict != Passed
    ensures var r := Try(max, lockout, g, a);
      (if WrongCompared(g, a) then 1 else 0) + Allowance(max, lockout, r.g.failures, Later(r.g.lockUntil, a.later), end)
      <= Allowance(max, lockout, g.failures, Later(g.lockUntil, t), end)
  {
    var r := Try(max, lockout, g, a);
    var from, next := Later(g.lockUntil, t), Later(r.g.lockUntil, a.later);
    if r.justLocked {
      TripBudget(max, lockout, g.failures, a.now, from, next, end);
    } else if WrongCompared(g, a) {
      SpendOne(max, lockout, g.failures, from, end);
      StartLater(max, lockout, g.failures + 1, from, next, end);
    } else {
      StartLater(max, lockout, g.failures, from, next, end);
    }
  }

  lemma SpendOne(max: nat, lockout: nat, f: nat, from: nat, end: nat)
    requires lockout > 0 && from <= end
    ensures Allowance(max, lockout, f + 1, from, end) == Allowance(max, lockout, f, from, end) - 1
  {
  }

  lemma {:induction false} GuessesWithin(max: nat, lockout: nat, g: Gate, attempts: seq<Attempt>, t: nat, end: nat)
    requires lockout > 0 && g.failures < max
    requires Clocked(t, attempts) && AllBy(end, attempts) && NonePasses(max, lockout, g, attempts)
    ensures Guesses(max, lockout, g, attempts) <= Allowance(max, lockout, g.failures, Later(g.lockUntil, t), end)
    decreases |attempts|
  {
    if attempts == [] {
      var from := Later(g.lockUntil, t);
      if from <= end { MulMono(max, 1, (end - from) / lockout + 1); }
    } else {
      var a, rest := attempts[0], attempts[1..];
      forall k | 0 <= k < |rest| ensures rest[k].now <= end {
        assert rest[k] == attempts[k + 1];
      }
      GuessesWithin(max, lockout, Try(max, lockout, g, a).g, rest, a.later, end);
      assert attempts[0].now <= end;
      BudgetStep(max, lockout, g, a, t, end);
    }
  }

  // One round of wrong PINs for each lockout that fits, and one more.
  function Limit(max: nat, lockout: nat, length: nat): nat
    requires lockout > 0
  {
    max * (length / lockout + 1)
  }

  // The rate bound: in any stretch of the given length without a correct PIN, at most one round of
  // wrong PINs for each lockout that fits, and one more.
  lemma RateBound(max: nat, lockout: nat, g: Gate, attempts: seq<Attempt>, t: nat, length: nat)
    requires lockout > 0 && g.failures < max
    requires Clocked(t, attempts) && AllBy(t + length, attempts) && NonePasses(max, lockout, g, attempts)
    ensures Guesses(max, lockout, g, attempts) <= Limit(max, lockout, length)
  {
    var end, from := t + length, Later(g.lockUntil, t);
    assert Guesses(max, lockout, g, attempts) <= Allowance(max, lockout, g.failures, from, end) by {
      GuessesWithin(max, lockout, g, attempts, t, end);
    }
    WholeAllowance(max, lockout, g.failures, t, from, length);
  }

  lemma WholeAllowance(max: nat, lockout: nat, f: nat, t: nat, from: nat, length: nat)
    requires lockout > 0 && f <= max && t <= from
    ensures Allowance(max, lockout, f, from, t + length) <= Limit(max, lockout, length)
  {
    StartLater(max, lockout, f, t, from, t + length);
    FullAllowance(max, lockout, f, t, length);
  }

  lemma FullAllowance(max: nat, lockout: nat, f: nat, t: nat, length: nat)
    requires lockout > 0
    ensures Allowance(max, lockout, f, t, t + length) == Limit(max, lockout, length) - f
  {
  }

  // ---- The bound is reached ----

  // n wrong PINs at time t.
  function Burst(n: nat, t: nat): seq<Attempt> {
    seq(n, k requires 0 <= k < n => Attempt(t, t, false))
  }

  // rounds bursts of max wrong PINs, one lockout apart.
  function Waves(max: nat, lockout: nat, t: nat, rounds: nat): seq<Attempt>
    decreases rounds
  {
    if rounds == 0 then [] else Burst(max, t) + Waves(max, lockout, t + lockout, rounds - 1)
  }

  lemma {:induction false} BurstRuns(max: nat, lockout: nat, f: nat, u: nat, n: nat, t: nat, rest: seq<Attempt>)
    requires 0 < n && f + n == max && u <= t && lockout > 0
    ensures Guesses(max, lockout, Gate(f, u), Burst(n, t) + rest)
         == n + Guesses(max, lockout, Gate(0, t + lockout), rest)
    ensures NonePasses(max, lockout, Gate(f, u), Burst(n, t) + rest)
         == NonePasses(max, lockout, Gate(0, t + lockout), rest)
    ensures Clocked(t, Burst(n, t) + rest) == Clocked(t, rest)
    decreases n
  {
    var all := Burst(n, t) + rest;
    assert all[1..] == Burst(n - 1, t) + rest;
    if n > 1 {
      BurstRuns(max, lockout, f + 1, u, n - 1, t, rest);
    } else {
      assert Burst(0, t) + rest == rest;
    }
  }

  lemma {:induction false} WavesRun(max: nat, lockout: nat, u: nat, t: nat, rounds: nat, end: nat)
    requires 0 < max && 0 < lockout && u <= t
    requires rounds > 0 ==> t + (rounds - 1) * lockout <= end
    ensures var run := Waves(max, lockout, t, rounds);
      && Guesses(max, lockout, Gate(0, u), run) == max * rounds
      && NonePasses(max, lockout, Gate(0, u), run) && AllBy(end, run)
      && forall s: nat :: s <= t ==> Clocked(s, run)
    decreases rounds
  {
    if rounds > 0 {
      var rest := Waves(max, lockout, t + lockout, rounds - 1);
      assert (rounds - 1) * lockout == (if rounds > 1 then lockout + (rounds - 2) * lockout else 0);
      assert t <= end;
      WavesRun(max, lockout, t + lockout, t + lockout, rounds - 1, end);
      BurstRuns(max, lockout, 0, u, max, t, rest);
      assert max * rounds == max + max * (rounds - 1);
      var all := Waves(max, lockout, t, rounds);
      assert all[0] == Attempt(t, t, false);
    }
  }

  // For every limit, lockout and length some run reaches the bound exactly.
  lemma RateBoundTight(max: nat, lockout: nat, t: nat, length: nat)
    requires 0 < max && 0 < lockout
    ensures exists attempts: seq<Attempt> ::
      && Clocked(t, attempts) && AllBy(t + length, attempts) && NonePasses(max, lockout, Gate(0, 0), attempts)
      && Guesses(max, lockout, Gate(0, 0), attempts) == Limit(max, lockout, length)
  {
    var q := length / lockout;
    assert q * lockout <= length;
    WavesRun(max, lockout, 0, t, q + 1, t + length);
    var attempts := Waves(max, lockout, t, q + 1);
    assert Clocked(t, attempts);
  }
}
