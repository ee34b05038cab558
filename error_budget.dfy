/**
 * The consecutive-error counter of download_site (err_cnter) and its breaker:
 * a success sets the counter to 0; a failure first compares the counter with
 * the tolerance and either cools down (resets to 0) or counts one more error.
 */
module ErrorBudget {
  import Ledger

  function Max0(k: int): nat {
    if k > 0 then k else 0
  }

  /** Whether a failure seen while the counter is `c` takes the cooldown branch. */
  predicate Trips(c: int, tolerance: int) {
    c >= tolerance
  }

  /** The counter after one attempt with outcome `m`. */
  function Step(c: int, tolerance: int, m: Ledger.Mark): int {
    match m
    case Success => 0
    case Failure => if Trips(c, tolerance) then 0 else c + 1
  }

  /** The counter after a run of attempts, starting from `c`. */
  function After(c: int, tolerance: int, marks: seq<Ledger.Mark>): int {
    if marks == [] then c
    else
      var n := |marks| - 1;
      Step(After(c, tolerance, marks[..n]), tolerance, marks[n])
  }

  function Failures(n: nat): seq<Ledger.Mark> {
    seq(n, _ => Ledger.Failure)
  }

  lemma AfterSnoc(c: int, tolerance: int, marks: seq<Ledger.Mark>, m: Ledger.Mark)
    ensures After(c, tolerance, marks + [m]) == Step(After(c, tolerance, marks), tolerance, m)
  {
    assert (marks + [m])[..|marks|] == marks;
  }

  /** One step keeps the counter between 0 and the tolerance (0 when that is negative). */
  lemma StepBounded(c: int, tolerance: int, m: Ledger.Mark)
    requires 0 <= c <= Max0(tolerance)
    ensures 0 <= Step(c, tolerance, m) <= Max0(tolerance)
  {
  }

  /** Any run keeps the counter between 0 and the tolerance (0 when that is negative). */
  lemma {:induction false} AfterBounded(c: int, tolerance: int, marks: seq<Ledger.Mark>)
    requires 0 <= c <= Max0(tolerance)
    ensures 0 <= After(c, tolerance, marks) <= Max0(tolerance)
    decreases |marks|
  {
    if marks != [] {
      var n := |marks| - 1;
      AfterBounded(c, tolerance, marks[..n]);
      StepBounded(After(c, tolerance, marks[..n]), tolerance, marks[n]);
    }
  }

  /** Running `a` then `b` is running `a + b`. */
  lemma {:induction false} AfterAppend(c: int, tolerance: int, a: seq<Ledger.Mark>, b: seq<Ledger.Mark>)
    ensures After(c, tolerance, a + b) == After(After(c, tolerance, a), tolerance, b)
    decreases |b|
  {
    if b == [] {
      assert a + b == a;
    } else {
      var n := |b| - 1;
      assert (a + b)[..|a| + n] == a + b[..n];
      AfterAppend(c, tolerance, a, b[..n]);
    }
  }

  /** A success anywhere in a run restarts the count: what follows it starts from 0. */
  lemma SuccessRestarts(c: int, tolerance: int, a: seq<Ledger.Mark>, b: seq<Ledger.Mark>)
    ensures After(c, tolerance, a + [Ledger.Success] + b) == After(0, tolerance, b)
  {
    AfterAppend(c, tolerance, a + [Ledger.Success], b);
    assert (a + [Ledger.Success])[..|a|] == a;
  }

  /**
   * From 0 with tolerance k >= 0, each of the first k consecutive failures
   * counts one more error and none of them cools down.
   */
  lemma {:induction false} FailureStreak(tolerance: int, n: nat)
    requires 0 <= n <= tolerance
    ensures After(0, tolerance, Failures(n)) == n
    ensures n < tolerance ==> !Trips(After(0, tolerance, Failures(n)), tolerance)
  {
    if n > 0 {
      assert Failures(n)[..n - 1] == Failures(n - 1);
      FailureStreak(tolerance, n - 1);
    }
  }

  /**
   * From 0 with tolerance k >= 0, the (k + 1)-th consecutive failure is the
   * first to take the cooldown branch, and it leaves the counter at 0.
   */
  lemma CooldownOnFailureAfterTolerance(tolerance: int)
    requires tolerance >= 0
    ensures Trips(After(0, tolerance, Failures(tolerance)), tolerance)
    ensures After(0, tolerance, Failures(tolerance + 1)) == 0
  {
    FailureStreak(tolerance, tolerance);
    assert Failures(tolerance + 1)[..tolerance] == Failures(tolerance);
  }

  /**
   * After the cooldown the pattern repeats: with tolerance k >= 0, n + k + 1
   * consecutive failures from 0 leave the counter where n failures do.
   */
  lemma FailureCycle(tolerance: int, n: nat)
    requires tolerance >= 0
    ensures After(0, tolerance, Failures(n + tolerance + 1)) == After(0, tolerance, Failures(n))
  {
    assert Failures(n + tolerance + 1) == Failures(tolerance + 1) + Failures(n);
    AfterAppend(0, tolerance, Failures(tolerance + 1), Failures(n));
    CooldownOnFailureAfterTolerance(tolerance);
  }

  /** A tolerance of 0 or below cools down on every failure. */
  lemma {:induction false} NonPositiveToleranceAlwaysTrips(tolerance: int, marks: seq<Ledger.Mark>)
    requires tolerance <= 0
    ensures After(0, tolerance, marks) == 0
    ensures Trips(After(0, tolerance, marks), tolerance)
  {
    AfterBounded(0, tolerance, marks);
  }
}
