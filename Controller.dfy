/**
 * The run controller `main`: it tries account numbers 1, 2, 3, ... in turn,
 * keeps the global `FAIL_COUNT` of failures since the last success, and
 * stops before the next number once that count reaches `MAX_FAIL`. Whether
 * fetching, extracting and saving one number succeeds is given as input.
 */
module Controller {

  /** `MAX_FAIL`. */
  const MaxFail: nat := 50
  /** The exclusive end of `range(1, 9999999)`. */
  const EndId: nat := 9999999

  /** The effect of one number on the count: reset on success, one more on failure. */
  function Step(count: nat, success: bool): nat {
    if success then 0 else count + 1
  }

  /** The count after the outcomes `outcomes`, starting from `start`. */
  function CountAfter(start: nat, outcomes: seq<bool>): nat {
    if outcomes == [] then start
    else Step(CountAfter(start, outcomes[..|outcomes| - 1]), outcomes[|outcomes| - 1])
  }

  /**
   * The count is the number of failures since the last success: the last
   * `CountAfter` outcomes are failures and the one before them, if any, is
   * a success; with no success at all it is `start` plus every failure.
   */
  lemma {:induction false} CountIsTrailingFailures(start: nat, outcomes: seq<bool>)
    ensures CountAfter(start, outcomes) <= start + |outcomes|
    ensures forall j :: 0 <= j < |outcomes| && |outcomes| - CountAfter(start, outcomes) <= j ==> !outcomes[j]
    ensures CountAfter(start, outcomes) < |outcomes| ==> outcomes[|outcomes| - 1 - CountAfter(start, outcomes)]
    ensures CountAfter(start, outcomes) >= |outcomes| ==> CountAfter(start, outcomes) == start + |outcomes|
  {
    if outcomes != [] {
      var prefix := outcomes[..|outcomes| - 1];
      CountIsTrailingFailures(start, prefix);
      assert forall j :: 0 <= j < |prefix| ==> prefix[j] == outcomes[j];
    }
  }

  /**
   * The number of ids processed: the first `n >= k` at which the count has
   * reached `MaxFail`, or all of `outcomes` if that never happens.
   */
  function StopPoint(start: nat, outcomes: seq<bool>, k: nat): (n: nat)
    requires k <= |outcomes|
    decreases |outcomes| - k
    ensures k <= n <= |outcomes|
    ensures n < |outcomes| ==> CountAfter(start, outcomes[..n]) >= MaxFail
    ensures forall j :: k <= j < n ==> CountAfter(start, outcomes[..j]) < MaxFail
  {
    if k == |outcomes| || CountAfter(start, outcomes[..k]) >= MaxFail then k
    else StopPoint(start, outcomes, k + 1)
  }

  /** At every check of the loop the count is at most `MaxFail`. */
  lemma CountBoundedAtChecks(start: nat, outcomes: seq<bool>, j: nat)
    requires start <= MaxFail
    requires j <= StopPoint(start, outcomes, 0)
    ensures CountAfter(start, outcomes[..j]) <= MaxFail
  {
    if j > 0 {
      assert outcomes[..j][..j - 1] == outcomes[..j - 1];
      assert CountAfter(start, outcomes[..j - 1]) < MaxFail;
    }
  }

  /** The number of processed ids is decided by the first failure streak of `MaxFail`. */
  lemma StopsAfterStreak(outcomes: seq<bool>, n: nat)
    requires MaxFail <= n <= |outcomes|
    requires forall j :: n - MaxFail <= j < n ==> !outcomes[j]
    ensures StopPoint(0, outcomes, 0) <= n
  {
    assert forall j :: n - MaxFail <= j < n ==> !outcomes[..n][j];
    CountIsTrailingFailures(0, outcomes[..n]);
    assert CountAfter(0, outcomes[..n]) >= MaxFail;
  }

  /** A run that gives up has just seen `MaxFail` failures in a row. */
  lemma GaveUpAfterStreak(outcomes: seq<bool>)
    requires StopPoint(0, outcomes, 0) < |outcomes|
    ensures MaxFail <= StopPoint(0, outcomes, 0)
    ensures forall j :: StopPoint(0, outcomes, 0) - MaxFail <= j < StopPoint(0, outcomes, 0) ==> !outcomes[j]
  {
    var n := StopPoint(0, outcomes, 0);
    var done := outcomes[..n];
    var c := CountAfter(0, done);
    assert c >= MaxFail;
    CountIsTrailingFailures(0, done);
    forall j | n - MaxFail <= j < n
      ensures !outcomes[j]
    {
      assert done[j] == outcomes[j];
    }
  }

  /** The process that runs `main`, holding the module-level `FAIL_COUNT`. */
  class Runner {
    var failCount: nat

    constructor ()
      ensures failCount == 0
    {
      failCount := 0;
    }

    /**
     * `main`: `outcomes[id - 1]` says whether processing `id` succeeds. It
     * returns the ids it processed, in order, and whether it stopped on the
     * failure limit rather than at the end of the range.
     */
    method Run(outcomes: seq<bool>) returns (processed: seq<nat>, gaveUp: bool)
      requires |outcomes| == EndId - 1
      modifies this
      ensures |processed| == StopPoint(old(failCount), outcomes, 0)
      ensures forall i :: 0 <= i < |processed| ==> processed[i] == i + 1
      ensures failCount == CountAfter(old(failCount), outcomes[..|processed|])
      ensures gaveUp <==> |processed| < |outcomes|
    {
      ghost var start := failCount;
      processed, gaveUp := [], false;
      var id := 1;
      while id < EndId
        invariant 1 <= id <= EndId
        invariant |processed| == id - 1
        invariant forall i :: 0 <= i < |processed| ==> processed[i] == i + 1
        invariant failCount == CountAfter(start, outcomes[..id - 1])
        invariant StopPoint(start, outcomes, 0) == StopPoint(start, outcomes, id - 1)
      {
        if failCount >= MaxFail {
          gaveUp := true;
          return;
        }
        assert outcomes[..id][..id - 1] == outcomes[..id - 1];
        if outcomes[id - 1] {
          failCount := 0;
        } else {
          failCount := failCount + 1;
        }
        processed := processed + [id];
        id := id + 1;
      }
    }
  }
}
