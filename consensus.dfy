/** The cluster-wide decision: swarming is on if every agent has it on, off if every agent has it
    off, and a mixed configuration is an error. */
module Consensus {
  import opened Wrappers
  import opened Errors
  import opened GqiPage

  predicate AllEnabled(flags: seq<bool>)
  {
    forall i :: 0 <= i < |flags| ==> flags[i]
  }

  predicate AllDisabled(flags: seq<bool>)
  {
    forall i :: 0 <= i < |flags| ==> !flags[i]
  }

  /** The number of agents with swarming enabled (LINQ Count with the flag as predicate). */
  function CountEnabled(flags: seq<bool>): (n: nat)
    ensures n <= |flags|
  {
    if flags == [] then 0 else (if flags[0] then 1 else 0) + CountEnabled(flags[1..])
  }

  /** Every agent is counted exactly when every agent is enabled. */
  lemma {:induction false} CountEnabledAll(flags: seq<bool>)
    ensures CountEnabled(flags) == |flags| <==> AllEnabled(flags)
  {
    if flags != [] {
      CountEnabledAll(flags[1..]);
      assert forall i :: 1 <= i < |flags| ==> flags[i] == flags[1..][i - 1];
    }
  }

  /** No agent is counted exactly when every agent is disabled. */
  lemma {:induction false} CountEnabledNone(flags: seq<bool>)
    ensures CountEnabled(flags) == 0 <==> AllDisabled(flags)
  {
    if flags != [] {
      CountEnabledNone(flags[1..]);
      assert forall i :: 1 <= i < |flags| ==> flags[i] == flags[1..][i - 1];
    }
  }

  /** The all/none/mixed decision of GetNextPage on the flags of the agents' responses.
      On an empty list "all enabled" holds vacuously and the `true` page results. */
  function Decide(flags: seq<bool>): (r: Result<Page, Error>)
    ensures AllEnabled(flags) ==> r == Success(BoolToPage(true))
    ensures !AllEnabled(flags) && AllDisabled(flags) ==> r == Success(BoolToPage(false))
    ensures r.Failure? <==> !AllEnabled(flags) && !AllDisabled(flags)
    ensures r.Failure? ==> r.error == MixedConfig(CountEnabled(flags), |flags|)
    ensures r.Failure? ==> 0 < r.error.enabled < r.error.total
  {
    CountEnabledAll(flags);
    CountEnabledNone(flags);
    if AllEnabled(flags) then Success(BoolToPage(true))
    else if AllDisabled(flags) then Success(BoolToPage(false))
    else Failure(MixedConfig(CountEnabled(flags), |flags|))
  }

  /** The same decision stated through the enabled count alone: `true` when every agent is counted,
      `false` when none is, and otherwise the mixed error reporting the count over the total. */
  lemma DecideByCount(flags: seq<bool>)
    requires |flags| > 0
    ensures Decide(flags) ==
      if CountEnabled(flags) == |flags| then Success(BoolToPage(true))
      else if CountEnabled(flags) == 0 then Success(BoolToPage(false))
      else Failure(MixedConfig(CountEnabled(flags), |flags|))
  {
    CountEnabledAll(flags);
    CountEnabledNone(flags);
  }

  /** On a non-empty list exactly one of the three outcomes occurs: the `true` page,
      the `false` page, or the mixed-configuration error. */
  lemma ExactlyOneOutcome(flags: seq<bool>)
    requires |flags| > 0
    ensures var r := Decide(flags);
      var truePage, falsePage, mixed := r == Success(BoolToPage(true)), r == Success(BoolToPage(false)), r.Failure? && r.error.MixedConfig?;
      (truePage || falsePage || mixed) && !(truePage && falsePage) && !(truePage && mixed) && !(falsePage && mixed)
    ensures Decide(flags) == Success(BoolToPage(true)) <==> AllEnabled(flags)
    ensures Decide(flags) == Success(BoolToPage(false)) <==> AllDisabled(flags)
  {
    assert flags[0] || !flags[0];
    assert BoolToPage(true).rows[0].cells[0].value != BoolToPage(false).rows[0].cells[0].value;
  }
}
