/** The prior-context budget: which of a session's earlier turns are shown in full, given what each
    one costs (service.py `_within_token_budget`). */
module TokenBudget {

  const PRIOR_CHAR_BUDGET := 8000 * 4
  const PRIOR_TURN_CEILING := 20

  function Sum(costs: seq<nat>): nat {
    if costs == [] then 0 else costs[0] + Sum(costs[1..])
  }

  /** One turn always fits; several must fit together. */
  predicate Fits(costs: seq<nat>) {
    |costs| <= 1 || Sum(costs) <= PRIOR_CHAR_BUDGET
  }

  predicate FitsFrom(costs: seq<nat>, j: nat)
    requires j <= |costs|
  {
    Fits(costs[j..])
  }

  /** Start of the longest suffix that fits. */
  function KeepFrom(costs: seq<nat>): (k: nat)
    ensures k <= |costs| && FitsFrom(costs, k)
    ensures forall j | 0 <= j < k :: !FitsFrom(costs, j)
  {
    LeastFitting(costs, |costs|)
  }

  function LeastFitting(costs: seq<nat>, above: nat): (k: nat)
    requires above <= |costs| && FitsFrom(costs, above)
    ensures k <= above && FitsFrom(costs, k)
    ensures forall j | 0 <= j < k :: !FitsFrom(costs, j)
  {
    if above == 0 then 0
    else if FitsFrom(costs, above - 1) then LeastFitting(costs, above - 1)
    else
      assert forall j | 0 <= j < above :: !FitsFrom(costs, j) by {
        forall j | 0 <= j < above ensures !FitsFrom(costs, j) {
          if FitsFrom(costs, j) { ShorterFits(costs, j, above - 1); }
        }
      }
      above
  }

  lemma {:induction false} SumSplit(a: seq<nat>, b: seq<nat>)
    ensures Sum(a + b) == Sum(a) + Sum(b)
  {
    if a == [] {
      assert a + b == b;
    } else {
      assert (a + b)[1..] == a[1..] + b;
      SumSplit(a[1..], b);
    }
  }

  /** A suffix of a fitting suffix fits. */
  lemma ShorterFits(costs: seq<nat>, i: nat, j: nat)
    requires i <= j <= |costs| && FitsFrom(costs, i)
    ensures FitsFrom(costs, j)
  {
    assert costs[i..] == costs[i..j] + costs[j..];
    SumSplit(costs[i..j], costs[j..]);
  }

  /** Index of the first turn shown in full: the fitting suffix of the last `PRIOR_TURN_CEILING`. */
  function ShownFrom(costs: seq<nat>): (k: nat)
    ensures k <= |costs| && |costs| - k <= PRIOR_TURN_CEILING && FitsFrom(costs, k)
  {
    var start := if |costs| <= PRIOR_TURN_CEILING then 0 else |costs| - PRIOR_TURN_CEILING;
    var k := KeepFrom(costs[start..]);
    assert costs[start..][k..] == costs[start + k..];
    assert FitsFrom(costs[start..], k);
    start + k
  }

  /** It is the least index inside the window whose suffix fits. */
  lemma ShownFromLeast(costs: seq<nat>, j: nat)
    requires j <= |costs| && |costs| - j <= PRIOR_TURN_CEILING && FitsFrom(costs, j)
    ensures ShownFrom(costs) <= j
  {
    var start := if |costs| <= PRIOR_TURN_CEILING then 0 else |costs| - PRIOR_TURN_CEILING;
    assert costs[start..][j - start..] == costs[j..];
    assert FitsFrom(costs[start..], j - start);
  }

  /** A turn once out of the shown suffix never comes back: a further turn only pushes the cut on. */
  lemma CutMovesForward(costs: seq<nat>, next: nat)
    ensures ShownFrom(costs) <= ShownFrom(costs + [next])
  {
    var k' := ShownFrom(costs + [next]);
    if k' < |costs| {
      assert (costs + [next])[k'..] == costs[k'..] + [next];
      SumSplit(costs[k'..], [next]);
      ShownFromLeast(costs, k');
    }
  }
}
