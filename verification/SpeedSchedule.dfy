/** Interleaved speed calls and their runner: src/jaull/advisor/quality_candidates.py. */
module SpeedSchedule {
  import opened Common

  const SPEED_MIN_CALLS: nat := 3
  const MAX_QUALITY_CANDIDATES: nat := 3

  /** Calls still missing for a comparable range; one more when there are enough. */
  function CallsNeeded(have: nat): nat {
    if have + 1 < SPEED_MIN_CALLS then SPEED_MIN_CALLS - have else 1
  }

  /** needed[i] calls for candidate i; candidates are named by their position. */
  function NeededOf(have: seq<nat>): seq<nat> {
    seq(|have|, i requires 0 <= i < |have| => CallsNeeded(have[i]))
  }

  function MaxOf(counts: seq<nat>): nat {
    if counts == [] then 0
    else
      var rest := MaxOf(counts[..|counts| - 1]);
      if rest < counts[|counts| - 1] then counts[|counts| - 1] else rest
  }

  /** Round r, up to candidate i: one call for each candidate that still needs more than r. */
  function Round(needed: seq<nat>, r: nat, i: nat): seq<nat>
    requires i <= |needed|
    decreases i
  {
    if i == 0 then []
    else Round(needed, r, i - 1) + (if needed[i - 1] > r then [i - 1] else [])
  }

  /** A round goes through the candidates in order, and calls exactly those that still need one. */
  lemma {:induction false} RoundGoesInOrder(needed: seq<nat>, r: nat, i: nat)
    requires i <= |needed|
    ensures forall x, y :: 0 <= x < y < |Round(needed, r, i)| ==> Round(needed, r, i)[x] < Round(needed, r, i)[y]
    ensures forall c: nat :: c in Round(needed, r, i) <==> c < i && needed[c] > r
    decreases i
  {
    if i > 0 {
      RoundGoesInOrder(needed, r, i - 1);
      var before := Round(needed, r, i - 1);
      forall x | 0 <= x < |before| ensures before[x] < i - 1 {
        assert before[x] in before;
      }
    }
  }

  function Rounds(needed: seq<nat>, r: nat): seq<nat>
    decreases r
  {
    if r == 0 then [] else Rounds(needed, r - 1) + Round(needed, r - 1, |needed|)
  }

  function Schedule(needed: seq<nat>): seq<nat> { Rounds(needed, MaxOf(needed)) }

  // ---------------------------------------------------------------- counts

  /** How often c is called. */
  function Count(calls: seq<nat>, c: nat): nat {
    if calls == [] then 0
    else Count(calls[..|calls| - 1], c) + (if calls[|calls| - 1] == c then 1 else 0)
  }

  lemma {:induction false} CountAppend(a: seq<nat>, b: seq<nat>, c: nat)
    ensures Count(a + b, c) == Count(a, c) + Count(b, c)
  {
    if b == [] {
      assert a + b == a;
    } else {
      CountAppend(a, b[..|b| - 1], c);
      assert (a + b)[..|a + b| - 1] == a + b[..|b| - 1];
    }
  }

  lemma {:induction false} MaxIsMax(counts: seq<nat>)
    ensures forall i :: 0 <= i < |counts| ==> counts[i] <= MaxOf(counts)
  {
    if counts != [] {
      MaxIsMax(counts[..|counts| - 1]);
    }
  }

  lemma OneMoreCall(calls: seq<nat>, called: bool, i: nat, c: nat)
    ensures Count(calls + (if called then [i] else []), c) == Count(calls, c) + (if called && i == c then 1 else 0)
  {
    if called {
      assert (calls + [i])[..|calls|] == calls;
    } else {
      assert calls + [] == calls;
    }
  }

  lemma {:induction false} RoundCounts(needed: seq<nat>, r: nat, i: nat, c: nat)
    requires i <= |needed|
    ensures Count(Round(needed, r, i), c) == (if c < i && needed[c] > r then 1 else 0)
    decreases i
  {
    if i > 0 {
      var before := Round(needed, r, i - 1);
      RoundCounts(needed, r, i - 1, c);
      OneMoreCall(before, needed[i - 1] > r, i - 1, c);
      assert Round(needed, r, i) == before + (if needed[i - 1] > r then [i - 1] else []);
    }
  }

  /** With part of round r, candidate c has the calls of the earlier rounds and perhaps one more. */
  lemma CountsWithin(needed: seq<nat>, calls: seq<nat>, r: nat, i: nat, c: nat)
    requires i <= |needed| && c < |needed|
    requires Count(calls, c) == Least(needed[c], r)
    ensures Count(calls + Round(needed, r, i), c) == Least(needed[c], if c < i then r + 1 else r)
  {
    RoundCounts(needed, r, i, c);
    CountAppend(calls, Round(needed, r, i), c);
  }

  /** Whatever each whole round keeps, the rounds keep. */
  lemma {:induction false} RoundsInduction(needed: seq<nat>, rounds: nat, keeps: (nat, seq<nat>) -> bool)
    requires keeps(0, [])
    requires forall r: nat, calls :: keeps(r, calls) ==> keeps(r + 1, calls + Round(needed, r, |needed|))
    ensures keeps(rounds, Rounds(needed, rounds))
  {
    if rounds > 0 {
      RoundsInduction(needed, rounds - 1, keeps);
    }
  }

  lemma RoundsCounts(needed: seq<nat>, rounds: nat, c: nat)
    requires c < |needed|
    ensures Count(Rounds(needed, rounds), c) == Least(needed[c], rounds)
  {
    var keeps := (r: nat, calls: seq<nat>) => Count(calls, c) == Least(needed[c], r);
    forall r: nat, calls | keeps(r, calls) ensures keeps(r + 1, calls + Round(needed, r, |needed|)) {
      CountsWithin(needed, calls, r, |needed|, c);
    }
    RoundsInduction(needed, rounds, keeps);
  }

  predicate Below(calls: seq<nat>, n: nat) { forall i :: 0 <= i < |calls| ==> calls[i] < n }

  lemma {:induction false} RoundIsBelow(needed: seq<nat>, r: nat, i: nat)
    requires i <= |needed|
    ensures Below(Round(needed, r, i), i)
    decreases i
  {
    if i > 0 {
      RoundIsBelow(needed, r, i - 1);
    }
  }

  lemma RoundsAreBelow(needed: seq<nat>, rounds: nat)
    ensures Below(Rounds(needed, rounds), |needed|)
  {
    var keeps := (r: nat, calls: seq<nat>) => Below(calls, |needed|);
    forall r: nat, calls | keeps(r, calls) ensures keeps(r + 1, calls + Round(needed, r, |needed|)) {
      RoundIsBelow(needed, r, |needed|);
    }
    RoundsInduction(needed, rounds, keeps);
  }

  /** Where a prefix of the schedule stops: inside round r, after candidate i. */
  lemma {:induction false} RoundPrefix(needed: seq<nat>, r: nat, n: nat, k: nat) returns (i: nat)
    requires n <= |needed| && k <= |Round(needed, r, n)|
    ensures i <= n && Round(needed, r, n)[..k] == Round(needed, r, i)
    decreases n
  {
    if k == |Round(needed, r, n)| {
      i := n;
    } else {
      i := RoundPrefix(needed, r, n - 1, k);
    }
  }

  lemma {:induction false} RoundsPrefix(needed: seq<nat>, rounds: nat, k: nat) returns (r: nat, i: nat)
    requires k <= |Rounds(needed, rounds)|
    ensures i <= |needed| && Rounds(needed, rounds)[..k] == Rounds(needed, r) + Round(needed, r, i)
    decreases rounds
  {
    if rounds == 0 {
      r, i := 0, 0;
    } else {
      var before := Rounds(needed, rounds - 1);
      if k <= |before| {
        r, i := RoundsPrefix(needed, rounds - 1, k);
        assert Rounds(needed, rounds)[..k] == before[..k];
      } else {
        r := rounds - 1;
        i := RoundPrefix(needed, r, |needed|, k - |before|);
        assert Rounds(needed, rounds)[..k] == before + Round(needed, r, |needed|)[..k - |before|];
      }
    }
  }

  /** Nobody gets a second call more than anybody who still needs one: in every prefix, candidate b has all
      its calls or at most one fewer than candidate a. */
  lemma EveryPrefixIsFair(needed: seq<nat>, k: nat, a: nat, b: nat)
    requires k <= |Schedule(needed)| && a < |needed| && b < |needed|
    ensures Count(Schedule(needed)[..k], b) >= Least(needed[b], Count(Schedule(needed)[..k], a) - 1)
    ensures Count(Schedule(needed)[..k], b) <= needed[b]
  {
    var r, i := RoundsPrefix(needed, MaxOf(needed), k);
    RoundsCounts(needed, r, a);
    CountsWithin(needed, Rounds(needed, r), r, i, a);
    RoundsCounts(needed, r, b);
    CountsWithin(needed, Rounds(needed, r), r, i, b);
    RoundsAreFair(needed[a], needed[b], if a < i then r + 1 else r, if b < i then r + 1 else r);
  }

  lemma RoundsAreFair(needA: nat, needB: nat, roundsA: nat, roundsB: nat)
    requires roundsA <= roundsB + 1
    ensures Least(needB, Least(needA, roundsA) - 1) <= Least(needB, roundsB) <= needB
  {
  }

  /** Every candidate gets exactly the calls it needs, and with them enough to be compared. */
  lemma ScheduleIsExact(have: seq<nat>, c: nat)
    requires c < |have|
    ensures
      var needed := NeededOf(have);
      && Count(Schedule(needed), c) == needed[c] >= 1
      && have[c] + needed[c] >= SPEED_MIN_CALLS
      && (needed[c] == 1 || have[c] + needed[c] == SPEED_MIN_CALLS)
      && forall x :: x in Schedule(needed) ==> x < |have|
  {
    var needed := NeededOf(have);
    MaxIsMax(needed);
    RoundsCounts(needed, MaxOf(needed), c);
    RoundsAreBelow(needed, MaxOf(needed));
  }

  // ---------------------------------------------------------------- the runner

  /** What one benchmark call does; cancelled before it starts, cancelled while it runs, an expected error,
      or a record that says whether the measurement succeeded, and perhaps why not. */
  datatype Call =
    | CancelledBefore
    | CancelledDuring
    | Raised(error: string)
    | Recorded(path: string, success: bool, message: string)

  /** One per call that was made: where its record is stored, or why there is none to use. */
  datatype Outcome = Outcome(candidate: nat, path: Option<string>, error: Option<string>)

  function OutcomeOf(candidate: nat, call: Call): Outcome
    requires !call.CancelledBefore?
  {
    match call
    case CancelledDuring => Outcome(candidate, None, Some("Cancelled"))
    case Raised(error) => Outcome(candidate, None, Some(error))
    case Recorded(path, success, message) =>
      if success then Outcome(candidate, Some(path), None)
      else Outcome(candidate, None, Some(if message != "" then message else "llama-bench failed"))
  }

  /** A path exactly for a successful measurement, an error exactly for any other call, and each its own. */
  ghost predicate Reports(o: Outcome, candidate: nat, call: Call) {
    && o.candidate == candidate
    && (o.path.Some? <==> call.Recorded? && call.success)
    && (o.error.Some? <==> o.path.None?)
    && (o.path.Some? ==> o.path.value == call.path)
    && (call.CancelledDuring? ==> o.error == Some("Cancelled"))
    && (call.Raised? ==> o.error == Some(call.error))
    && (call.Recorded? && !call.success && call.message != "" ==> o.error == Some(call.message))
    && (call.Recorded? && !call.success && call.message == "" ==> o.error == Some("llama-bench failed"))
  }

  /** The outcomes are one for one the first calls of the schedule; only a cancellation cuts them short, and
      nothing follows a call that was cancelled. */
  ghost predicate FollowsSchedule(outcomes: seq<Outcome>, schedule: seq<nat>, calls: nat -> Call) {
    && |outcomes| <= |schedule|
    && (forall i :: 0 <= i < |outcomes| ==> !calls(i).CancelledBefore? && Reports(outcomes[i], schedule[i], calls(i)))
    && (forall i :: 0 <= i < |outcomes| - 1 ==> !calls(i).CancelledDuring?)
    && (|outcomes| < |schedule| ==>
          calls(|outcomes|).CancelledBefore? || (outcomes != [] && calls(|outcomes| - 1).CancelledDuring?))
  }

  method RunSpeedCandidates(have: seq<nat>, calls: nat -> Call) returns (r: Result<seq<Outcome>, string>)
    ensures r.Ok? <==> 1 <= |have| <= MAX_QUALITY_CANDIDATES
    ensures r.Ok? ==> FollowsSchedule(r.value, Schedule(NeededOf(have)), calls)
  {
    if !(1 <= |have| <= MAX_QUALITY_CANDIDATES) {
      return Err("Select between one and three evaluation candidates.");
    }
    var schedule := Schedule(NeededOf(have));
    var outcomes: seq<Outcome> := [];
    for index := 0 to |schedule|
      invariant |outcomes| == index
      invariant forall i :: 0 <= i < index ==>
                  !calls(i).CancelledBefore? && !calls(i).CancelledDuring?
                  && Reports(outcomes[i], schedule[i], calls(i))
    {
      var call := calls(index);
      if call.CancelledBefore? {
        break;
      }
      outcomes := outcomes + [OutcomeOf(schedule[index], call)];
      if call.CancelledDuring? {
        break;
      }
    }
    r := Ok(outcomes);
  }

  function CandidatesOf(outcomes: seq<Outcome>): seq<nat> {
    seq(|outcomes|, i requires 0 <= i < |outcomes| => outcomes[i].candidate)
  }

  /** However a session fails or is cancelled, the calls it made are spread as fairly as the schedule. */
  lemma EverySessionIsFair(have: seq<nat>, outcomes: seq<Outcome>, calls: nat -> Call, a: nat, b: nat)
    requires FollowsSchedule(outcomes, Schedule(NeededOf(have)), calls) && a < |have| && b < |have|
    ensures
      var made := CandidatesOf(outcomes);
      Least(NeededOf(have)[b], Count(made, a) - 1) <= Count(made, b) <= NeededOf(have)[b]
  {
    var schedule := Schedule(NeededOf(have));
    assert CandidatesOf(outcomes) == schedule[..|outcomes|];
    EveryPrefixIsFair(NeededOf(have), |outcomes|, a, b);
  }
}
