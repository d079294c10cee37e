/** One bucket of the lock-free rolling counters, as atomic steps of any number of callers. */
module RollingRates {

  const WORD: nat := 0x1_0000_0000_0000_0000

  /** Where a caller of `Add` stands between two atomic operations. */
  datatype Place = Loading | Loaded(stamp: int) | AddingOps | ClearingBytes | ClearingOps | Stamping | Done

  /** The bucket's atomics, and the place of every caller. */
  datatype State = State(second: int, bytes: nat, ops: nat, places: seq<Place>)

  /** All callers add their own amounts for one second. */
  datatype Calls = Calls(second: int, amounts: seq<nat>)

  function Move(s: State, i: nat, place: Place): State
    requires i < |s.places|
  {
    s.(places := s.places[i := place])
  }

  /** Where a caller goes after reading a stamp. */
  function AfterLoad(c: Calls, stamp: int): Place {
    if stamp == c.second then Loaded(stamp) else if stamp < 0 then Loading else Loaded(stamp)
  }

  /** What caller `i` does next: one atomic operation, unless it is done. */
  ghost function Next(c: Calls, s: State, i: nat): State
    requires |s.places| == |c.amounts| && i < |s.places|
  {
    match s.places[i]
    case Loading => Move(s, i, AfterLoad(c, s.second))
    case Loaded(stamp) =>
      if stamp == c.second then Move(s, i, AddingOps).(bytes := (s.bytes + c.amounts[i]) % WORD)
      else if s.second == stamp then Move(s, i, ClearingBytes).(second := -c.second)
      else Move(s, i, Loading)
    case AddingOps => Move(s, i, Done).(ops := (s.ops + 1) % WORD)
    case ClearingBytes => Move(s, i, ClearingOps).(bytes := 0)
    case ClearingOps => Move(s, i, Stamping).(ops := 0)
    case Stamping => Move(s, i, Loading).(second := c.second)
    case Done => s
  }

  /** One atomic operation of caller `i`. */
  ghost predicate Step(c: Calls, s: State, n: State, i: nat)
    requires |s.places| == |c.amounts|
  {
    i < |s.places| && s.places[i] != Done && n == Next(c, s, i)
  }

  /** A bucket that still holds an older second, and callers that have just started. */
  ghost predicate Start(c: Calls, s: State) {
    && c.second > 0 && 0 <= s.second != c.second && |s.places| == |c.amounts|
    && forall i :: 0 <= i < |s.places| ==> s.places[i] == Loading
  }

  // ---- What every interleaving keeps ----

  predicate Clearing(p: Place) { p.ClearingBytes? || p.ClearingOps? || p.Stamping? }

  predicate Counting(c: Calls, p: Place) { p == Loaded(c.second) || p == AddingOps || p == Done }

  /** Bytes that the callers have already added. */
  function AddedBytes(c: Calls, places: seq<Place>, n: nat): nat
    requires n <= |places| && |places| == |c.amounts|
  {
    if n == 0 then 0
    else
      AddedBytes(c, places, n - 1)
      + if places[n - 1] == AddingOps || places[n - 1] == Done then c.amounts[n - 1] else 0
  }

  function AddedOps(places: seq<Place>, n: nat): nat
    requires n <= |places|
  {
    if n == 0 then 0 else AddedOps(places, n - 1) + if places[n - 1] == Done then 1 else 0
  }

  function Sum(amounts: seq<nat>, n: nat): nat
    requires n <= |amounts|
  {
    if n == 0 then 0 else Sum(amounts, n - 1) + amounts[n - 1]
  }

  /** Old: nobody resets or counts. Resetting: exactly one caller clears. Current: the counters are exact. */
  ghost predicate Invariant(c: Calls, s: State) {
    && c.second > 0 && |s.places| == |c.amounts|
    && (s.second == c.second || s.second == -c.second || 0 <= s.second)
    && (s.second == c.second ==>
        (forall i :: 0 <= i < |s.places| ==> !Clearing(s.places[i]))
        && s.bytes == AddedBytes(c, s.places, |s.places|) % WORD && s.ops == AddedOps(s.places, |s.places|) % WORD)
    && (s.second == -c.second ==>
        (exists i :: 0 <= i < |s.places| && Clearing(s.places[i]))
        && (forall i, j :: 0 <= i < j < |s.places| ==> !(Clearing(s.places[i]) && Clearing(s.places[j])))
        && (forall i :: 0 <= i < |s.places| ==> !Counting(c, s.places[i]))
        && (forall i :: 0 <= i < |s.places| ==> (s.places[i].ClearingOps? || s.places[i].Stamping? ==> s.bytes == 0))
        && (forall i :: 0 <= i < |s.places| ==> (s.places[i].Stamping? ==> s.ops == 0)))
    && (s.second != c.second && s.second != -c.second ==>
        forall i :: 0 <= i < |s.places| ==> !Clearing(s.places[i]) && !Counting(c, s.places[i]))
    && (forall i :: 0 <= i < |s.places| ==> s.places[i].Loaded? ==> s.places[i].stamp >= 0)
  }

  lemma StartHolds(c: Calls, s: State)
    requires Start(c, s)
    ensures Invariant(c, s)
  {
  }

  lemma {:induction false} BytesMove(c: Calls, places: seq<Place>, i: nat, place: Place, n: nat)
    requires |places| == |c.amounts| && i < |places| && n <= |places|
    ensures AddedBytes(c, places[i := place], n) == AddedBytes(c, places, n)
      + (if i < n && (place == AddingOps || place == Done) then c.amounts[i] else 0)
      - (if i < n && (places[i] == AddingOps || places[i] == Done) then c.amounts[i] else 0)
  {
    if n > 0 {
      BytesMove(c, places, i, place, n - 1);
    }
  }

  lemma {:induction false} OpsMove(places: seq<Place>, i: nat, place: Place, n: nat)
    requires i < |places| && n <= |places|
    ensures AddedOps(places[i := place], n) == AddedOps(places, n)
      + (if i < n && place == Done then 1 else 0) - (if i < n && places[i] == Done then 1 else 0)
  {
    if n > 0 {
      OpsMove(places, i, place, n - 1);
    }
  }

  lemma {:induction false} NothingAdded(c: Calls, places: seq<Place>, n: nat)
    requires |places| == |c.amounts| && n <= |places| && forall i :: 0 <= i < |places| ==> !Counting(c, places[i])
    ensures AddedBytes(c, places, n) == 0 && AddedOps(places, n) == 0
  {
    if n > 0 {
      NothingAdded(c, places, n - 1);
      assert !Counting(c, places[n - 1]);
    }
  }

  lemma AddModulo(a: nat, b: nat)
    ensures (a % WORD + b) % WORD == (a + b) % WORD
  {
  }

  /** Reading the stamp, or losing the compare-and-swap, changes nothing that is shared. */
  lemma ReadStep(c: Calls, s: State, n: State, i: nat)
    requires Invariant(c, s) && Step(c, s, n, i) && n.second == s.second
    requires s.places[i].Loading? || (s.places[i].Loaded? && s.places[i].stamp != c.second && n.places[i].Loading?)
    ensures Invariant(c, n)
  {
    BytesMove(c, s.places, i, n.places[i], |s.places|);
    OpsMove(s.places, i, n.places[i], |s.places|);
    if s.second == -c.second {
      var k :| 0 <= k < |s.places| && Clearing(s.places[k]);
      assert Clearing(n.places[k]);
    }
  }

  /** The one caller whose swap succeeds becomes the one that clears. */
  lemma SwapStep(c: Calls, s: State, n: State, i: nat)
    requires Invariant(c, s) && Step(c, s, n, i) && s.places[i].Loaded? && s.places[i].stamp != c.second
    requires n.places[i].ClearingBytes?
    ensures Invariant(c, n)
  {
    assert Clearing(n.places[i]);
  }

  /** Counting happens only in the current second. */
  lemma CountStep(c: Calls, s: State, n: State, i: nat)
    requires Invariant(c, s) && Step(c, s, n, i) && (s.places[i] == Loaded(c.second) || s.places[i].AddingOps?)
    ensures Invariant(c, n)
  {
    assert Counting(c, s.places[i]);
    BytesMove(c, s.places, i, n.places[i], |s.places|);
    OpsMove(s.places, i, n.places[i], |s.places|);
    AddModulo(AddedBytes(c, s.places, |s.places|), c.amounts[i]);
    AddModulo(AddedOps(s.places, |s.places|), 1);
  }

  lemma ClearStep(c: Calls, s: State, n: State, i: nat)
    requires Invariant(c, s) && Step(c, s, n, i) && (s.places[i].ClearingBytes? || s.places[i].ClearingOps?)
    ensures Invariant(c, n)
  {
    assert Clearing(s.places[i]) && Clearing(n.places[i]);
  }

  /** Publishing the new second starts the exact count at zero. */
  lemma StampStep(c: Calls, s: State, n: State, i: nat)
    requires Invariant(c, s) && Step(c, s, n, i) && s.places[i].Stamping?
    ensures Invariant(c, n)
  {
    assert Clearing(s.places[i]);
    NothingAdded(c, s.places, |s.places|);
    BytesMove(c, s.places, i, n.places[i], |s.places|);
    OpsMove(s.places, i, n.places[i], |s.places|);
    forall j | 0 <= j < |n.places| ensures !Clearing(n.places[j]) {
      if j != i {
        assert !(Clearing(s.places[i]) && Clearing(s.places[j]));
      }
    }
  }

  /** No interleaving of atomic steps breaks the invariant. */
  lemma StepKeepsInvariant(c: Calls, s: State, n: State, i: nat)
    requires Invariant(c, s) && Step(c, s, n, i)
    ensures Invariant(c, n)
  {
    match s.places[i]
    case Loading => ReadStep(c, s, n, i);
    case Loaded(stamp) =>
      if stamp == c.second {
        CountStep(c, s, n, i);
      } else if s.second == stamp {
        SwapStep(c, s, n, i);
      } else {
        ReadStep(c, s, n, i);
      }
    case AddingOps => CountStep(c, s, n, i);
    case ClearingBytes => ClearStep(c, s, n, i);
    case ClearingOps => ClearStep(c, s, n, i);
    case Stamping => StampStep(c, s, n, i);
  }

  // ---- Runs ----

  /** A run: each state follows from the one before by one atomic step of some caller. */
  ghost predicate Run(c: Calls, states: seq<State>) {
    && states != [] && Start(c, states[0])
    && (forall k :: 0 <= k < |states| ==> |states[k].places| == |c.amounts|)
    && forall k :: 0 < k < |states| ==> Steps(c, states[k - 1], states[k])
  }

  ghost predicate Steps(c: Calls, s: State, n: State)
    requires |s.places| == |c.amounts|
  {
    exists i :: Step(c, s, n, i)
  }

  lemma {:induction false} RunKeepsInvariant(c: Calls, states: seq<State>, k: nat)
    requires Run(c, states) && k < |states|
    ensures Invariant(c, states[k])
  {
    if k == 0 {
      StartHolds(c, states[0]);
    } else {
      RunKeepsInvariant(c, states, k - 1);
      assert Steps(c, states[k - 1], states[k]);
      var i: nat :| Step(c, states[k - 1], states[k], i);
      StepKeepsInvariant(c, states[k - 1], states[k], i);
    }
  }

  lemma {:induction false} AllAdded(c: Calls, places: seq<Place>, n: nat)
    requires |places| == |c.amounts| && n <= |places| && forall i :: 0 <= i < |places| ==> places[i] == Done
    ensures AddedBytes(c, places, n) == Sum(c.amounts, n) && AddedOps(places, n) == n
  {
    if n > 0 {
      AllAdded(c, places, n - 1);
    }
  }

  /** Whatever the interleaving, once every caller is done the bucket holds the second, every call and every byte. */
  lemma NoSampleLost(c: Calls, states: seq<State>)
    requires Run(c, states) && c.amounts != [] && AllDone(states[|states| - 1])
    ensures var last := states[|states| - 1];
      && last.second == c.second && last.ops == |c.amounts| % WORD && last.bytes == Sum(c.amounts, |c.amounts|) % WORD
  {
    var last := states[|states| - 1];
    RunKeepsInvariant(c, states, |states| - 1);
    AllAdded(c, last.places, |last.places|);
    assert Counting(c, last.places[0]);
  }

  // ---- Nobody waits for ever ----

  /** An old bucket must still be taken, a claimed one still be published. */
  function Phase(c: Calls, second: int): nat {
    if second == c.second then 0 else if second == -c.second then 1 else 2
  }

  /** How far a caller is from being done; a stale stamp is worse than none. */
  function Distance(second: int, p: Place): nat {
    match p
    case Loaded(stamp) => if stamp == second then 9 else 11
    case Loading => 10
    case ClearingBytes => 8
    case ClearingOps => 7
    case Stamping => 6
    case AddingOps => 5
    case Done => 0
  }

  function Distances(second: int, places: seq<Place>, n: nat): nat
    requires n <= |places|
  {
    if n == 0 then 0 else Distances(second, places, n - 1) + Distance(second, places[n - 1])
  }

  lemma {:induction false} DistancesMove(second: int, places: seq<Place>, i: nat, place: Place, n: nat)
    requires i < |places| && n <= |places|
    ensures Distances(second, places[i := place], n) == Distances(second, places, n)
      + if i < n then Distance(second, place) - Distance(second, places[i]) else 0
  {
    if n > 0 {
      DistancesMove(second, places, i, place, n - 1);
    }
  }

  ghost predicate Closer(c: Calls, s: State, n: State) {
    Phase(c, n.second) < Phase(c, s.second) ||
    (n.second == s.second && Distances(n.second, n.places, |n.places|) < Distances(s.second, s.places, |s.places|))
  }

  /** While somebody is not done, some caller has a step that brings the whole bucket closer to completion. */
  lemma SomebodyAdvances(c: Calls, s: State, waiting: nat) returns (i: nat)
    requires Invariant(c, s) && waiting < |s.places| && s.places[waiting] != Done
    ensures i < |s.places| && Step(c, s, Next(c, s, i), i) && Closer(c, s, Next(c, s, i))
  {
    if s.second == -c.second {
      var k :| 0 <= k < |s.places| && Clearing(s.places[k]);
      i := k;
    } else {
      i := waiting;
      assert !Clearing(s.places[i]);
    }
    var n := Next(c, s, i);
    DistancesMove(s.second, s.places, i, n.places[i], |s.places|);
  }

  ghost predicate AllDone(s: State) {
    forall i :: 0 <= i < |s.places| ==> s.places[i] == Done
  }

  /** From every state that a run can reach, some continuation finishes every call. */
  lemma CanFinish(c: Calls, s: State) returns (states: seq<State>)
    requires Invariant(c, s)
    ensures states != [] && states[0] == s && AllDone(states[|states| - 1])
    ensures forall k :: 0 <= k < |states| ==> |states[k].places| == |c.amounts|
    ensures forall k :: 0 < k < |states| ==> Steps(c, states[k - 1], states[k])
    decreases Phase(c, s.second), Distances(s.second, s.places, |s.places|)
  {
    if AllDone(s) {
      states := [s];
    } else {
      var waiting :| 0 <= waiting < |s.places| && s.places[waiting] != Done;
      var i := SomebodyAdvances(c, s, waiting);
      var n := Next(c, s, i);
      StepKeepsInvariant(c, s, n, i);
      var rest := CanFinish(c, n);
      states := [s] + rest;
      assert Steps(c, s, n);
      forall k | 0 < k < |states| ensures Steps(c, states[k - 1], states[k]) {
        if k > 1 {
          assert Steps(c, rest[k - 2], rest[k - 1]);
        }
      }
    }
  }
}
