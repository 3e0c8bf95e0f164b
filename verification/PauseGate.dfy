/**
  The pause gate of the vCPU group. `CpuGroup` holds what the mutex and the atomics
  protect, one method per critical section. The protocol is the set of all
  interleavings of those sections by one coordinator and any number of vCPU threads.
 */
module PauseGate {
  import opened Options

  type CpuState = seq<nat>

  datatype Capture = Saved(state: CpuState) | Refused

  datatype Shared = Shared(requested: bool, parked: int, states: seq<Option<Capture>>, flag: bool, stopped: bool)

  /** What a pause returns: the states, the first failed capture, or a thread that left none. */
  datatype Outcome = Captured(states: seq<CpuState>) | CaptureFailed | Missing

  function Gathered(states: seq<Option<Capture>>): Outcome {
    if states == [] then Captured([])
    else
      match Gathered(states[..|states| - 1])
      case Captured(before) =>
        (match states[|states| - 1]
         case None => Missing
         case Some(Refused) => CaptureFailed
         case Some(Saved(s)) => Captured(before + [s]))
      case failed => failed
  }

  // ---- the critical sections on the shared state -----------------------------------

  function Begun(s: Shared): Shared {
    s.(requested := true, flag := true, states := seq(|s.states|, _ => None))
  }

  function Entered(s: Shared, i: nat, c: Capture): Shared
    requires i < |s.states|
  {
    s.(states := s.states[i := Some(c)], parked := s.parked + 1)
  }

  class CpuGroup {
    var requested: bool
    var parked: int
    var states: array<Option<Capture>>
    var flag: bool
    var stopped: bool

    constructor (cpus: nat)
      ensures View() == Shared(false, 0, seq(cpus, _ => None), false, false) && fresh(states)
    {
      requested, parked, flag, stopped := false, 0, false, false;
      states := new Option<Capture>[cpus](_ => None);
    }

    ghost function View(): Shared
      reads this, states
    {
      Shared(requested, parked, states[..], flag, stopped)
    }

    /** The body of `pause` up to its wait: nothing happens while an old gate is occupied. */
    method Begin() returns (begun: bool)
      modifies this, states
      ensures states == old(states)
      ensures begun == (old(parked) == 0)
      ensures View() == if begun then Begun(old(View())) else old(View())
    {
      begun := parked == 0;
      if begun {
        for i := 0 to states.Length
          invariant requested == old(requested) && parked == old(parked)
          invariant flag == old(flag) && stopped == old(stopped) && states == old(states)
          invariant states[..i] == seq(i, _ => None)
        {
          states[i] := None;
        }
        requested := true;
        flag := true;
      }
    }

    /** One look of the waiting `pause`: everyone is in, or not yet. */
    method Gather() returns (all: bool, outcome: Outcome)
      ensures all == (parked == states.Length)
      ensures all ==> outcome == Gathered(states[..])
    {
      all, outcome := parked == states.Length, Missing;
      if all {
        var found: seq<CpuState> := [];
        for i := 0 to states.Length
          invariant Gathered(states[..i]) == Captured(found)
        {
          assert states[..i + 1][..i] == states[..i];
          match states[i] {
            case None => FirstFailure(states[..], i + 1); return all, Missing;
            case Some(Refused) => FirstFailure(states[..], i + 1); return all, CaptureFailed;
            case Some(Saved(state)) => found := found + [state];
          }
        }
        assert states[..] == states[..states.Length];
        outcome := Captured(found);
      }
    }

    method LowerFlag()
      modifies `flag
      ensures View() == old(View()).(flag := false)
    {
      flag := false;
    }

    method Withdraw()
      modifies `requested
      ensures View() == old(View()).(requested := false)
    {
      requested := false;
    }

    /** `checkpoint` under the lock: a vCPU records itself and waits, unless the request is gone. */
    method Enter(index: nat, capture: Capture) returns (waiting: bool)
      requires index < states.Length
      modifies `parked, states
      ensures waiting == old(requested)
      ensures View() == if waiting then Entered(old(View()), index, capture) else old(View())
    {
      waiting := requested;
      if waiting {
        states[index] := Some(capture);
        parked := parked + 1;
      }
    }

    /** A waiting vCPU wakes: it leaves once the request is gone or the group stops. */
    method Wake() returns (left: bool)
      modifies `parked
      ensures left == (!old(requested) || old(stopped))
      ensures View() == if left then old(View()).(parked := old(parked) - 1) else old(View())
    {
      left := !(requested && !stopped);
      if left {
        parked := parked - 1;
      }
    }

    method Stop()
      modifies `stopped
      ensures View() == old(View()).(stopped := true)
    {
      stopped := true;
    }
  }

  /** The first failure of a prefix is the failure of the whole. */
  lemma {:induction false} FirstFailure(states: seq<Option<Capture>>, n: nat)
    requires n <= |states| && !Gathered(states[..n]).Captured?
    ensures Gathered(states) == Gathered(states[..n])
    decreases |states|
  {
    if n == |states| {
      assert states[..n] == states;
    } else {
      var front := states[..|states| - 1];
      assert front[..n] == states[..n];
      FirstFailure(front, n);
    }
  }

  // ---- threads ----------------------------------------------------------------------

  /** Where a vCPU thread is: about to read the flag, past it but not under the lock, waiting
      in the gate, out of the gate but not past the stop test, past it, failed, or gone. */
  datatype Place = Top | Knocking | Parked | Leaving | Guest | Failing | Gone

  datatype Coordinator = Idle | Retiring | Gathering | Lifting

  datatype System = System(shared: Shared, coordinator: Coordinator, places: seq<Place>, live: seq<CpuState>)

  datatype Action =
    | CallPause                  // enter `pause`
    | BeginPause                 // the old gate is empty: clear, request, raise the flag
    | GiveUp                     // the deadline passed, or the group stops
    | Collect                    // everyone is parked: return
    | CallResume                 // enter `resume`: the flag goes down first
    | Lift                       // then the request, under the lock
    | ReadFlag(cpu: nat)         // `checkpoint` reads the flag
    | Enter(cpu: nat, saved: bool)
    | Wake(cpu: nat)
    | TestStop(cpu: nat)
    | RunGuest(cpu: nat, next: CpuState)
    | Exit(cpu: nat)             // back to the top of the loop
    | PowerOff(cpu: nat)         // the guest asked the whole system off
    | Crash(cpu: nat)            // an error or a panic outside the gate
    | Report(cpu: nat)           // `fail` after it
    | Stop                       // from outside, at any time

  function Start(live: seq<CpuState>): System {
    System(Shared(false, 0, seq(|live|, _ => None), false, false), Idle, seq(|live|, _ => Guest), live)
  }

  predicate WellFormed(s: System) {
    |s.places| == |s.live| == |s.shared.states|
  }

  predicate At(s: System, i: nat, p: Place) {
    i < |s.places| && s.places[i] == p
  }

  predicate Enabled(s: System, a: Action) {
    match a
    case CallPause => s.coordinator == Idle
    case BeginPause => s.coordinator == Retiring && s.shared.parked == 0
    case GiveUp => (s.coordinator == Retiring && s.shared.parked != 0)
                   || (s.coordinator == Gathering && s.shared.parked != |s.shared.states|)
    case Collect => s.coordinator == Gathering && s.shared.parked == |s.shared.states|
    case CallResume => s.coordinator == Idle
    case Lift => s.coordinator == Lifting
    case ReadFlag(i) => At(s, i, Top)
    case Enter(i, _) => At(s, i, Knocking)
    case Wake(i) => At(s, i, Parked) && (!s.shared.requested || s.shared.stopped)
    case TestStop(i) => At(s, i, Leaving)
    case RunGuest(i, _) => At(s, i, Guest)
    case Exit(i) => At(s, i, Guest)
    case PowerOff(i) => At(s, i, Guest)
    case Crash(i) => At(s, i, Top) || At(s, i, Knocking) || At(s, i, Leaving) || At(s, i, Guest)
    case Report(i) => At(s, i, Failing)
    case Stop => true
  }

  function Moved(s: System, i: nat, p: Place): System
    requires i < |s.places|
  {
    s.(places := s.places[i := p])
  }

  function Step(s: System, a: Action): System
    requires WellFormed(s) && Enabled(s, a)
  {
    match a
    case CallPause => s.(coordinator := Retiring)
    case BeginPause => s.(coordinator := Gathering, shared := Begun(s.shared))
    case GiveUp => s.(coordinator := Idle)
    case Collect => s.(coordinator := Idle)
    case CallResume => s.(coordinator := Lifting, shared := s.shared.(flag := false))
    case Lift => s.(coordinator := Idle, shared := s.shared.(requested := false))
    case ReadFlag(i) => Moved(s, i, if s.shared.flag then Knocking else Leaving)
    case Enter(i, saved) =>
      if s.shared.requested
      then Moved(s, i, Parked).(shared := Entered(s.shared, i, if saved then Saved(s.live[i]) else Refused))
      else Moved(s, i, Leaving)
    case Wake(i) => Moved(s, i, Leaving).(shared := s.shared.(parked := s.shared.parked - 1))
    case TestStop(i) => Moved(s, i, if s.shared.stopped then Gone else Guest)
    case RunGuest(i, next) => s.(live := s.live[i := next])
    case Exit(i) => Moved(s, i, Top)
    case PowerOff(i) => Moved(s, i, Gone).(shared := s.shared.(stopped := true))
    case Crash(i) => Moved(s, i, Failing)
    case Report(i) => Moved(s, i, Gone).(shared := s.shared.(stopped := true))
    case Stop => s.(shared := s.shared.(stopped := true))
  }

  /** The system after a run, if every step of it was possible. */
  function Run(live: seq<CpuState>, run: seq<Action>): (r: Option<System>)
    ensures r.Some? ==> WellFormed(r.value) && |r.value.live| == |live|
  {
    if run == [] then Some(Start(live))
    else
      var s :- Run(live, run[..|run| - 1]);
      if Enabled(s, run[|run| - 1]) then Some(Step(s, run[|run| - 1])) else None
  }

  /** The actions since the current pause began. */
  function Since(run: seq<Action>): seq<Action> {
    if run == [] then []
    else if run[|run| - 1] == BeginPause then []
    else Since(run[..|run| - 1]) + [run[|run| - 1]]
  }

  function CountParked(places: seq<Place>): nat {
    if places == [] then 0 else CountParked(places[1..]) + if places[0] == Parked then 1 else 0
  }

  // ---- what every run keeps ------------------------------------------------------------

  /** A parked thread left a capture of its live state in this pause. */
  ghost predicate Recorded(s: System, run: seq<Action>, i: nat)
    requires WellFormed(s) && i < |s.places|
  {
    && (s.shared.states[i] == Some(Saved(s.live[i])) || s.shared.states[i] == Some(Refused))
    && exists saved :: Enter(i, saved) in Since(run)
  }

  /** The count is right, and a pause being gathered is a pause that was asked for. */
  ghost predicate Counted(s: System) {
    && WellFormed(s)
    && s.shared.parked == CountParked(s.places)
    && (s.coordinator == Gathering ==> s.shared.requested && s.shared.flag)
  }

  ghost predicate Inv(s: System, run: seq<Action>) {
    && Counted(s)
    && (forall i | 0 <= i < |s.places| && s.places[i] == Parked :: Recorded(s, run, i))
  }

  lemma {:induction false} CountMove(places: seq<Place>, i: nat, p: Place)
    requires i < |places|
    ensures CountParked(places[i := p]) + (if places[i] == Parked then 1 else 0)
         == CountParked(places) + if p == Parked then 1 else 0
  {
    if i == 0 {
      assert places[i := p][1..] == places[1..];
    } else {
      CountMove(places[1..], i - 1, p);
      assert places[i := p][1..] == places[1..][i - 1 := p];
    }
  }

  /** The count is everyone exactly when everyone is parked, and zero exactly when nobody is. */
  lemma {:induction false} CountExtremes(places: seq<Place>)
    ensures CountParked(places) <= |places|
    ensures CountParked(places) == |places| <==> forall i | 0 <= i < |places| :: places[i] == Parked
    ensures CountParked(places) == 0 <==> forall i | 0 <= i < |places| :: places[i] != Parked
  {
    if places != [] {
      CountExtremes(places[1..]);
      assert forall i | 0 < i < |places| :: places[i] == places[1..][i - 1];
    }
  }

  lemma NobodyParked(n: nat)
    ensures CountParked(seq(n, _ => Guest)) == 0
  {
    CountExtremes(seq(n, _ => Guest));
  }

  lemma StepCounts(s: System, a: Action)
    requires Counted(s) && Enabled(s, a)
    ensures Counted(Step(s, a))
  {
    hide CountParked;
    CountExtremes(s.places);
    if a.ReadFlag? || a.Enter? || a.Wake? || a.TestStop? || a.Exit? || a.PowerOff? || a.Crash? || a.Report? {
      CountMove(s.places, a.cpu, Step(s, a).places[a.cpu]);
    }
  }

  lemma StepRecords(s: System, run: seq<Action>, a: Action, i: nat)
    requires Inv(s, run) && Enabled(s, a) && i < |s.places| && Step(s, a).places[i] == Parked && a != BeginPause
    ensures Recorded(Step(s, a), run + [a], i)
  {
    hide CountParked;
    assert (run + [a])[..|run|] == run;
    assert Since(run + [a]) == Since(run) + [a];
    hide Since;
    if s.places[i] == Parked {
      var saved :| Enter(i, saved) in Since(run);
      assert Enter(i, saved) in Since(run + [a]);
    } else {
      assert a.Enter? && a.cpu == i && Enter(i, a.saved) in Since(run + [a]);
    }
  }

  lemma StepKeeps(s: System, run: seq<Action>, a: Action)
    requires Inv(s, run) && Enabled(s, a)
    ensures Inv(Step(s, a), run + [a])
  {
    StepCounts(s, a);
    if a == BeginPause {
      CountExtremes(s.places);
    } else {
      forall i | 0 <= i < |s.places| && Step(s, a).places[i] == Parked
        ensures Recorded(Step(s, a), run + [a], i)
      {
        StepRecords(s, run, a, i);
      }
    }
    hide CountParked, Recorded, Since;
  }

  /** `parked` is the number of threads in the gate in every state of every run, and a parked
      thread's capture is its live state, taken since the current pause began. */
  lemma {:induction false} RunKeeps(live: seq<CpuState>, run: seq<Action>)
    requires Run(live, run).Some?
    ensures Inv(Run(live, run).value, run)
  {
    if run == [] {
      NobodyParked(|live|);
    } else {
      hide Step, Enabled, Inv;
      var front, last := run[..|run| - 1], run[|run| - 1];
      RunKeeps(live, front);
      StepKeeps(Run(live, front).value, front, last);
      assert front + [last] == run;
    }
  }

  /** `parked` never goes below zero. */
  lemma NoUnderflow(live: seq<CpuState>, run: seq<Action>, i: nat)
    requires Run(live, run).Some? && Enabled(Run(live, run).value, Wake(i))
    ensures Run(live, run).value.shared.parked >= 1
  {
    RunKeeps(live, run);
    CountExtremes(Run(live, run).value.places);
  }

  lemma {:induction false} AllSaved(states: seq<Option<Capture>>, live: seq<CpuState>)
    requires |states| == |live|
    requires forall i | 0 <= i < |states| :: states[i] == Some(Saved(live[i])) || states[i] == Some(Refused)
    ensures Gathered(states) == if Some(Refused) in states then CaptureFailed else Captured(live)
  {
    if states != [] {
      var front := states[..|states| - 1];
      AllSaved(front, live[..|live| - 1]);
      assert states == front + [states[|states| - 1]];
      assert live == live[..|live| - 1] + [live[|live| - 1]];
    }
  }

  /** When a pause returns, every vCPU is in the gate; it succeeds unless some capture failed,
      no capture is missing, and what it returns are the live states, each captured since this
      pause began. */
  lemma PauseReturns(live: seq<CpuState>, run: seq<Action>)
    requires Run(live, run).Some? && Enabled(Run(live, run).value, Collect)
    ensures var s := Run(live, run).value;
            && (forall i | 0 <= i < |s.places| :: s.places[i] == Parked)
            && (forall i | 0 <= i < |s.places| :: Enter(i, true) in Since(run) || Enter(i, false) in Since(run))
            && s.shared.requested
            && Gathered(s.shared.states) == if Some(Refused) in s.shared.states then CaptureFailed else Captured(s.live)
  {
    var s := Run(live, run).value;
    RunKeeps(live, run);
    CountExtremes(s.places);
    forall i | 0 <= i < |s.places|
      ensures s.shared.states[i] == Some(Saved(s.live[i])) || s.shared.states[i] == Some(Refused)
      ensures Enter(i, true) in Since(run) || Enter(i, false) in Since(run)
    {
      assert Recorded(s, run, i);
    }
    AllSaved(s.shared.states, s.live);
  }

  // ---- nothing runs while paused ------------------------------------------------------

  /** Everyone is in the gate, or on the way out because the group stops. */
  ghost predicate Frozen(s: System, snapshot: seq<CpuState>) {
    && WellFormed(s)
    && s.shared.requested
    && s.coordinator != Lifting
    && s.live == snapshot
    && forall i | 0 <= i < |s.places| ::
         s.places[i] == Parked || (s.shared.stopped && s.places[i] in {Leaving, Failing, Gone})
  }

  /** Nothing but a resume thaws it. */
  lemma FrozenStep(s: System, a: Action, snapshot: seq<CpuState>)
    requires Frozen(s, snapshot) && Enabled(s, a) && a != CallResume
    ensures Frozen(Step(s, a), snapshot)
  {
  }

  lemma FrozenAtReturn(live: seq<CpuState>, run: seq<Action>)
    requires Run(live, run).Some? && Enabled(Run(live, run).value, Collect)
    ensures Frozen(Step(Run(live, run).value, Collect), Run(live, run).value.live)
  {
    hide Run, Gathered;
    PauseReturns(live, run);
  }

  /** From the return of a pause to the next call of resume, whatever else happens, stop and
      failures included, no vCPU is in the guest and no vCPU state differs from the snapshot. */
  lemma {:induction false} StaysFrozen(live: seq<CpuState>, run: seq<Action>, more: seq<Action>)
    requires Run(live, run).Some? && Enabled(Run(live, run).value, Collect)
    requires CallResume !in more && Run(live, run + [Collect] + more).Some?
    ensures Frozen(Run(live, run + [Collect] + more).value, Run(live, run).value.live)
    decreases |more|
  {
    var whole := run + [Collect] + more;
    if more == [] {
      hide Step, Enabled, Frozen;
      assert whole[..|run|] == run && whole[|run|] == Collect;
      FrozenAtReturn(live, run);
    } else {
      hide Step, Enabled, Frozen;
      var front, last := more[..|more| - 1], more[|more| - 1];
      assert whole[..|whole| - 1] == run + [Collect] + front && whole[|whole| - 1] == last;
      StaysFrozen(live, run, front);
      FrozenStep(Run(live, run + [Collect] + front).value, last, Run(live, run).value.live);
    }
  }

  /** Stopped, and none of `out` is in the guest. */
  ghost predicate Stopped(s: System, out: set<nat>) {
    WellFormed(s) && s.shared.stopped && forall i | i in out :: i < |s.places| && s.places[i] != Guest
  }

  lemma StoppedStep(s: System, a: Action, out: set<nat>)
    requires Stopped(s, out) && Enabled(s, a)
    ensures Stopped(Step(s, a), out)
  {
  }

  /** After a stop no thread outside the guest enters it again. */
  lemma {:induction false} StopIsFinal(live: seq<CpuState>, run: seq<Action>, more: seq<Action>, out: set<nat>)
    requires Run(live, run).Some? && Stopped(Run(live, run).value, out) && Run(live, run + more).Some?
    ensures Stopped(Run(live, run + more).value, out)
    decreases |more|
  {
    if more == [] {
      assert run + more == run;
    } else {
      hide Step, Enabled, Stopped;
      var whole, front := run + more, more[..|more| - 1];
      assert whole[..|whole| - 1] == run + front && whole[|whole| - 1] == more[|more| - 1];
      StopIsFinal(live, run, front, out);
      StoppedStep(Run(live, run + front).value, more[|more| - 1], out);
    }
  }

  // ---- the gate never jams --------------------------------------------------------------

  lemma RunMore(live: seq<CpuState>, run: seq<Action>, a: Action)
    requires Run(live, run).Some? && Enabled(Run(live, run).value, a)
    ensures Run(live, run + [a]) == Some(Step(Run(live, run).value, a))
  {
    assert (run + [a])[..|run|] == run && (run + [a])[|run|] == a;
  }

  /** Once the request is withdrawn, or the group stops, the parked threads can all leave, and
      nothing else needs to happen for the next pause to begin. */
  lemma {:induction false} Drains(live: seq<CpuState>, run: seq<Action>) returns (more: seq<Action>)
    requires Run(live, run).Some?
    requires !Run(live, run).value.shared.requested || Run(live, run).value.shared.stopped
    ensures (forall a | a in more :: a.Wake?) && Run(live, run + more).Some?
    ensures Run(live, run + more).value.shared.parked == 0
    ensures Run(live, run + more).value.coordinator == Run(live, run).value.coordinator
    decreases Run(live, run).value.shared.parked
  {
    hide Run, Recorded;
    var s := Run(live, run).value;
    RunKeeps(live, run);
    CountExtremes(s.places);
    if s.shared.parked == 0 {
      more := [];
      assert run + more == run;
    } else {
      var i :| 0 <= i < |s.places| && s.places[i] == Parked;
      RunMore(live, run, Wake(i));
      var rest := Drains(live, run + [Wake(i)]);
      more := [Wake(i)] + rest;
      assert run + more == run + [Wake(i)] + rest;
    }
  }

  function Distance(p: Place): nat {
    match p case Leaving => 4 case Guest => 3 case Top => 2 case Knocking => 1 case _ => 0
  }

  /** A pause is under way and thread `i` has not failed. */
  ghost predicate Willing(s: System, i: nat) {
    && WellFormed(s) && s.shared.requested && s.shared.flag && !s.shared.stopped
    && i < |s.places| && s.places[i] !in {Parked, Failing, Gone}
  }

  function Onward(s: System, i: nat): Action
    requires i < |s.places|
  {
    match s.places[i] case Leaving => TestStop(i) case Guest => Exit(i) case Top => ReadFlag(i) case _ => Enter(i, true)
  }

  /** `t` is `s` with thread `i` moved into the gate. */
  ghost predicate Joined(s: System, t: System, i: nat)
    requires i < |s.places|
  {
    && t.places == s.places[i := Parked] && t.shared.parked == s.shared.parked + 1 && t.coordinator == s.coordinator
    && t.shared.requested == s.shared.requested && t.shared.flag == s.shared.flag
    && t.shared.stopped == s.shared.stopped
  }

  lemma OneStepIn(s: System, i: nat)
    requires Willing(s, i)
    ensures Enabled(s, Onward(s, i))
    ensures var t := Step(s, Onward(s, i));
            if s.places[i] == Knocking then Joined(s, t, i)
            else && Willing(t, i) && Distance(t.places[i]) < Distance(s.places[i])
                 && forall u | Joined(t, u, i) :: Joined(s, u, i)
  {
  }

  /** It can walk into the gate. */
  lemma {:induction false} WalksIn(live: seq<CpuState>, run: seq<Action>, i: nat) returns (more: seq<Action>)
    requires Run(live, run).Some? && Willing(Run(live, run).value, i)
    ensures Run(live, run + more).Some? && Joined(Run(live, run).value, Run(live, run + more).value, i)
    decreases Distance(Run(live, run).value.places[i])
  {
    hide Run, Step, Enabled, Joined, Onward;
    var s := Run(live, run).value;
    var a := Onward(s, i);
    OneStepIn(s, i);
    RunMore(live, run, a);
    if s.places[i] == Knocking {
      more := [a];
    } else {
      var rest := WalksIn(live, run + [a], i);
      more := [a] + rest;
      assert run + more == run + [a] + rest;
    }
  }

  /** A pause that is under way in a group that is not stopped and has no failed thread. */
  ghost predicate Sound(s: System) {
    && WellFormed(s) && s.coordinator == Gathering && !s.shared.stopped
    && forall i | 0 <= i < |s.places| :: s.places[i] !in {Failing, Gone}
  }

  /** It can always be completed. */
  lemma {:induction false} Completes(live: seq<CpuState>, run: seq<Action>) returns (more: seq<Action>)
    requires Run(live, run).Some? && Sound(Run(live, run).value)
    ensures Run(live, run + more).Some? && Enabled(Run(live, run + more).value, Collect)
    decreases |live| - Run(live, run).value.shared.parked
  {
    hide Run, Step, Recorded;
    var s := Run(live, run).value;
    RunKeeps(live, run);
    CountExtremes(s.places);
    if s.shared.parked == |s.places| {
      more := [];
      assert run + more == run;
    } else {
      var i :| 0 <= i < |s.places| && s.places[i] != Parked;
      var first := WalksIn(live, run, i);
      var rest := Completes(live, run + first);
      more := first + rest;
      assert run + more == run + first + rest;
    }
  }
}
