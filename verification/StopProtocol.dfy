/**
 * Stopping the tunnel from other threads: four atomic bits, the event socket, one main thread that
 * runs init, run and fini in turn, the event task, and any number of concurrent stop calls.
 */
module StopProtocol {

  datatype MainPhase =
    | Idle                 // before init or after fini
    | Initializing
    | Ready                // init has returned
    | Starting             // run has found SYNC_STOP clear
    | Running
    | Returned             // run has returned
    | Finishing            // fini polls for SYNC_WAIT
    | Closing              // fini has seen it clear

  datatype EventPhase = NotStarted | Reading | GotByte | RunCleared | Ended

  datatype StopPhase =
    | Trying                      // retries until SYNC_WAIT was clear
    | Owner(sawSend: bool)        // owns SYNC_WAIT, with what it saw of SYNC_SEND
    | Writing                     // has set SYNC_SENT, which was clear
    | Releasing(viaSocket: bool)

  datatype State = State(
    send: bool, sent: bool, wait: bool, stop: bool,
    open: bool, pending: nat, run: bool,
    main: MainPhase, event: EventPhase,
    stops: map<nat, StopPhase>,
    requested: bool)              // some stop has returned by way of the socket since it was opened

  datatype Step =
    | InitBegin | OpenSocket | InitFail | InitDone
    | RunCheck | RunStart | RunReturn
    | FiniBegin | FiniPoll | Close
    | EventRead(bytes: nat) | EventStop | EventClear
    | StopCall(t: nat) | StopTry(t: nat) | StopSent(t: nat) | StopWrite(t: nat) | StopFlag(t: nat) | StopRelease(t: nat)

  const Init := State(false, false, false, false, false, 0, false, Idle, NotStarted, map[], false)

  predicate At(s: State, t: nat, p: StopPhase) {
    t in s.stops && s.stops[t] == p
  }

  predicate Enabled(s: State, step: Step) {
    match step
    case InitBegin => s.main == Idle
    case OpenSocket => s.main == Initializing && !s.open
    case InitFail => s.main == Initializing
    case InitDone => s.main == Initializing && s.open
    case RunCheck => s.main == Ready
    case RunStart => s.main == Starting
    case RunReturn => s.main == Running && s.event == Ended
    case FiniBegin => s.main == Ready || s.main == Returned
    case FiniPoll => s.main == Finishing
    case Close => s.main == Closing
    case EventRead(n) => s.event == Reading && 0 < n <= s.pending && n <= 4
    case EventStop => s.event == GotByte
    case EventClear => s.event == RunCleared
    case StopCall(t) => t !in s.stops
    case StopTry(t) => At(s, t, Trying)
    case StopSent(t) => At(s, t, Owner(true))
    case StopWrite(t) => At(s, t, Writing)
    case StopFlag(t) => At(s, t, Owner(false))
    case StopRelease(t) => t in s.stops && s.stops[t].Releasing?
  }

  function Next(s: State, step: Step): State
    requires Enabled(s, step)
  {
    match step
    case InitBegin => s.(main := Initializing)
    case OpenSocket => s.(open := true, pending := 0)
    case InitFail => s.(main := Finishing)
    case InitDone => s.(main := Ready, send := true)
    case RunCheck => if s.stop then s.(main := Returned, stop := false) else s.(main := Starting)
    case RunStart => s.(main := Running, event := Reading, run := true)
    case RunReturn => s.(main := Returned)
    case FiniBegin => s.(main := Finishing)
    case FiniPoll => s.(send := false, sent := false, main := if s.wait then Finishing else Closing)
    case Close => s.(open := false, pending := 0, main := Idle, event := NotStarted, requested := false)
    case EventRead(n) => s.(pending := s.pending - n, event := GotByte)
    case EventStop => s.(run := false, event := RunCleared)
    case EventClear => s.(sent := false, event := Ended)
    case StopCall(t) => s.(stops := s.stops[t := Trying])
    case StopTry(t) => if s.wait then s else s.(wait := true, stops := s.stops[t := Owner(s.send)])
    case StopSent(t) => s.(sent := true, stops := s.stops[t := if s.sent then Releasing(true) else Writing])
    case StopWrite(t) => s.(pending := s.pending + 1, stops := s.stops[t := Releasing(true)])
    case StopFlag(t) => s.(stop := true, stops := s.stops[t := Releasing(false)])
    case StopRelease(t) => s.(wait := false, stops := s.stops - {t}, requested := s.requested || s.stops[t].viaSocket)
  }

  /** Past the retry loop: the call owns SYNC_WAIT. */
  predicate Owns(s: State, t: nat) {
    t in s.stops && !s.stops[t].Trying?
  }

  /** The phases in which init is complete and fini has not passed its poll. */
  predicate Serving(m: MainPhase) {
    m == Ready || m == Starting || m == Running || m == Returned || m == Finishing
  }

  /** The tunnel is going to stop or has: a byte waits, or the event task has taken one, or fini is under way. */
  predicate Doomed(s: State) {
    || s.pending > 0
    || s.event == GotByte || s.event == RunCleared || s.event == Ended
    || !Serving(s.main) || s.main == Finishing
  }

  ghost predicate OneOwner(s: State) {
    && (forall t, u :: Owns(s, t) && Owns(s, u) ==> t == u)
    && (s.wait <==> exists t :: Owns(s, t))
  }

  /** A call that is going to write does so while the socket is open. */
  ghost predicate SocketOpen(s: State) {
    && (s.send ==> s.open && Serving(s.main))
    && (s.sent ==> s.open && Serving(s.main))
    && (forall t :: At(s, t, Owner(true)) || At(s, t, Writing) ==> s.open && Serving(s.main))
  }

  /** A set SYNC_SENT always has its byte: to come, in the socket, or taken by the event task. */
  ghost predicate SentCovered(s: State) {
    s.sent ==> s.pending > 0 || s.event == GotByte || s.event == RunCleared || exists t :: At(s, t, Writing)
  }

  /** A stop that has done its part by way of the socket has bound the tunnel to stop. */
  ghost predicate StopsCount(s: State) {
    && (forall t :: At(s, t, Releasing(true)) ==> Serving(s.main) && Doomed(s))
    && (s.requested ==> (Serving(s.main) || s.main == Closing) && Doomed(s))
  }

  ghost predicate Phases(s: State) {
    && (s.main == Idle ==> !s.open)
    && (s.main == Idle || s.main == Initializing || s.main == Ready || s.main == Starting ==> s.event == NotStarted)
    && (s.main == Ready || s.main == Starting || s.main == Running ==> s.send && s.open)
    && (s.event == Reading || s.event == GotByte || s.event == RunCleared ==> s.main == Running)
    && (s.run ==> s.event == Reading || s.event == GotByte)
  }

  ghost predicate Inv(s: State) {
    OneOwner(s) && SocketOpen(s) && SentCovered(s) && StopsCount(s) && Phases(s)
  }

  lemma OneOwnerKeeps(s: State, step: Step)
    requires OneOwner(s) && Enabled(s, step)
    ensures OneOwner(Next(s, step))
  {
    var s' := Next(s, step);
    if step.StopTry? && !s.wait {
      assert Owns(s', step.t);
      forall u | u != step.t ensures !Owns(s', u) { assert Owns(s', u) ==> Owns(s, u); }
    } else if step.StopRelease? {
      var t := step.t;
      assert Owns(s, t);
      forall u ensures !Owns(s', u) { assert Owns(s', u) ==> u != t && Owns(s, u); }
    } else {
      forall u ensures Owns(s', u) <==> Owns(s, u) {}
    }
  }

  lemma FlagsOpen(s: State, step: Step)
    requires SocketOpen(s) && Enabled(s, step)
    ensures var s' := Next(s, step); s'.send || s'.sent ==> s'.open && Serving(s'.main)
  {
    if step.StopSent? {
      assert At(s, step.t, Owner(true));
    }
  }

  /** A call that is going to write was so before, or has just seen SYNC_SEND. */
  lemma WriterBefore(s: State, step: Step, t: nat)
    requires Enabled(s, step) && (At(Next(s, step), t, Owner(true)) || At(Next(s, step), t, Writing))
    ensures At(s, t, Owner(true)) || At(s, t, Writing) || (step == StopTry(t) && s.send)
    ensures step == FiniPoll ==> Owns(s, t)
    ensures s.open && Serving(s.main) && !(step == FiniPoll && !s.wait) ==>
      Next(s, step).open && Serving(Next(s, step).main)
  {
  }

  lemma SocketOpenKeeps(s: State, step: Step)
    requires OneOwner(s) && SocketOpen(s) && Enabled(s, step)
    ensures SocketOpen(Next(s, step))
  {
    FlagsOpen(s, step);
    hide Next, Enabled, Serving;
    var s' := Next(s, step);
    forall t | At(s', t, Owner(true)) || At(s', t, Writing) ensures s'.open && Serving(s'.main) {
      WriterBefore(s, step, t);
    }
  }

  lemma SentCoveredKeeps(s: State, step: Step)
    requires OneOwner(s) && SocketOpen(s) && SentCovered(s) && Phases(s) && Enabled(s, step)
    ensures SentCovered(Next(s, step))
  {
    var s' := Next(s, step);
    if step.StopSent? {
      OnlyWriter(s, step.t);
      assert s'.stops[step.t] == Writing ==> At(s', step.t, Writing);
    } else if s.sent && exists t :: At(s, t, Writing) {
      var t :| At(s, t, Writing);
      assert Owns(s, t);
      assert step != StopWrite(t) ==> At(s', t, Writing);
    }
  }

  lemma StopsCountKeeps(s: State, step: Step)
    requires OneOwner(s) && SocketOpen(s) && SentCovered(s) && StopsCount(s) && Phases(s) && Enabled(s, step)
    ensures StopsCount(Next(s, step))
  {
    hide Phases;
    var s' := Next(s, step);
    if Doomed(s) && (Serving(s.main) || s.main == Closing) { DoomedStays(s, step); }
    if step.StopRelease? { assert s.stops[step.t].viaSocket ==> At(s, step.t, Releasing(true)); }
    forall t | At(s', t, Releasing(true)) ensures Serving(s'.main) && Doomed(s') {
      assert At(s, t, Releasing(true)) || (step == StopWrite(t) && At(s, t, Writing))
        || (step == StopSent(t) && At(s, t, Owner(true)));
      assert Owns(s, t);
      if step == StopSent(t) { OnlyWriter(s, t); }
    }
  }

  /** While one call owns SYNC_WAIT no other is between setting SYNC_SENT and writing. */
  lemma OnlyWriter(s: State, t: nat)
    requires OneOwner(s) && At(s, t, Owner(true))
    ensures forall u :: !At(s, u, Writing)
  {
    assert Owns(s, t);
    forall u ensures !At(s, u, Writing) {
      assert At(s, u, Writing) ==> Owns(s, u);
    }
  }

  /** Once the tunnel is bound to stop it stays so until the socket is closed. */
  lemma DoomedStays(s: State, step: Step)
    requires Phases(s) && Enabled(s, step) && Doomed(s) && (Serving(s.main) || s.main == Closing)
    ensures step == Close || Doomed(Next(s, step))
  {
  }

  lemma PhasesKeep(s: State, step: Step)
    requires SocketOpen(s) && Phases(s) && Enabled(s, step)
    ensures Phases(Next(s, step))
  {
  }

  lemma StepKeeps(s: State, step: Step)
    requires Inv(s) && Enabled(s, step)
    ensures Inv(Next(s, step))
  {
    hide OneOwner, SocketOpen, SentCovered, StopsCount, Phases, Next;
    OneOwnerKeeps(s, step);
    SocketOpenKeeps(s, step);
    SentCoveredKeeps(s, step);
    StopsCountKeeps(s, step);
    PhasesKeep(s, step);
  }

  ghost predicate IsRun(s: State, run: seq<Step>)
    decreases |run|
  {
    run == [] || (Enabled(s, run[0]) && IsRun(Next(s, run[0]), run[1..]))
  }

  ghost function Reached(s: State, run: seq<Step>): State
    requires IsRun(s, run)
    decreases |run|
  {
    if run == [] then s else Reached(Next(s, run[0]), run[1..])
  }

  lemma {:induction false} RunKeeps(s: State, run: seq<Step>)
    requires Inv(s) && IsRun(s, run)
    ensures Inv(Reached(s, run))
    decreases |run|
  {
    hide Inv;
    if run != [] {
      StepKeeps(s, run[0]);
      RunKeeps(Next(s, run[0]), run[1..]);
    }
  }

  /** In every interleaving: a stop writes only while the socket is open, and at most one owns SYNC_WAIT. */
  lemma WritesToOpenSocket(run: seq<Step>)
    requires IsRun(Init, run)
    ensures var s := Reached(Init, run);
      && (forall t :: Enabled(s, StopWrite(t)) ==> s.open)
      && (forall t, u :: Owns(s, t) && Owns(s, u) ==> t == u)
  {
    assert Inv(Init);
    RunKeeps(Init, run);
  }

  /**
   * No stop is lost: once a stop has returned by way of the socket, then, while the event task still
   * waits to read, there is a byte for it, and when it is over the run flag is down.
   */
  lemma NoStopLost(run: seq<Step>)
    requires IsRun(Init, run)
    ensures var s := Reached(Init, run);
      && (s.requested && s.main == Running && s.event == Reading ==> Enabled(s, EventRead(1)))
      && (s.main == Returned ==> !s.run)
      && (s.requested ==> Doomed(s))
  {
    assert Inv(Init);
    RunKeeps(Init, run);
  }

  lemma StepKeepsStop(s: State, step: Step)
    requires Enabled(s, step) && s.stop && step != RunCheck
    ensures Next(s, step).stop
  {
    if step.StopCall? || step.StopTry? {
      EntryKeepsStop(s, step);
    } else if OfCall(step) {
      CallKeepsStop(s, step);
    } else {
      TaskKeepsStop(s, step);
    }
  }

  /** A step of some stop call. */
  predicate OfCall(step: Step) {
    || step.StopCall? || step.StopTry? || step.StopSent? || step.StopWrite? || step.StopFlag? || step.StopRelease?
  }

  lemma EntryKeepsStop(s: State, step: Step)
    requires Enabled(s, step) && s.stop && (step.StopCall? || step.StopTry?)
    ensures Next(s, step).stop
  {
    hide At, Enabled;
  }

  lemma CallKeepsStop(s: State, step: Step)
    requires Enabled(s, step) && s.stop && OfCall(step) && !step.StopCall? && !step.StopTry?
    ensures Next(s, step).stop
  {
    hide At, Enabled;
  }

  lemma TaskKeepsStop(s: State, step: Step)
    requires Enabled(s, step) && s.stop && step != RunCheck && !OfCall(step)
    ensures Next(s, step).stop
  {
    hide At, Enabled;
  }

  /** A stop that found SYNC_SEND clear leaves SYNC_STOP set: nothing but a run's own check clears it. */
  lemma {:induction false} StopStays(s: State, run: seq<Step>)
    requires IsRun(s, run) && s.stop && RunCheck !in run
    ensures Reached(s, run).stop
    decreases |run|
  {
    if run != [] {
      StepKeepsStop(s, run[0]);
      assert forall i :: 0 <= i < |run[1..]| ==> run[1..][i] == run[i + 1];
      StopStays(Next(s, run[0]), run[1..]);
    }
  }

  /** The stop call that finds SYNC_SEND clear sets SYNC_STOP, and the next run then returns at once. */
  lemma StopBeforeInit(s: State, t: nat, run: seq<Step>)
    requires Enabled(s, StopFlag(t)) && IsRun(Next(s, StopFlag(t)), run) && RunCheck !in run
    ensures var r := Reached(Next(s, StopFlag(t)), run);
      r.main == Ready ==> Next(r, RunCheck).main == Returned && !Next(r, RunCheck).stop
  {
    StopStays(Next(s, StopFlag(t)), run);
  }
}
