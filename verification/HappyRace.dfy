/**
  The connection race of src/shared/happy-eyeballs.c: the connect call and one thread per
  candidate, interleaved in any order.  One step is one access to what the threads share:
  the race event, a candidate's own event, the is_starting flag, the context's error, the
  winner's socket and address, and the two mutexes.
 */
module HappyRace {
  import opened Common
  import opened HappyErrors
  import AddrInterleave

  const MAX_ATTEMPTS: nat := AddrInterleave.MAX_ATTEMPTS

  // ----- who is where -----------------------------------------------------

  // coalesce_errors, then signal_end
  datatype Phase =
    | CheckFlag
    | CheckRace
    | Gather
    | SetError(value: int)
    | TryRace
    | Signal

  // happy_connect_worker
  datatype WorkerPc =
    | Ready                          // before the first look at the race event
    | Connecting
    | Connected(ok: bool)            // connect has returned; winner_mutex comes next
    | Locked(ok: bool)               // holds winner_mutex
    | Told(ok: bool)                 // ... and has signalled its own event
    | Claiming                       // ... and found the race open
    | SocketSet                      // ... and has set the socket
    | AddrSet                        // ... and the address; signal_end comes next
    | Announcing                     // ... and found the race still open
    | Unlocking
    | Flagged(active: bool)          // failed; holds winner_mutex and has loaded is_starting
    | Scanning(at: nat, active: bool)  // ... and holds candidate_mutex
    | Scanned(active: bool)          // both mutexes released
    | Closing(phase: Phase)
    | Finished

  datatype Worker = Worker(pc: WorkerPc, signalled: bool, error: int)

  // happy_eyeballs_connect
  datatype MainPc =
    | Launching
    | Waiting
    | Clearing
    | Asking(last: bool)                 // happy_eyeballs_try: loads the race event
    | Judging(last: bool, open: bool)    // ... and then the error
    | Counting(at: nat, active: nat)
    | Concluding(phase: Phase)
    | Returned(status: Status)
    | Aborted                            // a launch failed

  datatype Status = Done | Again | Failure

  /** `hasty` is history: the connect call's last check passed although a candidate had connected. */
  datatype State = State(
    families: seq<int>, workers: seq<Worker>, main: MainPc, starting: bool, done: bool, error: int,
    socket: Option<nat>, addr: Option<nat>, winnerMutex: Option<nat>, candidateMutex: Option<nat>, hasty: bool)

  // What the outside decides: how a connect ends, whether a socket can be opened.
  datatype Input = Success | Fails(error: int)

  // ----- steps ------------------------------------------------------------

  function Errors(ws: seq<Worker>): (es: seq<int>)
    ensures |es| == |ws| && forall i :: 0 <= i < |ws| ==> es[i] == ws[i].error
  {
    seq(|ws|, i requires 0 <= i < |ws| => ws[i].error)
  }

  // One step of coalesce_errors and signal_end; no phase means that they are over.
  function Close(s: State, ph: Phase): (r: Option<(State, Option<Phase>)>)
    ensures r.Some? ==> r.value.0.workers == s.workers && r.value.0.families == s.families
  {
    match ph
    case CheckFlag => Some((s, if s.starting then None else Some(CheckRace)))
    case CheckRace => Some((s, if s.done then None else Some(Gather)))
    case Gather => if s.candidateMutex.Some? then None else Some((s, Some(SetError(MostCommon(Errors(s.workers))))))
    case SetError(value) => Some((s.(error := value), Some(TryRace)))
    case TryRace => Some((s, if s.done then None else Some(Signal)))
    case Signal => Some((s.(done := true), None))
  }

  function Goto(s: State, i: nat, pc: WorkerPc): State
    requires i < |s.workers|
  {
    s.(workers := s.workers[i := s.workers[i].(pc := pc)])
  }

  function Tell(s: State, i: nat, ok: bool): State
    requires i < |s.workers|
  {
    s.(workers := s.workers[i := s.workers[i].(pc := Told(ok), signalled := true)])
  }

  // Up to the candidate's own signal, given under winner_mutex.
  function TryStep(s: State, i: nat, input: Input): (r: Option<State>)
    requires i < |s.workers|
    ensures r.Some? ==> |r.value.workers| == |s.workers| && r.value.families == s.families
  {
    match s.workers[i].pc
    case Ready => Some(Goto(s, i, if s.done then Finished else Connecting))
    case Connecting =>
      (match input
       case Success => Some(Goto(s, i, Connected(true)))
       case Fails(e) => if e == 0 then None else
         Some(s.(workers := s.workers[i := s.workers[i].(pc := Connected(false), error := e)])))
    case Connected(ok) =>
      if s.winnerMutex.Some? then None else Some(Goto(s, i, Locked(ok)).(winnerMutex := Some(i)))
    case Locked(ok) => Some(Tell(s, i, ok))
    case _ => None
  }

  // After a successful connect: the winner is whoever finds the race open.
  function WinStep(s: State, i: nat): (r: Option<State>)
    requires i < |s.workers|
    ensures r.Some? ==> |r.value.workers| == |s.workers| && r.value.families == s.families
  {
    match s.workers[i].pc
    case Told(_) => Some(Goto(s, i, if s.done then Unlocking else Claiming))
    case Claiming => Some(Goto(s, i, SocketSet).(socket := Some(i)))
    case SocketSet => Some(Goto(s, i, AddrSet).(addr := Some(i)))
    case AddrSet => Some(Goto(s, i, if s.done then Unlocking else Announcing))
    case Announcing => Some(Goto(s, i, Unlocking).(done := true))
    case Unlocking => Some(Goto(s, i, Finished).(winnerMutex := None))
    case _ => None
  }

  // After a failed one: looks for a candidate that is still active.
  function LoseStep(s: State, i: nat): (r: Option<State>)
    requires i < |s.workers|
    ensures r.Some? ==> |r.value.workers| == |s.workers| && r.value.families == s.families
  {
    match s.workers[i].pc
    case Told(_) => Some(Goto(s, i, Flagged(s.starting)))
    case Flagged(active) =>
      if s.candidateMutex.Some? then None else Some(Goto(s, i, Scanning(0, active)).(candidateMutex := Some(i)))
    case Scanning(at, active) =>
      if at < |s.workers| && !active then Some(Goto(s, i, Scanning(at + 1, !s.workers[at].signalled)))
      else Some(Goto(s, i, Scanned(active)).(winnerMutex := None, candidateMutex := None))
    case Scanned(active) => Some(Goto(s, i, if active || s.error != 0 then Finished else Closing(CheckFlag)))
    case _ => None
  }

  // The last one to fail ends the race.
  function CloseStep(s: State, i: nat, ph: Phase): (r: Option<State>)
    requires i < |s.workers|
    ensures r.Some? ==> |r.value.workers| == |s.workers| && r.value.families == s.families
  {
    var r := Close(s, ph);
    if r.None? then None
    else Some(Goto(r.value.0, i, if r.value.1.Some? then Closing(r.value.1.value) else Finished))
  }

  // A step of candidate i's thread, or None if it has to wait for a mutex or is over.
  function WorkerStep(s: State, i: nat, input: Input): (r: Option<State>)
    requires i < |s.workers|
  {
    var pc := s.workers[i].pc;
    if Early(pc) then TryStep(s, i, input)
    else if Winning(pc) then WinStep(s, i)
    else if pc.Closing? then CloseStep(s, i, pc.phase)
    else LoseStep(s, i)
  }

  function PrevFamily(s: State): int
    requires |s.workers| <= |s.families|
  {
    if s.workers == [] then 0 else s.families[|s.workers| - 1]
  }

  predicate AnyConnected(s: State) {
    exists i :: 0 <= i < |s.workers| && HasConnected(s.workers[i])
  }

  predicate HasConnected(w: Worker) {
    w.signalled && w.error == 0
  }

  // The dispatch loop: one candidate after the other, with a pause that the race may end.
  function LaunchStep(s: State, input: Input): Option<State>
    requires |s.workers| <= |s.families|
  {
    match s.main
    case Launching =>
      if !(|s.workers| < MAX_ATTEMPTS && |s.workers| < |s.families| && s.families[|s.workers|] != PrevFamily(s)) then
        Some(s.(main := Clearing))
      else if input.Fails? then
        if input.error == 0 then None else Some(s.(main := Aborted, error := input.error))
      else if s.candidateMutex.Some? then None
      else Some(s.(main := Waiting, workers := s.workers + [Worker(Ready, false, 0)]))
    case Waiting => Some(s.(main := if s.done then Clearing else Launching))
    case Clearing => Some(s.(main := Asking(false), starting := false))
    case _ => None
  }

  // happy_eyeballs_try and the scan between its two calls.
  function LookStep(s: State): Option<State> {
    match s.main
    case Asking(last) => Some(s.(main := Judging(last, !s.done)))
    case Judging(last, open) =>
      if last then Some(s.(main := Returned(if s.error != 0 then Failure else if open then Again else Done)))
      else Some(s.(main := if s.error == 0 && open then Counting(0, 0) else Asking(true)))
    case Counting(at, active) =>
      if at < |s.workers| then
        Some(s.(main := Counting(at + 1, active + if s.workers[at].signalled then 0 else 1)))
      else Some(s.(main := if active == 0 then Concluding(CheckFlag) else Asking(true)))
    case _ => None
  }

  // The connect call ends the race when it saw no active candidate.
  function ConcludeStep(s: State, ph: Phase): Option<State> {
    var r := Close(s, ph);
    if r.None? then None else
    Some(r.value.0.(main := if r.value.1.Some? then Concluding(r.value.1.value) else Asking(true),
                    hasty := s.hasty || (ph == CheckRace && !s.done && AnyConnected(s))))
  }

  function MainStep(s: State, input: Input): Option<State>
    requires |s.workers| <= |s.families|
  {
    if s.main.Launching? || s.main.Waiting? || s.main.Clearing? then LaunchStep(s, input)
    else if s.main.Concluding? then ConcludeStep(s, s.main.phase)
    else LookStep(s)
  }

  datatype Actor = Connect | Candidate(i: nat)

  function Step(s: State, who: Actor, input: Input): Option<State>
    requires |s.workers| <= |s.families|
  {
    match who
    case Connect => MainStep(s, input)
    case Candidate(i) => if i < |s.workers| then WorkerStep(s, i, input) else None
  }

  function Start(families: seq<int>): State {
    State(families, [], Launching, true, false, 0, None, None, None, None, false)
  }

  // Every interleaving: at each moment any actor that can step may.
  ghost predicate IsRun(run: seq<State>) {
    && run != [] && run[0] == Start(run[0].families) && run[0].families != [] && run[0].families[0] != 0
    && forall n {:trigger Follows(run, n)} :: 0 <= n < |run| - 1 ==> Follows(run, n)
  }

  ghost predicate Follows(run: seq<State>, n: int)
    requires 0 <= n < |run| - 1
  {
    CanStep(run[n], run[n + 1])
  }

  ghost predicate CanStep(s: State, t: State) {
    |s.workers| <= |s.families| && exists who, input :: Step(s, who, input) == Some(t)
  }

  // ----- the invariant ----------------------------------------------------

  predicate HoldsWinner(pc: WorkerPc) {
    pc.Locked? || pc.Told? || pc.Claiming? || pc.SocketSet? || pc.AddrSet? || pc.Announcing? || pc.Unlocking?
    || pc.Flagged? || pc.Scanning?
  }

  predicate Early(pc: WorkerPc) {
    pc.Ready? || pc.Connecting? || pc.Connected? || pc.Locked?
  }

  predicate Winning(pc: WorkerPc) {
    (pc.Connected? && pc.ok) || (pc.Locked? && pc.ok) || (pc.Told? && pc.ok)
    || pc.Claiming? || pc.SocketSet? || pc.AddrSet? || pc.Announcing? || pc.Unlocking?
  }

  predicate Losing(pc: WorkerPc) {
    (pc.Connected? && !pc.ok) || (pc.Locked? && !pc.ok) || (pc.Told? && !pc.ok)
    || pc.Flagged? || pc.Scanning? || pc.Scanned? || pc.Closing?
  }

  // Past the load of is_starting, having seen it false and no active candidate so far.
  predicate Searching(pc: WorkerPc) {
    (pc.Flagged? && !pc.active) || (pc.Scanning? && !pc.active) || (pc.Scanned? && !pc.active) || pc.Closing?
  }

  ghost predicate AllSignalled(s: State) {
    forall i :: 0 <= i < |s.workers| ==> s.workers[i].signalled
  }

  ghost predicate AllFailed(s: State) {
    forall i :: 0 <= i < |s.workers| ==> s.workers[i].error != 0
  }

  // Nobody is left to fail, and everybody has.
  ghost predicate NoneLeft(s: State) {
    !s.starting && AllSignalled(s) && AllFailed(s)
  }

  predicate Passed(ph: Phase) {
    !ph.CheckFlag? && !ph.CheckRace?
  }

  // What a closing phase knows of the error.
  ghost predicate PhaseOk(s: State, ph: Phase) {
    && (ph.SetError? ==> ph.value == MostCommon(Errors(s.workers)))
    && (ph.TryRace? || ph.Signal? ==> s.error == MostCommon(Errors(s.workers)))
  }

  ghost predicate LocksOk(s: State, i: nat)
    requires i < |s.workers|
  {
    var w := s.workers[i];
    && (Early(w.pc) ==> !w.signalled) && (w.signalled || Early(w.pc) || (w.pc.Finished? && s.done))
    && (s.winnerMutex == Some(i) <==> HoldsWinner(w.pc))
    && (s.candidateMutex == Some(i) <==> w.pc.Scanning?)
    && (w.pc.Ready? || w.pc.Connecting? || Winning(w.pc) ==> w.error == 0)
    && (Losing(w.pc) ==> w.error != 0)
  }

  ghost predicate ClaimOk(s: State, i: nat)
    requires i < |s.workers|
  {
    var w := s.workers[i];
    && (HasConnected(w) ==> s.done || HoldsWinner(w.pc))
    && (w.pc.Unlocking? ==> s.done) && (w.pc.Told? ==> s.socket != Some(i))
    && (w.pc.Claiming? ==> s.socket == None) && (w.pc.Claiming? || w.pc.SocketSet? ==> !s.done || s.hasty)
    && (w.pc.SocketSet? ==> s.socket == Some(i) && s.addr == None)
    && (w.pc.AddrSet? || w.pc.Announcing? ==> s.socket == Some(i) && s.addr == Some(i))
  }

  ghost predicate SearchOk(s: State, i: nat)
    requires i < |s.workers|
  {
    var w := s.workers[i];
    && (Searching(w.pc) ==> !s.starting)
    && (w.pc.Scanning? && !w.pc.active ==> SignalledUpTo(s, w.pc.at))
    && ((w.pc.Scanned? && !w.pc.active) || w.pc.Closing? ==> AllSignalled(s) && (s.done || AllFailed(s)))
    && (w.pc.Closing? ==> PhaseOk(s, w.pc.phase) && (Passed(w.pc.phase) ==> AllFailed(s)))
  }

  ghost predicate SignalledUpTo(s: State, n: nat) {
    n <= |s.workers| && forall m :: 0 <= m < n ==> s.workers[m].signalled
  }

  ghost predicate WorkerOk(s: State, i: nat)
    requires i < |s.workers|
  {
    LocksOk(s, i) && ClaimOk(s, i) && SearchOk(s, i)
  }

  ghost predicate WorkersOk(s: State) {
    forall i: nat :: i < |s.workers| ==> WorkerOk(s, i)
  }

  // About to find out, or to tell, that the race is over.
  predicate Ending(ph: Phase) {
    ph.TryRace? || ph.Signal?
  }

  ghost predicate SomeoneEnds(s: State) {
    || (s.main.Concluding? && Ending(s.main.phase))
    || exists i :: 0 <= i < |s.workers| && s.workers[i].pc.Closing? && Ending(s.workers[i].pc.phase)
  }

  // Bound to end the race, or to leave that to another one who is.
  predicate Obliged(w: Worker) {
    Early(w.pc) || w.pc.Told? || (Winning(w.pc) && !w.pc.Unlocking?) || Searching(w.pc)
  }

  ghost predicate SomeoneObliged(s: State) {
    s.main.Concluding? || exists i :: 0 <= i < |s.workers| && Obliged(s.workers[i])
  }

  ghost predicate WinnerOk(s: State) {
    && (s.socket.Some? ==>
          && s.socket.value < |s.workers| && HasConnected(s.workers[s.socket.value])
          && (s.done || s.winnerMutex == s.socket))
    && (s.addr.Some? ==> s.addr == s.socket)
    && (s.done && !s.hasty && s.socket.Some? ==> s.addr == s.socket)
  }

  ghost predicate OutcomeOk(s: State) {
    && (s.done && !s.hasty && s.socket.None? ==> NoneLeft(s) && s.error == MostCommon(Errors(s.workers)))
    && (s.hasty ==> !s.starting && AllSignalled(s))
    && (s.error != 0 && !s.main.Aborted? ==>
          && !s.starting && AllSignalled(s) && s.error == MostCommon(Errors(s.workers))
          && (s.hasty || AllFailed(s)) && (s.done || SomeoneEnds(s)))
    && (s.hasty ==> (s.main.Concluding? && (s.main.phase.Gather? || s.main.phase.SetError?))
                    || s.error == MostCommon(Errors(s.workers)))
  }

  ghost predicate MainOk(s: State) {
    && |s.workers| <= Min(MAX_ATTEMPTS, |s.families|) && s.families != [] && s.families[0] != 0
    && (s.starting <==> s.main.Launching? || s.main.Waiting? || s.main.Clearing? || s.main.Aborted?)
    && (!s.main.Launching? && !s.main.Aborted? ==> s.workers != [])
    && (s.candidateMutex.Some? ==> s.candidateMutex.value < |s.workers|)
    && (s.winnerMutex.Some? ==> s.winnerMutex.value < |s.workers|)
  }

  ghost predicate MainAt(s: State) {
    match s.main
    case Judging(last, open) => (!open ==> s.done) && (last ==> s.done || SomeoneObliged(s))
    case Asking(last) => last ==> s.done || SomeoneObliged(s)
    case Counting(at, active) => if active == 0 then SignalledUpTo(s, at)
        else at <= |s.workers| && (s.done || SomeoneObliged(s))
    case Concluding(ph) => AllSignalled(s) && PhaseOk(s, ph) && (Passed(ph) ==> s.hasty || AllFailed(s))
    case Returned(status) =>
      (s.done || SomeoneObliged(s)) && (status.Done? && !s.hasty ==> s.done && s.socket.Some? && s.addr == s.socket)
    case _ => true
  }

  ghost predicate Inv(s: State) {
    MainOk(s) && MainAt(s) && WorkersOk(s) && WinnerOk(s) && OutcomeOk(s)
  }

  // ----- a candidate's step keeps it --------------------------------------

  lemma SameErrors(s: State, t: State)
    requires |t.workers| == |s.workers| && forall i :: 0 <= i < |s.workers| ==> t.workers[i].error == s.workers[i].error
    ensures Errors(t.workers) == Errors(s.workers)
    ensures AllFailed(s) ==> AllFailed(t)
  {
  }

  // What the connect call sees of a candidate's step.
  ghost predicate Frame(s: State, t: State) {
    && t.main == s.main && t.starting == s.starting && t.hasty == s.hasty && |t.workers| == |s.workers|
    && (s.done ==> t.done) && (forall i :: 0 <= i < |s.workers| ==> (s.workers[i].signalled ==> t.workers[i].signalled))
    && (AllSignalled(s) ==> Errors(t.workers) == Errors(s.workers))
    && (t.error == s.error || t.error == MostCommon(Errors(s.workers)))
    && (s.addr.Some? ==> t.addr == s.addr && t.socket == s.socket)
  }

  lemma SameFailures(s: State, t: State)
    requires Errors(t.workers) == Errors(s.workers)
    ensures AllFailed(s) ==> AllFailed(t)
  {
    assert |Errors(t.workers)| == |t.workers| && |Errors(s.workers)| == |s.workers|;
    assert forall i :: 0 <= i < |t.workers| ==> t.workers[i].error == Errors(s.workers)[i];
  }

  lemma OthersKeepSearch(s: State, t: State, i: nat)
    requires Frame(s, t) && i < |s.workers| && t.workers[i] == s.workers[i] && SearchOk(s, i)
    ensures SearchOk(t, i)
  {
    if AllSignalled(s) {
      SameFailures(s, t);
    }
  }

  lemma MainAtStays(s: State, t: State)
    requires Frame(s, t) && MainOk(s) && MainAt(s) && (!s.starting && SomeoneObliged(s) ==> t.done || SomeoneObliged(t))
    ensures MainAt(t)
  {
    if AllSignalled(s) {
      SameFailures(s, t);
    }
  }

  lemma ObligationMoves(s: State, j: nat, t: State)
    requires |t.workers| == |s.workers| && t.main == s.main && j < |s.workers|
    requires forall i :: 0 <= i < |s.workers| && i != j ==> t.workers[i] == s.workers[i]
    requires SomeoneObliged(s)
    ensures (Obliged(s.workers[j]) && !Obliged(t.workers[j])) || SomeoneObliged(t)
  {
    if !s.main.Concluding? {
      var i :| 0 <= i < |s.workers| && Obliged(s.workers[i]);
      if i != j {
        assert Obliged(t.workers[i]);
      }
    }
  }

  // Who has signalled has failed, while a failed candidate scans under winner_mutex.
  lemma SignalledHaveFailed(s: State, j: nat)
    requires WorkersOk(s) && j < |s.workers| && s.workers[j].pc.Scanning?
    ensures s.done || forall k :: 0 <= k < |s.workers| && s.workers[k].signalled ==> s.workers[k].error != 0
  {
    assert WorkerOk(s, j);
    forall k: nat | k < |s.workers| && s.workers[k].signalled && !s.done
      ensures s.workers[k].error != 0
    {
      assert WorkerOk(s, k);
    }
  }

  lemma TryKeepsLocks(s: State, j: nat, input: Input, t: State, i: nat)
    requires j < |s.workers| && Early(s.workers[j].pc) && TryStep(s, j, input) == Some(t)
    requires LocksOk(s, j) && i < |s.workers| && LocksOk(s, i)
    ensures LocksOk(t, i)
  {
  }

  lemma TryKeepsClaims(s: State, j: nat, input: Input, t: State, i: nat)
    requires j < |s.workers| && Early(s.workers[j].pc) && TryStep(s, j, input) == Some(t)
    requires WorkerOk(s, j) && WinnerOk(s) && i < |s.workers| && LocksOk(s, i) && ClaimOk(s, i)
    ensures ClaimOk(t, i)
  {
  }

  lemma TryKeepsSearch(s: State, j: nat, input: Input, t: State)
    requires j < |s.workers| && Early(s.workers[j].pc) && TryStep(s, j, input) == Some(t)
    requires LocksOk(s, j) && SearchOk(s, j)
    ensures SearchOk(t, j)
  {
  }

  lemma TryKeepsWinner(s: State, j: nat, input: Input, t: State)
    requires j < |s.workers| && Early(s.workers[j].pc) && TryStep(s, j, input) == Some(t)
    requires WorkerOk(s, j) && WinnerOk(s)
    ensures WinnerOk(t)
  {
  }

  lemma TryKeepsOutcome(s: State, j: nat, input: Input, t: State)
    requires j < |s.workers| && Early(s.workers[j].pc) && TryStep(s, j, input) == Some(t)
    requires WorkerOk(s, j) && OutcomeOk(s)
    ensures OutcomeOk(t)
  {
    if !s.workers[j].pc.Connecting? {
      SameErrors(s, t);
    }
  }

  lemma TryKeepsObligation(s: State, j: nat, input: Input, t: State)
    requires j < |s.workers| && Early(s.workers[j].pc) && TryStep(s, j, input) == Some(t) && WorkerOk(s, j)
             && SomeoneObliged(s)
    ensures t.done || SomeoneObliged(t)
  {
    ObligationMoves(s, j, t);
  }

  lemma TryKeepsMain(s: State, j: nat, input: Input, t: State)
    requires j < |s.workers| && Early(s.workers[j].pc) && TryStep(s, j, input) == Some(t)
    requires WorkerOk(s, j) && MainOk(s)
    ensures MainOk(t)
  {
  }

  lemma TryFrame(s: State, j: nat, input: Input, t: State)
    requires j < |s.workers| && Early(s.workers[j].pc) && TryStep(s, j, input) == Some(t)
    requires WorkerOk(s, j) && WinnerOk(s)
    ensures Frame(s, t)
  {
    if !s.workers[j].pc.Connecting? {
      SameErrors(s, t);
    }
  }

  lemma WinKeepsLocks(s: State, j: nat, t: State, i: nat)
    requires j < |s.workers| && Winning(s.workers[j].pc) && !Early(s.workers[j].pc) && WinStep(s, j) == Some(t)
    requires LocksOk(s, j) && i < |s.workers| && LocksOk(s, i)
    ensures LocksOk(t, i)
  {
  }

  lemma WinKeepsClaims(s: State, j: nat, t: State, i: nat)
    requires j < |s.workers| && Winning(s.workers[j].pc) && !Early(s.workers[j].pc) && WinStep(s, j) == Some(t)
    requires WorkerOk(s, j) && WinnerOk(s) && i < |s.workers| && LocksOk(s, i) && ClaimOk(s, i)
    ensures ClaimOk(t, i)
  {
  }

  lemma WinKeepsSearch(s: State, j: nat, t: State)
    requires j < |s.workers| && Winning(s.workers[j].pc) && !Early(s.workers[j].pc) && WinStep(s, j) == Some(t)
    requires LocksOk(s, j) && SearchOk(s, j)
    ensures SearchOk(t, j)
  {
  }

  lemma WinKeepsWinner(s: State, j: nat, t: State)
    requires j < |s.workers| && Winning(s.workers[j].pc) && !Early(s.workers[j].pc) && WinStep(s, j) == Some(t)
    requires WorkerOk(s, j) && WinnerOk(s)
    ensures WinnerOk(t)
  {
  }

  lemma WinKeepsOutcome(s: State, j: nat, t: State)
    requires j < |s.workers| && Winning(s.workers[j].pc) && !Early(s.workers[j].pc) && WinStep(s, j) == Some(t)
    requires WorkerOk(s, j) && OutcomeOk(s)
    ensures OutcomeOk(t)
  {
    SameErrors(s, t);
  }

  lemma WinKeepsObligation(s: State, j: nat, t: State)
    requires j < |s.workers| && Winning(s.workers[j].pc) && !Early(s.workers[j].pc) && WinStep(s, j) == Some(t)
    requires WorkerOk(s, j) && SomeoneObliged(s)
    ensures t.done || SomeoneObliged(t)
  {
    ObligationMoves(s, j, t);
  }

  lemma WinKeepsMain(s: State, j: nat, t: State)
    requires j < |s.workers| && Winning(s.workers[j].pc) && !Early(s.workers[j].pc) && WinStep(s, j) == Some(t)
    requires WorkerOk(s, j) && MainOk(s)
    ensures MainOk(t)
  {
  }

  lemma WinFrame(s: State, j: nat, t: State)
    requires j < |s.workers| && Winning(s.workers[j].pc) && !Early(s.workers[j].pc) && WinStep(s, j) == Some(t)
    requires WorkerOk(s, j) && WinnerOk(s)
    ensures Frame(s, t)
  {
    SameErrors(s, t);
  }

  lemma LoseKeepsLocks(s: State, j: nat, t: State, i: nat)
    requires j < |s.workers| && Losing(s.workers[j].pc) && !Early(s.workers[j].pc) && LoseStep(s, j) == Some(t)
    requires LocksOk(s, j) && i < |s.workers| && LocksOk(s, i)
    ensures LocksOk(t, i)
  {
  }

  lemma LoseKeepsClaims(s: State, j: nat, t: State, i: nat)
    requires j < |s.workers| && Losing(s.workers[j].pc) && !Early(s.workers[j].pc) && LoseStep(s, j) == Some(t)
    requires WorkerOk(s, j) && WinnerOk(s) && i < |s.workers| && LocksOk(s, i) && ClaimOk(s, i)
    ensures ClaimOk(t, i)
  {
  }

  lemma LoseKeepsSearch(s: State, j: nat, t: State)
    requires j < |s.workers| && Losing(s.workers[j].pc) && !Early(s.workers[j].pc) && LoseStep(s, j) == Some(t)
    requires LocksOk(s, j) && SearchOk(s, j)
    requires s.workers[j].pc.Scanning? ==> s.done || forall k :: 0 <= k < |s.workers| && s.workers[k].signalled ==>
             s.workers[k].error != 0
    ensures SearchOk(t, j)
  {
    SameErrors(s, t);
  }

  lemma LoseKeepsWinner(s: State, j: nat, t: State)
    requires j < |s.workers| && Losing(s.workers[j].pc) && !Early(s.workers[j].pc) && LoseStep(s, j) == Some(t)
    requires WorkerOk(s, j) && WinnerOk(s)
    ensures WinnerOk(t)
  {
  }

  lemma LoseKeepsOutcome(s: State, j: nat, t: State)
    requires j < |s.workers| && Losing(s.workers[j].pc) && !Early(s.workers[j].pc) && LoseStep(s, j) == Some(t)
    requires WorkerOk(s, j) && OutcomeOk(s)
    ensures OutcomeOk(t)
  {
    SameErrors(s, t);
  }

  lemma LoseKeepsObligation(s: State, j: nat, t: State)
    requires j < |s.workers| && Losing(s.workers[j].pc) && !Early(s.workers[j].pc) && LoseStep(s, j) == Some(t)
    requires WorkerOk(s, j) && SomeoneObliged(s)
    requires WorkersOk(s) && OutcomeOk(s) && MainOk(s) && !s.starting
    ensures t.done || SomeoneObliged(t)
  {
    ObligationMoves(s, j, t);
    match s.workers[j].pc
    case Scanning(at, active) =>
      if at < |s.workers| && !active && !s.done && !s.workers[at].signalled {
        assert WorkerOk(s, at);
        assert Obliged(t.workers[at]);
      }
    case Scanned(_) =>
      if s.error != 0 && !s.done && !s.main.Concluding? {
        var i :| 0 <= i < |s.workers| && s.workers[i].pc.Closing? && Ending(s.workers[i].pc.phase);
        assert Obliged(t.workers[i]);
      }
    case _ =>
  }

  lemma LoseKeepsMain(s: State, j: nat, t: State)
    requires j < |s.workers| && Losing(s.workers[j].pc) && !Early(s.workers[j].pc) && LoseStep(s, j) == Some(t)
    requires WorkerOk(s, j) && MainOk(s)
    ensures MainOk(t)
  {
  }

  lemma LoseFrame(s: State, j: nat, t: State)
    requires j < |s.workers| && Losing(s.workers[j].pc) && !Early(s.workers[j].pc) && LoseStep(s, j) == Some(t)
    requires WorkerOk(s, j) && WinnerOk(s)
    ensures Frame(s, t)
  {
    SameErrors(s, t);
  }

  lemma CloseKeepsLocks(s: State, j: nat, ph: Phase, t: State, i: nat)
    requires j < |s.workers| && s.workers[j].pc == Closing(ph) && CloseStep(s, j, ph) == Some(t)
    requires LocksOk(s, j) && i < |s.workers| && LocksOk(s, i)
    ensures LocksOk(t, i)
  {
  }

  lemma CloseKeepsClaims(s: State, j: nat, ph: Phase, t: State, i: nat)
    requires j < |s.workers| && s.workers[j].pc == Closing(ph) && CloseStep(s, j, ph) == Some(t)
    requires WorkerOk(s, j) && WinnerOk(s) && i < |s.workers| && LocksOk(s, i) && ClaimOk(s, i)
    ensures ClaimOk(t, i)
  {
  }

  lemma CloseKeepsSearch(s: State, j: nat, ph: Phase, t: State)
    requires j < |s.workers| && s.workers[j].pc == Closing(ph) && CloseStep(s, j, ph) == Some(t)
    requires LocksOk(s, j) && SearchOk(s, j)
    ensures SearchOk(t, j)
  {
    SameErrors(s, t);
  }

  lemma CloseKeepsWinner(s: State, j: nat, ph: Phase, t: State)
    requires j < |s.workers| && s.workers[j].pc == Closing(ph) && CloseStep(s, j, ph) == Some(t)
    requires WorkerOk(s, j) && WinnerOk(s)
    ensures WinnerOk(t)
  {
  }

  lemma CloseKeepsOutcome(s: State, j: nat, ph: Phase, t: State)
    requires j < |s.workers| && s.workers[j].pc == Closing(ph) && CloseStep(s, j, ph) == Some(t)
    requires WorkerOk(s, j) && OutcomeOk(s)
    ensures OutcomeOk(t)
  {
    SameErrors(s, t);
  }

  lemma CloseKeepsObligation(s: State, j: nat, ph: Phase, t: State)
    requires j < |s.workers| && s.workers[j].pc == Closing(ph) && CloseStep(s, j, ph) == Some(t) && WorkerOk(s, j)
             && SomeoneObliged(s)
    ensures t.done || SomeoneObliged(t)
  {
    ObligationMoves(s, j, t);
  }

  lemma CloseKeepsMain(s: State, j: nat, ph: Phase, t: State)
    requires j < |s.workers| && s.workers[j].pc == Closing(ph) && CloseStep(s, j, ph) == Some(t)
    requires WorkerOk(s, j) && MainOk(s)
    ensures MainOk(t)
  {
  }

  lemma CloseFrame(s: State, j: nat, ph: Phase, t: State)
    requires j < |s.workers| && s.workers[j].pc == Closing(ph) && CloseStep(s, j, ph) == Some(t)
    requires WorkerOk(s, j) && WinnerOk(s)
    ensures Frame(s, t)
  {
    SameErrors(s, t);
  }

  // ----- every step keeps it ----------------------------------------------

  lemma CandidateKeepsEach(s: State, j: nat, input: Input, t: State)
    requires Inv(s) && j < |s.workers| && WorkerStep(s, j, input) == Some(t)
    ensures Frame(s, t) && WorkersOk(t)
  {
    assert WorkerOk(s, j);
    var pc := s.workers[j].pc;
    if Early(pc) {
      TryFrame(s, j, input, t);
      TryKeepsSearch(s, j, input, t);
    } else if Winning(pc) {
      WinFrame(s, j, t);
      WinKeepsSearch(s, j, t);
    } else if pc.Closing? {
      CloseFrame(s, j, pc.phase, t);
      CloseKeepsSearch(s, j, pc.phase, t);
    } else {
      LoseFrame(s, j, t);
      if pc.Scanning? {
        SignalledHaveFailed(s, j);
      }
      LoseKeepsSearch(s, j, t);
    }
    forall i: nat | i < |t.workers|
      ensures WorkerOk(t, i)
    {
      assert WorkerOk(s, i);
      if i != j {
        OthersKeepSearch(s, t, i);
      }
      if Early(pc) {
        TryKeepsLocks(s, j, input, t, i);
        TryKeepsClaims(s, j, input, t, i);
      } else if Winning(pc) {
        WinKeepsLocks(s, j, t, i);
        WinKeepsClaims(s, j, t, i);
      } else if pc.Closing? {
        CloseKeepsLocks(s, j, pc.phase, t, i);
        CloseKeepsClaims(s, j, pc.phase, t, i);
      } else {
        LoseKeepsLocks(s, j, t, i);
        LoseKeepsClaims(s, j, t, i);
      }
    }
  }

  lemma CandidateKeepsRest(s: State, j: nat, input: Input, t: State)
    requires Inv(s) && j < |s.workers| && WorkerStep(s, j, input) == Some(t) && Frame(s, t)
    ensures MainOk(t) && MainAt(t) && WinnerOk(t) && OutcomeOk(t)
  {
    assert WorkerOk(s, j);
    var pc := s.workers[j].pc;
    if Early(pc) {
      TryKeepsMain(s, j, input, t);
      TryKeepsWinner(s, j, input, t);
      TryKeepsOutcome(s, j, input, t);
    } else if Winning(pc) {
      WinKeepsMain(s, j, t);
      WinKeepsWinner(s, j, t);
      WinKeepsOutcome(s, j, t);
    } else if pc.Closing? {
      CloseKeepsMain(s, j, pc.phase, t);
      CloseKeepsWinner(s, j, pc.phase, t);
      CloseKeepsOutcome(s, j, pc.phase, t);
    } else {
      LoseKeepsMain(s, j, t);
      LoseKeepsWinner(s, j, t);
      LoseKeepsOutcome(s, j, t);
    }
    if !s.starting && SomeoneObliged(s) {
      CandidateKeepsObligation(s, j, input, t);
    }
    MainAtStays(s, t);
  }

  lemma CandidateKeepsObligation(s: State, j: nat, input: Input, t: State)
    requires Inv(s) && j < |s.workers| && WorkerStep(s, j, input) == Some(t) && !s.starting && SomeoneObliged(s)
    ensures t.done || SomeoneObliged(t)
  {
    assert WorkerOk(s, j);
    var pc := s.workers[j].pc;
    if Early(pc) {
      TryKeepsObligation(s, j, input, t);
    } else if Winning(pc) {
      WinKeepsObligation(s, j, t);
    } else if pc.Closing? {
      CloseKeepsObligation(s, j, pc.phase, t);
    } else {
      LoseKeepsObligation(s, j, t);
    }
  }

  lemma LaunchKeepsLocks(s: State, input: Input, t: State, i: nat)
    requires MainOk(s) && LaunchStep(s, input) == Some(t) && i < |t.workers|
    requires i < |s.workers| ==> LocksOk(s, i)
    ensures LocksOk(t, i)
  {
  }

  lemma LaunchKeepsClaims(s: State, input: Input, t: State, i: nat)
    requires MainOk(s) && WinnerOk(s) && LaunchStep(s, input) == Some(t) && i < |t.workers|
    requires i < |s.workers| ==> ClaimOk(s, i)
    ensures ClaimOk(t, i)
  {
  }

  lemma LaunchKeepsSearch(s: State, input: Input, t: State, i: nat)
    requires MainOk(s) && LaunchStep(s, input) == Some(t) && i < |t.workers|
    requires i < |s.workers| ==> SearchOk(s, i)
    ensures SearchOk(t, i)
  {
  }

  lemma LaunchKeepsRest(s: State, input: Input, t: State)
    requires MainOk(s) && MainAt(s) && WinnerOk(s) && OutcomeOk(s) && LaunchStep(s, input) == Some(t)
    ensures MainOk(t) && MainAt(t) && WinnerOk(t) && OutcomeOk(t)
  {
  }

  lemma LookKeepsWorker(s: State, t: State, i: nat)
    requires t == s.(main := t.main) && i < |s.workers| && WorkerOk(s, i)
    ensures WorkerOk(t, i)
  {
  }

  lemma StillObliged(s: State, t: State)
    requires t.workers == s.workers && SomeoneObliged(s) && (s.main.Concluding? ==> t.main.Concluding?)
    ensures SomeoneObliged(t)
  {
    if !s.main.Concluding? {
      var i :| 0 <= i < |s.workers| && Obliged(s.workers[i]);
      assert Obliged(t.workers[i]);
    }
  }

  // An active candidate is bound to end the race or to leave that to another one.
  lemma ActiveIsObliged(s: State, at: nat)
    requires at < |s.workers| && WorkerOk(s, at) && !s.workers[at].signalled
    ensures s.done || SomeoneObliged(s)
  {
    assert s.done || Obliged(s.workers[at]);
  }

  lemma EnderIsObliged(s: State)
    requires SomeoneEnds(s)
    ensures SomeoneObliged(s)
  {
    if !s.main.Concluding? {
      var i :| 0 <= i < |s.workers| && s.workers[i].pc.Closing? && Ending(s.workers[i].pc.phase);
      assert Obliged(s.workers[i]);
    }
  }

  // Looking changes nothing but where the connect call is.
  lemma LookOnlyMoves(s: State, t: State)
    requires LookStep(s) == Some(t)
    ensures t == s.(main := t.main) && (t.main.Concluding? ==> t.main.phase == CheckFlag) && !s.main.Concluding?
    ensures s.main.Asking? || s.main.Judging? || s.main.Counting?
    ensures t.main.Asking? || t.main.Judging? || t.main.Counting? || t.main.Concluding? || t.main.Returned?
  {
  }

  lemma LookKeepsMainAt(s: State, t: State)
    requires t == s.(main := t.main) && !s.main.Concluding?
    requires MainOk(s) && MainAt(s) && WorkersOk(s) && WinnerOk(s) && OutcomeOk(s) && LookStep(s) == Some(t)
    ensures MainAt(t)
  {
    if s.main.Counting? && s.main.at < |s.workers| && !s.workers[s.main.at].signalled {
      ActiveIsObliged(s, s.main.at);
    } else if s.main.Judging? && !s.main.last && s.error != 0 && !s.done {
      EnderIsObliged(s);
    }
    if SomeoneObliged(s) {
      StillObliged(s, t);
    }
  }

  lemma LookKeepsRest(s: State, t: State)
    requires t == s.(main := t.main) && !s.main.Concluding? && (t.main.Concluding? ==> t.main.phase == CheckFlag)
    requires s.main.Asking? || s.main.Judging? || s.main.Counting?
    requires t.main.Asking? || t.main.Judging? || t.main.Counting? || t.main.Concluding? || t.main.Returned?
    requires MainOk(s) && WinnerOk(s) && OutcomeOk(s)
    ensures MainOk(t) && WinnerOk(t) && OutcomeOk(t)
  {
  }

  lemma ConcludeKeepsLocks(s: State, ph: Phase, t: State, i: nat)
    requires ConcludeStep(s, ph) == Some(t) && i < |t.workers| && LocksOk(s, i)
    ensures LocksOk(t, i)
  {
  }

  lemma ConcludeKeepsClaims(s: State, ph: Phase, t: State, i: nat)
    requires MainAt(s) && s.main == Concluding(ph) && ConcludeStep(s, ph) == Some(t)
    requires i < |t.workers| && LocksOk(s, i) && ClaimOk(s, i)
    ensures ClaimOk(t, i)
  {
  }

  lemma ConcludeKeepsSearch(s: State, ph: Phase, t: State, i: nat)
    requires MainAt(s) && s.main == Concluding(ph) && ConcludeStep(s, ph) == Some(t)
    requires i < |t.workers| && SearchOk(s, i)
    ensures SearchOk(t, i)
  {
  }

  lemma ConcludeKeepsMain(s: State, ph: Phase, t: State)
    requires MainOk(s) && s.main == Concluding(ph) && ConcludeStep(s, ph) == Some(t)
    ensures MainOk(t)
  {
  }

  lemma ConcludeKeepsMainAt(s: State, ph: Phase, t: State)
    requires !s.starting && MainAt(s) && s.main == Concluding(ph) && ConcludeStep(s, ph) == Some(t)
    ensures MainAt(t)
  {
  }

  lemma ConcludeKeepsWinner(s: State, ph: Phase, t: State)
    requires MainAt(s) && WinnerOk(s) && OutcomeOk(s) && s.main == Concluding(ph) && ConcludeStep(s, ph) == Some(t)
    ensures WinnerOk(t)
  {
  }

  lemma ConcludeKeepsOutcome(s: State, ph: Phase, t: State)
    requires MainOk(s) && MainAt(s) && OutcomeOk(s) && s.main == Concluding(ph) && ConcludeStep(s, ph) == Some(t)
    ensures OutcomeOk(t)
  {
  }

  lemma ConnectKeeps(s: State, input: Input, t: State)
    requires Inv(s) && MainStep(s, input) == Some(t)
    ensures Inv(t)
  {
    var launching := s.main.Launching? || s.main.Waiting? || s.main.Clearing?;
    if launching {
      LaunchKeepsRest(s, input, t);
    } else if s.main.Concluding? {
      ConcludeKeepsMain(s, s.main.phase, t);
      ConcludeKeepsMainAt(s, s.main.phase, t);
      ConcludeKeepsWinner(s, s.main.phase, t);
      ConcludeKeepsOutcome(s, s.main.phase, t);
    } else {
      LookOnlyMoves(s, t);
      LookKeepsMainAt(s, t);
      LookKeepsRest(s, t);
    }
    forall i: nat | i < |t.workers|
      ensures WorkerOk(t, i)
    {
      assert i < |s.workers| ==> WorkerOk(s, i);
      if launching {
        LaunchKeepsLocks(s, input, t, i);
        LaunchKeepsClaims(s, input, t, i);
        LaunchKeepsSearch(s, input, t, i);
      } else if s.main.Concluding? {
        ConcludeKeepsLocks(s, s.main.phase, t, i);
        ConcludeKeepsClaims(s, s.main.phase, t, i);
        ConcludeKeepsSearch(s, s.main.phase, t, i);
      } else {
        LookKeepsWorker(s, t, i);
      }
    }
  }

  lemma StepKeepsInv(s: State, t: State)
    requires Inv(s) && CanStep(s, t)
    ensures Inv(t)
  {
    var who, input :| Step(s, who, input) == Some(t);
    match who
    case Connect => ConnectKeeps(s, input, t);
    case Candidate(j) =>
      CandidateKeepsEach(s, j, input, t);
      CandidateKeepsRest(s, j, input, t);
  }

  lemma {:induction false} RunKeepsInv(run: seq<State>, n: nat)
    requires IsRun(run) && n < |run|
    ensures Inv(run[n])
  {
    if n > 0 {
      RunKeepsInv(run, n - 1);
      assert Follows(run, n - 1);
      StepKeepsInv(run[n - 1], run[n]);
    }
  }
}
