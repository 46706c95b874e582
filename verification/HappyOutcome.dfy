/**
  What every interleaving of the race of src/shared/happy-eyeballs.c comes to.
 */
module HappyOutcome {
  import opened Common
  import opened HappyErrors
  import opened HappyRace

  function Last(run: seq<State>): State
    requires run != []
  {
    run[|run| - 1]
  }

  // The connect call has returned, no launch having failed, and every candidate's thread has ended.
  ghost predicate AllReturned(s: State) {
    s.main.Returned? && forall i :: 0 <= i < |s.workers| ==> s.workers[i].pc == Finished
  }

  /**
    No lost completion: once the connect call and all candidates are through, the race event is set.
   */
  lemma NoLostCompletion(run: seq<State>)
    requires IsRun(run) && AllReturned(Last(run))
    ensures Last(run).done
  {
    RunKeepsInv(run, |run| - 1);
  }

  // ----- at most one winner -----------------------------------------------

  lemma CandidateKeepsSocket(s: State, j: nat, input: Input, t: State)
    requires j < |s.workers| && WorkerOk(s, j) && WinnerOk(s) && WorkerStep(s, j, input) == Some(t)
    ensures s.socket.Some? ==> t.socket == s.socket
    ensures s.addr.Some? ==> t.addr == s.addr
  {
  }

  lemma ConnectKeepsSocket(s: State, input: Input, t: State)
    requires |s.workers| <= |s.families| && MainStep(s, input) == Some(t)
    ensures t.socket == s.socket && t.addr == s.addr
  {
  }

  lemma StepKeepsSocket(s: State, t: State)
    requires Inv(s) && CanStep(s, t)
    ensures s.socket.Some? ==> t.socket == s.socket
    ensures s.addr.Some? ==> t.addr == s.addr
  {
    var who, input :| Step(s, who, input) == Some(t);
    match who
    case Connect => ConnectKeepsSocket(s, input, t);
    case Candidate(j) =>
      assert WorkerOk(s, j);
      CandidateKeepsSocket(s, j, input, t);
  }

  /**
    The socket and the winner's address are written at most once, and for the same candidate,
    one whose connect succeeded.
   */
  lemma {:induction false} AtMostOneWinner(run: seq<State>, n: nat, m: nat)
    requires IsRun(run) && n <= m < |run|
    ensures run[n].socket.Some? ==> run[m].socket == run[n].socket
    ensures run[n].addr.Some? ==> run[m].addr == run[n].addr == run[n].socket
    ensures run[n].socket.Some? ==>
              run[n].socket.value < |run[n].workers| && HasConnected(run[n].workers[run[n].socket.value])
    decreases m
  {
    RunKeepsInv(run, n);
    if n < m {
      AtMostOneWinner(run, n, m - 1);
      RunKeepsInv(run, m - 1);
      assert Follows(run, m - 1);
      StepKeepsSocket(run[m - 1], run[m]);
    }
  }

  // ----- the attempts -----------------------------------------------------

  ghost predicate Alternates(families: seq<int>, n: nat) {
    n <= |families| && forall i {:trigger Changes(families, i)} :: 1 <= i < n ==> Changes(families, i)
  }

  predicate Changes(families: seq<int>, i: nat)
    requires 1 <= i < |families|
  {
    families[i] != families[i - 1]
  }

  lemma StepKeepsAttempts(s: State, t: State)
    requires MainOk(s) && CanStep(s, t) && Alternates(s.families, |s.workers|)
    ensures t.families == s.families && Alternates(t.families, |t.workers|)
  {
    var who, input :| Step(s, who, input) == Some(t);
  }

  /**
    The candidates are the first addresses of the list, as long as no family repeats.
   */
  lemma {:induction false} AttemptsAlternate(run: seq<State>, n: nat)
    requires IsRun(run) && n < |run|
    ensures run[n].families == run[0].families && Alternates(run[0].families, |run[n].workers|)
  {
    if n > 0 {
      var s := run[n - 1];
      AttemptsAlternate(run, n - 1);
      RunKeepsInv(run, n - 1);
      assert Follows(run, n - 1);
      StepKeepsAttempts(s, run[n]);
    }
  }

  // ----- every run ends ---------------------------------------------------

  function PhaseRank(ph: Phase): nat {
    match ph
    case CheckFlag => 8
    case CheckRace => 7
    case Gather => 6
    case SetError(_) => 5
    case TryRace => 4
    case Signal => 3
  }

  function Rank(w: Worker): (r: nat)
    ensures r <= 30
  {
    match w.pc
    case Ready => 30
    case Connecting => 29
    case Connected(_) => 28
    case Locked(_) => 27
    case Told(_) => 26
    case Claiming => 25
    case SocketSet => 24
    case AddrSet => 23
    case Announcing => 22
    case Unlocking => 21
    case Flagged(_) => 25
    case Scanning(at, _) => 10 + Max(0, MAX_ATTEMPTS - at)
    case Scanned(_) => 9
    case Closing(ph) => PhaseRank(ph)
    case Finished => 0
  }

  function MainRank(main: MainPc, launched: nat): nat {
    match main
    case Launching => 102 + 40 * Max(0, MAX_ATTEMPTS - launched)
    case Waiting => 103 + 40 * Max(0, MAX_ATTEMPTS - launched)
    case Clearing => 60
    case Asking(last) => if last then 20 else 59
    case Judging(last, _) => if last then 19 else 58
    case Counting(at, _) => 40 + Max(0, MAX_ATTEMPTS - at)
    case Concluding(ph) => 30 + PhaseRank(ph)
    case Returned(_) => 0
    case Aborted => 0
  }

  function TotalRank(ws: seq<Worker>): nat {
    if ws == [] then 0 else TotalRank(ws[..|ws| - 1]) + Rank(ws[|ws| - 1])
  }

  function StateRank(s: State): nat {
    MainRank(s.main, |s.workers|) + TotalRank(s.workers)
  }

  lemma {:induction false} TotalRankOfUpdate(ws: seq<Worker>, j: nat, w: Worker)
    requires j < |ws|
    ensures TotalRank(ws[j := w]) == TotalRank(ws) - Rank(ws[j]) + Rank(w)
    decreases |ws|
  {
    var n := |ws| - 1;
    if j == n {
      assert ws[j := w][..n] == ws[..n];
    } else {
      assert ws[j := w][..n] == ws[..n][j := w];
      TotalRankOfUpdate(ws[..n], j, w);
    }
  }

  lemma TrySinks(s: State, j: nat, input: Input, t: State)
    requires j < |s.workers| <= MAX_ATTEMPTS && Early(s.workers[j].pc) && TryStep(s, j, input) == Some(t)
    ensures t.main == s.main && t.workers == s.workers[j := t.workers[j]] && Rank(t.workers[j]) < Rank(s.workers[j])
  {
  }

  lemma WinSinks(s: State, j: nat, t: State)
    requires j < |s.workers| <= MAX_ATTEMPTS && Winning(s.workers[j].pc) && WinStep(s, j) == Some(t)
    ensures t.main == s.main && t.workers == s.workers[j := t.workers[j]] && Rank(t.workers[j]) < Rank(s.workers[j])
  {
  }

  lemma LoseSinks(s: State, j: nat, t: State)
    requires j < |s.workers| <= MAX_ATTEMPTS && !Early(s.workers[j].pc) && LoseStep(s, j) == Some(t)
    ensures t.main == s.main && t.workers == s.workers[j := t.workers[j]] && Rank(t.workers[j]) < Rank(s.workers[j])
  {
  }

  lemma CloseSinks(s: State, j: nat, ph: Phase, t: State)
    requires j < |s.workers| <= MAX_ATTEMPTS && s.workers[j].pc == Closing(ph) && CloseStep(s, j, ph) == Some(t)
    ensures t.main == s.main && t.workers == s.workers[j := t.workers[j]] && Rank(t.workers[j]) < Rank(s.workers[j])
  {
  }

  lemma CandidateSinks(s: State, j: nat, input: Input, t: State)
    requires j < |s.workers| <= MAX_ATTEMPTS && WorkerStep(s, j, input) == Some(t)
    ensures StateRank(t) < StateRank(s)
  {
    var pc := s.workers[j].pc;
    if Early(pc) {
      TrySinks(s, j, input, t);
    } else if Winning(pc) {
      WinSinks(s, j, t);
    } else if pc.Closing? {
      CloseSinks(s, j, pc.phase, t);
    } else {
      LoseSinks(s, j, t);
    }
    TotalRankOfUpdate(s.workers, j, t.workers[j]);
  }

  lemma LaunchSinks(s: State, input: Input, t: State)
    requires MainOk(s) && LaunchStep(s, input) == Some(t)
    ensures StateRank(t) < StateRank(s)
  {
    if t.workers != s.workers {
      assert t.workers[..|s.workers|] == s.workers;
    }
  }

  lemma LookSinks(s: State, t: State)
    requires |s.workers| <= MAX_ATTEMPTS && LookStep(s) == Some(t)
    ensures StateRank(t) < StateRank(s)
  {
  }

  lemma ConcludeSinks(s: State, ph: Phase, t: State)
    requires s.main == Concluding(ph) && ConcludeStep(s, ph) == Some(t)
    ensures StateRank(t) < StateRank(s)
  {
  }

  lemma StepSinks(s: State, t: State)
    requires Inv(s) && CanStep(s, t)
    ensures StateRank(t) < StateRank(s)
  {
    var who, input :| Step(s, who, input) == Some(t);
    match who
    case Connect =>
      if s.main.Launching? || s.main.Waiting? || s.main.Clearing? {
        LaunchSinks(s, input, t);
      } else if s.main.Concluding? {
        ConcludeSinks(s, s.main.phase, t);
      } else {
        LookSinks(s, t);
      }
    case Candidate(j) => CandidateSinks(s, j, input, t);
  }

  lemma {:induction false} RunsAreShort(run: seq<State>, n: nat)
    requires IsRun(run) && n < |run|
    ensures n + StateRank(run[n]) <= 342
  {
    if n > 0 {
      RunsAreShort(run, n - 1);
      RunKeepsInv(run, n - 1);
      assert Follows(run, n - 1);
      StepSinks(run[n - 1], run[n]);
    }
  }

  lemma CandidateCanMove(s: State, j: nat)
    requires Inv(s) && j < |s.workers| && !s.workers[j].pc.Finished?
    ensures s.winnerMutex.None? && s.candidateMutex.None? ==> WorkerStep(s, j, Success).Some?
    ensures s.winnerMutex == Some(j) && s.candidateMutex.None? ==> WorkerStep(s, j, Success).Some?
    ensures s.candidateMutex == Some(j) ==> WorkerStep(s, j, Success).Some?
  {
    assert WorkerOk(s, j);
  }

  // Whoever holds a mutex can go on, so the two mutexes never block everybody.
  lemma NeverStuck(s: State)
    requires Inv(s) && !AllReturned(s) && !s.main.Aborted?
    ensures exists t :: CanStep(s, t)
  {
    if s.candidateMutex.Some? {
      Moves(s, s.candidateMutex.value);
    } else if s.winnerMutex.Some? {
      Moves(s, s.winnerMutex.value);
    } else if !s.main.Returned? {
      var r := MainStep(s, Success);
      assert Step(s, Connect, Success) == Some(r.value);
      assert CanStep(s, r.value);
    } else {
      var j: nat :| j < |s.workers| && s.workers[j].pc != Finished;
      Moves(s, j);
    }
  }

  lemma Moves(s: State, j: nat)
    requires Inv(s) && j < |s.workers|
    requires s.candidateMutex == Some(j) || (s.candidateMutex.None? && s.winnerMutex == Some(j))
             || (s.candidateMutex.None? && s.winnerMutex.None? && !s.workers[j].pc.Finished?)
    ensures exists t :: CanStep(s, t)
  {
    assert WorkerOk(s, j);
    CandidateCanMove(s, j);
    var r := WorkerStep(s, j, Success);
    assert Step(s, Candidate(j), Success) == Some(r.value);
    assert CanStep(s, r.value);
  }

  /**
    Every run is finite, and one that can go no further has completed the race unless a
    launch failed.
   */
  lemma EveryRunCompletes(run: seq<State>)
    requires IsRun(run)
    ensures |run| <= 343
    ensures (forall t :: !CanStep(Last(run), t)) && !Last(run).main.Aborted? ==> Last(run).done
  {
    RunsAreShort(run, |run| - 1);
    var s := Last(run);
    RunKeepsInv(run, |run| - 1);
    if (forall t :: !CanStep(s, t)) && !s.main.Aborted? {
      if !AllReturned(s) {
        NeverStuck(s);
      }
      NoLostCompletion(run);
    }
  }
}
