/**
  What the runs of HappyRace are runs of: which actor took each step and what the outside
  answered. From that follows what each candidate's error and the call's answer tell, and
  what still happens once the race is over.
 */
module HappyMeaning {
  import opened Common
  import opened HappyErrors
  import opened HappyRace
  import opened HappyOutcome
  import opened HappyWindow

  // Step n is taken by whos[n], and inputs[n] is what the outside answers.
  ghost predicate IsTrace(run: seq<State>, whos: seq<Actor>, inputs: seq<Input>) {
    && IsRun(run) && |run| == |whos| + 1 == |inputs| + 1
    && forall n {:trigger Taken(run, whos, inputs, n)} :: 0 <= n < |whos| ==> Taken(run, whos, inputs, n)
  }

  ghost predicate Taken(run: seq<State>, whos: seq<Actor>, inputs: seq<Input>, n: nat)
    requires n < |whos| && |run| == |whos| + 1 == |inputs| + 1
  {
    |run[n].workers| <= |run[n].families| && Step(run[n], whos[n], inputs[n]) == Some(run[n + 1])
  }

  /**
    Every run has been taken by somebody.
   */
  lemma {:induction false} RunHasATrace(run: seq<State>) returns (whos: seq<Actor>, inputs: seq<Input>)
    requires IsRun(run)
    ensures IsTrace(run, whos, inputs)
    decreases |run|
  {
    hide Step;
    whos, inputs := [], [];
    var n := |run| - 1;
    if n > 0 {
      var front := run[..n];
      forall k | 0 <= k < n - 1
        ensures Follows(front, k)
      {
        assert Follows(run, k);
      }
      whos, inputs := RunHasATrace(front);
      assert Follows(run, n - 1);
      var who, input :| Step(run[n - 1], who, input) == Some(run[n]);
      var whos', inputs' := whos + [who], inputs + [input];
      forall k: nat | k < n
        ensures Taken(run, whos', inputs', k)
      {
        if k < n - 1 {
          assert Taken(front, whos, inputs, k);
        }
      }
      whos, inputs := whos', inputs';
    }
  }

  // ----- what a candidate's error tells ------------------------------------

  // In step m candidate i's connect comes back.
  ghost predicate ConnectEnds(run: seq<State>, whos: seq<Actor>, m: nat, i: nat) {
    m < |whos| && m < |run| && whos[m] == Candidate(i) && i < |run[m].workers| && run[m].workers[i].pc == Connecting
  }

  ghost predicate EndedWith(run: seq<State>, whos: seq<Actor>, inputs: seq<Input>, n: nat, i: nat, input: Input) {
    exists m: nat :: m < n && m < |inputs| && ConnectEnds(run, whos, m, i) && inputs[m] == input
  }

  ghost predicate Recorded(run: seq<State>, whos: seq<Actor>, inputs: seq<Input>, n: nat, i: nat, w: Worker) {
    && (w.pc.Ready? || w.pc.Connecting? ==> forall m: nat :: m < n ==> !ConnectEnds(run, whos, m, i))
    && (w.error != 0 ==> EndedWith(run, whos, inputs, n, i, Fails(w.error)))
    && (Winning(w.pc) || HasConnected(w) ==> EndedWith(run, whos, inputs, n, i, Success))
    && (forall m: nat :: m < n && m < |inputs| && ConnectEnds(run, whos, m, i) ==>
          w.error == if inputs[m].Success? then 0 else inputs[m].error)
  }

  lemma OthersLeaveIt(s: State, who: Actor, input: Input, t: State, i: nat)
    requires |s.workers| <= |s.families| && Step(s, who, input) == Some(t) && i < |s.workers| && who != Candidate(i)
    ensures i < |t.workers| && t.workers[i] == s.workers[i]
  {
    match who
    case Connect =>
    case Candidate(j) => EachOnItsOwn(s, j, input, t);
  }

  // A candidate's step changes no other candidate.
  lemma EachOnItsOwn(s: State, j: nat, input: Input, t: State)
    requires j < |s.workers| && WorkerStep(s, j, input) == Some(t)
    ensures |t.workers| == |s.workers| && t.workers == s.workers[j := t.workers[j]] && t.main == s.main
  {
    var pc := s.workers[j].pc;
    if Early(pc) {
      TryOnItsOwn(s, j, input, t);
    } else if Winning(pc) {
    } else if pc.Closing? {
    } else {
      LoseOnItsOwn(s, j, t);
    }
  }

  lemma TryOnItsOwn(s: State, j: nat, input: Input, t: State)
    requires j < |s.workers| && TryStep(s, j, input) == Some(t)
    ensures |t.workers| == |s.workers| && t.workers == s.workers[j := t.workers[j]] && t.main == s.main
  {
  }

  lemma LoseOnItsOwn(s: State, j: nat, t: State)
    requires j < |s.workers| && LoseStep(s, j) == Some(t)
    ensures |t.workers| == |s.workers| && t.workers == s.workers[j := t.workers[j]] && t.main == s.main
  {
  }

  /**
    What connect comes back with is what the candidate's error becomes: 0 if it connected.
   */
  lemma ConnectMeans(s: State, i: nat, input: Input, t: State)
    requires i < |s.workers| <= |s.families| && s.workers[i].pc == Connecting && Step(s, Candidate(i), input) == Some(t)
    ensures |t.workers| == |s.workers| && t.workers[i].signalled == s.workers[i].signalled
    ensures input.Success? ==> t.workers[i].pc == Connected(true) && t.workers[i].error == s.workers[i].error
    ensures input.Fails? ==> t.workers[i].pc == Connected(false) && t.workers[i].error == input.error != 0
  {
  }

  lemma ElseItStays(s: State, i: nat, input: Input, t: State)
    requires i < |s.workers| <= |s.families| && s.workers[i].pc != Connecting && Step(s, Candidate(i), input) == Some(t)
    requires LocksOk(s, i)
    ensures |t.workers| == |s.workers|
    ensures var w, u := s.workers[i], t.workers[i];
            && u.error == w.error && !u.pc.Ready? && (u.pc.Connecting? ==> w.pc.Ready?)
            && (Winning(u.pc) || HasConnected(u) ==> Winning(w.pc) || HasConnected(w))
  {
    var pc := s.workers[i].pc;
    if Early(pc) {
      EarlyStays(s, i, input, t);
    } else if Winning(pc) {
    } else if pc.Closing? {
    } else {
      LostStays(s, i, t);
    }
  }

  lemma EarlyStays(s: State, i: nat, input: Input, t: State)
    requires i < |s.workers| && s.workers[i].pc != Connecting && TryStep(s, i, input) == Some(t) && LocksOk(s, i)
    ensures |t.workers| == |s.workers|
    ensures var w, u := s.workers[i], t.workers[i];
            && u.error == w.error && !u.pc.Ready? && (u.pc.Connecting? ==> w.pc.Ready?)
            && (Winning(u.pc) || HasConnected(u) ==> Winning(w.pc) || HasConnected(w))
  {
  }

  lemma LostStays(s: State, i: nat, t: State)
    requires i < |s.workers| && !Winning(s.workers[i].pc) && LoseStep(s, i) == Some(t)
    ensures |t.workers| == |s.workers|
    ensures var w, u := s.workers[i], t.workers[i];
            && u.error == w.error && !u.pc.Ready? && !u.pc.Connecting? && !Winning(u.pc)
            && (HasConnected(u) ==> HasConnected(w))
  {
  }

  lemma {:induction false} WorkersGrow(run: seq<State>, m: nat, n: nat)
    requires IsRun(run) && m <= n < |run|
    ensures |run[m].workers| <= |run[n].workers|
    decreases n
  {
    if m < n {
      WorkersGrow(run, m, n - 1);
      assert Follows(run, n - 1);
      StepAddsWorkers(run[n - 1], run[n]);
    }
  }

  lemma StepAddsWorkers(s: State, t: State)
    requires CanStep(s, t)
    ensures |s.workers| <= |t.workers| <= |s.workers| + 1
    ensures |t.workers| > |s.workers| ==>
              s.main.Launching? && t.main.Waiting? && t.workers == s.workers + [Worker(Ready, false, 0)]
  {
  }

  lemma RecordedOneMore(run: seq<State>, whos: seq<Actor>, inputs: seq<Input>, n: nat, i: nat, w: Worker)
    requires |run| == |whos| + 1 == |inputs| + 1 && n < |whos|
    requires Recorded(run, whos, inputs, n, i, w) && !ConnectEnds(run, whos, n, i)
    ensures Recorded(run, whos, inputs, n + 1, i, w)
  {
    if w.error != 0 {
      var m: nat :| m < n && m < |inputs| && ConnectEnds(run, whos, m, i) && inputs[m] == Fails(w.error);
    }
    if Winning(w.pc) || HasConnected(w) {
      var m: nat :| m < n && m < |inputs| && ConnectEnds(run, whos, m, i) && inputs[m] == Success;
    }
  }

  lemma {:induction false} RunRecords(run: seq<State>, whos: seq<Actor>, inputs: seq<Input>, n: nat, i: nat)
    requires IsTrace(run, whos, inputs) && n < |run| && i < |run[n].workers|
    ensures Recorded(run, whos, inputs, n, i, run[n].workers[i])
  {
    hide Inv, Step, WorkerStep, MainStep;
    if n > 0 {
      var s, t := run[n - 1], run[n];
      RunKeepsInv(run, n - 1);
      assert Taken(run, whos, inputs, n - 1) && Follows(run, n - 1);
      StepAddsWorkers(s, t);
      if i == |s.workers| {
        forall m: nat | m < n
          ensures !ConnectEnds(run, whos, m, i)
        {
          WorkersGrow(run, m, n - 1);
        }
      } else {
        RunRecords(run, whos, inputs, n - 1, i);
        RecordedStep(run, whos, inputs, n - 1, i);
      }
    }
  }

  lemma RecordedNow(run: seq<State>, whos: seq<Actor>, inputs: seq<Input>, n: nat, i: nat)
    requires |run| == |whos| + 1 == |inputs| + 1 && n < |whos|
    requires Taken(run, whos, inputs, n) && ConnectEnds(run, whos, n, i)
    requires LocksOk(run[n], i) && Recorded(run, whos, inputs, n, i, run[n].workers[i])
    ensures i < |run[n + 1].workers| && Recorded(run, whos, inputs, n + 1, i, run[n + 1].workers[i])
  {
    hide Step, WorkerStep, MainStep;
    var input := inputs[n];
    ConnectMeans(run[n], i, input, run[n + 1]);
    assert input == if input.Success? then Success else Fails(input.error);
    assert EndedWith(run, whos, inputs, n + 1, i, input);
  }

  lemma RecordedStep(run: seq<State>, whos: seq<Actor>, inputs: seq<Input>, n: nat, i: nat)
    requires IsTrace(run, whos, inputs) && n < |whos| && Inv(run[n]) && Taken(run, whos, inputs, n)
    requires i < |run[n].workers| && Recorded(run, whos, inputs, n, i, run[n].workers[i])
    ensures i < |run[n + 1].workers| && Recorded(run, whos, inputs, n + 1, i, run[n + 1].workers[i])
  {
    hide Step, WorkerStep, MainStep;
    var s, t := run[n], run[n + 1];
    if whos[n] != Candidate(i) {
      OthersLeaveIt(s, whos[n], inputs[n], t, i);
      RecordedOneMore(run, whos, inputs, n, i, s.workers[i]);
    } else {
      assert WorkerOk(s, i);
      if s.workers[i].pc == Connecting {
        RecordedNow(run, whos, inputs, n, i);
      } else {
        RecordedOneMore(run, whos, inputs, n, i, s.workers[i]);
        ElseItStays(s, i, inputs[n], t);
      }
    }
  }

  /**
    In every run a candidate has an error just when its connect failed, and then it is the one
    connect failed with; it counts as connected just when its connect succeeded and it has told.
   */
  lemma ResultsAreRecorded(run: seq<State>, whos: seq<Actor>, inputs: seq<Input>, n: nat, i: nat)
    requires IsTrace(run, whos, inputs) && n < |run| && i < |run[n].workers|
    ensures var w := run[n].workers[i];
            && (forall e :: e != 0 ==> (w.error == e <==> EndedWith(run, whos, inputs, n, i, Fails(e))))
            && (w.signalled && w.error == 0 <==> w.signalled && EndedWith(run, whos, inputs, n, i, Success))
  {
    hide Inv, Step;
    RunRecords(run, whos, inputs, n, i);
  }

  // ----- when the race is over --------------------------------------------

  lemma StepKeepsDone(s: State, t: State)
    requires CanStep(s, t) && s.done
    ensures t.done
  {
    var who, input :| Step(s, who, input) == Some(t);
    match who
    case Connect =>
    case Candidate(j) => CandidateKeepsDone(s, j, input, t);
  }

  lemma CandidateKeepsDone(s: State, j: nat, input: Input, t: State)
    requires j < |s.workers| && WorkerStep(s, j, input) == Some(t) && s.done
    ensures t.done
  {
  }

  lemma {:induction false} DoneStays(run: seq<State>, n: nat, m: nat)
    requires IsRun(run) && n <= m < |run| && run[n].done
    ensures run[m].done
    decreases m
  {
    if n < m {
      DoneStays(run, n, m - 1);
      assert Follows(run, m - 1);
      StepKeepsDone(run[m - 1], run[m]);
    }
  }

  // The candidates there are or will be if the dispatch loop ends at its next pause.
  function Launches(s: State): nat {
    |s.workers| + if s.main.Launching? then 1 else 0
  }

  lemma DoneEndsLaunching(s: State, t: State)
    requires CanStep(s, t) && s.done
    ensures Launches(t) <= Launches(s)
  {
    hide WorkerStep, Close;
    var who, input :| Step(s, who, input) == Some(t);
    match who
    case Connect =>
    case Candidate(j) => EachOnItsOwn(s, j, input, t);
  }

  /**
    Once the race is over the dispatch loop launches no further candidate, but for the one it
    was about to launch.
   */
  lemma {:induction false} NoLaunchAfterTheRace(run: seq<State>, n: nat, m: nat)
    requires IsRun(run) && n <= m < |run| && run[n].done
    ensures |run[m].workers| <= |run[n].workers| + if run[n].main.Launching? then 1 else 0
    ensures Launches(run[m]) <= Launches(run[n])
    decreases m
  {
    if n < m {
      NoLaunchAfterTheRace(run, n, m - 1);
      DoneStays(run, n, m - 1);
      assert Follows(run, m - 1);
      DoneEndsLaunching(run[m - 1], run[m]);
    }
  }

  // Has neither connected nor failed, and is not about to.
  predicate NeverTried(w: Worker) {
    (w.pc.Ready? || w.pc.Finished?) && !w.signalled && w.error == 0
  }

  lemma StaysUntried(s: State, t: State, i: nat)
    requires CanStep(s, t) && s.done && i < |s.workers| && NeverTried(s.workers[i])
    ensures i < |t.workers| && NeverTried(t.workers[i])
  {
    hide MainStep;
    var who, input :| Step(s, who, input) == Some(t);
    if who != Candidate(i) {
      OthersLeaveIt(s, who, input, t, i);
    }
  }

  /**
    A candidate that has not yet looked at the race event when the race is over, or is launched
    only then, never connects.
   */
  lemma {:induction false} TooLateToTry(run: seq<State>, n: nat, m: nat, i: nat)
    requires IsRun(run) && n <= m < |run| && run[n].done && i < |run[m].workers|
    requires i < |run[n].workers| ==> run[n].workers[i].pc.Ready?
    ensures NeverTried(run[m].workers[i])
    decreases m
  {
    hide Inv, Step;
    if n == m {
      RunKeepsInv(run, n);
      ReadyIsUntried(run[n], i);
    } else {
      var s, t := run[m - 1], run[m];
      assert Follows(run, m - 1);
      StepAddsWorkers(s, t);
      if i < |s.workers| {
        TooLateToTry(run, n, m - 1, i);
        DoneStays(run, n, m - 1);
        StaysUntried(s, t, i);
      }
    }
  }

  lemma ReadyIsUntried(s: State, i: nat)
    requires Inv(s) && i < |s.workers| && s.workers[i].pc.Ready?
    ensures NeverTried(s.workers[i])
  {
    assert WorkerOk(s, i);
  }

  /**
    Who ends the race and when: a candidate sets about it only while there is no error on the
    context; nobody passes the flag while the call still launches, gathers the errors or signals
    once the race is seen to be over, or gathers them while a candidate scans.
   */
  lemma EndsOnlyOpenRaces(s: State, ph: Phase)
    ensures Close(s, ph) == None <==> ph.Gather? && s.candidateMutex.Some?
    ensures Close(s, ph).Some? && Close(s, ph).value.1.Some? ==>
              var next := Close(s, ph).value.1.value;
              && (next.CheckRace? ==> !s.starting) && (next.Gather? ==> !s.done) && (next.Signal? ==> !s.done)
    ensures Close(s, ph).Some? && Close(s, ph).value.1.None? ==>
              (ph.CheckFlag? && s.starting) || (ph.CheckRace? && s.done) || (ph.TryRace? && s.done) || ph.Signal?
  {
  }

  lemma EndsOnlyWithoutError(s: State, i: nat, input: Input, t: State)
    requires i < |s.workers| && WorkerStep(s, i, input) == Some(t) && i < |t.workers|
    requires !s.workers[i].pc.Closing? && t.workers[i].pc.Closing?
    ensures s.error == 0 && s.workers[i].pc == Scanned(false) && t.workers[i].pc.phase.CheckFlag?
  {
    var pc := s.workers[i].pc;
    if Early(pc) {
      TryGoesOn(s, i, input, t);
    } else if Winning(pc) {
      WinGoesOn(s, i, t);
    } else {
      LoseGoesOn(s, i, t);
    }
  }

  lemma TryGoesOn(s: State, i: nat, input: Input, t: State)
    requires i < |s.workers| && TryStep(s, i, input) == Some(t) && i < |t.workers|
    ensures var pc := t.workers[i].pc; pc.Finished? || Early(pc) || pc.Told?
  {
  }

  lemma WinGoesOn(s: State, i: nat, t: State)
    requires i < |s.workers| && WinStep(s, i) == Some(t) && i < |t.workers|
    ensures var pc := t.workers[i].pc;
            && (pc.Finished? || pc.Claiming? || pc.SocketSet? || pc.AddrSet? || pc.Announcing? || pc.Unlocking?)
            && (pc.Claiming? || pc.Announcing? ==> !s.done)
            && (pc.Unlocking? ==> s.done || s.workers[i].pc.Announcing?)
  {
  }

  lemma LoseGoesOn(s: State, i: nat, t: State)
    requires i < |s.workers| && LoseStep(s, i) == Some(t) && i < |t.workers|
    ensures var pc := t.workers[i].pc;
            && (pc.Flagged? || pc.Scanning? || pc.Scanned? || pc.Finished? || pc.Closing?)
            && (pc.Closing? ==> s.error == 0 && s.workers[i].pc == Scanned(false) && pc.phase.CheckFlag?)
  {
  }

  /**
    The call counts the candidates that have not told only while it sees the race open and no
    error, and sets about ending the race only if there are none.
   */
  lemma CountsOnlyOpenRaces(s: State, input: Input, t: State)
    requires |s.workers| <= |s.families| && Step(s, Connect, input) == Some(t)
    ensures t.main.Counting? && !s.main.Counting? ==>
              s.main == Judging(false, true) && s.error == 0 && t.main == Counting(0, 0)
    ensures s.main.Counting? && s.main.at < |s.workers| ==>
              t.main == Counting(s.main.at + 1, s.main.active + if s.workers[s.main.at].signalled then 0 else 1)
    ensures t.main.Concluding? && !s.main.Concluding? ==>
              s.main.Counting? && s.main.at >= |s.workers| && s.main.active == 0 && t.main.phase.CheckFlag?
  {
  }

  /**
    The winner: only who still finds the race open after its connect takes the socket, and it
    announces itself only then.
   */
  lemma WinsOnlyOpenRaces(s: State, i: nat, input: Input, t: State)
    requires i < |s.workers| && WorkerStep(s, i, input) == Some(t) && i < |t.workers|
    requires s.workers[i].pc != t.workers[i].pc
    ensures t.workers[i].pc.Claiming? || t.workers[i].pc.Announcing? ==> !s.done
    ensures t.workers[i].pc.Unlocking? ==> s.done || s.workers[i].pc.Announcing?
  {
    var pc := s.workers[i].pc;
    if Early(pc) {
      TryGoesOn(s, i, input, t);
    } else if Winning(pc) {
      WinGoesOn(s, i, t);
    } else if !pc.Closing? {
      LoseGoesOn(s, i, t);
    }
  }

  // ----- what the call answers --------------------------------------------

  // The state in which the call looked at the race event before it came to n.
  ghost predicate Looked(run: seq<State>, n: nat, last: bool, open: bool) {
    exists a: nat :: a < n && a < |run| && run[a].main == Asking(last) && open == !run[a].done
  }

  // ... and the one in which it then looked at the error.
  ghost predicate Answered(run: seq<State>, n: nat, status: Status) {
    exists b: nat :: b < n && b < |run| && AnswersAt(run, b, status)
  }

  ghost predicate AnswersAt(run: seq<State>, b: nat, status: Status)
    requires b < |run|
  {
    if run[b].error != 0 then run[b].main.Judging? && run[b].main.last && status == Failure
    else exists open :: run[b].main == Judging(true, open) && Looked(run, b, true, open)
                        && status == if open then Again else Done
  }

  ghost predicate AnswerOk(run: seq<State>, n: nat, main: MainPc) {
    && (main.Judging? ==> Looked(run, n, main.last, main.open))
    && (main.Returned? ==> Answered(run, n, main.status))
  }

  lemma AnswerStays(run: seq<State>, n: nat, main: MainPc)
    requires AnswerOk(run, n, main)
    ensures AnswerOk(run, n + 1, main)
  {
  }

  /**
    The answer of the call is what its last look saw: a failure if there was an error, else
    done or not as the race event was, one step of the call earlier.
   */
  lemma {:induction false} AnswerIsWhatItSaw(run: seq<State>, n: nat)
    requires IsRun(run) && n < |run|
    ensures run[n].main.Judging? ==> Looked(run, n, run[n].main.last, run[n].main.open)
    ensures run[n].main.Returned? ==> Answered(run, n, run[n].main.status)
  {
    hide Looked, Answered;
    if n > 0 {
      AnswerIsWhatItSaw(run, n - 1);
      assert Follows(run, n - 1);
      AnswerStep(run, n - 1);
    }
  }

  lemma AnswerStep(run: seq<State>, n: nat)
    requires IsRun(run) && n + 1 < |run| && CanStep(run[n], run[n + 1]) && AnswerOk(run, n, run[n].main)
    ensures AnswerOk(run, n + 1, run[n + 1].main)
  {
    var s, t := run[n], run[n + 1];
    var who, input :| Step(s, who, input) == Some(t);
    if t.main == s.main {
      AnswerStays(run, n, s.main);
    } else {
      MainMoves(s, who, input, t);
      if t.main.Returned? {
        assert AnswersAt(run, n, t.main.status);
      }
    }
  }

  lemma MainMoves(s: State, who: Actor, input: Input, t: State)
    requires |s.workers| <= |s.families| && Step(s, who, input) == Some(t) && t.main != s.main
    ensures t.main.Judging? ==> s.main == Asking(t.main.last) && t.main.open == !s.done
    ensures t.main.Returned? ==>
              && s.main.Judging? && s.main.last
              && t.main.status == if s.error != 0 then Failure else if s.main.open then Again else Done
  {
    match who
    case Connect =>
    case Candidate(j) => EachOnItsOwn(s, j, input, t);
  }

  /**
    The call breaks off only when a launch fails, before any candidate is added for it, and with
    the error it failed with.
   */
  lemma AbortsWithItsError(s: State, input: Input, t: State)
    requires |s.workers| <= |s.families| && Step(s, Connect, input) == Some(t) && t.main.Aborted?
    ensures s.main.Launching? && input == Fails(t.error) && t.workers == s.workers && t.done == s.done
  {
    assert input == if input.Success? then Success else Fails(input.error);
  }

  // ----- the numbers ------------------------------------------------------

  /**
    At most six candidates are ever launched; if the launch loop ended with fewer and the race
    is open, the list has ended there or repeats a family.
   */
  lemma SixAttempts(run: seq<State>, n: nat)
    requires IsRun(run) && n < |run|
    ensures |run[n].workers| <= 6
    ensures run[n].main.Clearing? && !run[n].done && |run[n].workers| < 6 ==>
              var k := |run[n].workers|;
              k == |run[0].families| || (1 <= k < |run[0].families| && run[0].families[k] == run[0].families[k - 1])
  {
    RunKeepsWindow(run, n);
  }
}
