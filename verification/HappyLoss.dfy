/**
  A run through the window of HappyWindow from any address list, and so exactly which lists
  keep what the connect call promises.
 */
module HappyLoss {
  import opened Common
  import opened HappyErrors
  import opened HappyRace
  import opened HappyOutcome
  import opened HappyWindow

  // ----- a run through the window, from any list --------------------------

  // A candidate that has failed and ended.
  const FALLEN: Worker := Worker(Finished, true, 1)

  function Front(pc: WorkerPc): Worker {
    Worker(pc, pc.Told? || pc.Unlocking? || pc.Finished?, 0)
  }

  // The first of n candidates is on its way, the others have failed.
  function Racing(fs: seq<int>, n: pos, main: MainPc, pc: WorkerPc, done: bool, error: int, hasty: bool): State {
    var starting := main.Launching? || main.Waiting? || main.Clearing?;
    State(fs, [Front(pc)] + seq(n - 1, i => FALLEN), main, starting, done, error,
          None, None, if HoldsWinner(pc) then Some(0) else None, None, hasty)
  }

  // s with one more candidate, which holds the mutexes its position says.
  function Joined(s: State, w: Worker): State {
    var last := Some(|s.workers|);
    s.(workers := s.workers + [w],
       winnerMutex := if HoldsWinner(w.pc) then last else None, candidateMutex := if w.pc.Scanning? then last else None)
  }

  lemma Extend(run: seq<State>, who: Actor, input: Input, t: State) returns (longer: seq<State>)
    requires IsRun(run) && |Last(run).workers| <= |Last(run).families| && Step(Last(run), who, input) == Some(t)
    ensures longer == run + [t] && IsRun(longer) && Last(longer) == t && longer[0] == run[0]
  {
    longer := run + [t];
    forall n | 0 <= n < |longer| - 1
      ensures Follows(longer, n)
    {
      if n < |run| - 1 {
        assert Follows(run, n);
      } else {
        assert CanStep(longer[n], longer[n + 1]);
      }
    }
  }

  lemma JoinedMoves(run: seq<State>, s: State, w: Worker, next: Worker) returns (longer: seq<State>)
    requires IsRun(run) && Last(run) == Joined(s, w) && |s.workers| < |s.families| && s.starting && !s.done
    requires (w, next) in {(Worker(Ready, false, 0), Worker(Connecting, false, 0)),
                           (Worker(Connecting, false, 0), Worker(Connected(false), false, 1)),
                           (Worker(Connected(false), false, 1), Worker(Locked(false), false, 1)),
                           (Worker(Locked(false), false, 1), Worker(Told(false), true, 1)),
                           (Worker(Told(false), true, 1), Worker(Flagged(true), true, 1)),
                           (Worker(Flagged(true), true, 1), Worker(Scanning(0, true), true, 1)),
                           (Worker(Scanning(0, true), true, 1), Worker(Scanned(true), true, 1)),
                           (Worker(Scanned(true), true, 1), FALLEN)}
    ensures IsRun(longer) && Last(longer) == Joined(s, next) && longer[0] == run[0]
  {
    var j := |s.workers|;
    assert Joined(s, w).workers[j := next] == s.workers + [next];
    longer := Extend(run, Candidate(j), if w.pc.Connecting? then Fails(1) else Success, Joined(s, next));
  }

  // While the launch goes on a candidate that fails leaves the race to the others.
  lemma JoinsAndFalls(run: seq<State>, s: State) returns (longer: seq<State>)
    requires IsRun(run) && Last(run) == Joined(s, Worker(Ready, false, 0))
    requires |s.workers| < |s.families| && s.starting && !s.done
    ensures IsRun(longer) && Last(longer) == Joined(s, FALLEN) && longer[0] == run[0]
  {
    longer := JoinedMoves(run, s, Worker(Ready, false, 0), Worker(Connecting, false, 0));
    longer := JoinedMoves(longer, s, Worker(Connecting, false, 0), Worker(Connected(false), false, 1));
    longer := JoinedMoves(longer, s, Worker(Connected(false), false, 1), Worker(Locked(false), false, 1));
    longer := JoinedMoves(longer, s, Worker(Locked(false), false, 1), Worker(Told(false), true, 1));
    longer := JoinedMoves(longer, s, Worker(Told(false), true, 1), Worker(Flagged(true), true, 1));
    longer := JoinedMoves(longer, s, Worker(Flagged(true), true, 1), Worker(Scanning(0, true), true, 1));
    longer := JoinedMoves(longer, s, Worker(Scanning(0, true), true, 1), Worker(Scanned(true), true, 1));
    longer := JoinedMoves(longer, s, Worker(Scanned(true), true, 1), FALLEN);
  }

  lemma OneMoreFallen(fs: seq<int>, n: pos, main: MainPc)
    ensures Joined(Racing(fs, n, main, Ready, false, 0, false), FALLEN)
            == Racing(fs, n + 1, main, Ready, false, 0, false)
  {
  }

  // One more launch.
  lemma LaunchesOne(run: seq<State>, fs: seq<int>, n: pos) returns (longer: seq<State>)
    requires IsRun(run) && n <= |fs| && Last(run) == Racing(fs, n, Launching, Ready, false, 0, false)
    requires !LaunchOver(Last(run))
    ensures IsRun(longer) && Last(longer) == Racing(fs, n + 1, Launching, Ready, false, 0, false) && longer[0] == run[0]
  {
    var s := Racing(fs, n, Waiting, Ready, false, 0, false);
    longer := Extend(run, Connect, Success, Joined(s, Worker(Ready, false, 0)));
    longer := JoinsAndFalls(longer, s);
    OneMoreFallen(fs, n, Waiting);
    longer := Extend(longer, Connect, Success, Racing(fs, n + 1, Launching, Ready, false, 0, false));
  }

  lemma LaunchesAll(fs: seq<int>) returns (run: seq<State>, n: pos)
    requires fs != [] && fs[0] != 0
    ensures IsRun(run) && run[0] == Start(fs) && n <= |fs| && (n >= 2 <==> TriesTwo(fs))
    ensures Last(run) == Racing(fs, n, Clearing, Ready, false, 0, false)
  {
    run := [Start(fs)];
    n := 1;
    assert Start(fs).workers + [Worker(Ready, false, 0)] == Racing(fs, 1, Waiting, Ready, false, 0, false).workers;
    run := Extend(run, Connect, Success, Racing(fs, 1, Waiting, Ready, false, 0, false));
    run := Extend(run, Connect, Success, Racing(fs, 1, Launching, Ready, false, 0, false));
    while !LaunchOver(Last(run))
      invariant IsRun(run) && run[0] == Start(fs) && n <= |fs| && (n >= 2 ==> TriesTwo(fs))
      invariant Last(run) == Racing(fs, n, Launching, Ready, false, 0, false)
      decreases |fs| - n
    {
      run := LaunchesOne(run, fs, n);
      n := n + 1;
    }
    run := Extend(run, Connect, Success, Racing(fs, n, Clearing, Ready, false, 0, false));
  }

  lemma FrontMoves(run: seq<State>, fs: seq<int>, n: pos, main: MainPc, pc: WorkerPc, next: WorkerPc,
                   done: bool, error: int, hasty: bool)
    returns (longer: seq<State>)
    requires IsRun(run) && n <= |fs| && Last(run) == Racing(fs, n, main, pc, done, error, hasty)
    requires (!done && (pc, next) in {(Ready, Connecting), (Connecting, Connected(true)),
                                      (Connected(true), Locked(true)), (Locked(true), Told(true))})
             || (done && (pc, next) in {(Told(true), Unlocking), (Unlocking, Finished)})
    ensures IsRun(longer) && Last(longer) == Racing(fs, n, main, next, done, error, hasty) && longer[0] == run[0]
  {
    var s := Last(run);
    assert s.workers[0 := Front(next)] == [Front(next)] + seq(n - 1, i => FALLEN);
    longer := Extend(run, Candidate(0), Success, Racing(fs, n, main, next, done, error, hasty));
  }

  lemma ConnectMoves(run: seq<State>, fs: seq<int>, n: pos, main: MainPc, next: MainPc, error: int, hasty: bool)
    returns (longer: seq<State>)
    requires IsRun(run) && n <= |fs| && Last(run) == Racing(fs, n, main, Told(true), false, error, hasty)
    requires MainStep(Last(run), Success) == Some(Racing(fs, n, next, Told(true), false, error, hasty))
    ensures IsRun(longer) && Last(longer) == Racing(fs, n, next, Told(true), false, error, hasty) && longer[0] == run[0]
  {
    longer := Extend(run, Connect, Success, Racing(fs, n, next, Told(true), false, error, hasty));
  }

  // The connect call finds no candidate active.
  lemma CountsAll(run: seq<State>, fs: seq<int>, n: pos) returns (longer: seq<State>)
    requires IsRun(run) && n <= |fs| && Last(run) == Racing(fs, n, Counting(0, 0), Told(true), false, 0, false)
    ensures IsRun(longer) && Last(longer) == Racing(fs, n, Counting(n, 0), Told(true), false, 0, false)
            && longer[0] == run[0]
  {
    longer := run;
    for at := 0 to n
      invariant IsRun(longer) && longer[0] == run[0]
      invariant Last(longer) == Racing(fs, n, Counting(at, 0), Told(true), false, 0, false)
    {
      longer := ConnectMoves(longer, fs, n, Counting(at, 0), Counting(at + 1, 0), 0, false);
    }
  }

  // What coalesce_errors makes of one success and n - 1 failures.
  lemma ErrorOfRacing(fs: seq<int>, n: pos, main: MainPc) returns (error: int)
    ensures error == MostCommon(Errors(Racing(fs, n, main, Told(true), false, 0, true).workers))
    ensures error == if n == 1 then 0 else 1
  {
    var ws := Racing(fs, n, main, Told(true), false, 0, true).workers;
    error := MostCommon(Errors(ws));
    MostCommonIs(Errors(ws));
    assert forall i :: 0 <= i < n ==> Errors(ws)[i] == if i == 0 then 0 else 1;
    if n >= 2 {
      assert Errors(ws)[1] != 0;
    }
  }

  lemma ToTheWindow(fs: seq<int>) returns (run: seq<State>, n: pos)
    requires fs != [] && fs[0] != 0
    ensures IsRun(run) && run[0] == Start(fs) && n <= |fs| && (n >= 2 <==> TriesTwo(fs))
    ensures Last(run) == Racing(fs, n, Concluding(CheckRace), Told(true), false, 0, false)
  {
    run, n := LaunchesAll(fs);
    run := FrontMoves(run, fs, n, Clearing, Ready, Connecting, false, 0, false);
    run := FrontMoves(run, fs, n, Clearing, Connecting, Connected(true), false, 0, false);
    run := FrontMoves(run, fs, n, Clearing, Connected(true), Locked(true), false, 0, false);
    run := FrontMoves(run, fs, n, Clearing, Locked(true), Told(true), false, 0, false);
    run := ConnectMoves(run, fs, n, Clearing, Asking(false), 0, false);
    run := ConnectMoves(run, fs, n, Asking(false), Judging(false, true), 0, false);
    run := ConnectMoves(run, fs, n, Judging(false, true), Counting(0, 0), 0, false);
    run := CountsAll(run, fs, n);
    run := ConnectMoves(run, fs, n, Counting(n, 0), Concluding(CheckFlag), 0, false);
    run := ConnectMoves(run, fs, n, Concluding(CheckFlag), Concluding(CheckRace), 0, false);
  }

  lemma ThroughTheWindow(fs: seq<int>) returns (run: seq<State>, n: pos, error: int)
    requires fs != [] && fs[0] != 0
    ensures IsRun(run) && run[0] == Start(fs) && n <= |fs| && (n >= 2 <==> TriesTwo(fs))
            && error == (if n == 1 then 0 else 1)
    ensures Last(run) == Racing(fs, n, Concluding(Signal), Told(true), false, error, true)
  {
    run, n := ToTheWindow(fs);
    assert HasConnected(Last(run).workers[0]);
    run := Extend(run, Connect, Success, Racing(fs, n, Concluding(Gather), Told(true), false, 0, true));
    error := ErrorOfRacing(fs, n, Concluding(Gather));
    run := ConnectMoves(run, fs, n, Concluding(Gather), Concluding(SetError(error)), 0, true);
    run := Extend(run, Connect, Success, Racing(fs, n, Concluding(TryRace), Told(true), false, error, true));
    run := ConnectMoves(run, fs, n, Concluding(TryRace), Concluding(Signal), error, true);
  }

  /**
    The window is there for every list: the first candidate connects, the last check runs
    before it has looked at the race event, and it finds the race over. With one attempt the
    call returns 0 without a socket, with more it returns a failure.
   */
  lemma ConnectionCanBeLost(fs: seq<int>) returns (run: seq<State>)
    requires fs != [] && fs[0] != 0
    ensures IsRun(run) && run[0] == Start(fs) && AllReturned(Last(run))
    ensures Last(run).socket.None? && AnyConnected(Last(run))
    ensures if TriesTwo(fs) then Last(run).main == Returned(Failure) && Last(run).error != 0
            else Last(run).main == Returned(Done) && Last(run).error == 0
  {
    var n, error;
    run, n, error := ThroughTheWindow(fs);
    var status := if error == 0 then Done else Failure;
    run := Extend(run, Connect, Success, Racing(fs, n, Asking(true), Told(true), true, error, true));
    run := Extend(run, Connect, Success, Racing(fs, n, Judging(true, false), Told(true), true, error, true));
    run := Extend(run, Connect, Success, Racing(fs, n, Returned(status), Told(true), true, error, true));
    run := FrontMoves(run, fs, n, Returned(status), Told(true), Unlocking, true, error, true);
    run := FrontMoves(run, fs, n, Returned(status), Unlocking, Finished, true, error, true);
    assert HasConnected(Last(run).workers[0]);
  }

  // ----- exactly when -----------------------------------------------------

  ghost predicate From(run: seq<State>, fs: seq<int>) {
    IsRun(run) && run[0].families == fs
  }

  ghost predicate Completed(run: seq<State>, fs: seq<int>) {
    From(run, fs) && AllReturned(Last(run))
  }

  /**
    Returning 0 means a socket in every run from a list if and only if two families are tried.
   */
  lemma SuccessIsASocketExactly(fs: seq<int>)
    requires fs != [] && fs[0] != 0
    ensures (forall run | From(run, fs) && Last(run).main == Returned(Done) ::
               Last(run).socket.Some? && Last(run).addr == Last(run).socket)
            <==> TriesTwo(fs)
  {
    if TriesTwo(fs) {
      forall run | From(run, fs) && Last(run).main == Returned(Done)
        ensures Last(run).socket.Some? && Last(run).addr == Last(run).socket
      {
        SuccessMeansASocket(run);
      }
    } else {
      var run := ConnectionCanBeLost(fs);
      assert From(run, fs);
    }
  }

  /**
    A race can complete without an error and without a socket if and only if one attempt is all.
   */
  lemma SilentLossExactly(fs: seq<int>)
    requires fs != [] && fs[0] != 0
    ensures (exists run :: Completed(run, fs) && Last(run).error == 0 && Last(run).socket.None?) <==> !TriesTwo(fs)
  {
    if TriesTwo(fs) {
      forall run | Completed(run, fs) && Last(run).error == 0
        ensures Last(run).socket.Some?
      {
        OutcomeIsExact(run);
        RunKeepsWindow(run, |run| - 1);
        if Last(run).hasty {
          HastyTriesOne(Last(run));
        }
      }
    } else {
      var run := ConnectionCanBeLost(fs);
      assert Completed(run, fs);
    }
  }

  /**
    The error is 0 just when some candidate has connected, in every completed run from a list,
    if and only if one attempt is all: with two, a connection can be reported as a failure.
   */
  lemma ErrorTellsExactly(fs: seq<int>)
    requires fs != [] && fs[0] != 0
    ensures (forall run | Completed(run, fs) :: Last(run).error == 0 <==> AnyConnected(Last(run))) <==> !TriesTwo(fs)
  {
    if TriesTwo(fs) {
      var run := ConnectionCanBeLost(fs);
      assert Completed(run, fs);
    } else {
      forall run | Completed(run, fs)
        ensures Last(run).error == 0 <==> AnyConnected(Last(run))
      {
        OutcomeIsExact(run);
        AttemptsAlternate(run, |run| - 1);
        RunKeepsWindow(run, |run| - 1);
        OneAttempt(Last(run), fs);
      }
    }
  }

  lemma OneAttempt(s: State, fs: seq<int>)
    requires !TriesTwo(fs) && Alternates(fs, |s.workers|) && MainOk(s) && AllReturned(s)
    ensures |s.workers| == 1
  {
    if |fs| >= 2 {
      assert !Changes(fs, 1);
    }
  }
}
