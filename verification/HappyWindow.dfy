/**
  What the connect call reports. Its last check of the race (src/shared/happy-eyeballs.c:265-273)
  is not made under winner_mutex, so it can pass after a candidate has connected and signalled
  but not yet looked at the race event: the window. What that does depends on the address
  list alone: with one attempt a success can be reported without a socket, with more it cannot,
  but a failure can be reported although a candidate connected.
 */
module HappyWindow {
  import opened Common
  import opened HappyErrors
  import opened HappyRace
  import opened HappyOutcome
  import AddrInterleave

  // ----- what is known of the window --------------------------------------

  // The dispatch loop ends here, whatever becomes of the race.
  predicate LaunchOver(s: State) {
    |s.workers| >= MAX_ATTEMPTS || |s.workers| >= |s.families| || s.families[|s.workers|] == PrevFamily(s)
  }

  predicate PastLaunch(main: MainPc) {
    !main.Launching? && !main.Waiting? && !main.Aborted?
  }

  // Candidate k has connected, and every other one has failed or will have to.
  ghost predicate OnlyFrom(s: State, k: nat) {
    && k < |s.workers| && HasConnected(s.workers[k])
    && forall i: nat :: i < |s.workers| && i != k ==> s.workers[i].error != 0
  }

  ghost predicate WindowOk(s: State) {
    && (PastLaunch(s.main) ==> s.done || LaunchOver(s))
    && (s.hasty ==> LaunchOver(s) && exists k :: OnlyFrom(s, k))
    && (s.hasty && s.main.Returned? && |s.workers| >= 2 ==> s.main.status.Failure?)
  }

  lemma CandidateKeepsWindow(s: State, j: nat, input: Input, t: State)
    requires Inv(s) && WindowOk(s) && j < |s.workers| && WorkerStep(s, j, input) == Some(t) && t.families == s.families
    ensures WindowOk(t)
  {
    hide WorkerStep;
    CandidateKeepsEach(s, j, input, t);
    if s.hasty {
      var k :| OnlyFrom(s, k);
      assert forall i :: 0 <= i < |s.workers| ==> t.workers[i].error == Errors(t.workers)[i];
      assert OnlyFrom(t, k);
    }
  }

  lemma LaunchKeepsWindow(s: State, input: Input, t: State)
    requires MainOk(s) && OutcomeOk(s) && WindowOk(s) && LaunchStep(s, input) == Some(t)
    ensures WindowOk(t)
  {
  }

  // Two candidates of which one has failed make an error.
  lemma SomeError(s: State, k: nat)
    requires OnlyFrom(s, k)
    ensures MostCommon(Errors(s.workers)) == 0 <==> |s.workers| == 1
  {
    MostCommonIs(Errors(s.workers));
    assert Errors(s.workers)[k] == 0;
    if |s.workers| >= 2 {
      var other := if k == 0 then 1 else 0;
      assert Errors(s.workers)[other] != 0;
    } else {
      assert forall i :: 0 <= i < |s.workers| ==> Errors(s.workers)[i] == 0;
    }
  }

  lemma LookKeepsWindow(s: State, t: State)
    requires MainOk(s) && OutcomeOk(s) && WindowOk(s) && LookStep(s) == Some(t)
    ensures WindowOk(t)
  {
    LookOnlyMoves(s, t);
    if s.hasty {
      var k :| OnlyFrom(s, k);
      SomeError(s, k);
      assert OnlyFrom(t, k);
    }
  }

  // While the race is open, a candidate that has connected holds winner_mutex.
  lemma OneInTheWindow(s: State, k: nat)
    requires WorkersOk(s) && AllSignalled(s) && !s.done && k < |s.workers| && HasConnected(s.workers[k])
    ensures OnlyFrom(s, k)
  {
    assert WorkerOk(s, k);
    forall i: nat | i < |s.workers| && i != k
      ensures s.workers[i].error != 0
    {
      assert WorkerOk(s, i);
    }
  }

  lemma ConcludeKeepsWindow(s: State, ph: Phase, t: State)
    requires Inv(s) && WindowOk(s) && s.main == Concluding(ph) && ConcludeStep(s, ph) == Some(t)
    ensures WindowOk(t)
  {
    if s.hasty {
      var k :| OnlyFrom(s, k);
      assert OnlyFrom(t, k);
    } else if t.hasty {
      var k: nat :| k < |s.workers| && HasConnected(s.workers[k]);
      OneInTheWindow(s, k);
      assert OnlyFrom(t, k);
    }
  }

  lemma StepKeepsWindow(s: State, t: State)
    requires Inv(s) && WindowOk(s) && CanStep(s, t) && t.families == s.families
    ensures WindowOk(t)
  {
    var who, input :| Step(s, who, input) == Some(t);
    match who
    case Connect =>
      if s.main.Launching? || s.main.Waiting? || s.main.Clearing? {
        LaunchKeepsWindow(s, input, t);
      } else if s.main.Concluding? {
        ConcludeKeepsWindow(s, s.main.phase, t);
      } else {
        LookKeepsWindow(s, t);
      }
    case Candidate(j) => CandidateKeepsWindow(s, j, input, t);
  }

  lemma {:induction false} RunKeepsWindow(run: seq<State>, n: nat)
    requires IsRun(run) && n < |run|
    ensures WindowOk(run[n]) && Inv(run[n]) && run[n].families == run[0].families
  {
    hide Inv;
    RunKeepsInv(run, n);
    AttemptsAlternate(run, n);
    if n > 0 {
      RunKeepsWindow(run, n - 1);
      assert Follows(run, n - 1);
      StepKeepsWindow(run[n - 1], run[n]);
    }
  }

  // ----- which addresses are tried ----------------------------------------

  function Families(list: seq<AddrInterleave.AddrInfo>): (fs: seq<int>)
    ensures |fs| == |list| && forall i :: 0 <= i < |list| ==> fs[i] == list[i].family
  {
    seq(|list|, i requires 0 <= i < |list| => list[i].family)
  }

  /**
    Run on the interleaved list of the addresses found, the launch loop stops short of six
    candidates, with the race still open, only when whatever is left of the list is of the
    family tried last.
   */
  lemma StopsShortWhenExhausted(run: seq<State>, list: seq<AddrInterleave.AddrInfo>)
    requires IsRun(run) && list != [] && AddrInterleave.AllIp(list)
    requires run[0].families == Families(AddrInterleave.Interleaved(list))
    requires PastLaunch(Last(run).main) && !Last(run).done && |Last(run).workers| < 6
    ensures 1 <= |Last(run).workers| <= |list|
    ensures forall i :: |Last(run).workers| <= i < |list| ==>
            run[0].families[i] == run[0].families[|Last(run).workers| - 1]
  {
    var s := Last(run);
    var n := |s.workers|;
    var r := AddrInterleave.Interleaved(list);
    RunKeepsWindow(run, |run| - 1);
    AttemptsAlternate(run, |run| - 1);
    if n < |list| {
      forall i | 1 <= i < n
        ensures !AddrInterleave.Repeats(r, i)
      {
        assert Changes(run[0].families, i);
      }
      AddrInterleave.AttemptsExhaustAFamily(list, n);
    }
  }

  // ----- what the call reports --------------------------------------------

  // There is a second attempt: a second address, of the other family.
  predicate TriesTwo(families: seq<int>) {
    |families| >= 2 && families[1] != families[0]
  }

  /**
    On the interleaved list of the addresses found that is so if and only if both families
    were found.
   */
  lemma TriesTwoWhenBothFound(list: seq<AddrInterleave.AddrInfo>)
    requires list != [] && AddrInterleave.AllIp(list)
    ensures TriesTwo(Families(AddrInterleave.Interleaved(list))) <==> AddrInterleave.BothFamilies(list)
  {
    AddrInterleave.SecondIsOfTheOther(list);
  }

  lemma HastyTriesOne(s: State)
    requires Inv(s) && WindowOk(s) && s.hasty && |s.workers| < 2
    ensures !TriesTwo(s.families)
  {
  }

  /**
    Returning 0 means a valid socket and its address, whenever two families are tried; with one
    attempt, unless the last check ran in the window.
   */
  lemma SuccessMeansASocket(run: seq<State>)
    requires IsRun(run) && Last(run).main == Returned(Done) && (TriesTwo(run[0].families) || !Last(run).hasty)
    ensures var s := Last(run);
            && s.socket.Some? && s.addr == s.socket && s.socket.value < |s.workers|
            && HasConnected(s.workers[s.socket.value])
  {
    var s := Last(run);
    RunKeepsWindow(run, |run| - 1);
    if s.hasty {
      HastyTriesOne(s);
    }
  }

  lemma NobodyLeftMeansAnError(s: State)
    requires Inv(s) && AllReturned(s) && s.done && !s.hasty && s.socket.None?
    ensures s.error != 0 && !AnyConnected(s) && s.error == MostCommon(Errors(s.workers))
  {
  }

  /**
    The error of a completed race, in every run: 0 just when a candidate has connected and,
    if the last check ran in the window, that was the only attempt; otherwise the error most
    candidates ended with. A run through the window with more attempts has one connected
    candidate and returns a failure.
   */
  lemma OutcomeIsExact(run: seq<State>)
    requires IsRun(run) && AllReturned(Last(run))
    ensures var s := Last(run);
            && (s.error == 0 <==> AnyConnected(s) && (s.hasty ==> |s.workers| == 1))
            && (s.hasty || !AnyConnected(s) ==> IsMostCommon(Errors(s.workers), s.error))
            && (!s.hasty ==> (s.socket.Some? <==> AnyConnected(s)) && s.addr == s.socket)
            && (s.hasty ==> exists k :: OnlyFrom(s, k))
            && (s.hasty && |s.workers| >= 2 ==> s.main == Returned(Failure))
  {
    var s := Last(run);
    RunKeepsWindow(run, |run| - 1);
    NoLostCompletion(run);
    MostCommonIs(Errors(s.workers));
    if s.hasty {
      var k :| OnlyFrom(s, k);
      SomeError(s, k);
    } else if s.socket.None? {
      NobodyLeftMeansAnError(s);
    } else {
      assert HasConnected(s.workers[s.socket.value]);
    }
  }
}
