/**
  The delay guarantees of single steps, and why the pruned history is enough to rewind to.
 */
module DelayHistory {
  import opened Common
  import opened DelaySpec
  import opened DelayRuns
  import opened EncoderPacket

  // ----- one pass, one delay change ---------------------------------------

  // A pass as resolve, drain and prune.
  lemma PassParts(s: State, now: nat) returns (r: State, d: PassResult, n: nat)
    requires s.cursor <= |s.entries|
    ensures r == ResolveSkip(s) && d == Drain(r, now, r.Pace())
    ensures Pass(s, now).visits == d.visits
    ensures SameExceptCursor(s, r) && s.cursor <= r.cursor <= d.state.cursor <= |s.entries|
    ensures d.state.entries == s.entries && d.state.pruned == s.pruned && n <= d.state.cursor
    ensures d.state.pendingSkip == r.pendingSkip && d.state.pendingTargetNs == r.pendingTargetNs
            && d.state.Pace() == r.Pace()
    ensures var s1 := Pass(s, now).state;
            && s1.entries == s.entries[n..] && s1.cursor == d.state.cursor - n && s1.pruned == s.pruned + n
            && s1.pendingSkip == r.pendingSkip && s1.pendingTargetNs == r.pendingTargetNs && s1.Pace() == r.Pace()
    ensures n == if PruneDue(s, now) then OldPrefix(s.entries, now, d.state.cursor, 0) else 0
    ensures DelaysOk(s) ==> DelaysOk(r)
  {
    r := ResolveSkip(s);
    ResolveSkipMoves(s);
    d := Drain(r, now, r.Pace());
    DrainKeepsEntries(r, now, r.Pace());
    n := if PruneDue(s, now) then OldPrefix(s.entries, now, d.state.cursor, 0) else 0;
  }

  // The part of the invariant that concerns time only.
  ghost predicate Timed(w: World) {
    && Linked(w.s, w.timeline)
    && Clocked(w.timeline, w.clock)
    && DelaysOk(w.s)
    && w.lastPass <= w.clock
  }

  lemma SortedEntries(w: World, i: nat, j: nat)
    requires Timed(w) && i <= j < |w.s.entries|
    ensures w.s.entries[i].arrival <= w.s.entries[j].arrival <= w.clock
    ensures w.s.entries[i] == w.timeline[w.s.pruned + i] && w.s.entries[j] == w.timeline[w.s.pruned + j]
  {
    assert NotAfter(w.timeline, w.s.pruned + i, w.s.pruned + j);
  }

  /**
    After a pass every packet left at or after the cursor is younger than the pace.
   */
  lemma PassLeavesYounger(w: World, now: nat, i: nat)
    requires Timed(w) && w.clock <= now
    requires i < |w.s.entries| && Abs(Pass(w.s, now).state) <= w.s.pruned + i
    ensures now - w.s.entries[i].arrival < Pass(w.s, now).state.Pace()
  {
    var r, d, n := PassParts(w.s, now);
    DrainIsPaced(r, now, r.Pace());
    SortedEntries(w, d.state.cursor, i);
  }

  /**
    A skip still pending after a pass has no buffered keyframe it could go to.
   */
  lemma PendingSkipHasNowhereToGo(s: State, now: nat, i: nat)
    requires s.cursor <= |s.entries| && Pass(s, now).state.pendingSkip
    requires i < |s.entries| && Abs(Pass(s, now).state) <= s.pruned + i && IsKeyframe(s.entries[i])
    ensures s.entries[i].arrival < Pass(s, now).state.pendingTargetNs
  {
    var r, d, n := PassParts(s, now);
    FirstKeyframeIsFirst(s.entries, s.cursor, s.pendingTargetNs);
  }

  /**
    A pass releases, in order and one by one, entries from the cursor on that are each at
    least as old as the pace: the requested delay, or while a skip still waits the held one.
   */
  lemma PassVisitsTheDue(s: State, now: nat, i: nat) returns (c: nat)
    requires s.cursor <= |s.entries| && i < |Pass(s, now).visits|
    ensures var vs := Pass(s, now).visits;
            && c == vs[0].index - s.pruned + i && s.cursor + i <= c < |s.entries|
            && vs[i].entry == s.entries[c] && vs[i].index == s.pruned + c && vs[i].now == now
            && now - s.entries[c].arrival >= if Pass(s, now).state.pendingSkip then s.holdDelayNs else s.delayNs
  {
    var r, d, n := PassParts(s, now);
    DrainVisitsInOrder(r, now, r.Pace(), d, 0);
    DrainVisitsInOrder(r, now, r.Pace(), d, i);
    c := r.cursor + i;
  }

  lemma {:induction false} DrainVisitsInOrder(s: State, now: nat, pace: nat, r: PassResult, i: nat)
    requires s.cursor <= |s.entries| && r == Drain(s, now, pace) && i < |r.visits|
    ensures s.cursor + i < |s.entries|
    ensures r.visits[i].entry == s.entries[s.cursor + i] && r.visits[i].index == Abs(s) + i
    ensures r.visits[i].now == now && now - r.visits[i].entry.arrival >= pace
    decreases i
  {
    VisitOneFields(s, now, pace);
    if i > 0 {
      var s1, v, r1 := DrainUnfolds(s, now, pace);
      DrainVisitsInOrder(s1, now, pace, r1, i - 1);
    }
  }

  /**
    A lower that takes effect at once leaves at the cursor the first keyframe not yet sent
    that is at most the new delay old, or the entry that was there if it is that keyframe.
   */
  lemma LowerLandsOnFirstYoungKeyframe(s: State, now: nat, newNs: nat)
    requires s.cursor <= |s.entries| && newNs < s.delayNs && !ApplyDelay(s, now, newNs).pendingSkip
    ensures var s1 := ApplyDelay(s, now, newNs);
            && s.cursor <= s1.cursor < |s.entries| && s1.entries == s.entries && IsKeyframe(s.entries[s1.cursor])
            && now - s.entries[s1.cursor].arrival <= newNs == s1.delayNs == s1.Pace()
            && (forall i :: s.cursor <= i < s1.cursor && IsKeyframe(s.entries[i]) ==>
               now - s.entries[i].arrival > newNs)
  {
    FirstKeyframeIsFirst(s.entries, s.cursor, Target(now, newNs));
  }

  /**
    A lower that has to wait keeps the old, larger pace until some keyframe qualifies, and
    none buffered does.
   */
  lemma LowerWaitsOnlyWithoutKeyframe(s: State, now: nat, newNs: nat, i: nat)
    requires s.cursor <= |s.entries| && newNs < s.delayNs && ApplyDelay(s, now, newNs).pendingSkip
    ensures ApplyDelay(s, now, newNs).Pace() == s.delayNs && ApplyDelay(s, now, newNs).cursor == s.cursor
    ensures s.cursor <= i < |s.entries| && IsKeyframe(s.entries[i]) ==> s.entries[i].arrival < Target(now, newNs)
  {
    FirstKeyframeIsFirst(s.entries, s.cursor, Target(now, newNs));
  }

  // ----- steady runs ------------------------------------------------------

  ghost predicate AnyKeyframe(tl: seq<Entry>, n: nat) {
    exists i :: 0 <= i < n && i < |tl| && KeyframeAt(tl, i)
  }

  ghost predicate KeyframeAt(tl: seq<Entry>, i: int)
    requires 0 <= i < |tl|
  {
    IsKeyframe(tl[i])
  }

  // One of the first n entries is a keyframe that arrived no more than `gap` before `time`.
  ghost predicate KeyframeWithin(tl: seq<Entry>, n: nat, time: nat, gap: nat) {
    exists i :: 0 <= i < n && i < |tl| && KeyframeAt(tl, i) && tl[i].arrival + gap >= time
  }

  // Some keyframe arrived at or before `time`.
  ghost predicate KeyframeBy(tl: seq<Entry>, time: nat) {
    exists i :: 0 <= i < |tl| && KeyframeAt(tl, i) && tl[i].arrival <= time
  }

  // A keyframe arrived within the last `gap`, unless none arrived at all.
  ghost predicate RecentKeyframe(tl: seq<Entry>, now: nat, gap: nat) {
    AnyKeyframe(tl, |tl|) ==> KeyframeWithin(tl, |tl|, now, gap)
  }

  ghost predicate SteadyEvent(w: World, ev: Event, gap: nat, period: nat) {
    && RecentKeyframe(w.timeline, ev.now, gap)
    && (ev.PassEvent? ==> ev.now - w.lastPass <= period)
  }

  // Keyframes arrive at least every `gap` and passes run at least every `period`.
  ghost predicate IsSteadyRun(delaySec: nat, t0: nat, evs: seq<Event>, ws: seq<World>, gap: nat, period: nat) {
    && IsRun(delaySec, t0, evs, ws)
    && gap + period <= 5 * NS_PER_SEC
    && (forall i :: 0 <= i < |evs| ==> SteadyEvent(ws[i], evs[i], gap, period))
  }

  ghost predicate KeyframeGaps(tl: seq<Entry>, gap: nat) {
    forall j :: 0 <= j < |tl| && AnyKeyframe(tl, j) && KeyframeAt(tl, j) ==> KeyframeWithin(tl, j, tl[j].arrival, gap)
  }

  ghost predicate PrunedIsOld(tl: seq<Entry>, pruned: nat, clock: nat) {
    forall i :: 0 <= i < pruned && i < |tl| ==> tl[i].arrival + HISTORY_NS < clock
  }

  ghost predicate UnsentIsYoung(tl: seq<Entry>, from: nat, gap: nat, lastPass: nat) {
    forall i :: from <= i < |tl| ==> tl[i].arrival + MAX_DELAY_NS + gap >= lastPass
  }

  ghost predicate SteadyInv(w: World, gap: nat) {
    && KeyframeGaps(w.timeline, gap)
    && PrunedIsOld(w.timeline, w.s.pruned, w.clock)
    && UnsentIsYoung(w.timeline, Abs(w.s), gap, w.lastPass)
  }

  // A keyframe no more than a gap older than the target, and not after k.
  lemma CloseKeyframe(tl: seq<Entry>, now: nat, target: nat, gap: nat, k: nat) returns (j: nat)
    requires KeyframeGaps(tl, gap) && RecentKeyframe(tl, now, gap)
    requires target <= now && LastKeyframeUpTo(tl, target, |tl|) == Some(k)
    ensures j <= k && tl[j].arrival + gap >= target
  {
    LastKeyframeIsLast(tl, target, |tl|);
    FirstKeyframeIsFirst(tl, k + 1, 0);
    var next := FirstKeyframeFrom(tl, k + 1, 0);
    var n := if next.Some? then next.value else |tl|;
    assert KeyframeAt(tl, k) && (next.Some? ==> KeyframeAt(tl, n));
    assert AnyKeyframe(tl, n);
    assert KeyframeWithin(tl, n, if next.Some? then tl[n].arrival else now, gap);
    j :| 0 <= j < n && KeyframeAt(tl, j) && tl[j].arrival + gap >= target;
  }

  // The last keyframe at or before a moment is no more than a gap older than it.
  lemma LastKeyframeIsClose(tl: seq<Entry>, clock: nat, now: nat, target: nat, gap: nat, k: nat)
    requires Clocked(tl, clock) && KeyframeGaps(tl, gap) && RecentKeyframe(tl, now, gap)
    requires target <= now && LastKeyframeUpTo(tl, target, |tl|) == Some(k)
    ensures tl[k].arrival + gap >= target
  {
    var j := CloseKeyframe(tl, now, target, gap, k);
    assert NotAfter(tl, j, k);
  }

  lemma LastKeyframeUnique(tl: seq<Entry>, target: nat, n: nat, k: nat)
    requires k < n <= |tl| && IsKeyframe(tl[k]) && tl[k].arrival <= target
    requires forall j :: k < j < n && IsKeyframe(tl[j]) ==> tl[j].arrival > target
    ensures LastKeyframeUpTo(tl, target, n) == Some(k)
  {
  }

  /**
    Rewind history suffices.  In a steady run, once some keyframe is old enough for a delay
    of at most 120 s, a raise to that delay never needs the fallback: the last keyframe of
    the whole timeline at or before the target is still buffered, and it is what the search
    finds.
   */
  lemma RewindFindsItsKeyframe(w: World, now: nat, newNs: nat, gap: nat) returns (k: nat)
    requires Timed(w) && w.clock <= now
    requires KeyframeGaps(w.timeline, gap) && PrunedIsOld(w.timeline, w.s.pruned, w.clock)
             && RecentKeyframe(w.timeline, now, gap)
    requires gap <= 5 * NS_PER_SEC && newNs <= MAX_DELAY_NS
    requires KeyframeBy(w.timeline, Target(now, newNs))
    ensures LastKeyframeUpTo(w.timeline, Target(now, newNs), |w.timeline|) == Some(k) && w.s.pruned <= k
    ensures KeyframeBefore(w.s.entries, Target(now, newNs)) == Some(k - w.s.pruned)
    ensures w.timeline[k].arrival + gap >= Target(now, newNs)
  {
    k := LastKeyframeNotPruned(w.timeline, w.s.pruned, w.clock, now, newNs, gap);
    LastKeyframeStillBuffered(w.timeline, w.s.entries, w.s.pruned, Target(now, newNs), k);
  }

  lemma LastKeyframeExists(tl: seq<Entry>, target: nat)
    requires KeyframeBy(tl, target)
    ensures LastKeyframeUpTo(tl, target, |tl|).Some?
  {
    LastKeyframeIsLast(tl, target, |tl|);
    var i :| 0 <= i < |tl| && KeyframeAt(tl, i) && tl[i].arrival <= target;
  }

  lemma LastKeyframeNotPruned(tl: seq<Entry>, pruned: nat, clock: nat, now: nat, newNs: nat, gap: nat) returns (k: nat)
    requires Clocked(tl, clock) && KeyframeGaps(tl, gap) && PrunedIsOld(tl, pruned, clock) && clock <= now
    requires RecentKeyframe(tl, now, gap) && gap <= 5 * NS_PER_SEC && newNs <= MAX_DELAY_NS
    requires KeyframeBy(tl, Target(now, newNs))
    ensures LastKeyframeUpTo(tl, Target(now, newNs), |tl|) == Some(k) && pruned <= k
    ensures tl[k].arrival + gap >= Target(now, newNs)
  {
    LastKeyframeExists(tl, Target(now, newNs));
    k := LastKeyframeUpTo(tl, Target(now, newNs), |tl|).value;
    LastKeyframeIsClose(tl, clock, now, Target(now, newNs), gap, k);
  }

  lemma LastKeyframeStillBuffered(tl: seq<Entry>, es: seq<Entry>, p: nat, target: nat, k: nat)
    requires p <= k < |tl| && es == tl[p..] && LastKeyframeUpTo(tl, target, |tl|) == Some(k)
    ensures LastKeyframeUpTo(es, target, |es|) == Some(k - p)
  {
    LastKeyframeIsLast(tl, target, |tl|);
    forall j | k - p < j < |es| && IsKeyframe(es[j])
      ensures es[j].arrival > target
    {
      assert es[j] == tl[p + j];
    }
    LastKeyframeUnique(es, target, |es|, k - p);
  }

  // A rewind goes to an entry no more than a gap older than its target.
  lemma RewindTargetIsClose(w: World, now: nat, newNs: nat, gap: nat, k: nat)
    requires Timed(w) && w.clock <= now
    requires KeyframeGaps(w.timeline, gap) && PrunedIsOld(w.timeline, w.s.pruned, w.clock)
             && RecentKeyframe(w.timeline, now, gap)
    requires gap <= 5 * NS_PER_SEC && newNs <= MAX_DELAY_NS
             && KeyframeBefore(w.s.entries, Target(now, newNs)) == Some(k)
    ensures w.s.entries[k].arrival + gap >= Target(now, newNs)
  {
    hide KeyframeGaps, PrunedIsOld, RecentKeyframe;
    if w.s.entries[k].arrival <= Target(now, newNs) {
      assert KeyframeAt(w.timeline, w.s.pruned + k);
      var j := RewindFindsItsKeyframe(w, now, newNs, gap);
      SortedEntries(w, k, k);
    }
  }

  // From wherever a delay change puts the cursor, entries are at most 120 s + gap old.
  lemma CursorStaysYoung(w: World, now: nat, newNs: nat, gap: nat, c: nat)
    requires Timed(w) && SteadyInv(w, gap) && w.clock <= now && RecentKeyframe(w.timeline, now, gap)
    requires gap <= 5 * NS_PER_SEC && newNs <= MAX_DELAY_NS && c <= |w.s.entries|
    requires w.s.cursor <= c || KeyframeBefore(w.s.entries, Target(now, newNs)) == Some(c)
    ensures UnsentIsYoung(w.timeline, w.s.pruned + c, gap, w.lastPass)
  {
    if c < w.s.cursor {
      RewindTargetIsClose(w, now, newNs, gap, c);
      forall i | w.s.pruned + c <= i < |w.timeline|
        ensures w.timeline[i].arrival + MAX_DELAY_NS + gap >= w.lastPass
      {
        SortedEntries(w, c, i - w.s.pruned);
      }
    }
  }

  lemma SetDelayCursor(s: State, now: nat, sec: nat)
    requires s.cursor <= |s.entries|
    ensures s.cursor <= SetDelay(s, now, sec).cursor
            || KeyframeBefore(s.entries, Target(now, Min(sec, MAX_DELAY_SEC) * NS_PER_SEC))
               == Some(SetDelay(s, now, sec).cursor)
  {
  }

  // No entry a pass steps over is older than the history.
  lemma VisitsWithinHistory(w: World, now: nat, gap: nat, period: nat, i: nat)
    requires Timed(w) && SteadyInv(w, gap) && w.clock <= now
    requires now - w.lastPass <= period && gap + period <= 5 * NS_PER_SEC && i < |Pass(w.s, now).visits|
    ensures now - Pass(w.s, now).visits[i].entry.arrival <= HISTORY_NS
  {
    var c := PassVisitsTheDue(w.s, now, i);
    SortedEntries(w, c, c);
  }

  /**
    A pass never erases a packet it has just put in its batch, whose reference the batch
    still shares.
   */
  lemma NoPassPrunesItsBatch(w: World, now: nat, gap: nat, period: nat, i: nat)
    requires Timed(w) && SteadyInv(w, gap) && w.clock <= now
    requires now - w.lastPass <= period && gap + period <= 5 * NS_PER_SEC && i < |Pass(w.s, now).visits|
    ensures Pass(w.s, now).state.pruned <= Pass(w.s, now).visits[i].index
  {
    VisitsWithinHistory(w, now, gap, period, i);
    var c := PassVisitsTheDue(w.s, now, i);
    var r, d, n := PassParts(w.s, now);
    OldPrefixIsOld(w.s.entries, now, d.state.cursor, 0);
  }

  /**
    A pass erases only entries older than 125 s, and when its prune fires every entry it
    keeps is at most 125 s old.
   */
  lemma PruneKeepsExactlyTheHistory(w: World, now: nat, i: nat)
    requires Timed(w) && w.clock <= now && i < |w.s.entries|
    ensures w.s.pruned + i < Pass(w.s, now).state.pruned ==> now - w.s.entries[i].arrival > HISTORY_NS
    ensures PruneDue(w.s, now) && Pass(w.s, now).state.pruned <= w.s.pruned + i ==>
            now - w.s.entries[i].arrival <= HISTORY_NS
  {
    var r, d, n := PassParts(w.s, now);
    OldPrefixIsOld(w.s.entries, now, d.state.cursor, 0);
    if PruneDue(w.s, now) && n <= i {
      SortedEntries(w, n, i);
      if n == d.state.cursor {
        DrainIsPaced(r, now, r.Pace());
      }
    }
  }

  lemma PushKeepsGaps(tl: seq<Entry>, e: Entry, gap: nat)
    requires KeyframeGaps(tl, gap) && RecentKeyframe(tl, e.arrival, gap)
    ensures KeyframeGaps(tl + [e], gap)
  {
    var tl1 := tl + [e];
    forall j | 0 <= j < |tl1| && AnyKeyframe(tl1, j) && KeyframeAt(tl1, j)
      ensures KeyframeWithin(tl1, j, tl1[j].arrival, gap)
    {
      var i :| 0 <= i < j && KeyframeAt(tl1, i);
      assert KeyframeAt(tl, i);
      assert j < |tl| ==> KeyframeAt(tl, j);
      assert AnyKeyframe(tl, j);
      var k :| 0 <= k < j && k < |tl| && KeyframeAt(tl, k) && tl[k].arrival + gap >= tl1[j].arrival;
      assert KeyframeAt(tl1, k);
    }
  }

  lemma PassKeepsUnsentYoung(w: World, now: nat, gap: nat, i: nat)
    requires Timed(w) && w.clock <= now && Abs(Pass(w.s, now).state) <= i < |w.timeline|
    ensures w.timeline[i].arrival + MAX_DELAY_NS + gap >= now
  {
    var r, d, n := PassParts(w.s, now);
    PassLeavesYounger(w, now, i - w.s.pruned);
    SortedEntries(w, i - w.s.pruned, i - w.s.pruned);
  }

  lemma PassPrunesOld(w: World, now: nat, i: nat)
    requires Timed(w) && w.clock <= now && PrunedIsOld(w.timeline, w.s.pruned, w.clock)
    requires i < Pass(w.s, now).state.pruned && i < |w.timeline|
    ensures w.timeline[i].arrival + HISTORY_NS < now
  {
    if i >= w.s.pruned {
      var r, d, n := PassParts(w.s, now);
      PruneKeepsExactlyTheHistory(w, now, i - w.s.pruned);
      SortedEntries(w, i - w.s.pruned, i - w.s.pruned);
    }
  }

  lemma PassKeepsSteady(w: World, now: nat, gap: nat, s1: State)
    requires Timed(w) && SteadyInv(w, gap) && w.clock <= now && s1 == Pass(w.s, now).state
    ensures UnsentIsYoung(w.timeline, Abs(s1), gap, now) && PrunedIsOld(w.timeline, s1.pruned, now)
  {
    forall i | Abs(s1) <= i < |w.timeline|
      ensures w.timeline[i].arrival + MAX_DELAY_NS + gap >= now
    {
      PassKeepsUnsentYoung(w, now, gap, i);
    }
    forall i | 0 <= i < s1.pruned && i < |w.timeline|
      ensures w.timeline[i].arrival + HISTORY_NS < now
    {
      PassPrunesOld(w, now, i);
    }
  }

  lemma StepKeepsSteady(w: World, ev: Event, gap: nat, period: nat)
    requires Timed(w) && SteadyInv(w, gap) && LegalEvent(w, ev) && SteadyEvent(w, ev, gap, period)
    requires gap + period <= 5 * NS_PER_SEC
    ensures SteadyInv(Step(w, ev), gap)
  {
    match ev
    case PushEvent(now, p) => PushKeepsGaps(w.timeline, Entry(p, now), gap);
    case SetDelayEvent(now, sec) =>
      SetDelayMoves(w.s, now, sec);
      SetDelayCursor(w.s, now, sec);
      CursorStaysYoung(w, now, Min(sec, MAX_DELAY_SEC) * NS_PER_SEC, gap, SetDelay(w.s, now, sec).cursor);
    case PassEvent(now) => PassKeepsSteady(w, now, gap, Pass(w.s, now).state);
  }

  lemma {:induction false} RunKeepsSteady(delaySec: nat, t0: nat, evs: seq<Event>, ws: seq<World>, gap: nat,
                                          period: nat, n: nat)
    requires IsSteadyRun(delaySec, t0, evs, ws, gap, period) && n < |ws|
    ensures SteadyInv(ws[n], gap)
  {
    hide SteadyEvent, LegalEvent, Step;
    if n > 0 {
      RunKeepsSteady(delaySec, t0, evs, ws, gap, period, n - 1);
      RunKeepsInv(delaySec, t0, evs, ws, n - 1);
      StepKeepsSteady(ws[n - 1], evs[n - 1], gap, period);
    }
  }

  lemma RaiseRewinds(w: World, now: nat, newNs: nat, gap: nat)
    requires Timed(w) && SteadyInv(w, gap) && w.clock <= now && RecentKeyframe(w.timeline, now, gap)
    requires gap <= 5 * NS_PER_SEC && w.s.delayNs < newNs <= MAX_DELAY_NS && KeyframeBy(w.timeline, Target(now, newNs))
    ensures var k := LastKeyframeUpTo(w.timeline, Target(now, newNs), |w.timeline|);
            var s1 := ApplyDelay(w.s, now, newNs);
            && k.Some? && Abs(s1) == Min(Abs(w.s), k.value)
            && (k.value < Abs(w.s) ==> s1.resync)
  {
    var k := RewindFindsItsKeyframe(w, now, newNs, gap);
  }

  /**
    In a steady run, a raise whose target is at or after some keyframe's arrival rewinds to
    the last keyframe of the whole timeline at or before the target, unless that one is
    still unsent.
   */
  lemma SteadyRaisesRewind(delaySec: nat, t0: nat, evs: seq<Event>, ws: seq<World>, gap: nat, period: nat, n: nat,
                           newNs: nat)
    requires IsSteadyRun(delaySec, t0, evs, ws, gap, period) && n < |evs| && evs[n].SetDelayEvent?
    requires newNs == Min(evs[n].seconds, MAX_DELAY_SEC) * NS_PER_SEC && newNs > ws[n].s.delayNs
    requires KeyframeBy(ws[n].timeline, Target(evs[n].now, newNs))
    ensures var k := LastKeyframeUpTo(ws[n].timeline, Target(evs[n].now, newNs), |ws[n].timeline|);
            && k.Some? && Abs(ws[n + 1].s) == Min(Abs(ws[n].s), k.value)
            && (k.value < Abs(ws[n].s) ==> ws[n + 1].s.resync)
  {
    RunKeepsSteady(delaySec, t0, evs, ws, gap, period, n);
    RunKeepsInv(delaySec, t0, evs, ws, n);
    RaiseRewinds(ws[n], evs[n].now, newNs, gap);
    assert ws[n + 1].s == ApplyDelay(ws[n].s, evs[n].now, newNs);
  }

  /**
    In a steady run no pass frees a packet it sends.
   */
  lemma SteadyPassesKeepTheirBatch(delaySec: nat, t0: nat, evs: seq<Event>, ws: seq<World>, gap: nat, period: nat,
                                   n: nat, i: nat)
    requires IsSteadyRun(delaySec, t0, evs, ws, gap, period) && n < |evs| && evs[n].PassEvent?
    requires |ws[n].visits| <= i < |ws[n + 1].visits|
    ensures ws[n + 1].s.pruned <= ws[n + 1].visits[i].index
  {
    RunKeepsSteady(delaySec, t0, evs, ws, gap, period, n);
    RunKeepsInv(delaySec, t0, evs, ws, n);
    NoPassPrunesItsBatch(ws[n], evs[n].now, gap, period, i - |ws[n].visits|);
  }
}
