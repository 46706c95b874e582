/**
  What a push, a delay change and a pacer pass of src/delay-buffer.c do, told by the fields
  of the state before and after alone: none of the functions that compute the steps is named
  here but the steps themselves.
 */
module DelayMeaning {
  import opened Common
  import opened DelaySpec
  import opened DelayRuns
  import opened DelayHistory
  import opened EncoderPacket
  import DelayTicks

  predicate Key(e: Entry) {
    e.packet.kind == Video && e.packet.keyframe
  }

  /**
    At the start the timeline is empty, nothing waits, and until the first video packet a frame
    is taken to last 16667 microseconds.
   */
  lemma ResetMeans(seconds: nat)
    ensures var s := Reset(seconds);
            && s.entries == [] && s.cursor == 0 && s.pruned == 0 && s.lastPruneNs == 0 && s.lastSentArrivalNs == 0
            && s.delayNs == s.holdDelayNs == 1_000_000_000 * seconds && !s.pendingSkip && s.pendingTargetNs == 0
            && s.offsetUsec == 0 && !s.resync && s.lastVideoOut == s.lastAudioOut == None && s.frameUsec == 16667
  {
  }

  // ----- a push -----------------------------------------------------------

  lemma PushAppends(s: State, now: nat, p: Packet)
    ensures var t := Push(s, now, p);
            && t == s.(entries := s.entries + [Entry(p, now)], frameUsec := t.frameUsec)
            && (p.kind == Video && p.den > 0 ==>
                  t.frameUsec * p.den <= 1_000_000 * p.num < (t.frameUsec + 1) * p.den)
            && (p.kind != Video || p.den == 0 ==> t.frameUsec == s.frameUsec)
  {
    if p.kind == Video && p.den > 0 {
      var x := 1_000_000 * p.num;
      assert x == p.den * (x / p.den) + x % p.den;
      DelayTicks.Distribute(x / p.den, 1, p.den);
    }
  }

  // ----- a delay change ---------------------------------------------------

  predicate OldEnough(e: Entry, now: nat, ns: nat) {
    Key(e) && (e.arrival == 0 || e.arrival + ns <= now)
  }

  // The keyframe a raise wants: the last one old enough, or if there is none the first of all.
  ghost predicate RewindGoal(es: seq<Entry>, now: nat, ns: nat, k: int) {
    && 0 <= k < |es| && Key(es[k])
    && (forall j :: k < j < |es| ==> !OldEnough(es[j], now, ns))
    && (OldEnough(es[k], now, ns)
        || ((forall j :: 0 <= j < k ==> !Key(es[j])) && forall j :: 0 <= j < |es| ==> !OldEnough(es[j], now, ns)))
  }

  predicate YoungEnough(e: Entry, now: nat, ns: nat) {
    Key(e) && e.arrival + ns >= now
  }

  // The keyframe a lower wants: the first unsent one that is no older than the new delay.
  ghost predicate LowerGoal(s: State, now: nat, ns: nat, k: int) {
    && s.cursor <= k < |s.entries| && YoungEnough(s.entries[k], now, ns)
    && forall j :: s.cursor <= j < k ==> !YoungEnough(s.entries[j], now, ns)
  }

  lemma RewindGoalFound(es: seq<Entry>, now: nat, ns: nat)
    ensures var k := KeyframeBefore(es, Target(now, ns));
            if k.Some? then RewindGoal(es, now, ns, k.value) else forall j :: 0 <= j < |es| ==> !Key(es[j])
  {
    LastKeyframeIsLast(es, Target(now, ns), |es|);
    FirstKeyframeIsFirst(es, 0, 0);
    assert forall j :: 0 <= j < |es| ==> (Key(es[j]) <==> IsKeyframe(es[j]));
  }

  lemma RewindGoalUnique(es: seq<Entry>, now: nat, ns: nat, k: int, l: int)
    requires RewindGoal(es, now, ns, k) && RewindGoal(es, now, ns, l)
    ensures k == l
  {
  }

  lemma RaiseMeans(s: State, now: nat, ns: nat)
    ensures var t := Raise(s, now, ns);
            && t == s.(cursor := t.cursor, resync := t.resync, pendingSkip := false, delayNs := ns, holdDelayNs := ns)
            && if exists k :: RewindGoal(s.entries, now, ns, k) && k < s.cursor
               then RewindGoal(s.entries, now, ns, t.cursor) && t.cursor < s.cursor && t.resync
               else t.cursor == s.cursor && t.resync == s.resync
  {
    hide KeyframeBefore, RewindGoal;
    RewindGoalFound(s.entries, now, ns);
    forall k | RewindGoal(s.entries, now, ns, k)
      ensures KeyframeBefore(s.entries, Target(now, ns)) == Some(k)
    {
      RewindGoalIsKey(s.entries, now, ns, k);
      RewindGoalUnique(s.entries, now, ns, k, KeyframeBefore(s.entries, Target(now, ns)).value);
    }
  }

  lemma RewindGoalIsKey(es: seq<Entry>, now: nat, ns: nat, k: int)
    requires RewindGoal(es, now, ns, k)
    ensures 0 <= k < |es| && Key(es[k])
  {
  }

  lemma LowerMeans(s: State, now: nat, ns: nat)
    requires s.cursor <= |s.entries|
    ensures var t := Lower(s, now, ns);
            if exists k :: LowerGoal(s, now, ns, k) then
              && t == s.(cursor := t.cursor, resync := t.resync, pendingSkip := false, delayNs := ns, holdDelayNs := ns)
              && LowerGoal(s, now, ns, t.cursor) && t.resync == (s.resync || t.cursor > s.cursor)
            else
              t == s.(pendingSkip := true, pendingTargetNs := if now > ns then now - ns else 0,
                      holdDelayNs := s.delayNs, delayNs := ns)
  {
    var k := FirstKeyframeFrom(s.entries, s.cursor, Target(now, ns));
    FirstKeyframeIsFirst(s.entries, s.cursor, Target(now, ns));
    if k.Some? {
      assert LowerGoal(s, now, ns, k.value);
    }
  }

  /**
    A delay change, up to 120 s. Raising rewinds to the keyframe it wants if that one was sent
    already; lowering skips to the one it wants, or waits for one at the pace asked for
    before; asking for the same delay changes nothing.
   */
  lemma SetDelayMeans(s: State, now: nat, seconds: nat, ns: nat)
    requires s.cursor <= |s.entries| && ns == (if seconds > 120 then 120 else seconds) * 1_000_000_000
    ensures var t := SetDelay(s, now, seconds);
            if ns > s.delayNs then
              t == s.(cursor := t.cursor, resync := t.resync, pendingSkip := false, delayNs := ns, holdDelayNs := ns)
            else if ns == s.delayNs then t == s
            else if exists k :: LowerGoal(s, now, ns, k) then
              t == s.(cursor := t.cursor, resync := t.resync, pendingSkip := false, delayNs := ns, holdDelayNs := ns)
            else
              t == s.(pendingSkip := true, pendingTargetNs := if now > ns then now - ns else 0,
                      holdDelayNs := s.delayNs, delayNs := ns)
    ensures var t := SetDelay(s, now, seconds);
            ns > s.delayNs ==>
              if exists k :: RewindGoal(s.entries, now, ns, k) && k < s.cursor
              then RewindGoal(s.entries, now, ns, t.cursor) && t.cursor < s.cursor && t.resync
              else t.cursor == s.cursor && t.resync == s.resync
    ensures var t := SetDelay(s, now, seconds);
            ns < s.delayNs && !t.pendingSkip ==>
              LowerGoal(s, now, ns, t.cursor) && t.resync == (s.resync || t.cursor > s.cursor)
  {
    hide Raise, Lower, RewindGoal, LowerGoal;
    if ns > s.delayNs {
      RaiseMeans(s, now, ns);
    } else if ns < s.delayNs {
      LowerMeans(s, now, ns);
    }
  }

  // ----- where a pass starts ----------------------------------------------

  // The keyframe a waiting skip goes to: the first unsent one not before its target.
  ghost predicate SkipGoal(s: State, k: int) {
    && s.cursor <= k < |s.entries| && Key(s.entries[k]) && s.entries[k].arrival >= s.pendingTargetNs
    && forall j :: s.cursor <= j < k && Key(s.entries[j]) ==> s.entries[j].arrival < s.pendingTargetNs
  }

  ghost predicate SkipCanEnd(s: State) {
    s.pendingSkip && exists k :: SkipGoal(s, k)
  }

  // A pass steps over the entries from `from` on, one by one, as long as they are old enough;
  // only the first can be a jump.
  ghost predicate Releases(s: State, now: nat, from: nat, jump: bool, pace: nat, r: PassResult) {
    && from + |r.visits| <= |s.entries| && r.state.pruned + r.state.cursor == s.pruned + from + |r.visits|
    && (forall i {:trigger r.visits[i]} :: 0 <= i < |r.visits| ==>
          && r.visits[i].index == s.pruned + from + i && r.visits[i].entry == s.entries[from + i]
          && r.visits[i].now == now && now - s.entries[from + i].arrival >= pace
          && r.visits[i].jump == (i == 0 && jump))
    && (from + |r.visits| < |s.entries| ==> now - s.entries[from + |r.visits|].arrival < pace)
    && r.state.resync == (r.visits == [] && jump)
  }

  lemma SkipGoalFound(s: State)
    requires s.cursor <= |s.entries|
    ensures var k := FirstKeyframeFrom(s.entries, s.cursor, s.pendingTargetNs);
            if k.Some? then SkipGoal(s, k.value) else forall j :: !SkipGoal(s, j)
    ensures forall j :: SkipGoal(s, j) ==> FirstKeyframeFrom(s.entries, s.cursor, s.pendingTargetNs) == Some(j)
  {
    FirstKeyframeIsFirst(s.entries, s.cursor, s.pendingTargetNs);
  }

  lemma {:induction false} DrainReleases(s: State, now: nat, pace: nat, r: PassResult)
    requires s.cursor <= |s.entries| && r == Drain(s, now, pace)
    ensures Releases(s, now, s.cursor, s.resync, pace, r)
    decreases |s.entries| - s.cursor
  {
    if Due(s, now, pace) {
      VisitOneFields(s, now, pace);
      var s1, v, r1 := DrainUnfolds(s, now, pace);
      DrainReleases(s1, now, pace, r1);
      forall i | 0 <= i < |r.visits|
        ensures && r.visits[i].index == s.pruned + s.cursor + i && r.visits[i].entry == s.entries[s.cursor + i]
                && r.visits[i].now == now && now - s.entries[s.cursor + i].arrival >= pace
                && r.visits[i].jump == (i == 0 && s.resync)
      {
        assert r.visits[i] == if i == 0 then v else r1.visits[i - 1];
      }
    }
  }

  // ----- what a visit does to the packet ----------------------------------

  // b is a / c rounded to the nearest whole number, halves away from zero.
  predicate Nearest(a: int, c: pos, b: int) {
    if a >= 0 then 2 * a - c < 2 * c * b <= 2 * a + c else 2 * a - c <= 2 * c * b < 2 * a + c
  }

  // The packet handed on: moved by the offset, in ticks of its timebase and in microseconds,
  // dts and pts alike, and otherwise as it was.
  ghost predicate Moved(p: Packet, offset: int, out: Packet) {
    && out == p.(dts := out.dts, pts := out.pts, dtsUsec := p.dtsUsec + offset, sysDtsUsec := p.sysDtsUsec + offset)
    && out.pts - p.pts == out.dts - p.dts
    && Nearest(offset * p.den, 1_000_000 * p.num, out.dts - p.dts)
  }

  lemma RoundDivMeans(a: int, b: pos)
    ensures Nearest(a, b, RoundDiv(a, b))
  {
    var x := if a >= 0 then 2 * a + b else -2 * a + b;
    var q := x / (2 * b);
    assert x == 2 * b * q + x % (2 * b);
  }

  lemma ShiftedMeans(p: Packet, offset: int)
    ensures Moved(p, offset, Shifted(p, offset))
  {
    RoundDivMeans(offset * p.den, 1_000_000 * p.num);
    assert offset == 0 ==> offset * p.den == 0;
  }

  /**
    One visit. After a jump the packet is placed one frame after the last video sent, if any
    was; it is sent if it lies after the last packet of its type that was.
   */
  lemma VisitMeans(s: State, now: nat, pace: nat)
    requires s.cursor < |s.entries|
    ensures var (t, v) := VisitOne(s, now, pace);
            var e := s.entries[s.cursor];
            var stamp := e.packet.dtsUsec + v.offset;
            var last := if e.packet.kind == Video then s.lastVideoOut else s.lastAudioOut;
            && v == Visit(s.pruned + s.cursor, e, s.resync, v.sent, v.out, v.offset, now, pace, s.delayNs)
            && (!s.resync || s.lastVideoOut.None? ==> v.offset == s.offsetUsec)
            && (s.resync && s.lastVideoOut.Some? ==> stamp == s.lastVideoOut.value + s.frameUsec)
            && (v.sent <==> last.None? || stamp > last.value) && Moved(e.packet, v.offset, v.out)
            && t == s.(cursor := s.cursor + 1, resync := false, offsetUsec := v.offset,
                       lastVideoOut := if v.sent && e.packet.kind == Video then Some(stamp) else s.lastVideoOut,
                       lastAudioOut := if v.sent && e.packet.kind == Audio then Some(stamp) else s.lastAudioOut,
                       lastSentArrivalNs := if v.sent then e.arrival else s.lastSentArrivalNs)
  {
    ShiftedMeans(s.entries[s.cursor].packet, VisitOne(s, now, pace).1.offset);
  }

  // What a batch hands to `send`: the packets sent, in order, and nothing else.
  lemma {:induction false} BatchMeans(a: seq<Visit>, b: seq<Visit>)
    ensures Batch(a + b) == Batch(a) + Batch(b)
    ensures |a| == 1 ==> Batch(a) == if a[0].sent then [a[0].out] else []
    ensures a == [] ==> Batch(a) == []
  {
    if a == [] {
      assert a + b == b;
    } else {
      assert (a + b)[1..] == a[1..] + b;
      BatchMeans(a[1..], b);
      Associative(if a[0].sent then [a[0].out] else [], Batch(a[1..]), Batch(b));
    }
  }

  // ----- what a pass does -------------------------------------------------

  predicate LaterThan(v: Visit, last: Option<int>) {
    last.None? || v.entry.packet.dtsUsec + v.offset > last.value
  }

  predicate SameKindBefore(v: Visit, w: Visit) {
    v.sent && v.entry.packet.kind == w.entry.packet.kind ==>
      v.entry.packet.dtsUsec + v.offset < w.entry.packet.dtsUsec + w.offset
  }

  // Visit i is sent if its stamp is greater than all those of its type sent before, in this
  // pass or earlier.
  ghost predicate SentRight(s: State, vs: seq<Visit>, i: int)
    requires 0 <= i < |vs|
  {
    var last := if vs[i].entry.packet.kind == Video then s.lastVideoOut else s.lastAudioOut;
    vs[i].sent <==> LaterThan(vs[i], last) && forall j :: 0 <= j < i ==> SameKindBefore(vs[j], vs[i])
  }

  // One offset for the whole pass: the one kept, or after a jump the one that puts the
  // keyframe a frame after the last video sent. `t` keeps the last stamps.
  ghost predicate Stamped(s: State, jump: bool, vs: seq<Visit>, t: State) {
    && (vs == [] ==> t.offsetUsec == s.offsetUsec)
    && (vs != [] ==>
          if jump && s.lastVideoOut.Some?
          then vs[0].entry.packet.dtsUsec + vs[0].offset == s.lastVideoOut.value + s.frameUsec
          else vs[0].offset == s.offsetUsec)
    && (forall i {:trigger vs[i]} :: 0 <= i < |vs| ==>
          && vs[i].offset == t.offsetUsec && Moved(vs[i].entry.packet, vs[i].offset, vs[i].out) && SentRight(s, vs, i))
    && t.lastVideoOut == LastStamp(vs, Video, s.lastVideoOut)
    && t.lastAudioOut == LastStamp(vs, Audio, s.lastAudioOut)
  }

  // The stamp of the last packet of a type sent, or what it was before.
  function LastStamp(vs: seq<Visit>, k: Kind, before: Option<int>): Option<int> {
    if vs == [] then before else
    var v := vs[0];
    LastStamp(vs[1..], k,
              if v.sent && v.entry.packet.kind == k then Some(v.entry.packet.dtsUsec + v.offset) else before)
  }

  lemma FirstVisitCounts(s: State, s1: State, v: Visit, rest: seq<Visit>, i: nat)
    requires i < |rest| && SentRight(s1, rest, i)
    requires var last := if v.entry.packet.kind == Video then s.lastVideoOut else s.lastAudioOut;
             v.sent <==> LaterThan(v, last)
    requires s1.lastVideoOut == (if v.sent && v.entry.packet.kind == Video then Some(v.entry.packet.dtsUsec + v.offset)
                                 else s.lastVideoOut)
    requires s1.lastAudioOut == (if v.sent && v.entry.packet.kind == Audio then Some(v.entry.packet.dtsUsec + v.offset)
                                 else s.lastAudioOut)
    ensures SentRight(s, [v] + rest, i + 1)
  {
    var vs, w := [v] + rest, rest[i];
    assert vs[0] == v && vs[i + 1] == w;
    if forall j :: 0 <= j < i + 1 ==> SameKindBefore(vs[j], w) {
      forall j | 0 <= j < i
        ensures SameKindBefore(rest[j], w)
      {
        assert vs[j + 1] == rest[j];
      }
    } else if SameKindBefore(v, w) {
      var j :| 0 <= j < i + 1 && !SameKindBefore(vs[j], w);
      assert rest[j - 1] == vs[j];
    }
  }

  lemma {:induction false} DrainStamps(s: State, now: nat, pace: nat, r: PassResult)
    requires s.cursor <= |s.entries| && r == Drain(s, now, pace)
    ensures Stamped(s, s.resync, r.visits, r.state)
    decreases |s.entries| - s.cursor
  {
    hide VisitOne, Moved, SameKindBefore;
    if Due(s, now, pace) {
      VisitMeans(s, now, pace);
      var s1, v, r1 := DrainUnfolds(s, now, pace);
      DrainStamps(s1, now, pace, r1);
      assert r.visits[1..] == r1.visits;
      forall i | 0 <= i < |r.visits|
        ensures r.visits[i].offset == r.state.offsetUsec
                && Moved(r.visits[i].entry.packet, r.visits[i].offset, r.visits[i].out) && SentRight(s, r.visits, i)
      {
        assert r.visits[i] == if i == 0 then v else r1.visits[i - 1];
        if i > 0 {
          FirstVisitCounts(s, s1, v, r1.visits, i - 1);
        }
      }
    }
  }

  // Sent entries older than 125 s go, at most once a second, and nothing else.
  ghost predicate Pruned(s: State, now: nat, t: State) {
    var n := t.pruned - s.pruned;
    && 0 <= n <= n + t.cursor <= |s.entries| && t.entries == s.entries[n..]
    && if now - s.lastPruneNs >= 1_000_000_000 then
         && t.lastPruneNs == now
         && (forall j :: 0 <= j < n ==> now - s.entries[j].arrival > 125_000_000_000)
         && (t.cursor > 0 ==> now - s.entries[n].arrival <= 125_000_000_000)
       else n == 0 && t.lastPruneNs == s.lastPruneNs
  }

  lemma DrainPruned(s: State, d: State, now: nat)
    requires d.cursor <= |d.entries| && d.entries == s.entries && d.pruned == s.pruned && d.lastPruneNs == s.lastPruneNs
    ensures Pruned(s, now, Prune(d, now))
  {
    if PruneDue(d, now) {
      OldPrefixIsOld(d.entries, now, d.cursor, 0);
    }
  }

  // What the fields that a pass never touches keep.
  ghost predicate PassFrame(s: State, t: State) {
    t.delayNs == s.delayNs && t.pendingTargetNs == s.pendingTargetNs && t.frameUsec == s.frameUsec
  }

  // A pass that starts at `from`, after a jump or not, at a pace.
  ghost predicate PassFrom(s: State, now: nat, from: nat, jump: bool, pace: nat, r: PassResult) {
    && Releases(s, now, from, jump, pace, r) && Stamped(s, jump, r.visits, r.state)
    && Pruned(s, now, r.state) && PassFrame(s, r.state)
  }

  // Resolving a skip changes nothing that the visits depend on but where they begin; pruning
  // changes no visit.
  lemma ReleasesAfterAll(s: State, t: State, now: nat, pace: nat, d: PassResult)
    requires t.entries == s.entries && t.pruned == s.pruned
    requires d.state.cursor <= |d.state.entries| && d.state.entries == s.entries && d.state.pruned == s.pruned
    requires Releases(t, now, t.cursor, t.resync, pace, d)
    ensures Releases(s, now, t.cursor, t.resync, pace, PassResult(Prune(d.state, now), d.visits))
  {
  }

  lemma StampedAfterAll(s: State, t: State, now: nat, d: PassResult)
    requires t.offsetUsec == s.offsetUsec && t.frameUsec == s.frameUsec
    requires t.lastVideoOut == s.lastVideoOut && t.lastAudioOut == s.lastAudioOut
    requires d.state.cursor <= |d.state.entries| && Stamped(t, t.resync, d.visits, d.state)
    ensures Stamped(s, t.resync, d.visits, Prune(d.state, now))
  {
    hide Moved, LaterThan, SameKindBefore, LastStamp, SentRight;
    forall i | 0 <= i < |d.visits|
      ensures SentRight(s, d.visits, i) == SentRight(t, d.visits, i)
    {
      SentRightByLasts(s, t, d.visits, i);
    }
  }

  lemma SentRightByLasts(s: State, t: State, vs: seq<Visit>, i: nat)
    requires i < |vs| && t.lastVideoOut == s.lastVideoOut && t.lastAudioOut == s.lastAudioOut
    ensures SentRight(s, vs, i) == SentRight(t, vs, i)
  {
  }

  lemma ResolveSkipFields(s: State)
    requires s.cursor <= |s.entries|
    ensures var t := ResolveSkip(s);
            t == s.(cursor := t.cursor, resync := t.resync, pendingSkip := t.pendingSkip, holdDelayNs := t.holdDelayNs)
  {
  }

  lemma PassFromResolved(s: State, now: nat)
    requires s.cursor <= |s.entries|
    ensures var t := ResolveSkip(s);
            var r := Pass(s, now);
            && PassFrom(s, now, t.cursor, t.resync, if t.pendingSkip then t.holdDelayNs else t.delayNs, r)
            && r.state.pendingSkip == t.pendingSkip && r.state.holdDelayNs == t.holdDelayNs
  {
    hide ResolveSkip, Releases, Stamped, Pruned, SameExceptCursor, DelaysOk;
    var t := ResolveSkip(s);
    ResolveSkipMoves(s);
    var d := Drain(t, now, t.Pace());
    DrainKeepsEntries(t, now, t.Pace());
    DrainReleases(t, now, t.Pace(), d);
    DrainStamps(t, now, t.Pace(), d);
    DrainPruned(s, d.state, now);
    ResolveSkipFields(s);
    ReleasesAfterAll(s, t, now, t.Pace(), d);
    StampedAfterAll(s, t, now, d);
  }

  /**
    A pass. A skip that waits goes to the first unsent keyframe not before its target as soon
    as there is one, and the pass then runs from there at the requested delay, beginning with
    a jump if it left entries out; else it runs from the cursor, while a skip waits at the
    delay held.
   */
  lemma PassMeans(s: State, now: nat)
    requires s.cursor <= |s.entries|
    ensures forall k {:trigger SkipGoal(s, k)} :: s.pendingSkip && SkipGoal(s, k) ==>
              && PassFrom(s, now, k, s.resync || k > s.cursor, s.delayNs, Pass(s, now))
              && !Pass(s, now).state.pendingSkip && Pass(s, now).state.holdDelayNs == s.delayNs
    ensures !SkipCanEnd(s) ==>
              && PassFrom(s, now, s.cursor, s.resync, if s.pendingSkip then s.holdDelayNs else s.delayNs, Pass(s, now))
              && Pass(s, now).state.pendingSkip == s.pendingSkip && Pass(s, now).state.holdDelayNs == s.holdDelayNs
  {
    hide Pass, PassFrom, SkipGoal;
    SkipGoalFound(s);
    PassFromResolved(s, now);
  }

  /**
    A waiting skip ends in a pass exactly when such a keyframe is buffered.
   */
  lemma SkipEndsExactly(s: State, now: nat)
    requires s.cursor <= |s.entries| && s.pendingSkip
    ensures !Pass(s, now).state.pendingSkip <==> exists k :: SkipGoal(s, k)
  {
    PassMeans(s, now);
  }

  /**
    And then it lands there: nothing before that keyframe is released, and the first visit, if
    there is one, is the keyframe, as a jump if entries were left out.
   */
  lemma WaitingSkipLands(s: State, now: nat) returns (k: nat)
    requires s.cursor <= |s.entries| && s.pendingSkip && !Pass(s, now).state.pendingSkip
    ensures s.cursor <= k < |s.entries| && s.entries[k].packet.kind == Video && s.entries[k].packet.keyframe
    ensures s.entries[k].arrival >= s.pendingTargetNs
    ensures forall j :: s.cursor <= j < k && s.entries[j].packet.kind == Video && s.entries[j].packet.keyframe ==>
              s.entries[j].arrival < s.pendingTargetNs
    ensures var r := Pass(s, now);
            && (forall i :: 0 <= i < |r.visits| ==> r.visits[i].index == s.pruned + k + i)
            && (r.visits != [] && k > s.cursor ==> r.visits[0].jump)
            && (r.visits == [] ==> r.state.pruned + r.state.cursor == s.pruned + k)
  {
    hide Pass;
    PassMeans(s, now);
    k :| SkipGoal(s, k);
  }

  // ----- in every run -----------------------------------------------------

  lemma RunIsLinked(delaySec: nat, t0: nat, evs: seq<Event>, ws: seq<World>, n: nat)
    requires IsRun(delaySec, t0, evs, ws) && n < |ws|
    ensures Linked(ws[n].s, ws[n].timeline)
  {
    RunKeepsInv(delaySec, t0, evs, ws, n);
  }

  // Where a waiting skip lands in the timeline, or its length if it goes on waiting.
  ghost predicate SkipsTo(s: State, tl: seq<Entry>, k: int) {
    var here := s.pruned + s.cursor;
    && here <= k <= |tl|
    && (k < |tl| ==> Key(tl[k]) && tl[k].arrival >= s.pendingTargetNs)
    && (forall j :: here <= j < k && Key(tl[j]) ==> tl[j].arrival < s.pendingTargetNs)
  }

  lemma SkipsToInTimeline(s: State, tl: seq<Entry>, now: nat) returns (k: int)
    requires Linked(s, tl) && s.pendingSkip
    ensures SkipsTo(s, tl, k) && (Pass(s, now).state.pendingSkip <==> k == |tl|)
    ensures k < |tl| ==> SkipGoal(s, k - s.pruned)
  {
    hide Pass;
    SkipEndsExactly(s, now);
    SkipGoalFound(s);
    FirstKeyframeIsFirst(s.entries, s.cursor, s.pendingTargetNs);
    var g := FirstKeyframeFrom(s.entries, s.cursor, s.pendingTargetNs);
    k := if g.Some? then s.pruned + g.value else |tl|;
    assert forall j :: s.pruned + s.cursor <= j < |tl| ==> tl[j] == s.entries[j - s.pruned];
  }

  lemma VisitsFromSkip(s: State, now: nat, k: int)
    requires s.cursor <= |s.entries| && s.pendingSkip && SkipGoal(s, k)
    ensures var r := Pass(s, now);
            && (forall i :: 0 <= i < |r.visits| ==> r.visits[i].index == s.pruned + k + i)
            && (r.visits != [] && k > s.cursor ==> r.visits[0].jump)
            && (r.visits == [] ==> r.state.pruned + r.state.cursor == s.pruned + k)
  {
    hide Pass;
    PassMeans(s, now);
  }

  /**
    In every run a pass at which a skip waits ends it exactly when an unsent keyframe not
    before its target is in the timeline, and the visits it adds begin at the first one.
   */
  lemma RunSkipLands(delaySec: nat, t0: nat, evs: seq<Event>, ws: seq<World>, n: nat) returns (k: int)
    requires IsRun(delaySec, t0, evs, ws) && n < |evs| && evs[n].PassEvent? && ws[n].s.pendingSkip
    ensures SkipsTo(ws[n].s, ws[n].timeline, k) && (ws[n + 1].s.pendingSkip <==> k == |ws[n].timeline|)
    ensures var added := ws[n + 1].visits[|ws[n].visits|..];
            && ws[n + 1].visits == ws[n].visits + added
            && (k < |ws[n].timeline| ==>
                  && (forall i :: 0 <= i < |added| ==> added[i].index == k + i)
                  && (added != [] && k > ws[n].s.pruned + ws[n].s.cursor ==> added[0].jump)
                  && (added == [] ==> ws[n + 1].s.pruned + ws[n + 1].s.cursor == k))
  {
    hide Pass, SkipsTo, SkipGoal, LegalEvent, Linked;
    RunIsLinked(delaySec, t0, evs, ws, n);
    var now := evs[n].now;
    assert ws[n + 1] == Step(ws[n], evs[n]);
    assert ws[n + 1].visits[|ws[n].visits|..] == Pass(ws[n].s, now).visits;
    k := SkipsToInTimeline(ws[n].s, ws[n].timeline, now);
    if k < |ws[n].timeline| {
      VisitsFromSkip(ws[n].s, now, k - ws[n].s.pruned);
    }
  }

  /**
    In every run what is sent differs from what was pushed by the offset alone, so dts and
    pts keep their distance.
   */
  lemma RunSendsMoved(delaySec: nat, t0: nat, evs: seq<Event>, ws: seq<World>, n: nat, i: nat)
    requires IsRun(delaySec, t0, evs, ws) && n < |ws| && i < |ws[n].visits|
    ensures var v := ws[n].visits[i];
            && v.index < |ws[n].timeline| && v.entry == ws[n].timeline[v.index]
            && Moved(v.entry.packet, v.offset, v.out)
            && v.out.pts - v.out.dts == v.entry.packet.pts - v.entry.packet.dts
  {
    RunKeepsInv(delaySec, t0, evs, ws, n);
    assert VisitOk(ws[n].timeline, ws[n].visits, i);
    ShiftedMeans(ws[n].visits[i].entry.packet, ws[n].visits[i].offset);
  }
}
