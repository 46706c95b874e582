/**
  How far the rewritten stamps can fall behind each other across the two media types.
 */
module DelayLag {
  import opened Common
  import opened DelaySpec
  import opened DelayRuns
  import opened EncoderPacket

  // ----- lag between the media types --------------------------------------

  ghost predicate SortedInput(tl: seq<Entry>) {
    forall i, j :: 0 <= i < j < |tl| ==> tl[i].packet.dtsUsec <= tl[j].packet.dtsUsec
  }

  ghost predicate OnlyAudioBetween(tl: seq<Entry>, v: nat, a: nat) {
    forall k :: v < k < a && k < |tl| ==> tl[k].packet.kind.Audio?
  }

  // Every audio packet lies at most `lead` after the last video packet before it.
  ghost predicate AudioLeads(tl: seq<Entry>, lead: nat) {
    forall v, a ::
      0 <= v < a < |tl| && tl[v].packet.kind.Video? && tl[a].packet.kind.Audio? && OnlyAudioBetween(tl, v, a) ==>
      tl[a].packet.dtsUsec - tl[v].packet.dtsUsec <= lead
  }

  ghost predicate ConstantFrame(tl: seq<Entry>, frame: nat) {
    forall i :: 0 <= i < |tl| && tl[i].packet.kind.Video? ==>
      tl[i].packet.den > 0 && USEC_PER_SEC * tl[i].packet.num / tl[i].packet.den == frame
  }

  ghost predicate FrameSeen(s: State, tl: seq<Entry>, frame: nat) {
    (exists i :: 0 <= i < |tl| && tl[i].packet.kind.Video?) ==> s.frameUsec == frame
  }

  ghost predicate InputShape(tl: seq<Entry>, lead: nat, frame: nat) {
    SortedInput(tl) && AudioLeads(tl, lead) && ConstantFrame(tl, frame)
  }

  // No visit lies more than `bound` behind a sent one before it.
  ghost predicate BoundedLag(vs: seq<Visit>, bound: nat) {
    forall i, j :: 0 <= i < j < |vs| && vs[i].sent ==> Stamp(vs[i]) - bound <= Stamp(vs[j])
  }

  ghost predicate NearVideo(s: State, vs: seq<Visit>, lead: nat) {
    s.lastVideoOut.Some? ==>
      forall i :: 0 <= i < |vs| && vs[i].sent ==> Stamp(vs[i]) <= s.lastVideoOut.value + lead
  }

  function LagBound(lead: nat, frame: nat): nat {
    if lead > frame then lead - frame else 0
  }

  ghost predicate LagInv(s: State, vs: seq<Visit>, lead: nat, frame: nat) {
    BoundedLag(vs, LagBound(lead, frame)) && NearVideo(s, vs, lead)
  }

  // Before any video is sent the run is one audio-only slice at offset 0.
  lemma {:induction false} BeforeVideo(tl: seq<Entry>, vs: seq<Visit>, i: nat)
    requires Chain(tl, vs) && LastOf(vs, Video).None? && i < |vs|
    ensures vs[i].index == i < |tl| && vs[i].offset == 0 && tl[i].packet.kind.Audio?
  {
    var m := LastOfWitness(vs, Video);
    assert VisitOk(tl, vs, i);
    if i > 0 {
      BeforeVideo(tl, vs, i - 1);
    }
  }

  // Since the last video sent, the pacer has stepped over nothing but audio, in one slice.
  lemma SinceLastVideo(tl: seq<Entry>, vs: seq<Visit>) returns (m: nat)
    requires Chain(tl, vs) && LastOf(vs, Video).Some?
    ensures m < |vs| && vs[m].entry.packet.kind.Video? && LastOf(vs, Video).value == Stamp(vs[m])
    ensures NoJumpWithin(vs, m, |vs| - 1)
    ensures forall j :: m < j < |vs| ==> vs[j].entry.packet.kind.Audio?
  {
    m := LastOfWitness(vs, Video);
    forall j | m < j < |vs|
      ensures vs[j].entry.packet.kind.Audio? && !vs[j].jump
    {
      assert VisitOk(tl, vs, j);
    }
  }

  lemma TimelineSinceVisit(tl: seq<Entry>, vs: seq<Visit>, m: nat, k: nat)
    requires Chain(tl, vs) && m < |vs| && NoJumpWithin(vs, m, |vs| - 1)
    requires forall j :: m < j < |vs| ==> vs[j].entry.packet.kind.Audio?
    requires vs[m].index < k < vs[m].index + (|vs| - m)
    ensures k < |tl| && tl[k].packet.kind.Audio?
  {
    var j := m + (k - vs[m].index);
    SameSlice(tl, vs, m, j);
    assert VisitOk(tl, vs, j);
  }

  // The next audio packet is at most `lead` ahead of the last video sent.
  lemma AudioNearVideo(s: State, tl: seq<Entry>, vs: seq<Visit>, lead: nat)
    requires Linked(s, tl) && Chain(tl, vs) && LastStamps(s, vs) && Resumes(s, vs)
    requires AudioLeads(tl, lead) && s.lastVideoOut.Some? && !s.resync
    requires s.cursor < |s.entries| && s.entries[s.cursor].packet.kind.Audio?
    ensures s.entries[s.cursor].packet.dtsUsec + s.offsetUsec <= s.lastVideoOut.value + lead
  {
    var m := SinceLastVideo(tl, vs);
    SameSlice(tl, vs, m, |vs| - 1);
    assert VisitOk(tl, vs, m);
    var v, a := vs[m].index, Abs(s);
    forall k | v < k < a
      ensures k < |tl| && tl[k].packet.kind.Audio?
    {
      TimelineSinceVisit(tl, vs, m, k);
    }
    assert OnlyAudioBetween(tl, v, a);
    assert tl[a] == s.entries[s.cursor];
  }

  // Before any video is sent, whatever comes next comes later in the timeline.
  lemma FirstVideoIsLater(s: State, tl: seq<Entry>, vs: seq<Visit>, i: nat)
    requires Linked(s, tl) && Chain(tl, vs) && LastStamps(s, vs) && Resumes(s, vs)
    requires SortedInput(tl) && s.lastVideoOut.None?
    requires s.cursor < |s.entries| && s.entries[s.cursor].packet.kind.Video? && i < |vs|
    ensures s.offsetUsec == 0 && Stamp(vs[i]) <= s.entries[s.cursor].packet.dtsUsec
  {
    BeforeVideo(tl, vs, i);
    BeforeVideo(tl, vs, |vs| - 1);
    assert VisitOk(tl, vs, i);
    assert tl[Abs(s)] == s.entries[s.cursor];
    if Abs(s) < |vs| {
      BeforeVideo(tl, vs, Abs(s));
    }
  }

  lemma ContinuesInOrder(s: State, tl: seq<Entry>, vs: seq<Visit>, now: nat, pace: nat)
    requires Linked(s, tl) && Chain(tl, vs) && Resumes(s, vs)
    requires SortedInput(tl) && !s.resync && vs != [] && s.cursor < |s.entries|
    ensures Stamp(vs[|vs| - 1]) <= Stamp(VisitOne(s, now, pace).1)
  {
    VisitOneFields(s, now, pace);
    assert VisitOk(tl, vs, |vs| - 1);
    assert tl[Abs(s)] == s.entries[s.cursor];
  }

  // A visit is never more than the bound behind what was sent before it.
  lemma VisitNotFarBehind(s: State, tl: seq<Entry>, vs: seq<Visit>, now: nat, pace: nat, lead: nat, frame: nat, i: nat)
    requires PacerInv(s, tl, vs) && InputShape(tl, lead, frame) && FrameSeen(s, tl, frame) && LagInv(s, vs, lead, frame)
    requires s.cursor < |s.entries| && i < |vs| && vs[i].sent
    ensures Stamp(vs[i]) - LagBound(lead, frame) <= Stamp(VisitOne(s, now, pace).1)
  {
    if !s.resync {
      ContinuesInOrder(s, tl, vs, now, pace);
    } else {
      VisitOneFields(s, now, pace);
      assert tl[Abs(s)] == s.entries[s.cursor];
      if s.lastVideoOut.None? {
        FirstVideoIsLater(s, tl, vs, i);
      }
    }
  }

  lemma VisitStaysNearVideo(s: State, tl: seq<Entry>, vs: seq<Visit>, now: nat, pace: nat, lead: nat, frame: nat)
    requires PacerInv(s, tl, vs) && InputShape(tl, lead, frame) && FrameSeen(s, tl, frame) && LagInv(s, vs, lead, frame)
    requires s.cursor < |s.entries|
    ensures NearVideo(VisitOne(s, now, pace).0, vs + [VisitOne(s, now, pace).1], lead)
  {
    VisitOneFields(s, now, pace);
    var (s1, v) := VisitOne(s, now, pace);
    if v.entry.packet.kind.Video? {
      if s.lastVideoOut.None? {
        forall i | 0 <= i < |vs| && vs[i].sent
          ensures Stamp(vs[i]) <= Stamp(v)
        {
          FirstVideoIsLater(s, tl, vs, i);
        }
      }
    } else if s.lastVideoOut.Some? {
      AudioNearVideo(s, tl, vs, lead);
    }
  }

  lemma {:induction false} DrainKeepsLag(s: State, tl: seq<Entry>, vs: seq<Visit>, now: nat, pace: nat,
                                         lead: nat, frame: nat, r: PassResult)
    requires PacerInv(s, tl, vs) && InputShape(tl, lead, frame) && FrameSeen(s, tl, frame) && LagInv(s, vs, lead, frame)
    requires r == Drain(s, now, pace)
    ensures LagInv(r.state, vs + r.visits, lead, frame)
    decreases |s.entries| - s.cursor
  {
    if Due(s, now, pace) {
      VisitOneFields(s, now, pace);
      VisitKeepsPacerInv(s, tl, vs, now, pace);
      forall i | 0 <= i < |vs| && vs[i].sent
        ensures Stamp(vs[i]) - LagBound(lead, frame) <= Stamp(VisitOne(s, now, pace).1)
      {
        VisitNotFarBehind(s, tl, vs, now, pace, lead, frame, i);
      }
      VisitStaysNearVideo(s, tl, vs, now, pace, lead, frame);
      var s1, v, r1 := DrainUnfolds(s, now, pace);
      DrainKeepsLag(s1, tl, vs + [v], now, pace, lead, frame, r1);
      AppendAssoc(vs, v, r1.visits);
    } else {
      AppendNothing(vs, r.visits);
    }
  }

  lemma StepKeepsLag(w: World, ev: Event, lead: nat, frame: nat)
    requires Inv(w) && LegalEvent(w, ev) && InputShape(Step(w, ev).timeline, lead, frame)
    requires LagInv(w.s, w.visits, lead, frame) && FrameSeen(w.s, w.timeline, frame)
             && InputShape(w.timeline, lead, frame)
    ensures LagInv(Step(w, ev).s, Step(w, ev).visits, lead, frame)
    ensures FrameSeen(Step(w, ev).s, Step(w, ev).timeline, frame)
  {
    match ev
    case PushEvent(now, p) =>
      assert Step(w, ev).timeline[|w.timeline|] == Entry(p, now);
      assert forall i :: 0 <= i < |w.timeline| ==> Step(w, ev).timeline[i] == w.timeline[i];
    case SetDelayEvent(now, sec) => SetDelayMoves(w.s, now, sec);
    case PassEvent(now) =>
      var r := ResolveSkip(w.s);
      ResolveSkipMoves(w.s);
      MoveKeepsPacerInv(w.s, r, w.timeline, w.visits);
      var d := Drain(r, now, r.Pace());
      DrainKeepsEntries(r, now, r.Pace());
      DrainKeepsLag(r, w.timeline, w.visits, now, r.Pace(), lead, frame, d);
  }

  lemma {:induction false} TimelineGrows(delaySec: nat, t0: nat, evs: seq<Event>, ws: seq<World>, m: nat, n: nat)
    requires IsRun(delaySec, t0, evs, ws) && m <= n < |ws|
    ensures |ws[m].timeline| <= |ws[n].timeline|
    ensures forall i :: 0 <= i < |ws[m].timeline| ==> ws[m].timeline[i] == ws[n].timeline[i]
    decreases n
  {
    if m < n {
      TimelineGrows(delaySec, t0, evs, ws, m, n - 1);
      assert ws[n] == Step(ws[n - 1], evs[n - 1]);
    }
  }

  lemma PrefixShape(tl: seq<Entry>, tl1: seq<Entry>, lead: nat, frame: nat)
    requires InputShape(tl1, lead, frame) && |tl| <= |tl1| && forall i :: 0 <= i < |tl| ==> tl[i] == tl1[i]
    ensures InputShape(tl, lead, frame)
  {
    forall v, a | 0 <= v < a < |tl| && tl[v].packet.kind.Video? && tl[a].packet.kind.Audio?
        && OnlyAudioBetween(tl, v, a)
      ensures tl[a].packet.dtsUsec - tl[v].packet.dtsUsec <= lead
    {
      assert OnlyAudioBetween(tl1, v, a);
    }
  }

  lemma {:induction false} RunKeepsLag(delaySec: nat, t0: nat, evs: seq<Event>, ws: seq<World>, n: nat, lead: nat,
                                       frame: nat)
    requires IsRun(delaySec, t0, evs, ws) && n < |ws| && InputShape(ws[n].timeline, lead, frame)
    ensures LagInv(ws[n].s, ws[n].visits, lead, frame) && FrameSeen(ws[n].s, ws[n].timeline, frame)
  {
    if n > 0 {
      TimelineGrows(delaySec, t0, evs, ws, n - 1, n);
      PrefixShape(ws[n - 1].timeline, ws[n].timeline, lead, frame);
      RunKeepsLag(delaySec, t0, evs, ws, n - 1, lead, frame);
      RunKeepsInv(delaySec, t0, evs, ws, n - 1);
      StepKeepsLag(ws[n - 1], evs[n - 1], lead, frame);
    }
  }

  /**
    When packets are pushed in dts order, audio leads video by at most `lead` and the frame
    time is constant, no packet sent falls more than max(0, lead - frame) behind any packet
    of either type sent before it.
   */
  lemma OutputLagIsBounded(delaySec: nat, t0: nat, evs: seq<Event>, ws: seq<World>, n: nat, lead: nat, frame: nat)
    requires IsRun(delaySec, t0, evs, ws) && n < |ws| && InputShape(ws[n].timeline, lead, frame)
    ensures forall i, j :: 0 <= i < j < |ws[n].visits| && ws[n].visits[i].sent && ws[n].visits[j].sent ==>
              ws[n].visits[i].out.dtsUsec - Max(0, lead - frame) <= ws[n].visits[j].out.dtsUsec
  {
    RunKeepsInv(delaySec, t0, evs, ws, n);
    RunKeepsLag(delaySec, t0, evs, ws, n, lead, frame);
    var vs := ws[n].visits;
    forall i | 0 <= i < |vs|
      ensures vs[i].out.dtsUsec == Stamp(vs[i])
    {
      assert VisitOk(ws[n].timeline, vs, i);
    }
  }

  // A run that reaches the bound: one keyframe, one audio packet leading it by `lead`, both
  // sent at once, then a raise to 10 s.
  const TEN_SEC: nat := 10 * NS_PER_SEC

  function Key(frame: pos): Packet {
    Packet(Video, true, 0, 0, 0, 0, 0, frame, USEC_PER_SEC, [])
  }

  function LeadingAudio(lead: pos): Packet {
    Packet(Audio, false, 0, lead, lead, lead, lead, 1, USEC_PER_SEC, [])
  }

  function RaiseRun(lead: pos, frame: pos): seq<Event> {
    [PushEvent(0, Key(frame)), PushEvent(0, LeadingAudio(lead)), PassEvent(0), SetDelayEvent(0, 10), PassEvent(TEN_SEC)]
  }

  // The state of that run once both packets are sent, before the raise.
  function BothSent(lead: pos, frame: pos): State {
    State([Entry(Key(frame), 0), Entry(LeadingAudio(lead), 0)], 2, 0, 0, false, 0, 0, false, Some(0), Some(lead),
        frame, 0, 0, 0)
  }

  lemma SendsBoth(s: State, lead: pos, frame: pos)
    requires s == BothSent(lead, frame).(cursor := 0, lastVideoOut := None, lastAudioOut := None)
    ensures Pass(s, 0).state == BothSent(lead, frame)
    ensures |Pass(s, 0).visits| == 2 && Pass(s, 0).visits[1].sent && Pass(s, 0).visits[1].out.dtsUsec == lead
  {
    var (s1, v1) := VisitOne(s, 0, 0);
    var (s2, v2) := VisitOne(s1, 0, 0);
    assert Drain(s2, 0, 0) == PassResult(s2, []);
    assert Drain(s1, 0, 0) == PassResult(s2, [v2]);
    assert Drain(s, 0, 0) == PassResult(s2, [v1, v2]);
  }

  lemma RaiseReplaysKey(lead: pos, frame: pos)
    ensures var s := SetDelay(BothSent(lead, frame), 0, 10);
            && s == BothSent(lead, frame).(cursor := 0, resync := true, delayNs := TEN_SEC, holdDelayNs := TEN_SEC)
            && var r := Pass(s, TEN_SEC); |r.visits| >= 1 && r.visits[0].sent && r.visits[0].out.dtsUsec == frame
  {
    var es := BothSent(lead, frame).entries;
    assert LastKeyframeUpTo(es, 0, 1) == Some(0);
    assert LastKeyframeUpTo(es, 0, 2) == Some(0);
    var s := SetDelay(BothSent(lead, frame), 0, 10);
    assert Due(s, TEN_SEC, TEN_SEC);
    DrainKeepsEntries(s, TEN_SEC, TEN_SEC);
  }

  lemma ExampleInputShape(lead: pos, frame: pos)
    ensures InputShape([Entry(Key(frame), 0), Entry(LeadingAudio(lead), 0)], lead, frame)
  {
  }

  /**
    The bound is attained for every lead greater than the frame time, so across the two media
    types stamps never go back in any run exactly when audio leads by no more than a frame.
   */
  lemma LagBoundIsReached(lead: pos, frame: pos) returns (ws: seq<World>)
    requires lead > frame
    ensures IsRun(0, 0, RaiseRun(lead, frame), ws) && InputShape(ws[5].timeline, lead, frame)
    ensures |ws[5].visits| >= 3 && ws[5].visits[1].sent && ws[5].visits[2].sent
            && ws[5].visits[2].out.dtsUsec == ws[5].visits[1].out.dtsUsec - (lead - frame)
  {
    hide Pass, SetDelay, InputShape;
    var w0 := Start(0, 0);
    var w1 := Step(w0, PushEvent(0, Key(frame)));
    var w2 := Step(w1, PushEvent(0, LeadingAudio(lead)));
    assert w2.timeline == [Entry(Key(frame), 0), Entry(LeadingAudio(lead), 0)];
    ExampleInputShape(lead, frame);
    SendsBoth(w2.s, lead, frame);
    var w3 := Step(w2, PassEvent(0));
    RaiseReplaysKey(lead, frame);
    var w4 := Step(w3, SetDelayEvent(0, 10));
    var w5 := Step(w4, PassEvent(TEN_SEC));
    ws := [w0, w1, w2, w3, w4, w5];
    assert w5.visits[..2] == w3.visits;
    assert w5.visits[1] == w3.visits[1] && w5.visits[2] == Pass(w4.s, TEN_SEC).visits[0];
  }
}
