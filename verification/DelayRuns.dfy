/**
  Runs of the delay timeline: any interleaving of pushes, delay changes and pacer
  passes, and what every such run keeps.  `timeline` is every entry ever pushed and
  `visits` every entry the pacer ever stepped over, in order.
 */
module DelayRuns {
  import opened Common
  import opened DelaySpec
  import opened EncoderPacket

  datatype World = World(s: State, timeline: seq<Entry>, visits: seq<Visit>, clock: nat, lastPass: nat)

  datatype Event =
    | PushEvent(now: nat, packet: Packet)
    | SetDelayEvent(now: nat, seconds: nat)
    | PassEvent(now: nat)

  function Start(delaySec: nat, t0: nat): World {
    World(Reset(delaySec), [], [], t0, t0)
  }

  function Step(w: World, ev: Event): World
    requires w.s.cursor <= |w.s.entries|
  {
    match ev
    case PushEvent(now, p) => w.(s := Push(w.s, now, p), timeline := w.timeline + [Entry(p, now)], clock := now)
    case SetDelayEvent(now, sec) => w.(s := SetDelay(w.s, now, sec), clock := now)
    case PassEvent(now) =>
      var r := Pass(w.s, now);
      w.(s := r.state, visits := w.visits + r.visits, clock := now, lastPass := now)
  }

  // What the encoders and the clock are relied on for: a clock that never goes back,
  // strictly increasing dts_usec within each media type, video frames of at least 1 us.
  ghost predicate LegalEvent(w: World, ev: Event) {
    && w.clock <= ev.now
    && (ev.PushEvent? ==>
          && (forall i :: 0 <= i < |w.timeline| && w.timeline[i].packet.kind == ev.packet.kind ==>
                w.timeline[i].packet.dtsUsec < ev.packet.dtsUsec)
          && (ev.packet.kind.Video? && ev.packet.den > 0 ==> USEC_PER_SEC * ev.packet.num / ev.packet.den >= 1))
  }

  // ws are the worlds a run of legal events passes through.
  ghost predicate IsRun(delaySec: nat, t0: nat, evs: seq<Event>, ws: seq<World>) {
    && delaySec <= MAX_DELAY_SEC
    && |ws| == |evs| + 1
    && ws[0] == Start(delaySec, t0)
    && (forall i :: 0 <= i < |evs| ==>
          && ws[i].s.cursor <= |ws[i].s.entries|
          && LegalEvent(ws[i], evs[i])
          && ws[i + 1] == Step(ws[i], evs[i]))
  }

  // ----- the invariant, in parts ------------------------------------------

  function Abs(s: State): nat {
    s.pruned + s.cursor
  }

  // The buffered entries are the timeline without what was pruned.
  ghost predicate Linked(s: State, tl: seq<Entry>) {
    && s.cursor <= |s.entries|
    && |tl| == s.pruned + |s.entries|
    && s.entries == tl[s.pruned..]
  }

  ghost predicate DtsOrdered(tl: seq<Entry>, i: int, j: int)
    requires 0 <= i < |tl| && 0 <= j < |tl|
  {
    tl[i].packet.kind == tl[j].packet.kind ==> tl[i].packet.dtsUsec < tl[j].packet.dtsUsec
  }

  ghost predicate OrderedInput(tl: seq<Entry>) {
    forall i, j :: 0 <= i < j < |tl| ==> DtsOrdered(tl, i, j)
  }

  ghost predicate NotAfter(tl: seq<Entry>, i: int, j: int)
    requires 0 <= i < |tl| && 0 <= j < |tl|
  {
    tl[i].arrival <= tl[j].arrival
  }

  // Entries are in arrival order, none from the future.
  ghost predicate Clocked(tl: seq<Entry>, clock: nat) {
    && (forall i :: 0 <= i < |tl| ==> tl[i].arrival <= clock)
    && (forall i, j :: 0 <= i <= j < |tl| ==> NotAfter(tl, i, j))
  }

  function Stamp(v: Visit): int {
    v.entry.packet.dtsUsec + v.offset
  }

  // A visit continues the slice of the previous one, at the same offset, or is a jump to a
  // keyframe that is sent.  No video packet is ever dropped.
  ghost predicate VisitOk(tl: seq<Entry>, vs: seq<Visit>, i: int)
    requires 0 <= i < |vs|
  {
    var v := vs[i];
    && v.index < |tl| && v.entry == tl[v.index]
    && v.out == Shifted(v.entry.packet, v.offset)
    && (v.jump ==> IsKeyframe(v.entry))
    && (v.entry.packet.kind.Video? ==> v.sent)
    && (!v.jump && i == 0 ==> v.index == 0 && v.offset == 0)
    && (!v.jump && i > 0 ==> v.index == vs[i - 1].index + 1 && v.offset == vs[i - 1].offset)
  }

  ghost predicate Chain(tl: seq<Entry>, vs: seq<Visit>) {
    forall i :: 0 <= i < |vs| ==> VisitOk(tl, vs, i)
  }

  ghost predicate NoJumpWithin(vs: seq<Visit>, i: int, j: int) {
    forall k :: 0 <= k < |vs| && i < k <= j ==> !vs[k].jump
  }

  function LastOf(vs: seq<Visit>, k: Kind): Option<int> {
    if vs == [] then None else
    var v := vs[|vs| - 1];
    if v.sent && v.entry.packet.kind == k then Some(Stamp(v)) else LastOf(vs[..|vs| - 1], k)
  }

  ghost predicate LastStamps(s: State, vs: seq<Visit>) {
    s.lastVideoOut == LastOf(vs, Video) && s.lastAudioOut == LastOf(vs, Audio)
  }

  ghost predicate Increasing(vs: seq<Visit>) {
    forall i, j ::
      0 <= i < j < |vs| && vs[i].sent && vs[j].sent && vs[i].entry.packet.kind == vs[j].entry.packet.kind ==>
      Stamp(vs[i]) < Stamp(vs[j])
  }

  // Once audio has been sent in a slice it is never dropped there, and before the first
  // jump nothing is dropped.
  ghost predicate AudioResumes(vs: seq<Visit>) {
    && (forall i, j ::
          0 <= i < j < |vs| && vs[i].entry.packet.kind.Audio? && vs[i].sent && NoJumpWithin(vs, i, j) ==> vs[j].sent)
    && (forall j :: 0 <= j < |vs| && NoJumpWithin(vs, -1, j) ==> vs[j].sent)
  }

  ghost predicate Resumes(s: State, vs: seq<Visit>) {
    && (s.resync ==> s.cursor < |s.entries| && IsKeyframe(s.entries[s.cursor]))
    && s.offsetUsec == (if vs == [] then 0 else vs[|vs| - 1].offset)
    && (!s.resync ==> Abs(s) == if vs == [] then 0 else vs[|vs| - 1].index + 1)
  }

  // The delay kept while a skip waits is the larger one.
  ghost predicate DelaysOk(s: State) {
    && s.delayNs <= s.holdDelayNs <= MAX_DELAY_NS
    && (s.pendingSkip <==> s.delayNs < s.holdDelayNs)
  }

  ghost predicate NothingEarly(vs: seq<Visit>) {
    forall i :: 0 <= i < |vs| ==> vs[i].now - vs[i].entry.arrival >= vs[i].pace >= vs[i].delay
  }

  ghost predicate VisitsOk(tl: seq<Entry>, vs: seq<Visit>) {
    Chain(tl, vs) && Increasing(vs) && AudioResumes(vs)
  }

  // What the pacer's state keeps relative to the timeline and the visits so far.
  ghost predicate PacerInv(s: State, tl: seq<Entry>, vs: seq<Visit>) {
    && Linked(s, tl) && OrderedInput(tl) && VisitsOk(tl, vs)
    && LastStamps(s, vs) && Resumes(s, vs) && s.frameUsec >= 1
  }

  ghost predicate Inv(w: World) {
    && PacerInv(w.s, w.timeline, w.visits)
    && Clocked(w.timeline, w.clock)
    && DelaysOk(w.s)
    && NothingEarly(w.visits)
    && w.lastPass <= w.clock
  }

  // ----- slices -----------------------------------------------------------

  // Without a jump between them, two visits lie as far apart in the timeline as in the
  // run, at the same offset.
  lemma {:induction false} SameSlice(tl: seq<Entry>, vs: seq<Visit>, i: nat, j: nat)
    requires Chain(tl, vs) && i <= j < |vs| && NoJumpWithin(vs, i, j)
    ensures vs[j].index == vs[i].index + (j - i)
    ensures vs[j].offset == vs[i].offset
    decreases j
  {
    if i < j {
      SameSlice(tl, vs, i, j - 1);
      assert VisitOk(tl, vs, j);
    }
  }

  // The visit that set the last stamp of a media type.
  lemma {:induction false} LastOfWitness(vs: seq<Visit>, k: Kind) returns (m: int)
    ensures LastOf(vs, k).Some? ==>
              && 0 <= m < |vs| && vs[m].sent && vs[m].entry.packet.kind == k && LastOf(vs, k).value == Stamp(vs[m])
              && forall j :: m < j < |vs| ==> !(vs[j].sent && vs[j].entry.packet.kind == k)
    ensures LastOf(vs, k).None? ==> m == -1 && forall j :: 0 <= j < |vs| ==>
            !(vs[j].sent && vs[j].entry.packet.kind == k)
  {
    m := -1;
    if vs != [] {
      var v := vs[|vs| - 1];
      if v.sent && v.entry.packet.kind == k {
        m := |vs| - 1;
      } else {
        m := LastOfWitness(vs[..|vs| - 1], k);
      }
    }
  }

  // In the slice being played, a packet of a type that was already sent in it goes out.
  lemma InSliceNotBackwards(tl: seq<Entry>, vs: seq<Visit>, s: State, i: nat)
    requires Linked(s, tl) && OrderedInput(tl) && Chain(tl, vs) && LastStamps(s, vs) && Resumes(s, vs)
    requires !s.resync && s.cursor < |s.entries| && i < |vs| && NoJumpWithin(vs, i, |vs| - 1)
    requires vs[i].sent && vs[i].entry.packet.kind == s.entries[s.cursor].packet.kind
    ensures !GoesBackwards(s, s.entries[s.cursor].packet)
  {
    var p := s.entries[s.cursor].packet;
    var m := LastOfWitness(vs, p.kind);
    assert m >= i;
    SameSlice(tl, vs, m, |vs| - 1);
    assert VisitOk(tl, vs, m);
    assert s.entries[s.cursor] == tl[Abs(s)];
    assert DtsOrdered(tl, vs[m].index, Abs(s));
  }

  lemma VideoNotBackwards(tl: seq<Entry>, vs: seq<Visit>, s: State)
    requires Linked(s, tl) && OrderedInput(tl) && Chain(tl, vs) && LastStamps(s, vs) && Resumes(s, vs)
    requires !s.resync && s.cursor < |s.entries| && s.entries[s.cursor].packet.kind.Video?
    ensures !GoesBackwards(s, s.entries[s.cursor].packet)
  {
    var m := LastOfWitness(vs, Video);
    if m >= 0 {
      forall j | m < j < |vs|
        ensures !vs[j].jump
      {
        assert VisitOk(tl, vs, j);
      }
      InSliceNotBackwards(tl, vs, s, m);
    }
  }

  lemma FirstSliceNotBackwards(tl: seq<Entry>, vs: seq<Visit>, s: State)
    requires Linked(s, tl) && OrderedInput(tl) && Chain(tl, vs) && LastStamps(s, vs) && Resumes(s, vs)
    requires !s.resync && s.cursor < |s.entries| && NoJumpWithin(vs, -1, |vs| - 1)
    ensures !GoesBackwards(s, s.entries[s.cursor].packet)
  {
    var m := LastOfWitness(vs, s.entries[s.cursor].packet.kind);
    if m >= 0 {
      InSliceNotBackwards(tl, vs, s, m);
    }
  }

  // ----- one visit --------------------------------------------------------

  // The fields of VisitOne's result that the invariant speaks of.
  lemma VisitOneFields(s: State, now: nat, pace: nat)
    requires s.cursor < |s.entries|
    ensures var (s1, v) := VisitOne(s, now, pace);
            var p := s.entries[s.cursor].packet;
            && s1.entries == s.entries && s1.pruned == s.pruned && s1.cursor == s.cursor + 1 && !s1.resync
            && s1.frameUsec == s.frameUsec
            && v.index == Abs(s) && v.entry == s.entries[s.cursor] && v.jump == s.resync
            && v.offset == s1.offsetUsec && v.out == Shifted(p, v.offset)
            && v.now == now && v.pace == pace && v.delay == s.delayNs
            && (!s.resync ==> v.offset == s.offsetUsec && v.sent == !GoesBackwards(s, p))
            && (s.resync && s.lastVideoOut.None? ==> v.offset == s.offsetUsec)
            && (s.resync && s.lastVideoOut.Some? ==> Stamp(v) == s.lastVideoOut.value + s.frameUsec)
            && (s.resync && p.kind.Video? && s.frameUsec >= 1 ==> v.sent)
            && s1.lastVideoOut == (if v.sent && p.kind.Video? then Some(Stamp(v)) else s.lastVideoOut)
            && s1.lastAudioOut == (if v.sent && p.kind.Audio? then Some(Stamp(v)) else s.lastAudioOut)
            && (v.sent ==> s.Last(p.kind).None? || s.Last(p.kind).value < Stamp(v))
  {
  }

  lemma VisitKeepsChain(s: State, tl: seq<Entry>, vs: seq<Visit>, now: nat, pace: nat)
    requires PacerInv(s, tl, vs) && s.cursor < |s.entries|
    ensures Chain(tl, vs + [VisitOne(s, now, pace).1])
  {
    VisitOneFields(s, now, pace);
    var v := VisitOne(s, now, pace).1;
    var vs1 := vs + [v];
    assert v.entry == tl[v.index];
    if !s.resync && v.entry.packet.kind.Video? {
      VideoNotBackwards(tl, vs, s);
    }
    forall i | 0 <= i < |vs1|
      ensures VisitOk(tl, vs1, i)
    {
      if i < |vs| {
        assert VisitOk(tl, vs, i);
      }
    }
  }

  lemma VisitKeepsIncreasing(s: State, tl: seq<Entry>, vs: seq<Visit>, now: nat, pace: nat)
    requires PacerInv(s, tl, vs) && s.cursor < |s.entries|
    ensures Increasing(vs + [VisitOne(s, now, pace).1])
  {
    VisitOneFields(s, now, pace);
    var v := VisitOne(s, now, pace).1;
    var m := LastOfWitness(vs, v.entry.packet.kind);
    forall i | 0 <= i < |vs| && vs[i].sent && v.sent && vs[i].entry.packet.kind == v.entry.packet.kind
      ensures Stamp(vs[i]) < Stamp(v)
    {
      assert i <= m;
    }
  }

  lemma VisitKeepsAudio(s: State, tl: seq<Entry>, vs: seq<Visit>, now: nat, pace: nat)
    requires PacerInv(s, tl, vs) && s.cursor < |s.entries|
    ensures AudioResumes(vs + [VisitOne(s, now, pace).1])
  {
    VisitOneFields(s, now, pace);
    var v := VisitOne(s, now, pace).1;
    var vs1 := vs + [v];
    var n := |vs|;
    forall i, j | 0 <= i < j < |vs1| && vs1[i].entry.packet.kind.Audio? && vs1[i].sent && NoJumpWithin(vs1, i, j)
      ensures vs1[j].sent
    {
      assert forall k :: 0 <= k < n ==> vs[k] == vs1[k];
      if j < n {
        assert NoJumpWithin(vs, i, j);
      } else {
        assert !vs1[n].jump;
        assert NoJumpWithin(vs, i, n - 1);
        if v.entry.packet.kind.Video? {
          VideoNotBackwards(tl, vs, s);
        } else {
          InSliceNotBackwards(tl, vs, s, i);
        }
      }
    }
    forall j | 0 <= j < |vs1| && NoJumpWithin(vs1, -1, j)
      ensures vs1[j].sent
    {
      assert forall k :: 0 <= k < n ==> vs[k] == vs1[k];
      if j < n {
        assert NoJumpWithin(vs, -1, j);
      } else {
        assert !vs1[n].jump;
        assert NoJumpWithin(vs, -1, n - 1);
        FirstSliceNotBackwards(tl, vs, s);
      }
    }
  }

  lemma VisitKeepsPacerInv(s: State, tl: seq<Entry>, vs: seq<Visit>, now: nat, pace: nat)
    requires PacerInv(s, tl, vs) && s.cursor < |s.entries|
    ensures PacerInv(VisitOne(s, now, pace).0, tl, vs + [VisitOne(s, now, pace).1])
  {
    VisitKeepsChain(s, tl, vs, now, pace);
    VisitKeepsIncreasing(s, tl, vs, now, pace);
    VisitKeepsAudio(s, tl, vs, now, pace);
    VisitOneFields(s, now, pace);
    assert (vs + [VisitOne(s, now, pace).1])[..|vs|] == vs;
  }

  // ----- one pass ---------------------------------------------------------

  lemma AppendAssoc<T>(a: seq<T>, x: T, b: seq<T>)
    ensures a + ([x] + b) == (a + [x]) + b
  {
  }

  lemma AppendNothing<T>(a: seq<T>, b: seq<T>)
    requires b == []
    ensures a + b == a
  {
  }

  lemma DrainUnfolds(s: State, now: nat, pace: nat) returns (s1: State, v: Visit, r1: PassResult)
    requires Due(s, now, pace)
    ensures (s1, v) == VisitOne(s, now, pace) && r1 == Drain(s1, now, pace)
    ensures Drain(s, now, pace) == PassResult(r1.state, [v] + r1.visits)
    ensures s1.entries == s.entries && s1.cursor == s.cursor + 1
  {
    s1, v := VisitOne(s, now, pace).0, VisitOne(s, now, pace).1;
    r1 := Drain(s1, now, pace);
  }

  lemma {:induction false} DrainKeepsPacerInv(s: State, tl: seq<Entry>, vs: seq<Visit>, now: nat, pace: nat,
                                              r: PassResult)
    requires PacerInv(s, tl, vs) && r == Drain(s, now, pace)
    ensures PacerInv(r.state, tl, vs + r.visits)
    decreases |s.entries| - s.cursor
  {
    if Due(s, now, pace) {
      VisitKeepsPacerInv(s, tl, vs, now, pace);
      var s1, v, r1 := DrainUnfolds(s, now, pace);
      DrainKeepsPacerInv(s1, tl, vs + [v], now, pace, r1);
      AppendAssoc(vs, v, r1.visits);
    } else {
      AppendNothing(vs, r.visits);
    }
  }

  // Everything released is at least `pace` old; what is left at the cursor is younger.
  lemma {:induction false} DrainIsPaced(s: State, now: nat, pace: nat)
    requires s.cursor <= |s.entries| && s.delayNs <= pace
    ensures NothingEarly(Drain(s, now, pace).visits)
    ensures forall i :: 0 <= i < |Drain(s, now, pace).visits| ==>
              var v := Drain(s, now, pace).visits[i]; v.now == now && v.pace == pace && v.delay == s.delayNs
    ensures !Due(Drain(s, now, pace).state, now, pace)
    decreases |s.entries| - s.cursor
  {
    if Due(s, now, pace) {
      VisitOneFields(s, now, pace);
      var (s1, v) := VisitOne(s, now, pace);
      DrainIsPaced(s1, now, pace);
      assert forall i :: 0 < i < |Drain(s, now, pace).visits| ==>
          Drain(s, now, pace).visits[i] == Drain(s1, now, pace).visits[i - 1];
    }
  }

  // What a jump to a keyframe, or no jump, keeps.
  ghost predicate SameExceptCursor(s: State, s1: State) {
    && s1.entries == s.entries && s1.pruned == s.pruned && s1.frameUsec == s.frameUsec
    && s1.offsetUsec == s.offsetUsec && s1.lastVideoOut == s.lastVideoOut && s1.lastAudioOut == s.lastAudioOut
    && s1.lastPruneNs == s.lastPruneNs
    && (if s1.cursor == s.cursor && s1.resync == s.resync then true
        else s1.resync && s1.cursor < |s1.entries| && IsKeyframe(s1.entries[s1.cursor]))
  }

  lemma ResolveSkipMoves(s: State)
    requires s.cursor <= |s.entries|
    ensures SameExceptCursor(s, ResolveSkip(s))
    ensures s.cursor <= ResolveSkip(s).cursor <= |s.entries|
    ensures DelaysOk(s) ==> DelaysOk(ResolveSkip(s)) && ResolveSkip(s).delayNs == s.delayNs
  {
  }

  lemma SetDelayMoves(s: State, now: nat, sec: nat)
    requires s.cursor <= |s.entries|
    ensures SameExceptCursor(s, SetDelay(s, now, sec))
    ensures SetDelay(s, now, sec).cursor <= |s.entries|
    ensures DelaysOk(s) ==> DelaysOk(SetDelay(s, now, sec))
  {
  }

  lemma MoveKeepsPacerInv(s: State, s1: State, tl: seq<Entry>, vs: seq<Visit>)
    requires PacerInv(s, tl, vs) && SameExceptCursor(s, s1)
    ensures PacerInv(s1, tl, vs)
  {
  }

  lemma PruneKeepsPacerInv(s: State, tl: seq<Entry>, vs: seq<Visit>, now: nat)
    requires PacerInv(s, tl, vs)
    ensures PacerInv(Prune(s, now), tl, vs)
    ensures Abs(Prune(s, now)) == Abs(s) && s.pruned <= Prune(s, now).pruned
  {
    if PruneDue(s, now) {
      var n := OldPrefix(s.entries, now, s.cursor, 0);
      assert tl[s.pruned..][n..] == tl[s.pruned + n..];
    }
  }

  lemma PassKeepsPacerInv(s: State, tl: seq<Entry>, vs: seq<Visit>, now: nat, r: PassResult)
    requires PacerInv(s, tl, vs) && r == Pass(s, now)
    ensures PacerInv(r.state, tl, vs + r.visits)
  {
    var r0 := ResolveSkip(s);
    ResolveSkipMoves(s);
    MoveKeepsPacerInv(s, r0, tl, vs);
    var d := Drain(r0, now, r0.Pace());
    DrainKeepsPacerInv(r0, tl, vs, now, r0.Pace(), d);
    PruneKeepsPacerInv(d.state, tl, vs + d.visits, now);
  }

  lemma PassKeepsDelays(s: State, now: nat)
    requires s.cursor <= |s.entries| && DelaysOk(s)
    ensures DelaysOk(Pass(s, now).state) && NothingEarly(Pass(s, now).visits)
  {
    var r := ResolveSkip(s);
    ResolveSkipMoves(s);
    DrainIsPaced(r, now, r.Pace());
    DrainKeepsEntries(r, now, r.Pace());
  }

  lemma PassKeepsInv(w: World, now: nat)
    requires Inv(w) && w.clock <= now
    ensures Inv(Step(w, PassEvent(now)))
  {
    PassKeepsPacerInv(w.s, w.timeline, w.visits, now, Pass(w.s, now));
    PassKeepsDelays(w.s, now);
  }

  lemma SetDelayKeepsInv(w: World, now: nat, sec: nat)
    requires Inv(w) && w.clock <= now
    ensures Inv(Step(w, SetDelayEvent(now, sec)))
  {
    SetDelayMoves(w.s, now, sec);
    MoveKeepsPacerInv(w.s, SetDelay(w.s, now, sec), w.timeline, w.visits);
  }

  lemma PushKeepsInv(w: World, now: nat, p: Packet)
    requires Inv(w) && LegalEvent(w, PushEvent(now, p))
    ensures Inv(Step(w, PushEvent(now, p)))
  {
    var tl := w.timeline;
    var tl1 := tl + [Entry(p, now)];
    assert tl1[w.s.pruned..] == tl[w.s.pruned..] + [Entry(p, now)];
    forall i | 0 <= i < |w.visits|
      ensures VisitOk(tl1, w.visits, i)
    {
      assert VisitOk(tl, w.visits, i);
    }
    forall i, j | 0 <= i < j < |tl1|
      ensures DtsOrdered(tl1, i, j)
    {
      assert j < |tl| ==> DtsOrdered(tl, i, j);
    }
    forall i, j | 0 <= i <= j < |tl1|
      ensures NotAfter(tl1, i, j)
    {
      assert j < |tl| ==> NotAfter(tl, i, j);
    }
  }

  lemma StepKeepsInv(w: World, ev: Event)
    requires Inv(w) && LegalEvent(w, ev)
    ensures Inv(Step(w, ev))
  {
    match ev
    case PushEvent(now, p) => PushKeepsInv(w, now, p);
    case SetDelayEvent(now, sec) => SetDelayKeepsInv(w, now, sec);
    case PassEvent(now) => PassKeepsInv(w, now);
  }

  lemma {:induction false} RunKeepsInv(delaySec: nat, t0: nat, evs: seq<Event>, ws: seq<World>, n: nat)
    requires IsRun(delaySec, t0, evs, ws) && n < |ws|
    ensures Inv(ws[n])
  {
    if n > 0 {
      RunKeepsInv(delaySec, t0, evs, ws, n - 1);
      StepKeepsInv(ws[n - 1], evs[n - 1]);
    }
  }

  // ----- what the runs promise --------------------------------------------

  // A dropped visit is audio, in the audio-only prefix that a jump's slice drops.
  ghost predicate DroppedAfterJump(vs: seq<Visit>, j: nat)
    requires j < |vs|
  {
    && vs[j].entry.packet.kind.Audio?
    && exists i :: 0 <= i < j && vs[i].jump && NoJumpWithin(vs, i, j)
                   && forall k :: i <= k <= j && vs[k].entry.packet.kind.Audio? ==> !vs[k].sent
  }

  lemma {:induction false} LastJumpBefore(vs: seq<Visit>, j: nat) returns (i: int)
    requires j < |vs|
    ensures -1 <= i <= j && NoJumpWithin(vs, i, j)
    ensures i >= 0 ==> vs[i].jump
  {
    i := j;
    while i >= 0 && !vs[i].jump
      invariant -1 <= i <= j && NoJumpWithin(vs, i, j)
    {
      i := i - 1;
    }
  }

  lemma DropsFollowJumps(tl: seq<Entry>, vs: seq<Visit>, j: nat)
    requires Chain(tl, vs) && AudioResumes(vs) && j < |vs| && !vs[j].sent
    ensures DroppedAfterJump(vs, j)
  {
    hide Shifted;
    var i := LastJumpBefore(vs, j);
    assert VisitOk(tl, vs, j);
    assert i >= 0;
    assert VisitOk(tl, vs, i);
    forall k | i <= k <= j && vs[k].entry.packet.kind.Audio?
      ensures !vs[k].sent
    {
      assert NoJumpWithin(vs, k, j);
    }
  }

  /**
    Whole-run shape.  The entries the pacer steps over form contiguous timeline slices,
    each after the first beginning with a sent keyframe; every video packet in them is
    sent, and whatever audio is dropped lies in a prefix of a slice after a jump.
   */
  lemma WholeRunShape(delaySec: nat, t0: nat, evs: seq<Event>, ws: seq<World>, w: World)
    requires IsRun(delaySec, t0, evs, ws) && w in ws
    ensures Chain(w.timeline, w.visits)
    ensures forall j :: 0 <= j < |w.visits| && !w.visits[j].sent ==> DroppedAfterJump(w.visits, j)
  {
    var n :| 0 <= n < |ws| && ws[n] == w;
    RunKeepsInv(delaySec, t0, evs, ws, n);
    forall j | 0 <= j < |w.visits| && !w.visits[j].sent
      ensures DroppedAfterJump(w.visits, j)
    {
      DropsFollowJumps(w.timeline, w.visits, j);
    }
  }

  /**
    Timestamps never break.  Within each media type the dts_usec sent is strictly
    increasing, and two packets of one slice keep the distance they had when pushed.
   */
  lemma TimestampsNeverBreak(delaySec: nat, t0: nat, evs: seq<Event>, ws: seq<World>, w: World)
    requires IsRun(delaySec, t0, evs, ws) && w in ws
    ensures forall i, j :: 0 <= i < j < |w.visits| && w.visits[i].sent && w.visits[j].sent
                           && w.visits[i].entry.packet.kind == w.visits[j].entry.packet.kind ==>
              w.visits[i].out.dtsUsec < w.visits[j].out.dtsUsec
    ensures forall i, j :: 0 <= i < j < |w.visits| && NoJumpWithin(w.visits, i, j) ==>
              w.visits[j].out.dtsUsec - w.visits[i].out.dtsUsec
              == w.visits[j].entry.packet.dtsUsec - w.visits[i].entry.packet.dtsUsec
  {
    var n :| 0 <= n < |ws| && ws[n] == w;
    RunKeepsInv(delaySec, t0, evs, ws, n);
    var vs := w.visits;
    forall i | 0 <= i < |vs|
      ensures vs[i].out.dtsUsec == Stamp(vs[i])
    {
      assert VisitOk(w.timeline, vs, i);
    }
    forall i, j | 0 <= i < j < |vs| && NoJumpWithin(vs, i, j)
      ensures vs[j].offset == vs[i].offset
    {
      SameSlice(w.timeline, vs, i, j);
    }
  }

  /**
    Nothing leaks early: whatever was requested while it waited, a packet is never
    released before it is as old as the delay in force at that moment.
   */
  lemma NothingLeaksEarly(delaySec: nat, t0: nat, evs: seq<Event>, ws: seq<World>, w: World)
    requires IsRun(delaySec, t0, evs, ws) && w in ws
    ensures forall i :: 0 <= i < |w.visits| && w.visits[i].sent ==>
            w.visits[i].now - w.visits[i].entry.arrival >= w.visits[i].delay
    ensures w.s.Pace() == w.s.holdDelayNs
    ensures if w.s.pendingSkip then w.s.holdDelayNs > w.s.delayNs else w.s.holdDelayNs == w.s.delayNs
  {
    var n :| 0 <= n < |ws| && ws[n] == w;
    RunKeepsInv(delaySec, t0, evs, ws, n);
  }
}
