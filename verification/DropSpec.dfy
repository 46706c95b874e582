/**
  The frame-drop policy of src/rtmp/rtmp-stream.c on values, and what it comes to over whole
  runs of offered and sent packets.
 */
module DropSpec {
  import opened Common
  import opened EncoderPacket

  // OBS_NAL_PRIORITY_HIGH and OBS_NAL_PRIORITY_HIGHEST
  const HIGH: int := 2
  const HIGHEST: int := 3

  datatype Config = Config(dropThreshold: int, pframeThreshold: int, dbr: bool)

  datatype State = State(packets: seq<Packet>, minPriority: int, dropped: nat, lastDts: int)

  predicate Kept(p: Packet, priority: int) {
    !p.kind.Video? || p.priority >= priority
  }

  function Survivors(ps: seq<Packet>, priority: int): (r: seq<Packet>)
    ensures |r| <= |ps| && forall i :: 0 <= i < |r| ==> Kept(r[i], priority)
  {
    if ps == [] then [] else (if Kept(ps[0], priority) then [ps[0]] else []) + Survivors(ps[1..], priority)
  }

  // drop_frames
  function DropFrames(s: State, priority: int): State {
    var left := Survivors(s.packets, priority);
    State(left, Max(s.minPriority, priority), s.dropped + (|s.packets| - |left|), s.lastDts)
  }

  predicate IsFirstVideo(p: Packet) {
    p.kind.Video? && !p.keyframe
  }

  // find_first_video_packet
  function FirstVideo(ps: seq<Packet>): Option<Packet> {
    if ps == [] then None else if IsFirstVideo(ps[0]) then Some(ps[0]) else FirstVideo(ps[1..])
  }

  // check_to_drop_frames
  function CheckToDrop(s: State, c: Config, pframes: bool): State {
    var first := FirstVideo(s.packets);
    var threshold := if pframes then c.pframeThreshold else c.dropThreshold;
    if |s.packets| < 5 || first.None? || c.dbr || s.lastDts - first.value.dtsUsec <= threshold then s
    else DropFrames(s, if pframes then HIGHEST else HIGH)
  }

  // What add_video_packet does before it looks at the packet.
  function Checked(s: State, c: Config): State {
    CheckToDrop(CheckToDrop(s, c, false), c, true)
  }

  predicate Admits(s: State, p: Packet) {
    p.priority >= s.minPriority
  }

  // add_video_packet for video, add_packet for audio
  function Add(s: State, c: Config, p: Packet): State {
    if !p.kind.Video? then s.(packets := s.packets + [p]) else
    var t := Checked(s, c);
    if Admits(t, p) then State(t.packets + [p], 0, t.dropped, p.dtsUsec) else t.(dropped := t.dropped + 1)
  }

  // ----- runs -------------------------------------------------------------

  // `offered` and `sent` are the packets handed in and taken out so far.
  datatype World = World(s: State, offered: seq<Packet>, sent: seq<Packet>)

  datatype Event = Offer(p: Packet) | Send

  function Step(w: World, c: Config, e: Event): World {
    match e
    case Offer(p) => World(Add(w.s, c, p), w.offered + [p], w.sent)
    case Send =>
      if w.s.packets == [] then w
      else World(w.s.(packets := w.s.packets[1..]), w.offered, w.sent + [w.s.packets[0]])
  }

  function Start(lastDts: int): World {
    World(State([], 0, 0, lastDts), [], [])
  }

  ghost predicate IsRun(c: Config, lastDts: int, es: seq<Event>, ws: seq<World>) {
    && |ws| == |es| + 1 && ws[0] == Start(lastDts)
    && forall n :: 0 <= n < |es| ==> ws[n + 1] == Step(ws[n], c, es[n])
  }

  function Audio(ps: seq<Packet>): seq<Packet> {
    if ps == [] then [] else (if ps[0].kind.Video? then [] else [ps[0]]) + Audio(ps[1..])
  }

  function Videos(ps: seq<Packet>): nat {
    if ps == [] then 0 else (if ps[0].kind.Video? then 1 else 0) + Videos(ps[1..])
  }

  // a is what is left of b when some elements are taken out.
  predicate Subsequence(a: seq<Packet>, b: seq<Packet>)
    decreases |b|
  {
    if a == [] then true
    else if b == [] then false
    else (a[0] == b[0] && Subsequence(a[1..], b[1..])) || Subsequence(a, b[1..])
  }

  // ----- lemmas about lists -----------------------------------------------

  lemma {:induction false} AudioAppend(a: seq<Packet>, b: seq<Packet>)
    ensures Audio(a + b) == Audio(a) + Audio(b) && Videos(a + b) == Videos(a) + Videos(b)
  {
    if a == [] {
      assert a + b == b;
    } else {
      assert (a + b)[1..] == a[1..] + b;
      AudioAppend(a[1..], b);
    }
  }

  lemma {:induction false} SubsequenceOfSelf(a: seq<Packet>)
    ensures Subsequence(a, a)
  {
    if a != [] {
      SubsequenceOfSelf(a[1..]);
    }
  }

  lemma {:induction false} SubsequenceGrows(a: seq<Packet>, b: seq<Packet>, x: Packet)
    requires Subsequence(a, b)
    ensures Subsequence(a, b + [x]) && Subsequence(a + [x], b + [x])
    decreases |b|
  {
    if b == [] {
      assert a == [];
      assert [] + [x] == [x];
      SubsequenceOfSelf([x]);
    } else {
      assert (b + [x])[1..] == b[1..] + [x];
      if a == [] {
        SubsequenceGrows([], b[1..], x);
      } else if a[0] == b[0] && Subsequence(a[1..], b[1..]) {
        SubsequenceGrows(a[1..], b[1..], x);
        assert (a + [x])[1..] == a[1..] + [x];
      } else {
        SubsequenceGrows(a, b[1..], x);
      }
    }
  }

  lemma {:induction false} SubsequenceTwice(a: seq<Packet>, b: seq<Packet>, c: seq<Packet>)
    requires Subsequence(a, b) && Subsequence(b, c)
    ensures Subsequence(a, c)
    decreases |c|, |b|
  {
    if a != [] && c != [] {
      if b[0] == c[0] && Subsequence(b[1..], c[1..]) {
        if a[0] == b[0] && Subsequence(a[1..], b[1..]) {
          SubsequenceTwice(a[1..], b[1..], c[1..]);
        } else {
          SubsequenceTwice(a, b[1..], c[1..]);
        }
      } else {
        SubsequenceTwice(a, b, c[1..]);
      }
    }
  }

  lemma {:induction false} SubsequenceBehind(a: seq<Packet>, b: seq<Packet>, c: seq<Packet>)
    requires Subsequence(b, c)
    ensures Subsequence(a + b, a + c)
  {
    if a == [] {
      assert a + b == b && a + c == c;
    } else {
      assert (a + b)[1..] == a[1..] + b && (a + c)[1..] == a[1..] + c;
      SubsequenceBehind(a[1..], b, c);
    }
  }

  lemma {:induction false} SurvivorsAreIt(ps: seq<Packet>, priority: int)
    ensures var r := Survivors(ps, priority);
            && Subsequence(r, ps) && Audio(r) == Audio(ps)
            && Videos(r) + (|ps| - |r|) == Videos(ps)
  {
    if ps != [] {
      SurvivorsAreIt(ps[1..], priority);
      var r := Survivors(ps, priority);
      if Kept(ps[0], priority) {
        assert r[1..] == Survivors(ps[1..], priority);
      } else {
        assert r == Survivors(ps[1..], priority);
      }
    }
  }

  // ----- the invariant ----------------------------------------------------

  // Every queued video packet has at least the least admissible priority.
  ghost predicate QueueMeetsPriority(s: State) {
    forall i {:trigger s.packets[i]} :: 0 <= i < |s.packets| ==> Kept(s.packets[i], s.minPriority)
  }

  ghost predicate Inv(w: World) {
    && w.s.minPriority >= 0 && QueueMeetsPriority(w.s)
    && Audio(w.sent + w.s.packets) == Audio(w.offered)
    && Subsequence(w.sent + w.s.packets, w.offered)
    && Videos(w.offered) == Videos(w.sent) + Videos(w.s.packets) + w.s.dropped
  }

  lemma {:induction false} SurvivorsMeet(ps: seq<Packet>, priority: int, least: int)
    requires forall i :: 0 <= i < |ps| ==> Kept(ps[i], least)
    ensures forall i :: 0 <= i < |Survivors(ps, priority)| ==> Kept(Survivors(ps, priority)[i], Max(least, priority))
  {
    if ps != [] {
      SurvivorsMeet(ps[1..], priority, least);
    }
  }

  lemma DropKeepsInv(w: World, priority: int)
    requires Inv(w)
    ensures Inv(w.(s := DropFrames(w.s, priority)))
  {
    var r := Survivors(w.s.packets, priority);
    SurvivorsAreIt(w.s.packets, priority);
    SurvivorsMeet(w.s.packets, priority, w.s.minPriority);
    AudioAppend(w.sent, w.s.packets);
    AudioAppend(w.sent, r);
    SubsequenceBehind(w.sent, r, w.s.packets);
    SubsequenceTwice(w.sent + r, w.sent + w.s.packets, w.offered);
  }

  lemma CheckedKeepsInv(w: World, c: Config)
    requires Inv(w)
    ensures Inv(w.(s := Checked(w.s, c)))
  {
    var s1 := CheckToDrop(w.s, c, false);
    if s1 != w.s {
      DropKeepsInv(w, HIGH);
    }
    var w1 := w.(s := s1);
    if CheckToDrop(s1, c, true) != s1 {
      DropKeepsInv(w1, HIGHEST);
    }
  }

  lemma AppendKeepsInv(w: World, p: Packet, s: State)
    requires Inv(w) && s.packets == w.s.packets + [p] && s.dropped == w.s.dropped && s.minPriority >= 0
    requires QueueMeetsPriority(s)
    ensures Inv(World(s, w.offered + [p], w.sent))
  {
    var held := w.sent + w.s.packets;
    assert w.sent + s.packets == held + [p];
    AudioAppend(held, [p]);
    AudioAppend(w.offered, [p]);
    AudioAppend(w.s.packets, [p]);
    SubsequenceGrows(held, w.offered, p);
  }

  lemma RefuseKeepsInv(w: World, p: Packet)
    requires Inv(w) && p.kind.Video?
    ensures Inv(World(w.s.(dropped := w.s.dropped + 1), w.offered + [p], w.sent))
  {
    AudioAppend(w.offered, [p]);
    SubsequenceGrows(w.sent + w.s.packets, w.offered, p);
    assert Audio(w.offered) + [] == Audio(w.offered);
  }

  lemma OfferKeepsInv(w: World, c: Config, p: Packet)
    requires Inv(w)
    ensures Inv(Step(w, c, Offer(p)))
  {
    if !p.kind.Video? {
      AppendKeepsInv(w, p, Add(w.s, c, p));
    } else {
      var t := Checked(w.s, c);
      CheckedKeepsInv(w, c);
      var w1 := w.(s := t);
      if Admits(t, p) {
        var s := State(t.packets + [p], 0, t.dropped, p.dtsUsec);
        forall i | 0 <= i < |s.packets|
          ensures Kept(s.packets[i], 0)
        {
          assert i < |t.packets| ==> Kept(t.packets[i], t.minPriority);
        }
        AppendKeepsInv(w1, p, s);
      } else {
        RefuseKeepsInv(w1, p);
      }
    }
  }

  lemma SendKeepsInv(w: World, c: Config)
    requires Inv(w)
    ensures Inv(Step(w, c, Send))
  {
    if w.s.packets != [] {
      var t := Step(w, c, Send);
      assert t.sent + t.s.packets == w.sent + w.s.packets;
      AudioAppend(w.sent, [w.s.packets[0]]);
    }
  }

  lemma {:induction false} RunKeepsInv(c: Config, lastDts: int, es: seq<Event>, ws: seq<World>, n: nat)
    requires IsRun(c, lastDts, es, ws) && n < |ws|
    ensures Inv(ws[n])
  {
    if n > 0 {
      RunKeepsInv(c, lastDts, es, ws, n - 1);
      assert ws[n] == Step(ws[n - 1], c, es[n - 1]);
      match es[n - 1]
      case Offer(p) => OfferKeepsInv(ws[n - 1], c, p);
      case Send => SendKeepsInv(ws[n - 1], c);
    }
  }

  // ----- what it comes to -------------------------------------------------

  /**
    In every run no audio packet is lost, what was sent and what is queued keep the order in
    which they were offered, and every video packet offered was sent, is queued or was counted
    as dropped.
   */
  lemma NothingIsLostUncounted(c: Config, lastDts: int, es: seq<Event>, ws: seq<World>, n: nat)
    requires IsRun(c, lastDts, es, ws) && n < |ws|
    ensures var w := ws[n];
            && Audio(w.sent + w.s.packets) == Audio(w.offered)
            && Subsequence(w.sent + w.s.packets, w.offered)
            && Videos(w.offered) == Videos(w.sent) + Videos(w.s.packets) + w.s.dropped
  {
    RunKeepsInv(c, lastDts, es, ws, n);
  }

  // Step n puts a video packet into the queue.
  ghost predicate AdmitsVideo(c: Config, es: seq<Event>, ws: seq<World>, n: int)
    requires 0 <= n < |es| && |ws| == |es| + 1
  {
    es[n].Offer? && es[n].p.kind.Video? && es[n].p.priority >= Checked(ws[n].s, c).minPriority
  }

  lemma CheckedRaises(s: State, c: Config)
    ensures Checked(s, c).minPriority >= s.minPriority
  {
  }

  /**
    Until a video packet is admitted, the least priority that a drop has set stays: so every
    queued video packet, and the next one admitted, has at least that priority.
   */
  lemma {:induction false} DropLastsUntilAdmission(c: Config, lastDts: int, es: seq<Event>, ws: seq<World>, n: nat,
                                                   m: nat, priority: int)
    requires IsRun(c, lastDts, es, ws) && n <= m < |ws| && ws[n].s.minPriority >= priority
    requires forall k {:trigger AdmitsVideo(c, es, ws, k)} :: n <= k < m ==> !AdmitsVideo(c, es, ws, k)
    ensures ws[m].s.minPriority >= priority
    ensures forall i :: 0 <= i < |ws[m].s.packets| && ws[m].s.packets[i].kind.Video? ==>
              ws[m].s.packets[i].priority >= priority
    ensures m < |es| && AdmitsVideo(c, es, ws, m) ==> es[m].p.priority >= priority
  {
    RunKeepsInv(c, lastDts, es, ws, m);
    if n < m {
      DropLastsUntilAdmission(c, lastDts, es, ws, n, m - 1, priority);
      assert !AdmitsVideo(c, es, ws, m - 1);
      assert ws[m] == Step(ws[m - 1], c, es[m - 1]);
      CheckedRaises(ws[m - 1].s, c);
    }
    CheckedRaises(ws[m].s, c);
  }

  /**
    The video packet admitted ends the drop: it is the newest in the queue, and from then on any
    priority will do until frames are dropped again.
   */
  lemma AdmissionEndsTheDrop(c: Config, lastDts: int, es: seq<Event>, ws: seq<World>, n: nat)
    requires IsRun(c, lastDts, es, ws) && n < |es| && AdmitsVideo(c, es, ws, n)
    ensures var t := ws[n + 1].s;
            && t.minPriority == 0 && t.lastDts == es[n].p.dtsUsec
            && t.packets != [] && t.packets[|t.packets| - 1] == es[n].p
  {
    assert ws[n + 1] == Step(ws[n], c, es[n]);
  }

  // The packets that a drop at a priority takes out.
  function Below(ps: seq<Packet>, priority: int): nat {
    if ps == [] then 0
    else (if ps[0].kind.Video? && ps[0].priority < priority then 1 else 0) + Below(ps[1..], priority)
  }

  lemma {:induction false} SurvivorsMeans(ps: seq<Packet>, priority: int, x: Packet)
    ensures var r := Survivors(ps, priority);
            && (forall i :: 0 <= i < |r| && r[i].kind.Video? ==> r[i].priority >= priority)
            && (!x.kind.Video? || x.priority >= priority ==> multiset(r)[x] == multiset(ps)[x])
            && |ps| - |r| == Below(ps, priority)
  {
    if ps != [] {
      var r := Survivors(ps[1..], priority);
      SurvivorsMeans(ps[1..], priority, x);
      assert ps == [ps[0]] + ps[1..];
      assert Survivors(ps, priority) == (if Kept(ps[0], priority) then [ps[0]] else []) + r;
    }
  }

  // t is s after a drop at a priority.
  ghost predicate IsDropped(s: State, priority: int, t: State) {
    && (forall i :: 0 <= i < |t.packets| && t.packets[i].kind.Video? ==> t.packets[i].priority >= priority)
    && (forall x: Packet :: !x.kind.Video? || x.priority >= priority ==>
          multiset(t.packets)[x] == multiset(s.packets)[x])
    && Subsequence(t.packets, s.packets) && t.dropped == s.dropped + Below(s.packets, priority)
    && t.minPriority == (if s.minPriority < priority then priority else s.minPriority) && t.lastDts == s.lastDts
  }

  /**
    A drop at a priority leaves the audio and the video that has it, all of it, in order, counts
    just the rest, and raises the least priority.
   */
  lemma DropMeans(s: State, priority: int)
    ensures IsDropped(s, priority, DropFrames(s, priority))
  {
    SurvivorsAreIt(s.packets, priority);
    forall x: Packet
      ensures !x.kind.Video? || x.priority >= priority ==>
                multiset(DropFrames(s, priority).packets)[x] == multiset(s.packets)[x]
    {
      SurvivorsMeans(s.packets, priority, x);
    }
    SurvivorsMeans(s.packets, priority, Packet(EncoderPacket.Audio, false, 0, 0, 0, 0, 0, 1, 1, []));
  }

  /**
    A packet offered: audio is appended. Video is appended if it has the least priority that
    stands after the two checks, which ends it; else it is counted as dropped.
   */
  lemma AddMeans(s: State, c: Config, p: Packet)
    ensures var t := Checked(s, c);
            Add(s, c, p)
            == if !p.kind.Video? then State(s.packets + [p], s.minPriority, s.dropped, s.lastDts)
               else if p.priority >= t.minPriority then State(t.packets + [p], 0, t.dropped, p.dtsUsec)
               else State(t.packets, t.minPriority, t.dropped + 1, t.lastDts)
  {
  }

  /**
    Right after frames are dropped at a priority every queued video packet has it, and a video
    packet without it does not get in next.
   */
  lemma AfterADrop(s: State, priority: int)
    requires QueueMeetsPriority(s)
    ensures var t := DropFrames(s, priority);
            && t.minPriority >= priority && QueueMeetsPriority(t)
            && (forall i :: 0 <= i < |t.packets| && t.packets[i].kind.Video? ==> t.packets[i].priority >= priority)
            && (forall c, p: Packet :: p.kind.Video? && p.priority < priority ==>
                  p !in Add(t, c, p).packets && Add(t, c, p).dropped > t.dropped)
  {
    var t := DropFrames(s, priority);
    SurvivorsMeet(s.packets, priority, s.minPriority);
    forall c, p: Packet | p.kind.Video? && p.priority < priority
      ensures p !in Add(t, c, p).packets && Add(t, c, p).dropped > t.dropped
    {
      CheckedRaises(t, c);
      CheckedFewer(t, c);
    }
  }

  lemma CheckedFewer(s: State, c: Config)
    ensures Checked(s, c).dropped >= s.dropped
    ensures forall x :: x in Checked(s, c).packets ==> x in s.packets
  {
    DropFewer(s, HIGH);
    DropFewer(s, HIGHEST);
    DropFewer(DropFrames(s, HIGH), HIGHEST);
  }

  lemma DropFewer(s: State, priority: int)
    ensures DropFrames(s, priority).dropped >= s.dropped
    ensures forall x :: x in DropFrames(s, priority).packets ==> x in s.packets
  {
    SurvivorsAreIt(s.packets, priority);
    forall x | x in DropFrames(s, priority).packets
      ensures x in s.packets
    {
      var i :| 0 <= i < |DropFrames(s, priority).packets| && DropFrames(s, priority).packets[i] == x;
      var k := SubsequenceMember(DropFrames(s, priority).packets, s.packets, i);
    }
  }

  // Video packets other than keyframes are queued in the order of their timestamps.
  ghost predicate VideoAscends(ps: seq<Packet>) {
    forall i, j :: 0 <= i < j < |ps| && ps[i].kind.Video? && !ps[i].keyframe && ps[j].kind.Video? && !ps[j].keyframe ==>
      ps[i].dtsUsec <= ps[j].dtsUsec
  }

  // Some video packet other than a keyframe lies more than the threshold behind the newest one.
  ghost predicate SomeVideoWaits(s: State, threshold: int) {
    exists i :: 0 <= i < |s.packets| && s.packets[i].kind.Video? && !s.packets[i].keyframe
                && s.lastDts - s.packets[i].dtsUsec > threshold
  }

  lemma {:induction false} FirstVideoIsOldest(ps: seq<Packet>, i: nat)
    requires VideoAscends(ps) && i < |ps| && IsFirstVideo(ps[i])
    ensures FirstVideo(ps).Some? && FirstVideo(ps).value.dtsUsec <= ps[i].dtsUsec
  {
    if !IsFirstVideo(ps[0]) {
      FirstVideoIsOldest(ps[1..], i - 1);
    }
  }

  lemma {:induction false} FirstVideoIsQueued(ps: seq<Packet>) returns (i: nat)
    requires FirstVideo(ps).Some?
    ensures i < |ps| && IsFirstVideo(ps[i]) && ps[i] == FirstVideo(ps).value
  {
    i := 0;
    if !IsFirstVideo(ps[0]) {
      i := FirstVideoIsQueued(ps[1..]);
      i := i + 1;
    }
  }

  // t is s with just the packets to keep left, if any video waits too long, and else s itself. For
  // B-frames, the first check, the priority to keep is 2, for P-frames 3.
  ghost predicate DropsTheLate(s: State, c: Config, pframes: bool, t: State) {
    if |s.packets| >= 5 && !c.dbr && SomeVideoWaits(s, if pframes then c.pframeThreshold else c.dropThreshold)
    then IsDropped(s, if pframes then 3 else 2, t) else t == s
  }

  /**
    The check looks at the first such packet only; with timestamps in order it still finds out
    exactly whether any waits too long: then, among at least five packets and without dynamic
    bitrate, just the packets to keep are left, and otherwise nothing changes.
   */
  lemma DropsExactlyWhenLate(s: State, c: Config, pframes: bool)
    requires VideoAscends(s.packets)
    ensures DropsTheLate(s, c, pframes, CheckToDrop(s, c, pframes))
  {
    hide IsDropped, DropFrames;
    var threshold := if pframes then c.pframeThreshold else c.dropThreshold;
    DropMeans(s, if pframes then HIGHEST else HIGH);
    if SomeVideoWaits(s, threshold) {
      var i: nat :| i < |s.packets| && s.packets[i].kind.Video? && !s.packets[i].keyframe
                    && s.lastDts - s.packets[i].dtsUsec > threshold;
      FirstVideoIsOldest(s.packets, i);
    } else if FirstVideo(s.packets).Some? {
      var i := FirstVideoIsQueued(s.packets);
      assert s.lastDts - s.packets[i].dtsUsec <= threshold;
    }
  }

  lemma {:induction false} SubsequenceMember(a: seq<Packet>, b: seq<Packet>, i: nat) returns (k: nat)
    requires Subsequence(a, b) && i < |a|
    ensures k < |b| && b[k] == a[i]
    decreases |b|
  {
    if a[0] == b[0] && Subsequence(a[1..], b[1..]) {
      if i == 0 {
        k := 0;
      } else {
        k := SubsequenceMember(a[1..], b[1..], i - 1);
        k := k + 1;
      }
    } else {
      k := SubsequenceMember(a, b[1..], i);
      k := k + 1;
    }
  }

  lemma {:induction false} SubsequenceAscends(a: seq<Packet>, b: seq<Packet>)
    requires Subsequence(a, b) && VideoAscends(b)
    ensures VideoAscends(a)
    decreases |b|
  {
    if a != [] {
      if a[0] == b[0] && Subsequence(a[1..], b[1..]) {
        SubsequenceAscends(a[1..], b[1..]);
        forall j | 0 < j < |a| && IsFirstVideo(a[0]) && IsFirstVideo(a[j])
          ensures a[0].dtsUsec <= a[j].dtsUsec
        {
          var k := SubsequenceMember(a[1..], b[1..], j - 1);
          assert b[k + 1] == a[j];
        }
      } else {
        SubsequenceAscends(a, b[1..]);
      }
    }
  }

  /**
    In every run in which video is offered in the order of its timestamps, both checks that
    add_video_packet makes drop just when some video waits too long.
   */
  lemma RunsDropExactlyWhenLate(c: Config, lastDts: int, es: seq<Event>, ws: seq<World>, n: nat)
    requires IsRun(c, lastDts, es, ws) && n < |ws| && VideoAscends(ws[n].offered)
    ensures var s := ws[n].s;
            var t := CheckToDrop(s, c, false);
            DropsTheLate(s, c, false, t) && DropsTheLate(t, c, true, Checked(s, c))
  {
    RunKeepsInv(c, lastDts, es, ws, n);
    var w := ws[n];
    SubsequenceAscends(w.sent + w.s.packets, w.offered);
    assert forall i :: 0 <= i < |w.s.packets| ==> w.s.packets[i] == (w.sent + w.s.packets)[|w.sent| + i];
    DropsExactlyWhenLate(w.s, c, false);
    SurvivorsAreIt(w.s.packets, HIGH);
    SubsequenceOfSelf(w.s.packets);
    SubsequenceAscends(CheckToDrop(w.s, c, false).packets, w.s.packets);
    DropsExactlyWhenLate(CheckToDrop(w.s, c, false), c, true);
  }

  /**
    With dynamic bitrate on, nothing is ever dropped.
   */
  lemma {:induction false} DynamicBitrateDropsNothing(c: Config, lastDts: int, es: seq<Event>, ws: seq<World>, n: nat)
    requires IsRun(c, lastDts, es, ws) && n < |ws| && c.dbr && forall k :: 0 <= k < |es| && es[k].Offer? ==>
             es[k].p.priority >= 0
    ensures ws[n].s.dropped == 0 && ws[n].s.minPriority == 0 && ws[n].sent + ws[n].s.packets == ws[n].offered
  {
    if n > 0 {
      DynamicBitrateDropsNothing(c, lastDts, es, ws, n - 1);
      var w, t := ws[n - 1], ws[n];
      assert t == Step(w, c, es[n - 1]);
      if es[n - 1].Offer? {
        assert es[n - 1].p.priority >= 0;
        assert w.sent + (w.s.packets + [es[n - 1].p]) == (w.sent + w.s.packets) + [es[n - 1].p];
      } else if w.s.packets != [] {
        assert t.sent + t.s.packets == w.sent + w.s.packets;
      }
    }
  }
}
