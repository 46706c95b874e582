/**
  The live delay timeline of src/delay-buffer.c on values: what one push, one delay
  change and one pacer pass do to the state.  Each is one atomic step, because the
  source runs each under `d->mutex` and reads the clock under that lock.

  `pruned` is the only field the C structure lacks: it counts the entries already
  erased from the front, so `pruned + i` is the position of `entries[i]` in the whole
  timeline.
 */
module DelaySpec {
  import opened Common
  import opened EncoderPacket

  const NS_PER_SEC: nat := 1_000_000_000
  const MAX_DELAY_SEC: nat := 120
  const MAX_DELAY_NS: nat := MAX_DELAY_SEC * NS_PER_SEC
  const HISTORY_NS: nat := (MAX_DELAY_SEC + 5) * NS_PER_SEC
  const PRUNE_EVERY_NS: nat := NS_PER_SEC
  const USEC_PER_SEC: pos := 1_000_000

  datatype Entry = Entry(packet: Packet, arrival: nat)

  // `None` stands for the source's INT64_MIN in the two last-stamp fields.
  datatype State = State(
    entries: seq<Entry>,
    cursor: nat,
    delayNs: nat,
    holdDelayNs: nat,
    pendingSkip: bool,
    pendingTargetNs: nat,
    offsetUsec: int,
    resync: bool,
    lastVideoOut: Option<int>,
    lastAudioOut: Option<int>,
    frameUsec: int,
    lastSentArrivalNs: nat,
    lastPruneNs: nat,
    pruned: nat
  ) {
    function Last(k: Kind): Option<int> {
      if k.Video? then lastVideoOut else lastAudioOut
    }

    function Pace(): nat {
      if pendingSkip then holdDelayNs else delayNs
    }
  }

  predicate IsKeyframe(e: Entry) {
    e.packet.kind.Video? && e.packet.keyframe
  }

  // ----- rounding ---------------------------------------------------------

  // The exact quotient a / b rounded to nearest, halves away from zero, as llround does.
  function RoundDiv(a: int, b: pos): int {
    if a >= 0 then (2 * a + b) / (2 * b) else -((-2 * a + b) / (2 * b))
  }

  function UsecToTb(usec: int, p: Packet): int {
    RoundDiv(usec * p.den, USEC_PER_SEC * p.num)
  }

  // ----- reset and push ---------------------------------------------------

  function Reset(delaySec: nat): State {
    State([], 0, delaySec * NS_PER_SEC, delaySec * NS_PER_SEC, false, 0, 0, false, None, None, 16667, 0, 0, 0)
  }

  function Push(s: State, now: nat, p: Packet): State {
    s.(entries := s.entries + [Entry(p, now)],
       frameUsec := if p.kind.Video? && p.den > 0 then USEC_PER_SEC * p.num / p.den else s.frameUsec)
  }

  // ----- delay changes ----------------------------------------------------

  // The last keyframe among es[..n] that arrived at or before `target`.
  function LastKeyframeUpTo(es: seq<Entry>, target: nat, n: nat): (r: Option<nat>)
    requires n <= |es|
    ensures r.Some? ==> r.value < n && IsKeyframe(es[r.value]) && es[r.value].arrival <= target
  {
    if n == 0 then None
    else if IsKeyframe(es[n - 1]) && es[n - 1].arrival <= target then Some(n - 1)
    else LastKeyframeUpTo(es, target, n - 1)
  }

  // The first keyframe among es[i..] that arrived at or after `target`.
  function FirstKeyframeFrom(es: seq<Entry>, i: nat, target: nat): (r: Option<nat>)
    requires i <= |es|
    ensures r.Some? ==> i <= r.value < |es| && IsKeyframe(es[r.value]) && es[r.value].arrival >= target
    decreases |es| - i
  {
    if i == |es| then None
    else if IsKeyframe(es[i]) && es[i].arrival >= target then Some(i)
    else FirstKeyframeFrom(es, i + 1, target)
  }

  lemma {:induction false} LastKeyframeIsLast(es: seq<Entry>, target: nat, n: nat)
    requires n <= |es|
    ensures var k := LastKeyframeUpTo(es, target, n);
            forall j :: (if k.Some? then k.value + 1 else 0) <= j < n && IsKeyframe(es[j]) ==> es[j].arrival > target
  {
    if n > 0 && !(IsKeyframe(es[n - 1]) && es[n - 1].arrival <= target) {
      LastKeyframeIsLast(es, target, n - 1);
    }
  }

  lemma {:induction false} FirstKeyframeIsFirst(es: seq<Entry>, i: nat, target: nat)
    requires i <= |es|
    ensures var k := FirstKeyframeFrom(es, i, target);
            forall j :: i <= j < (if k.Some? then k.value else |es|) && IsKeyframe(es[j]) ==> es[j].arrival < target
    decreases |es| - i
  {
    if i < |es| && !(IsKeyframe(es[i]) && es[i].arrival >= target) {
      FirstKeyframeIsFirst(es, i + 1, target);
    }
  }

  // find_keyframe_before: falls back to the earliest keyframe when the history is too short.
  function KeyframeBefore(es: seq<Entry>, target: nat): Option<nat> {
    var k := LastKeyframeUpTo(es, target, |es|);
    if k.Some? then k else FirstKeyframeFrom(es, 0, 0)
  }

  function JumpTo(s: State, index: nat): State {
    s.(cursor := index, resync := true)
  }

  function Target(now: nat, newNs: nat): nat {
    if now > newNs then now - newNs else 0
  }

  function Raise(s: State, now: nat, newNs: nat): State {
    var k := KeyframeBefore(s.entries, Target(now, newNs));
    var j := if k.Some? && k.value < s.cursor then JumpTo(s, k.value) else s;
    j.(pendingSkip := false, delayNs := newNs, holdDelayNs := newNs)
  }

  function Lower(s: State, now: nat, newNs: nat): State
    requires s.cursor <= |s.entries|
  {
    var k := FirstKeyframeFrom(s.entries, s.cursor, Target(now, newNs));
    if k.Some? then
      var j := if k.value > s.cursor then JumpTo(s, k.value) else s;
      j.(pendingSkip := false, holdDelayNs := newNs, delayNs := newNs)
    else
      s.(pendingSkip := true, pendingTargetNs := Target(now, newNs), holdDelayNs := s.delayNs, delayNs := newNs)
  }

  function ApplyDelay(s: State, now: nat, newNs: nat): State
    requires s.cursor <= |s.entries|
  {
    if newNs > s.delayNs then Raise(s, now, newNs)
    else if newNs < s.delayNs then Lower(s, now, newNs)
    else s
  }

  function SetDelay(s: State, now: nat, seconds: nat): State
    requires s.cursor <= |s.entries|
  {
    ApplyDelay(s, now, Min(seconds, MAX_DELAY_SEC) * NS_PER_SEC)
  }

  // ----- one pacer pass ---------------------------------------------------

  /**
    What the pacer did with one timeline entry: its position in the timeline, whether it
    was the first one after a jump, whether it was handed to `send`, the rewritten packet,
    and the offset, clock, pace and requested delay at that moment.
   */
  datatype Visit = Visit(
    index: nat,
    entry: Entry,
    jump: bool,
    sent: bool,
    out: Packet,
    offset: int,
    now: nat,
    pace: nat,
    delay: nat
  )

  datatype PassResult = PassResult(state: State, visits: seq<Visit>)

  function Resynced(s: State, p: Packet): State {
    if s.resync then
      var base := if s.lastVideoOut.None? then p.dtsUsec + s.offsetUsec else s.lastVideoOut.value + s.frameUsec;
      s.(offsetUsec := base - p.dtsUsec, resync := false)
    else s
  }

  function Shifted(p: Packet, offset: int): Packet {
    if offset == 0 then p else
    var off := UsecToTb(offset, p);
    p.(dts := p.dts + off, pts := p.pts + off, dtsUsec := p.dtsUsec + offset, sysDtsUsec := p.sysDtsUsec + offset)
  }

  predicate GoesBackwards(s: State, p: Packet) {
    s.Last(p.kind).Some? && p.dtsUsec + s.offsetUsec <= s.Last(p.kind).value
  }

  // prepare_out_locked on the stamps; `sent` is its return value.
  function PrepareOut(s: State, p: Packet): (State, bool) {
    var r := Resynced(s, p);
    if GoesBackwards(r, p) then (r, false)
    else if p.kind.Video? then (r.(lastVideoOut := Some(p.dtsUsec + r.offsetUsec)), true)
    else (r.(lastAudioOut := Some(p.dtsUsec + r.offsetUsec)), true)
  }

  // One round of the pacer's inner loop, on the entry at the cursor.
  function VisitOne(s: State, now: nat, pace: nat): (State, Visit)
    requires s.cursor < |s.entries|
  {
    var e := s.entries[s.cursor];
    var (r, sent) := PrepareOut(s, e.packet);
    (r.(cursor := s.cursor + 1, lastSentArrivalNs := if sent then e.arrival else s.lastSentArrivalNs),
     Visit(s.pruned + s.cursor, e, s.resync, sent, Shifted(e.packet, r.offsetUsec), r.offsetUsec, now, pace, s.delayNs))
  }

  predicate Due(s: State, now: nat, pace: nat) {
    s.cursor < |s.entries| && now - s.entries[s.cursor].arrival >= pace
  }

  function Drain(s: State, now: nat, pace: nat): PassResult
    decreases |s.entries| - s.cursor
  {
    if Due(s, now, pace) then
      var (s1, v) := VisitOne(s, now, pace);
      var r := Drain(s1, now, pace);
      PassResult(r.state, [v] + r.visits)
    else PassResult(s, [])
  }

  // A skip waiting for a keyframe is carried out as soon as one is buffered.
  function ResolveSkip(s: State): State
    requires s.cursor <= |s.entries|
  {
    if !s.pendingSkip then s else
    var k := FirstKeyframeFrom(s.entries, s.cursor, s.pendingTargetNs);
    if k.None? then s else
    var j := if k.value > s.cursor then JumpTo(s, k.value) else s;
    j.(pendingSkip := false, holdDelayNs := s.delayNs)
  }

  // Number of leading entries before `limit` that are older than the rewind history.
  function OldPrefix(es: seq<Entry>, now: nat, limit: nat, n: nat): (r: nat)
    requires n <= limit <= |es|
    ensures n <= r <= limit
    ensures r < limit ==> now - es[r].arrival <= HISTORY_NS
    decreases limit - n
  {
    if n < limit && now - es[n].arrival > HISTORY_NS then OldPrefix(es, now, limit, n + 1) else n
  }

  lemma {:induction false} OldPrefixIsOld(es: seq<Entry>, now: nat, limit: nat, n: nat)
    requires n <= limit <= |es|
    ensures forall j :: n <= j < OldPrefix(es, now, limit, n) ==> now - es[j].arrival > HISTORY_NS
    decreases limit - n
  {
    if n < limit && now - es[n].arrival > HISTORY_NS {
      OldPrefixIsOld(es, now, limit, n + 1);
    }
  }

  predicate PruneDue(s: State, now: nat) {
    now - s.lastPruneNs >= PRUNE_EVERY_NS
  }

  function Prune(s: State, now: nat): State
    requires s.cursor <= |s.entries|
  {
    if !PruneDue(s, now) then s else
    var n := OldPrefix(s.entries, now, s.cursor, 0);
    s.(lastPruneNs := now, entries := s.entries[n..], cursor := s.cursor - n, pruned := s.pruned + n)
  }

  lemma {:induction false} DrainKeepsEntries(s: State, now: nat, pace: nat)
    requires s.cursor <= |s.entries|
    ensures var d := Drain(s, now, pace).state;
            && d.entries == s.entries && s.cursor <= d.cursor <= |s.entries| && d.pruned == s.pruned
            && d.delayNs == s.delayNs && d.holdDelayNs == s.holdDelayNs && d.pendingSkip == s.pendingSkip
            && d.pendingTargetNs == s.pendingTargetNs && d.frameUsec == s.frameUsec && d.lastPruneNs == s.lastPruneNs
    ensures |Drain(s, now, pace).visits| == Drain(s, now, pace).state.cursor - s.cursor
    decreases |s.entries| - s.cursor
  {
    if Due(s, now, pace) {
      DrainKeepsEntries(VisitOne(s, now, pace).0, now, pace);
    }
  }

  function Pass(s: State, now: nat): PassResult
    requires s.cursor <= |s.entries|
  {
    var r := ResolveSkip(s);
    var d := Drain(r, now, r.Pace());
    DrainKeepsEntries(r, now, r.Pace());
    PassResult(Prune(d.state, now), d.visits)
  }

  // The packets a pass hands to `send`, in order.
  function Batch(vs: seq<Visit>): seq<Packet> {
    if vs == [] then []
    else (if vs[0].sent then [vs[0].out] else []) + Batch(vs[1..])
  }
}
