/**
  `struct swd_delay` of src/delay-buffer.c and the functions that update it.  Each
  public method is one critical section under `d->mutex`; `now` is the clock value read
  there.  Every method is proved to compute the step DelaySpec gives for it.
 */
module DelayBuffer {
  import opened Common
  import opened DelaySpec
  import opened EncoderPacket

  class SwdDelay {
    var entries: seq<Entry>
    var cursor: nat
    var delayNs: nat
    var holdDelayNs: nat
    var pendingSkip: bool
    var pendingTargetNs: nat
    var offsetUsec: int
    var resync: bool
    var lastVideoOutUsec: Option<int>
    var lastAudioOutUsec: Option<int>
    var frameUsec: int
    var lastSentArrivalNs: nat
    var lastPruneNs: nat
    ghost var pruned: nat

    ghost function View(): State
      reads this
    {
      State(entries, cursor, delayNs, holdDelayNs, pendingSkip, pendingTargetNs, offsetUsec, resync,
            lastVideoOutUsec, lastAudioOutUsec, frameUsec, lastSentArrivalNs, lastPruneNs, pruned)
    }

    ghost predicate Valid()
      reads this
    {
      cursor <= |entries|
    }

    // swd_start: an empty timeline with the requested delay.
    constructor (delaySec: nat)
      ensures Valid() && View() == Reset(delaySec)
    {
      entries, cursor := [], 0;
      delayNs := delaySec * NS_PER_SEC;
      holdDelayNs := delaySec * NS_PER_SEC;
      pendingSkip, pendingTargetNs := false, 0;
      offsetUsec, resync := 0, false;
      lastVideoOutUsec, lastAudioOutUsec := None, None;
      frameUsec, lastSentArrivalNs, lastPruneNs, pruned := 16667, 0, 0, 0;
    }

    method Push(now: nat, packet: Packet)
      requires Valid()
      modifies this
      ensures Valid() && View() == DelaySpec.Push(old(View()), now, packet)
    {
      entries := entries + [Entry(packet, now)];
      if packet.kind.Video? && packet.den > 0 {
        frameUsec := USEC_PER_SEC * packet.num / packet.den;
      }
    }

    method FindKeyframeBefore(target: nat) returns (k: Option<nat>)
      requires Valid()
      ensures k == KeyframeBefore(entries, target)
    {
      var i := |entries|;
      while i > 0
        invariant 0 <= i <= |entries|
        invariant LastKeyframeUpTo(entries, target, |entries|) == LastKeyframeUpTo(entries, target, i)
      {
        if IsKeyframe(entries[i - 1]) && entries[i - 1].arrival <= target {
          return Some(i - 1);
        }
        i := i - 1;
      }
      i := 0;
      while i < |entries|
        invariant i <= |entries|
        invariant FirstKeyframeFrom(entries, 0, 0) == FirstKeyframeFrom(entries, i, 0)
      {
        if IsKeyframe(entries[i]) {
          return Some(i);
        }
        i := i + 1;
      }
      k := None;
    }

    method FindKeyframeAfter(target: nat) returns (k: Option<nat>)
      requires Valid()
      ensures k == FirstKeyframeFrom(entries, cursor, target)
    {
      var i := cursor;
      while i < |entries|
        invariant cursor <= i <= |entries|
        invariant FirstKeyframeFrom(entries, cursor, target) == FirstKeyframeFrom(entries, i, target)
      {
        if IsKeyframe(entries[i]) && entries[i].arrival >= target {
          return Some(i);
        }
        i := i + 1;
      }
      k := None;
    }

    method JumpToIndex(index: nat)
      requires Valid() && index < |entries|
      modifies this
      ensures Valid() && View() == JumpTo(old(View()), index)
    {
      cursor := index;
      resync := true;
    }

    method RaiseDelay(now: nat, newNs: nat)
      requires Valid()
      modifies this
      ensures Valid() && View() == Raise(old(View()), now, newNs)
    {
      var k := FindKeyframeBefore(if now > newNs then now - newNs else 0);
      if k.Some? && k.value < cursor {
        JumpToIndex(k.value);
      }
      pendingSkip := false;
      delayNs := newNs;
      holdDelayNs := newNs;
    }

    method LowerDelay(now: nat, newNs: nat)
      requires Valid()
      modifies this
      ensures Valid() && View() == Lower(old(View()), now, newNs)
    {
      var target := if now > newNs then now - newNs else 0;
      var k := FindKeyframeAfter(target);
      if k.Some? {
        if k.value > cursor {
          JumpToIndex(k.value);
        }
        pendingSkip := false;
        holdDelayNs := newNs;
      } else {
        pendingSkip := true;
        pendingTargetNs := target;
        holdDelayNs := delayNs;
      }
      delayNs := newNs;
    }

    method SetDelay(now: nat, seconds: nat)
      requires Valid()
      modifies this
      ensures Valid() && View() == DelaySpec.SetDelay(old(View()), now, seconds)
    {
      var sec := if seconds > MAX_DELAY_SEC then MAX_DELAY_SEC else seconds;
      var newNs := sec * NS_PER_SEC;
      if newNs > delayNs {
        RaiseDelay(now, newNs);
      } else if newNs < delayNs {
        LowerDelay(now, newNs);
      }
    }

    method PrepareOut(packet: Packet) returns (sent: bool, out: Packet)
      requires Valid()
      modifies this
      ensures (View(), sent) == DelaySpec.PrepareOut(old(View()), packet)
      ensures sent ==> out == Shifted(packet, offsetUsec)
      ensures Valid() && !resync
    {
      out := packet;
      if resync {
        var base := if lastVideoOutUsec.None? then packet.dtsUsec + offsetUsec else lastVideoOutUsec.value + frameUsec;
        offsetUsec := base - packet.dtsUsec;
        resync := false;
      }
      var outUsec := packet.dtsUsec + offsetUsec;
      var last := if packet.kind.Video? then lastVideoOutUsec else lastAudioOutUsec;
      if last.Some? && outUsec <= last.value {
        return false, packet;
      }
      if packet.kind.Video? {
        lastVideoOutUsec := Some(outUsec);
      } else {
        lastAudioOutUsec := Some(outUsec);
      }
      if offsetUsec != 0 {
        var off := UsecToTb(offsetUsec, packet);
        out := out.(dts := out.dts + off, pts := out.pts + off,
        dtsUsec := out.dtsUsec + offsetUsec, sysDtsUsec := out.sysDtsUsec + offsetUsec);
      }
      sent := true;
    }

    // The number of leading entries that a prune erases.
    method CountOld(now: nat) returns (n: nat)
      requires Valid()
      ensures n == OldPrefix(entries, now, cursor, 0)
    {
      n := 0;
      while n < cursor && now - entries[n].arrival > HISTORY_NS
        invariant n <= cursor
        invariant OldPrefix(entries, now, cursor, 0) == OldPrefix(entries, now, cursor, n)
      {
        n := n + 1;
      }
    }

    method PruneOld(now: nat)
      requires Valid()
      modifies this
      ensures Valid() && View() == Prune(old(View()), now)
    {
      if now - lastPruneNs < PRUNE_EVERY_NS {
        return;
      }
      lastPruneNs := now;
      var n := CountOld(now);
      if n == 0 {
        return;
      }
      entries := entries[n..];
      cursor := cursor - n;
      pruned := pruned + n;
    }

    method ResolvePendingSkip()
      requires Valid()
      modifies this
      ensures Valid() && View() == ResolveSkip(old(View()))
    {
      if pendingSkip {
        var k := FindKeyframeAfter(pendingTargetNs);
        if k.Some? {
          if k.value > cursor {
            JumpToIndex(k.value);
          }
          pendingSkip := false;
          holdDelayNs := delayNs;
        }
      }
    }

    // Prepares the entry at the cursor for sending and steps over it.
    method ReleaseOne(now: nat, ghost pace: nat) returns (sent: bool, out: Packet)
      requires Valid() && Due(View(), now, pace)
      modifies this
      ensures Valid() && entries == old(entries) && cursor == old(cursor) + 1
      ensures View() == VisitOne(old(View()), now, pace).0
      ensures var v := VisitOne(old(View()), now, pace).1; sent == v.sent && (sent ==> out == v.out)
    {
      var e := entries[cursor];
      sent, out := PrepareOut(e.packet);
      if sent {
        lastSentArrivalNs := e.arrival;
      }
      cursor := cursor + 1;
    }

    // The same step, as one unfolding of Drain.
    method DrainOne(now: nat, ghost pace: nat) returns (released: seq<Packet>)
      requires Valid() && Due(View(), now, pace)
      modifies this
      ensures Valid() && entries == old(entries) && cursor == old(cursor) + 1
      ensures Drain(old(View()), now, pace).state == Drain(View(), now, pace).state
      ensures Batch(Drain(old(View()), now, pace).visits) == released + Batch(Drain(View(), now, pace).visits)
    {
      DrainUnfold(View(), now, pace);
      var sent, out := ReleaseOne(now, pace);
      released := if sent then [out] else [];
    }

    // One iteration of pacer_thread up to the unlock; `batch` is what it then sends.
    method PacerPass(now: nat) returns (batch: seq<Packet>)
      requires Valid()
      modifies this
      ensures Valid() && View() == Pass(old(View()), now).state
      ensures batch == Batch(Pass(old(View()), now).visits)
    {
      ResolvePendingSkip();
      var pace := if pendingSkip then holdDelayNs else delayNs;
      batch := DrainDue(now, pace);
      PruneOld(now);
    }

    // The pacer's inner loop.
    method DrainDue(now: nat, pace: nat) returns (batch: seq<Packet>)
      requires Valid()
      modifies this
      ensures Valid()
      ensures View() == Drain(old(View()), now, pace).state
      ensures batch == Batch(Drain(old(View()), now, pace).visits)
    {
      ghost var all := Drain(View(), now, pace);
      batch := [];
      while cursor < |entries|
        invariant Valid()
        invariant all.state == Drain(View(), now, pace).state
        invariant Batch(all.visits) == batch + Batch(Drain(View(), now, pace).visits)
        decreases |entries| - cursor
      {
        if now - entries[cursor].arrival < pace {
          break;
        }
        var released := DrainOne(now, pace);
        batch := batch + released;
      }
    }
  }

  lemma DrainUnfold(s: State, now: nat, pace: nat)
    requires Due(s, now, pace)
    ensures var (s1, v) := VisitOne(s, now, pace);
            var rest := Drain(s1, now, pace);
            && Drain(s, now, pace).state == rest.state
            && Batch(Drain(s, now, pace).visits) == (if v.sent then [v.out] else []) + Batch(rest.visits)
  {
    var (s1, v) := VisitOne(s, now, pace);
    var rest := Drain(s1, now, pace).visits;
    assert ([v] + rest)[1..] == rest;
  }
}
