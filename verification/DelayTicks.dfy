/**
  What the rewrite of src/delay-buffer.c does to stamps in timebase ticks, and what comes of
  them in the milliseconds of FLV.
 */
module DelayTicks {
  import opened Common
  import opened DelaySpec
  import opened DelayRuns
  import opened DelayLag
  import opened EncoderPacket

  // dts_usec is dts in microseconds, rounded down.
  ghost predicate UsecOfDts(p: Packet) {
    && p.den > 0
    && p.dtsUsec * p.den <= p.dts * (USEC_PER_SEC * p.num) < (p.dtsUsec + 1) * p.den
  }

  lemma RoundDivIsNearest(a: int, b: pos)
    ensures 2 * a - b <= 2 * b * RoundDiv(a, b) <= 2 * a + b
  {
    var x := if a >= 0 then 2 * a + b else -2 * a + b;
    var q := x / (2 * b);
    assert x == 2 * b * q + x % (2 * b);
  }

  lemma ScaleMonotone(a: nat, x: int, y: int)
    requires x <= y
    ensures a * x <= a * y
  {
    var z: nat := y - x;
    assert a * y == a * x + a * z;
  }

  lemma CancelFactor(a: pos, x: int, y: int)
    requires a * x < a * y
    ensures x < y
  {
    if y <= x {
      ScaleMonotone(a, y, x);
      assert false;
    }
  }

  lemma Distribute(x: int, y: int, d: int)
    ensures (x + y) * d == x * d + y * d
  {
  }

  lemma ScaleStrict(x: int, y: int, d: nat)
    requires x + 1 <= y
    ensures x * d + d <= y * d
  {
    var z: nat := y - (x + 1);
    Distribute(x, 1, d);
    Distribute(x + 1, z, d);
    assert z * d >= 0;
  }

  // If the stamps in microseconds are ordered, the stamps in ticks are not reversed, whatever
  // the two offsets are.
  lemma TicksKeepOrder(a: pos, den: pos, dtsP: int, usecP: int, offP: int, dtsQ: int, usecQ: int, offQ: int)
    requires dtsP * a < (usecP + 1) * den && usecQ * den <= dtsQ * a
    requires usecP + offP < usecQ + offQ
    ensures dtsP + RoundDiv(offP * den, a) <= dtsQ + RoundDiv(offQ * den, a)
  {
    var rp, rq := RoundDiv(offP * den, a), RoundDiv(offQ * den, a);
    var byP := NearestScaled(offP * den, a);
    var byQ := NearestScaled(offQ * den, a);
    ScaleStrict(usecP + offP, usecQ + offQ, den);
    Distribute(usecP, offP, den);
    Distribute(usecP, 1, den);
    Distribute(usecQ, offQ, den);
    Distribute(dtsP, rp, a);
    Distribute(dtsQ, rq, a);
    Distribute(dtsQ + rq, 1, a);
    OrderCore(dtsP * a, dtsQ * a, usecP * den, usecQ * den, offP * den, offQ * den, byP, byQ, a, den);
    CancelFactor(a, dtsP + rp, dtsQ + rq + 1);
  }

  lemma NearestScaled(x: int, a: pos) returns (r: int)
    ensures r == RoundDiv(x, a) * a && 2 * x - a <= 2 * r <= 2 * x + a
  {
    RoundDivIsNearest(x, a);
    r := RoundDiv(x, a) * a;
  }

  // The inequality between the products, which is linear in them.
  lemma OrderCore(dtsP: int, dtsQ: int, usecP: int, usecQ: int, offP: int, offQ: int, byP: int, byQ: int, a: pos,
                  den: pos)
    requires dtsP < usecP + den && usecQ <= dtsQ && usecP + offP + den <= usecQ + offQ
    requires 2 * byP <= 2 * offP + a && 2 * offQ - a <= 2 * byQ
    ensures dtsP + byP < dtsQ + byQ + a
  {
  }

  lemma RewriteKeepsTickOrder(p: Packet, offP: int, q: Packet, offQ: int)
    requires UsecOfDts(p) && UsecOfDts(q) && p.num == q.num && p.den == q.den
    requires p.dtsUsec + offP < q.dtsUsec + offQ
    ensures Shifted(p, offP).dts <= Shifted(q, offQ).dts
  {
    TicksKeepOrder(USEC_PER_SEC * p.num, p.den, p.dts, p.dtsUsec, offP, q.dts, q.dtsUsec, offQ);
    assert RoundDiv(0, USEC_PER_SEC * p.num) == 0;
  }

  lemma MillisecondsMonotone(a: int, b: int, den: pos)
    requires a <= b
    ensures Milliseconds(a, den) <= Milliseconds(b, den)
  {
    if a >= 0 {
      DivMonotone(a * 1000, b * 1000, den);
    } else if b < 0 {
      DivMonotone(-b * 1000, -a * 1000, den);
    } else {
      DivMonotone(0, -a * 1000, den);
      DivMonotone(0, b * 1000, den);
    }
  }

  lemma DivMonotone(a: int, b: int, d: pos)
    requires a <= b
    ensures a / d <= b / d
  {
    assert d * (a / d) <= a && b < d * (b / d) + d;
    assert d * (b / d + 1) == d * (b / d) + d;
    CancelFactor(d, a / d, b / d + 1);
  }

  ghost predicate OneTimebasePerKind(tl: seq<Entry>) {
    forall i, j :: 0 <= i < |tl| && 0 <= j < |tl| && tl[i].packet.kind == tl[j].packet.kind ==>
      tl[i].packet.num == tl[j].packet.num && tl[i].packet.den == tl[j].packet.den
  }

  /**
    Rounding survives the rewrite.  When dts_usec is dts rounded down, within each media
    type the dts sent never decreases across jumps, and neither do its milliseconds.
   */
  lemma TicksNeverGoBack(delaySec: nat, t0: nat, evs: seq<Event>, ws: seq<World>, n: nat, i: nat, j: nat)
    requires IsRun(delaySec, t0, evs, ws) && n < |ws|
    requires OneTimebasePerKind(ws[n].timeline)
    requires forall k :: 0 <= k < |ws[n].timeline| ==> UsecOfDts(ws[n].timeline[k].packet)
    requires i < j < |ws[n].visits| && ws[n].visits[i].sent && ws[n].visits[j].sent
    requires ws[n].visits[i].entry.packet.kind == ws[n].visits[j].entry.packet.kind
    ensures ws[n].visits[i].out.dts <= ws[n].visits[j].out.dts
    ensures ws[n].visits[j].out.den > 0
    ensures Milliseconds(ws[n].visits[i].out.dts, ws[n].visits[j].out.den)
            <= Milliseconds(ws[n].visits[j].out.dts, ws[n].visits[j].out.den)
  {
    RunKeepsInv(delaySec, t0, evs, ws, n);
    var tl, vs := ws[n].timeline, ws[n].visits;
    assert VisitOk(tl, vs, i) && VisitOk(tl, vs, j);
    RewriteKeepsTickOrder(vs[i].entry.packet, vs[i].offset, vs[j].entry.packet, vs[j].offset);
    MillisecondsMonotone(vs[i].out.dts, vs[j].out.dts, vs[j].out.den);
  }

  // ----- milliseconds across the two media types --------------------------

  lemma MillisecondsBetween(ticks: int, den: pos) returns (ms: int)
    ensures ms == Milliseconds(ticks, den) && (ms - 1) * den < 1000 * ticks < (ms + 1) * den
  {
    ms := Milliseconds(ticks, den);
    var x := if ticks >= 0 then ticks * 1000 else -ticks * 1000;
    var q := x / den;
    assert x == den * q + x % den;
    Distribute(ms, 1, den);
    Distribute(ms, -1, den);
    assert q * den == den * q && -q * den == -(den * q);
  }

  // Half a tick in microseconds, rounded down.
  function TickError(den: pos): (r: nat)
    ensures HALF < (r + 1) * den
  {
    Distribute(HALF / den, 1, den);
    HALF / den
  }

  const HALF: nat := 500_000

  lemma AtMostQuotient(y: int, d: pos)
    requires y * d < HALF
    ensures y <= TickError(d)
  {
    if y > TickError(d) {
      ScaleStrict(TickError(d), y, d);
      Distribute(TickError(d), 1, d);
      assert false;
    }
  }

  // The ticks sent lie within half a tick and a microsecond of the stamp sent.
  lemma SentTicks(p: Packet, offset: int) returns (ticks: int)
    requires UsecOfDts(p) && p.num == 1
    ensures ticks == Shifted(p, offset).dts
    ensures 2 * (p.dtsUsec + offset) * p.den - USEC_PER_SEC <= 2 * USEC_PER_SEC * ticks
    ensures 2 * USEC_PER_SEC * ticks < 2 * (p.dtsUsec + offset + 1) * p.den + USEC_PER_SEC
  {
    RoundDivIsNearest(offset * p.den, USEC_PER_SEC);
    var off := RoundDiv(offset * p.den, USEC_PER_SEC);
    assert offset == 0 ==> off == 0;
    ticks := p.dts + off;
    Distribute(p.dtsUsec, offset, p.den);
    Distribute(p.dtsUsec + 1, offset, p.den);
  }

  // The same in milliseconds: linear in the products once both bounds are cleared of ticks.
  lemma MillisecondsCore(stamp: int, ticks: int, ms: int, d: pos)
    requires 2 * stamp * d - USEC_PER_SEC <= 2 * USEC_PER_SEC * ticks < 2 * (stamp + 1) * d + USEC_PER_SEC
    requires (ms - 1) * d < 1000 * ticks < (ms + 1) * d
    ensures (1000 * (ms - 1) - (stamp + 1)) * d < HALF
    ensures (stamp - 1000 * (ms + 1)) * d < HALF
  {
    Distribute(1000 * (ms - 1), -(stamp + 1), d);
    Distribute(stamp, -1000 * (ms + 1), d);
    assert 1000 * (ms - 1) * d == 1000 * ((ms - 1) * d) && 1000 * (ms + 1) * d == 1000 * ((ms + 1) * d);
    assert 2 * stamp * d == 2 * (stamp * d) && 2 * (stamp + 1) * d == 2 * ((stamp + 1) * d);
    assert -(stamp + 1) * d == -((stamp + 1) * d) && -1000 * (ms + 1) * d == -(1000 * ((ms + 1) * d));
  }

  // How far a packet's milliseconds are from the stamp it was sent with.
  lemma SentMilliseconds(p: Packet, offset: int) returns (ms: int)
    requires UsecOfDts(p) && p.num == 1 && p.den > 0
    ensures ms == Milliseconds(Shifted(p, offset).dts, p.den)
    ensures 1000 * ms - 1001 - TickError(p.den) <= p.dtsUsec + offset <= 1000 * ms + 1000 + TickError(p.den)
  {
    hide UsecOfDts, Shifted, Milliseconds;
    var ticks := SentTicks(p, offset);
    var stamp := p.dtsUsec + offset;
    ms := MillisecondsBetween(ticks, p.den);
    MillisecondsCore(stamp, ticks, ms, p.den);
    AtMostQuotient(1000 * (ms - 1) - (stamp + 1), p.den);
    AtMostQuotient(stamp - 1000 * (ms + 1), p.den);
  }

  ghost predicate WholeTicks(tl: seq<Entry>) {
    forall k :: 0 <= k < |tl| ==> UsecOfDts(tl[k].packet) && tl[k].packet.num == 1
  }

  // In microseconds: the lag of the stamps, and what the rounding of both packets adds.
  function RunBack(lead: nat, frame: nat, p: Packet, q: Packet): nat
    requires p.den > 0 && q.den > 0
  {
    Max(0, lead - frame) + 2001 + TickError(p.den) + TickError(q.den)
  }

  /**
    In every run the FLV milliseconds of the two media types together, each in its own
    timebase, run back by at most the lag of the stamps and what rounding adds.
   */
  lemma MillisecondsRunBack(delaySec: nat, t0: nat, evs: seq<Event>, ws: seq<World>, n: nat, lead: nat, frame: nat,
                            i: nat, j: nat)
    requires IsRun(delaySec, t0, evs, ws) && n < |ws|
    requires InputShape(ws[n].timeline, lead, frame) && WholeTicks(ws[n].timeline)
    requires i < j < |ws[n].visits| && ws[n].visits[i].sent && ws[n].visits[j].sent
    ensures var p, q := ws[n].visits[i].out, ws[n].visits[j].out;
            && p.den > 0 && q.den > 0
            && 1000 * (Milliseconds(p.dts, p.den) - Milliseconds(q.dts, q.den)) <= RunBack(lead, frame, p, q)
  {
    RunKeepsInv(delaySec, t0, evs, ws, n);
    OutputLagIsBounded(delaySec, t0, evs, ws, n, lead, frame);
    var tl, vs := ws[n].timeline, ws[n].visits;
    assert VisitOk(tl, vs, i) && VisitOk(tl, vs, j);
    var a := SentMilliseconds(vs[i].entry.packet, vs[i].offset);
    var b := SentMilliseconds(vs[j].entry.packet, vs[j].offset);
  }
}
