/**
  The delayed stream on the wire: what the pacer sends in a run, muxed to FLV, written as
  RTMP messages and read back.
 */
module DelayedStream {
  import opened Common
  import opened IntCodec
  import opened EncoderPacket
  import opened DelaySpec
  import opened DelayRuns
  import opened DelayLag
  import opened DelayTicks
  import opened ChunkSpec
  import opened ChunkRoundTrip
  import opened FlvSpec
  import opened FlvToReader

  // The muxer's calls for the packets a run has sent; `offset` is start_dts_offset.
  function Items(vs: seq<Visit>, offset: int): seq<Item> {
    if vs == [] then [] else
    var v := vs[|vs| - 1];
    Items(vs[..|vs| - 1], offset) + (if v.sent then [Item(v.out, offset, false)] else [])
  }

  // Neither conversion to 32 bits loses anything: less than 2^31 ms, about 24 days.
  predicate NoWrap(item: Item)
    requires item.p.den > 0
  {
    var ms := Milliseconds(item.p.dts, item.p.den);
    -0x8000_0000 <= ms < 0x8000_0000 && -0x8000_0000 <= ms - item.offset < 0x8000_0000
  }

  // ----- from items back to visits ----------------------------------------

  lemma {:induction false} ItemFrom(vs: seq<Visit>, offset: int, k: nat) returns (i: nat)
    requires k < |Items(vs, offset)|
    ensures i < |vs| && vs[i].sent && Items(vs, offset)[k] == Item(vs[i].out, offset, false)
    ensures |Items(vs[..i], offset)| == k
    decreases |vs|
  {
    var n := |vs| - 1;
    if k < |Items(vs[..n], offset)| {
      i := ItemFrom(vs[..n], offset, k);
      assert vs[..n][..i] == vs[..i];
    } else {
      i := n;
    }
  }

  lemma {:induction false} ItemsGrow(vs: seq<Visit>, offset: int, i: nat, j: nat)
    requires i <= j <= |vs|
    ensures |Items(vs[..i], offset)| <= |Items(vs[..j], offset)|
    decreases j
  {
    if i < j {
      ItemsGrow(vs, offset, i, j - 1);
      assert vs[..j][..j - 1] == vs[..j - 1];
    }
  }

  lemma TwoItemsFrom(vs: seq<Visit>, offset: int, k: nat, l: nat) returns (i: nat, j: nat)
    requires k < l < |Items(vs, offset)|
    ensures i < j < |vs| && vs[i].sent && vs[j].sent
    ensures Items(vs, offset)[k] == Item(vs[i].out, offset, false)
            && Items(vs, offset)[l] == Item(vs[j].out, offset, false)
  {
    i := ItemFrom(vs, offset, k);
    j := ItemFrom(vs, offset, l);
    if j <= i {
      ItemsGrow(vs, offset, j, i);
    }
  }

  // ----- the times --------------------------------------------------------

  /**
    How far time on the wire's one channel can run back in a run: not at all within a media
    type, and across the two by no more than the lag of the stamps and the rounding.
   */
  lemma TimesRunBack(delaySec: nat, t0: nat, evs: seq<Event>, ws: seq<World>, n: nat, lead: nat, frame: nat,
                     offset: int, k: nat, l: nat)
    requires IsRun(delaySec, t0, evs, ws) && n < |ws|
    requires InputShape(ws[n].timeline, lead, frame) && WholeTicks(ws[n].timeline)
    requires k < l < |Items(ws[n].visits, offset)|
    requires AllMuxable(Items(ws[n].visits, offset))
    requires NoWrap(Items(ws[n].visits, offset)[k]) && NoWrap(Items(ws[n].visits, offset)[l])
    ensures var items := Items(ws[n].visits, offset);
            1000 * (TimeOf(items[k]) - TimeOf(items[l])) <= RunBack(lead, frame, items[k].p, items[l].p)
  {
    var i, j := TwoItemsFrom(ws[n].visits, offset, k, l);
    MillisecondsRunBack(delaySec, t0, evs, ws, n, lead, frame, i, j);
  }

  lemma TimesAscendWithinKind(delaySec: nat, t0: nat, evs: seq<Event>, ws: seq<World>, n: nat, offset: int, k: nat,
                              l: nat)
    requires IsRun(delaySec, t0, evs, ws) && n < |ws|
    requires OneTimebasePerKind(ws[n].timeline)
    requires forall k :: 0 <= k < |ws[n].timeline| ==> UsecOfDts(ws[n].timeline[k].packet)
    requires k < l < |Items(ws[n].visits, offset)|
    requires AllMuxable(Items(ws[n].visits, offset))
    requires NoWrap(Items(ws[n].visits, offset)[k]) && NoWrap(Items(ws[n].visits, offset)[l])
    ensures var items := Items(ws[n].visits, offset);
            items[k].p.kind == items[l].p.kind ==> TimeOf(items[k]) <= TimeOf(items[l])
  {
    var items := Items(ws[n].visits, offset);
    if items[k].p.kind == items[l].p.kind {
      var vs := ws[n].visits;
      var i, j := TwoItemsFrom(vs, offset, k, l);
      RunKeepsInv(delaySec, t0, evs, ws, n);
      assert VisitOk(ws[n].timeline, vs, i) && VisitOk(ws[n].timeline, vs, j);
      TicksNeverGoBack(delaySec, t0, evs, ws, n, i, j);
    }
  }

  // Time jumps ahead by less than 2^24 - 1 ms, and what comes with an earlier time fits in a chunk.
  ghost predicate SmallStepsBack(items: seq<Item>, chunk: pos)
    requires AllMuxable(items)
  {
    forall i {:trigger items[i]} :: 0 < i < |items| ==>
      && TimeOf(items[i]) < TimeOf(items[i - 1]) + EXTENDED
      && (TimeOf(items[i]) < TimeOf(items[i - 1]) ==> |Body(items[i].p, items[i].isHeader)| <= chunk)
  }

  /**
    The whole way: what the pacer sends in any run, muxed, written and read back, arrives
    complete and in order, provided a packet that steps back behind the other media type fits
    in one chunk.
   */
  lemma DelayedStreamArrives(delaySec: nat, t0: nat, evs: seq<Event>, ws: seq<World>, n: nat, offset: int,
                             cs: Channels, ps: SentPackets, w: Pending, info: u32, chunk: pos)
    requires IsRun(delaySec, t0, evs, ws) && n < |ws|
    requires OneTimebasePerKind(ws[n].timeline)
    requires forall k :: 0 <= k < |ws[n].timeline| ==> UsecOfDts(ws[n].timeline[k].packet)
    requires AllSynced(cs, ps) && Idle(w) && AllMuxable(Items(ws[n].visits, offset))
    requires forall k :: 0 <= k < |Items(ws[n].visits, offset)| ==> NoWrap(Items(ws[n].visits, offset)[k])
    requires StartFits(ps, Items(ws[n].visits, offset), info, chunk)
             && SmallStepsBack(Items(ws[n].visits, offset), chunk)
    ensures var items := Items(ws[n].visits, offset);
            && Framed(w, Tags(items), info)
            && Arrived(items, info, ReadAll(cs, chunk, SendAll(ps, Feed(w, Tags(items), info).sent, chunk)))
  {
    hide Items, NoWrap, OneTimebasePerKind, UsecOfDts, IsRun, Body, TimeMs;
    var items := Items(ws[n].visits, offset);
    forall i | 0 < i < |items|
      ensures TimeFits(TypeOf(items[i - 1].p), TimeOf(items[i - 1]), items[i], chunk)
    {
      TimesAscendWithinKind(delaySec, t0, evs, ws, n, offset, i - 1, i);
    }
    FittingTimesArrive(cs, ps, w, items, info, chunk);
  }
}
