/**
  The packet queue of src/rtmp/rtmp-stream.c as its threads change it under packets_mutex.
 */
module DropQueue {
  import opened Common
  import opened DropSpec
  import opened EncoderPacket

  // What the drop loop keeps: `left` is what newBuf holds and what survives of the rest.
  ghost predicate Sifting(left: seq<Packet>, newBuf: seq<Packet>, rest: seq<Packet>, priority: int) {
    left == newBuf + Survivors(rest, priority)
  }

  lemma SiftOne(left: seq<Packet>, newBuf: seq<Packet>, rest: seq<Packet>, priority: int)
    requires rest != [] && Sifting(left, newBuf, rest, priority)
    ensures Sifting(left, if Kept(rest[0], priority) then newBuf + [rest[0]] else newBuf, rest[1..], priority)
  {
    if Kept(rest[0], priority) {
      assert newBuf + ([rest[0]] + Survivors(rest[1..], priority))
          == (newBuf + [rest[0]]) + Survivors(rest[1..], priority);
    } else {
      assert [] + Survivors(rest[1..], priority) == Survivors(rest[1..], priority);
    }
  }

  class RtmpStream {
    const config: Config
    var packets: seq<Packet>
    var minPriority: int
    var droppedFrames: nat
    var lastDts: int

    constructor (config: Config, lastDts: int)
      ensures this.config == config && View() == Start(lastDts).s
    {
      this.config := config;
      packets, minPriority, droppedFrames, this.lastDts := [], 0, 0, lastDts;
    }

    function View(): State
      reads this
    {
      State(packets, minPriority, droppedFrames, lastDts)
    }

    // Moves the packets to keep to a new queue.
    method DropFrames(highestPriority: int)
      modifies this
      ensures View() == DropSpec.DropFrames(old(View()), highestPriority)
    {
      ghost var left := Survivors(packets, highestPriority);
      var newBuf: seq<Packet> := [];
      var numFramesDropped := 0;
      while packets != []
        invariant Sifting(left, newBuf, packets, highestPriority)
        invariant numFramesDropped + |newBuf| + |packets| == |old(packets)| && numFramesDropped >= 0
        invariant minPriority == old(minPriority) && droppedFrames == old(droppedFrames) && lastDts == old(lastDts)
        decreases |packets|
      {
        var packet := packets[0];
        SiftOne(left, newBuf, packets, highestPriority);
        packets := packets[1..];
        if !packet.kind.Video? || packet.priority >= highestPriority {
          newBuf := newBuf + [packet];
        } else {
          numFramesDropped := numFramesDropped + 1;
        }
      }
      packets := newBuf;
      if minPriority < highestPriority {
        minPriority := highestPriority;
      }
      if numFramesDropped == 0 {
        return;
      }
      droppedFrames := droppedFrames + numFramesDropped;
    }

    // The first video packet that is no keyframe.
    method FindFirstVideoPacket() returns (first: Option<Packet>)
      ensures first == FirstVideo(packets)
    {
      var i := 0;
      while i < |packets|
        invariant 0 <= i <= |packets| && FirstVideo(packets) == FirstVideo(packets[i..])
      {
        var cur := packets[i];
        if cur.kind.Video? && !cur.keyframe {
          return Some(cur);
        }
        i := i + 1;
      }
      first := None;
    }

    method CheckToDropFrames(pframes: bool)
      modifies this
      ensures View() == CheckToDrop(old(View()), config, pframes)
    {
      var priority := if pframes then HIGHEST else HIGH;
      var dropThreshold := if pframes then config.pframeThreshold else config.dropThreshold;
      if |packets| < 5 {
        return;
      }
      var first := FindFirstVideoPacket();
      if first.None? {
        return;
      }
      var bufferDuration := lastDts - first.value.dtsUsec;
      if config.dbr {
        return;
      }
      if bufferDuration > dropThreshold {
        DropFrames(priority);
      }
    }

    method AddPacket(packet: Packet)
      modifies this`packets
      ensures packets == old(packets) + [packet]
    {
      packets := packets + [packet];
    }

    /**
      add_video_packet: drops what has waited too long, then admits the packet or counts it as
      dropped.
     */
    method AddVideoPacket(packet: Packet) returns (added: bool)
      requires packet.kind.Video?
      modifies this
      ensures View() == Add(old(View()), config, packet)
      ensures added == Admits(Checked(old(View()), config), packet)
    {
      CheckToDropFrames(false);
      CheckToDropFrames(true);
      if packet.priority < minPriority {
        droppedFrames := droppedFrames + 1;
        return false;
      } else {
        minPriority := 0;
      }
      lastDts := packet.dtsUsec;
      AddPacket(packet);
      added := true;
    }

    // get_next_packet
    method GetNextPacket() returns (packet: Option<Packet>)
      modifies this`packets
      ensures if old(packets) == [] then packet.None? && packets == []
              else packet == Some(old(packets)[0]) && packets == old(packets)[1..]
    {
      packet := None;
      if packets != [] {
        packet := Some(packets[0]);
        packets := packets[1..];
      }
    }
  }
}
