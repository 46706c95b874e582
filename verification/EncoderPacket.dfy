/** The encoder packet of libobs as the output code uses it; all sources share this struct. */
module EncoderPacket {
  import opened Common

  datatype Kind = Video | Audio

  datatype Packet = Packet(
    kind: Kind,
    keyframe: bool,
    priority: int,
    dts: int,        // in ticks of the timebase, like pts
    pts: int,
    dtsUsec: int,
    sysDtsUsec: int,
    num: pos,        // timebase: seconds = ticks * num / den
    den: nat,
    data: seq<byte>
  )

  // get_ms_time before its cast to 32 bits; C's division truncates toward zero.
  function Milliseconds(ticks: int, den: pos): int {
    if ticks >= 0 then ticks * 1000 / den else -(-ticks * 1000 / den)
  }
}
