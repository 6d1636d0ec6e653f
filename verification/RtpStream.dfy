/** rtp/white_noise.go and rtp/pcm.go: the two generators of A-law RTP streams (header of RFC 3550, section 5.1),
    and the pauses of the player that sends them. */
module RtpStream {
  import opened Arith
  import opened Bytes
  import opened Player
  import opened Pcm
  import opened Widths
  import PacketBuilder

  /** Samples per packet and their bytes, microseconds per packet, RTP header. */
  const SAMPLES := 160
  const BLOCK := 320
  const PACKET_TIME := 20000
  const RTP_HEADER := 12

  /** x as four big-endian bytes from index i. */
  predicate Holds32(b: seq<byte>, i: nat, x: nat)
    requires i + 4 <= |b|
  {
    x == 0x100_0000 * (b[i] as int) + 0x1_0000 * (b[i + 1] as int) + 0x100 * (b[i + 2] as int) + b[i + 3] as int
  }

  /** The header fields after i packets have been made. */
  function SequenceAfter(i: nat): uint16 { i % TWO_TO_THE_16 }

  function TimestampAfter(i: nat): nat { (100 + SAMPLES * i) % TWO_TO_THE_32 }

  /** Packet i of a stream: consecutive sequence numbers and timestamps modulo their width, one SSRC. */
  ghost predicate IsHeader(pkt: Packet, i: nat, ssrc: nat)
  {
    && pkt.ts == PACKET_TIME * i
    && |pkt.payload| == RTP_HEADER + SAMPLES
    && pkt.payload[0] == 0x80 && pkt.payload[1] == 8
    && 0x100 * (pkt.payload[2] as int) + pkt.payload[3] as int == SequenceAfter(i + 1)
    && Holds32(pkt.payload, 4, TimestampAfter(i + 1))
    && Holds32(pkt.payload, 8, ssrc)
  }

  /** Its payload is the A-law codes of a block of samples. */
  ghost predicate IsPacket(pkt: Packet, i: nat, ssrc: nat, block: seq<byte>)
  {
    IsHeader(pkt, i, ssrc) && Encoded(LinearToALaw, pkt.payload[RTP_HEADER..], block)
  }

  /** One step of the two counters, with the wrap-around of uint16 and uint32. */
  lemma CountersAdvance(i: nat)
    ensures (SequenceAfter(i) + 1) % TWO_TO_THE_16 == SequenceAfter(i + 1)
    ensures (TimestampAfter(i) + SAMPLES) % TWO_TO_THE_32 == TimestampAfter(i + 1)
    ensures SequenceAfter(0) == 0 && TimestampAfter(0) == 100
    ensures TimestampAfter(i) < TWO_TO_THE_32
  {
    ModAdd(i, 1, TWO_TO_THE_16);
    ModAdd(100 + SAMPLES * i, SAMPLES, TWO_TO_THE_32);
    assert 100 + SAMPLES * i + SAMPLES == 100 + SAMPLES * (i + 1);
  }

  method PutUint32(a: array<byte>, i: nat, x: nat)
    requires i + 4 <= a.Length && x < TWO_TO_THE_32
    modifies a
    ensures Holds32(a[..], i, x)
    ensures forall j :: 0 <= j < a.Length && !(i <= j < i + 4) ==> a[j] == old(a[j])
  {
    PacketBuilder.PutUint16(a, i, x / 0x1_0000);
    PacketBuilder.PutUint16(a, i + 2, x % 0x1_0000);
  }

  /** The part both generators share: one payload from the running header fields and a block of samples. */
  method MakePacket(i: nat, sequence: uint16, timestamp: nat, ssrc: nat, block: seq<byte>) returns (pkt: Packet)
    requires |block| == BLOCK && ssrc < TWO_TO_THE_32
    requires sequence == SequenceAfter(i + 1) && timestamp == TimestampAfter(i + 1)
    ensures IsPacket(pkt, i, ssrc, block)
  {
    var payload := new byte[RTP_HEADER + SAMPLES](_ => 0);
    payload[0] := 0x80;
    payload[1] := 8;
    PacketBuilder.PutUint16(payload, 2, sequence);
    PutUint32(payload, 4, timestamp);
    PutUint32(payload, 8, ssrc);
    ghost var header := payload[..RTP_HEADER];
    var fits := Encode(LinearToALaw, block, payload, RTP_HEADER);
    assert payload[..RTP_HEADER] == header;
    pkt := Packet(PACKET_TIME * i, payload[..]);
    assert pkt.payload[RTP_HEADER..] == payload[RTP_HEADER..RTP_HEADER + SAMPLES];
  }

  // ---------------------------------------------------------------- white noise

  /** The random sample drawn for place j of packet i. */
  type Noise = (nat, nat) -> int

  ghost predicate InRange(noise: Noise)
  {
    forall i, j :: -28000 <= noise(i, j) < 28000
  }

  /** Packet i of a noise stream: its header, and the codes of its 160 samples. */
  ghost predicate IsNoisePacket(pkt: Packet, i: nat, ssrc: nat, noise: Noise)
    requires InRange(noise)
  {
    && IsHeader(pkt, i, ssrc)
    && forall j :: 0 <= j < SAMPLES ==> pkt.payload[RTP_HEADER..][j] == LinearToALaw(noise(i, j))
  }

  /** The inner loop: 160 samples as little-endian bytes. */
  method FillBlock(noise: Noise, i: nat) returns (block: seq<byte>)
    requires InRange(noise)
    ensures |block| == BLOCK
    ensures forall j :: 0 <= j < SAMPLES ==> Sample(block[2 * j], block[2 * j + 1]) == noise(i, j)
  {
    var pcmData := new byte[BLOCK];
    var j := 0;
    while j < SAMPLES
      invariant 0 <= j <= SAMPLES
      invariant forall k :: 0 <= k < j ==> Sample(pcmData[2 * k], pcmData[2 * k + 1]) == noise(i, k)
    {
      var n := noise(i, j);
      SampleOfBytes(n);
      pcmData[2 * j] := LowByte(n);
      pcmData[2 * j + 1] := HighByte(n);
      j := j + 1;
    }
    block := pcmData[..];
  }

  lemma NoiseIsEncoded(pkt: Packet, i: nat, ssrc: nat, block: seq<byte>, noise: Noise)
    requires InRange(noise) && IsPacket(pkt, i, ssrc, block) && |block| == BLOCK
    requires forall j :: 0 <= j < SAMPLES ==> Sample(block[2 * j], block[2 * j + 1]) == noise(i, j)
    ensures IsNoisePacket(pkt, i, ssrc, noise)
  {
  }

  /** Fifty packets a second; none for a duration that is not positive. */
  method WhiteNoise(duration: int, noise: Noise, ssrc: nat) returns (pkts: seq<Packet>)
    requires InRange(noise) && ssrc < TWO_TO_THE_32
    ensures |pkts| == if duration > 0 then 50 * duration else 0
    ensures forall i :: 0 <= i < |pkts| ==> IsNoisePacket(pkts[i], i, ssrc, noise)
  {
    pkts := [];
    var sequence: uint16 := 0;
    var timestamp: nat := 100;
    var i := 0;
    CountersAdvance(0);
    while i < duration * 1000 / 20
      invariant 0 <= i && (i == 0 || i <= 50 * duration) && |pkts| == i
      invariant sequence == SequenceAfter(i) && timestamp == TimestampAfter(i)
      invariant forall k :: 0 <= k < i ==> IsNoisePacket(pkts[k], k, ssrc, noise)
    {
      var block := FillBlock(noise, i);
      CountersAdvance(i);
      sequence := (sequence + 1) % TWO_TO_THE_16;
      timestamp := (timestamp + SAMPLES) % TWO_TO_THE_32;
      var pkt := MakePacket(i, sequence, timestamp, ssrc, block);
      NoiseIsEncoded(pkt, i, ssrc, block, noise);
      pkts := pkts + [pkt];
      i := i + 1;
    }
  }

  // ---------------------------------------------------------------- PCM files

  /** One packet per whole block of the file's bytes; a short block ends the stream. */
  method LoadPCM(data: seq<byte>, ssrc: nat) returns (pkts: seq<Packet>)
    requires ssrc < TWO_TO_THE_32
    ensures |pkts| == |data| / BLOCK
    ensures forall i :: 0 <= i < |pkts| ==> IsPacket(pkts[i], i, ssrc, data[BLOCK * i..BLOCK * i + BLOCK])
  {
    pkts := [];
    var sequence: uint16 := 0;
    var timestamp: nat := 100;
    var offset := 0;
    ghost var i := 0;
    CountersAdvance(0);
    while true
      invariant 0 <= offset <= |data| && offset == BLOCK * i && |pkts| == i
      invariant sequence == SequenceAfter(i) && timestamp == TimestampAfter(i)
      invariant forall k :: 0 <= k < i ==> IsPacket(pkts[k], k, ssrc, data[BLOCK * k..BLOCK * k + BLOCK])
      decreases |data| - offset
    {
      var n := if |data| - offset < BLOCK then |data| - offset else BLOCK;
      if n != BLOCK {
        break;
      }
      var pcmData := data[offset..offset + n];
      CountersAdvance(i);
      sequence := (sequence + 1) % TWO_TO_THE_16;
      timestamp := (timestamp + SAMPLES) % TWO_TO_THE_32;
      var pkt := MakePacket(|pkts|, sequence, timestamp, ssrc, pcmData);
      pkts := pkts + [pkt];
      offset := offset + n;
      i := i + 1;
    }
  }

  // ---------------------------------------------------------------- the player's pauses

  /** How long playback has slept when it sends packet n: the differences of successive times, added up. */
  function Slept(pkts: seq<Packet>, n: nat): int
    requires n < |pkts|
  {
    if n == 0 then 0 else Slept(pkts, n - 1) + (pkts[n].ts - pkts[n - 1].ts)
  }

  /** The pauses telescope for any list of packets. */
  lemma {:induction false} PausesTelescope(pkts: seq<Packet>, n: nat)
    requires n < |pkts|
    ensures Slept(pkts, n) == pkts[n].ts - pkts[0].ts
  {
    if n > 0 {
      PausesTelescope(pkts, n - 1);
    }
  }

  /** Packets of either generator are paced at 20 ms from the start, however many they are. */
  lemma StreamIsPaced(pkts: seq<Packet>, ssrc: nat, n: nat)
    requires n < |pkts| && forall i :: 0 <= i < |pkts| ==> IsHeader(pkts[i], i, ssrc)
    ensures Slept(pkts, n) == 20_000 * n
  {
    PausesTelescope(pkts, n);
  }

  lemma FileIsPaced(pkts: seq<Packet>, data: seq<byte>, ssrc: nat, n: nat)
    requires n < |pkts| == |data| / BLOCK
    requires forall i :: 0 <= i < |pkts| ==> IsPacket(pkts[i], i, ssrc, data[BLOCK * i..BLOCK * i + BLOCK])
    ensures Slept(pkts, n) == 20_000 * n
  {
    forall i | 0 <= i < |pkts| ensures IsHeader(pkts[i], i, ssrc) {
      assert IsPacket(pkts[i], i, ssrc, data[BLOCK * i..BLOCK * i + BLOCK]);
    }
    StreamIsPaced(pkts, ssrc, n);
  }

  lemma NoiseIsPaced(pkts: seq<Packet>, noise: Noise, ssrc: nat, n: nat)
    requires InRange(noise) && n < |pkts|
    requires forall i :: 0 <= i < |pkts| ==> IsNoisePacket(pkts[i], i, ssrc, noise)
    ensures Slept(pkts, n) == 20_000 * n
  {
    StreamIsPaced(pkts, ssrc, n);
  }
}
