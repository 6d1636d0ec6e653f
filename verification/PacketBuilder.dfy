/** media.go, pktSerialize and pktChecksum: the Ethernet, IPv4 and UDP headers of an RTP packet, built in place
    in one 1600-byte buffer. The checksum is the one's-complement sum of RFC 1071, section 1. */
module PacketBuilder {
  import opened Arith
  import opened Bytes

  const BUFFER_SIZE := 1600
  const HEADERS := 42

  // ---------------------------------------------------------------- one's-complement sums

  /** n big-endian words of b from index i, added up. */
  function WordSum(b: seq<byte>, i: nat, n: nat): nat
    requires i + 2 * n <= |b|
  {
    if n == 0 then 0 else WordSum(b, i, n - 1) + Word(b[i + 2 * n - 2], b[i + 2 * n - 1])
  }

  /** One end-around carry keeps the residue modulo 2^16 - 1. */
  lemma CarryKeepsResidue(x: nat)
    ensures (x / 0x1_0000 + x % 0x1_0000) % 0xFFFF == x % 0xFFFF
  {
    var h := x / 0x1_0000;
    assert x == 0x1_0000 * h + x % 0x1_0000;
    ModAddMultiple(x, 0xFFFF, 0 - h);
  }

  /** End-around carry until the sum fits 16 bits. */
  function Folded(x: nat): (r: nat)
    ensures r <= 0xFFFF
    ensures r % 0xFFFF == x % 0xFFFF
    ensures r == 0 <==> x == 0
  {
    if x > 0xFFFF
    then CarryKeepsResidue(x); Folded(x / 0x1_0000 + x % 0x1_0000)
    else x
  }

  lemma ComplementIsMultiple(x: nat, r: nat)
    requires r <= 0xFFFF && r % 0xFFFF == x % 0xFFFF
    ensures (x + (0xFFFF - r)) % 0xFFFF == 0
  {
    var q := x / 0xFFFF;
    assert x == 0xFFFF * q + x % 0xFFFF;
    if r == 0xFFFF {
      assert x % 0xFFFF == 0;
    } else {
      ModUnique(x + (0xFFFF - r), 0xFFFF, q + 1, 0);
    }
  }

  /** The complement of a folded sum, added to the sum, folds to all ones. */
  lemma ComplementFolds(sum: nat)
    ensures Folded(sum + (0xFFFF - Folded(sum))) == 0xFFFF
  {
    ComplementIsMultiple(sum, Folded(sum));
    OnlyAllOnes(Folded(sum + (0xFFFF - Folded(sum))));
  }

  lemma OnlyAllOnes(r: nat)
    requires 0 < r <= 0xFFFF && r % 0xFFFF == 0
    ensures r == 0xFFFF
  {
  }

  /** Changing one word changes the sum by the difference. */
  lemma {:induction false} WordSumUpdate(a: seq<byte>, b: seq<byte>, i: nat, n: nat, k: nat)
    requires |a| == |b| && i + 2 * n <= |a| && i + 2 * k + 1 < |a|
    requires forall j :: 0 <= j < |a| && j != i + 2 * k && j != i + 2 * k + 1 ==> a[j] == b[j]
    ensures WordSum(b, i, n) == WordSum(a, i, n)
      + if k < n then Word(b[i + 2 * k], b[i + 2 * k + 1]) - Word(a[i + 2 * k], a[i + 2 * k + 1]) else 0
  {
    if n > 0 {
      WordSumUpdate(a, b, i, n - 1, k);
    }
  }

  lemma {:induction false} WordSumSame(a: seq<byte>, b: seq<byte>, i: nat, n: nat)
    requires i + 2 * n <= |a| && i + 2 * n <= |b| && forall j :: i <= j < i + 2 * n ==> a[j] == b[j]
    ensures WordSum(a, i, n) == WordSum(b, i, n)
  {
    if n > 0 {
      WordSumSame(a, b, i, n - 1);
    }
  }

  /** The ten words of the IPv4 header added up, high bytes and low bytes apart. */
  function HeaderSum(b: seq<int>): int
    requires 34 <= |b|
  {
    0x100 * (b[14] + b[16] + b[18] + b[20] + b[22] + b[24] + b[26] + b[28] + b[30] + b[32])
    + (b[15] + b[17] + b[19] + b[21] + b[23] + b[25] + b[27] + b[29] + b[31] + b[33])
  }

  lemma HeaderWords(f: seq<byte>)
    requires 34 <= |f|
    ensures WordSum(f, 14, 10) == HeaderSum(f)
  {
    assert WordSum(f, 14, 1) == Word(f[14], f[15]);
    assert WordSum(f, 14, 3) == WordSum(f, 14, 1) + Word(f[16], f[17]) + Word(f[18], f[19]);
    assert WordSum(f, 14, 5) == WordSum(f, 14, 3) + Word(f[20], f[21]) + Word(f[22], f[23]);
    assert WordSum(f, 14, 7) == WordSum(f, 14, 5) + Word(f[24], f[25]) + Word(f[26], f[27]);
    assert WordSum(f, 14, 9) == WordSum(f, 14, 7) + Word(f[28], f[29]) + Word(f[30], f[31]);
  }

  /** A sum folds to all ones exactly when it is a positive multiple of 2^16 - 1. */
  lemma AllOnesIff(sum: nat)
    ensures Folded(sum) == 0xFFFF <==> sum > 0 && sum % 0xFFFF == 0
  {
    if sum > 0 && sum % 0xFFFF == 0 {
      OnlyAllOnes(Folded(sum));
    }
  }

  // ---------------------------------------------------------------- the frame

  /** The words of the IPv4 header, its checksum among them, add up to zero in one's complement: a positive
      multiple of 2^16 - 1. */
  predicate HeaderVerifies(f: seq<byte>)
    requires 34 <= |f|
  {
    HeaderSum(f) > 0 && HeaderSum(f) % 0xFFFF == 0
  }

  lemma VerifiesIff(f: seq<byte>)
    requires 34 <= |f|
    ensures HeaderVerifies(f) <==> Folded(WordSum(f, 14, 10)) == 0xFFFF
  {
    HeaderWords(f);
    AllOnesIff(WordSum(f, 14, 10));
  }

  /** What the headers and the payload of a finished frame say. */
  ghost predicate IsFrame(f: seq<byte>, remotePort: uint16, payload: seq<byte>)
  {
    && |f| == HEADERS + |payload|
    && |payload| + 28 < 0x1_0000
    && f[12] == 0x08 && f[13] == 0x00                            // IPv4
    && f[14] == 0x45 && f[22] == 0x40 && f[23] == 0x11           // header of 20 bytes, ttl 64, UDP
    && 0x100 * (f[16] as int) + f[17] as int == |payload| + 28                   // total length
    && 0x100 * (f[36] as int) + f[37] as int == remotePort
    && 0x100 * (f[38] as int) + f[39] as int == |payload| + 8                    // UDP length
    && f[40] == 0 && f[41] == 0
    && f[HEADERS..] == payload
    && HeaderVerifies(f)
  }

  /** The header bytes pktSerialize leaves for all packets of a call; the address of a host that is not IPv4
      (an empty sequence) leaves zeros. */
  ghost predicate Prepared(b: seq<byte>, remotePort: uint16)
  {
    && |b| == BUFFER_SIZE
    && b[12] == 0x08 && b[13] == 0x00
    && b[14] == 0x45 && b[22] == 0x40 && b[23] == 0x11
    && 0x100 * (b[36] as int) + b[37] as int == remotePort
  }

  /** a holds src from index i on and is otherwise as before. */
  method CopyInto(a: array<byte>, i: nat, src: seq<byte>)
    requires i + |src| <= a.Length
    modifies a
    ensures forall j :: 0 <= j < a.Length ==> a[j] == if i <= j < i + |src| then src[j - i] else old(a[j])
  {
    var k := 0;
    while k < |src|
      invariant 0 <= k <= |src|
      invariant forall j :: 0 <= j < a.Length ==> a[j] == if i <= j < i + k then src[j - i] else old(a[j])
    {
      a[i + k] := src[k];
      k := k + 1;
    }
  }

  method PutUint16(a: array<byte>, i: nat, x: uint16)
    requires i + 1 < a.Length
    modifies a
    ensures 0x100 * (a[i] as int) + a[i + 1] as int == x
    ensures forall j :: 0 <= j < a.Length && j != i && j != i + 1 ==> a[j] == old(a[j])
  {
    a[i], a[i + 1] := High(x), Low(x);
  }

  /** Refuses hardware addresses that are not 6 bytes long and then changes nothing. Ports are truncated to 16
      bits. */
  method PktSerialize(buf: array<byte>, remoteMac: seq<byte>, localMac: seq<byte>,
                      remoteAddr: seq<byte>, remotePort: int, localAddr: seq<byte>, localPort: int)
    returns (ok: bool)
    requires buf.Length == BUFFER_SIZE
    requires (remoteAddr == [] || |remoteAddr| == 4) && (localAddr == [] || |localAddr| == 4)
    modifies buf
    ensures ok <==> |remoteMac| == 6 && |localMac| == 6
    ensures !ok ==> buf[..] == old(buf[..])
    ensures ok && old(buf[13]) == 0 ==> Prepared(buf[..], remotePort % 0x1_0000)
    ensures ok ==>
      && buf[..6] == remoteMac && buf[6..12] == localMac
      && buf[20] == 0x40
      && 0x100 * (buf[34] as int) + buf[35] as int == localPort % 0x1_0000
      && (localAddr != [] ==> buf[26..30] == localAddr) && (remoteAddr != [] ==> buf[30..34] == remoteAddr)
      && forall j :: 0 <= j < BUFFER_SIZE && j !in {12, 14, 20, 22, 23} && !(0 <= j < 12) && !(26 <= j < 38)
           ==> buf[j] == old(buf[j])
  {
    if |remoteMac| != 6 || |localMac| != 6 {
      return false;
    }
    CopyInto(buf, 0, remoteMac);
    CopyInto(buf, 6, localMac);
    buf[12] := 0x08;
    buf[14] := 0x45;
    buf[20] := 0x40;
    buf[22] := 0x40;
    buf[23] := 0x11;
    CopyInto(buf, 26, localAddr);
    CopyInto(buf, 30, remoteAddr);
    PutUint16(buf, 34, localPort % 0x1_0000);
    PutUint16(buf, 36, remotePort % 0x1_0000);
    return true;
  }

  method ComputeChecksum(buf: array<byte>, i: nat, n: nat) returns (sum: nat)
    requires i + 2 * n <= buf.Length
    ensures sum == WordSum(buf[..], i, n)
  {
    sum := 0;
    var k := 0;
    while k < n
      invariant 0 <= k <= n
      invariant sum == WordSum(buf[..], i, k)
    {
      sum := sum + Word(buf[i + 2 * k], buf[i + 2 * k + 1]);
      k := k + 1;
    }
  }

  method FoldChecksum(sum: nat) returns (c: uint16)
    ensures c == 0xFFFF - Folded(sum)
  {
    var x := sum;
    while x > 0xFFFF
      invariant Folded(x) == Folded(sum)
      decreases x
    {
      x := x / 0x1_0000 + x % 0x1_0000;
    }
    c := 0xFFFF - x;
  }

  /** Whatever the checksum field held before, the header verifies afterwards and both lengths agree with the
      payload; nothing else changes. */
  method PktChecksum(buf: array<byte>, payload: nat)
    requires buf.Length == BUFFER_SIZE && payload <= BUFFER_SIZE - HEADERS
    modifies buf
    ensures 0x100 * (buf[16] as int) + buf[17] as int == payload + 28
    ensures 0x100 * (buf[38] as int) + buf[39] as int == payload + 8 && buf[40] == 0 && buf[41] == 0
    ensures HeaderVerifies(buf[..])
    ensures forall j :: 0 <= j < BUFFER_SIZE && j !in {16, 17, 24, 25, 38, 39, 40, 41} ==> buf[j] == old(buf[j])
  {
    PutUint16(buf, 16, payload + 28);
    buf[24], buf[25] := 0x00, 0x00;
    ghost var zeroed := buf[..];
    var sum := ComputeChecksum(buf, 14, 10);
    var c := FoldChecksum(sum);
    PutUint16(buf, 24, c);
    ghost var filled := buf[..];
    WordSumUpdate(zeroed, filled, 14, 10, 5);
    ComplementFolds(sum);
    PutUint16(buf, 38, payload + 8);
    buf[40], buf[41] := 0x00, 0x00;
    WordSumSame(filled, buf[..], 14, 10);
    VerifiesIff(buf[..]);
  }

  /** One turn of the player: payload behind the headers, lengths and checksum, and the slice to send. */
  method BuildFrame(buf: array<byte>, payload: seq<byte>, ghost remotePort: uint16) returns (frame: seq<byte>)
    requires Prepared(buf[..], remotePort) && |payload| <= BUFFER_SIZE - HEADERS
    modifies buf
    ensures Prepared(buf[..], remotePort)
    ensures IsFrame(frame, remotePort, payload)
    ensures forall j :: 0 <= j < HEADERS && j !in {16, 17, 24, 25, 38, 39, 40, 41} ==> frame[j] == old(buf[j])
  {
    CopyInto(buf, HEADERS, payload);
    PktChecksum(buf, |payload|);
    frame := buf[..HEADERS + |payload|];
  }
}
