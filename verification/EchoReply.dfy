/** The ICMPv6 echo responder in process_packet (__XDP_measure/xdp_measure_user.c): swap the
    MAC and IPv6 addresses, turn the request into a reply and patch its checksum. */
module EchoReply {
  import opened Common
  import opened InternetChecksum

  const SRC := 22            // ipv6->saddr
  const DST := 38            // ipv6->daddr
  const ICMP := 54           // icmp6 header
  const MIN_LEN := 62        // sizeof(*eth) + sizeof(*ipv6) + sizeof(*icmp)
  const IPPROTO_ICMPV6 := 58
  const ECHO_REQUEST := 128
  const ECHO_REPLY := 129

  /* ---- the code ---- */

  /** The four tests that guard the responder. */
  predicate IsEchoRequest(pkt: seq<byte>, len: nat)
    requires |pkt| >= MIN_LEN
  {
    && pkt[12] == 0x86 && pkt[13] == 0xDD
    && len >= MIN_LEN
    && pkt[20] == IPPROTO_ICMPV6
    && pkt[ICMP] == ECHO_REQUEST
  }

  function Pair(lo: byte, hi: byte): (w: u16)
  {
    lo as int + 0x100 * (hi as int)
  }

  /** A 16-bit field as a little-endian host loads it. */
  function Load16(pkt: seq<byte>, at: nat): (w: u16)
    requires at + 1 < |pkt|
  {
    Pair(pkt[at], pkt[at + 1])
  }

  /** On a little-endian host htons(t << 8) is the type byte itself. */
  function ReplyChecksum(pkt: seq<byte>): (w: u16)
    requires |pkt| >= MIN_LEN
  {
    CsumReplace2(Load16(pkt, ICMP + 2), ECHO_REQUEST, ECHO_REPLY)
  }

  /** The frame after the responder accepted it. */
  function Reply(pkt: seq<byte>): (r: seq<byte>)
    requires |pkt| >= MIN_LEN
    ensures |r| == |pkt|
  {
    ReplyWith(pkt, ReplyChecksum(pkt))
  }

  function ReplyWith(pkt: seq<byte>, sum: u16): (r: seq<byte>)
    requires |pkt| >= MIN_LEN
    ensures |r| == |pkt|
  {
    pkt[6..12] + pkt[0..6] + pkt[12..SRC] +
    pkt[DST..ICMP] + pkt[SRC..DST] +
    [ECHO_REPLY, pkt[ICMP + 1], sum % 0x100, sum / 0x100] + pkt[ICMP + 4..]
  }

  /** Three memcpys through a temporary: exchange `n` bytes at `a` with those at `b`. */
  method SwapFields(pkt: array<byte>, a: nat, b: nat, n: nat)
    requires a + n <= b && b + n <= pkt.Length
    modifies pkt
    ensures forall i :: 0 <= i < pkt.Length ==>
              pkt[i] == if a <= i < a + n then old(pkt[i + (b - a)])
                        else if b <= i < b + n then old(pkt[i - (b - a)]) else old(pkt[i])
  {
    var tmp := pkt[a..a + n];
    forall i | 0 <= i < n { pkt[a + i] := pkt[b + i]; }
    forall i | 0 <= i < n { pkt[b + i] := tmp[i]; }
  }

  lemma Pieces(r: seq<byte>)
    requires |r| >= MIN_LEN
    ensures r == r[0..6] + r[6..12] + r[12..SRC] + r[SRC..DST] + r[DST..ICMP] + r[ICMP..ICMP + 4] + r[ICMP + 4..]
  {
  }

  lemma ReplyByPieces(o: seq<byte>, r: seq<byte>, sum: u16)
    requires |r| == |o| >= MIN_LEN
    requires r[0..6] == o[6..12] && r[6..12] == o[0..6] && r[12..SRC] == o[12..SRC]
    requires r[SRC..DST] == o[DST..ICMP] && r[DST..ICMP] == o[SRC..DST] && r[ICMP + 4..] == o[ICMP + 4..]
    requires r[ICMP..ICMP + 4] == [ECHO_REPLY, o[ICMP + 1], sum % 0x100, sum / 0x100]
    ensures r == ReplyWith(o, sum)
  {
    Pieces(r);
    assert o[6..12] + o[0..6] + o[12..SRC] + o[DST..ICMP] + o[SRC..DST] ==
           r[0..6] + r[6..12] + r[12..SRC] + r[SRC..DST] + r[DST..ICMP];
  }

  lemma ReplyByBytes(o: seq<byte>, r: seq<byte>, sum: u16)
    requires |r| == |o| >= MIN_LEN
    requires forall i :: 0 <= i < 6 ==> r[i] == o[i + 6]
    requires forall i :: 6 <= i < 12 ==> r[i] == o[i - 6]
    requires forall i :: SRC <= i < DST ==> r[i] == o[i + 16]
    requires forall i :: DST <= i < ICMP ==> r[i] == o[i - 16]
    requires forall i :: 12 <= i < SRC || ICMP + 4 <= i < |o| ==> r[i] == o[i]
    requires r[ICMP] == ECHO_REPLY && r[ICMP + 1] == o[ICMP + 1]
    requires r[ICMP + 2] == sum % 0x100 && r[ICMP + 3] == sum / 0x100
    ensures r == ReplyWith(o, sum)
  {
    ReplyByPieces(o, r, sum);
  }

  /** The new type, and the checksum updated for it. */
  method SetType(pkt: array<byte>)
    requires pkt.Length >= MIN_LEN && pkt[ICMP] == ECHO_REQUEST
    modifies pkt
    ensures forall i :: 0 <= i < pkt.Length && i !in {ICMP, ICMP + 2, ICMP + 3} ==> pkt[i] == old(pkt[i])
    ensures pkt[ICMP] == ECHO_REPLY
    ensures var sum := CsumReplace2(Pair(old(pkt[ICMP + 2]), old(pkt[ICMP + 3])), ECHO_REQUEST, ECHO_REPLY);
            pkt[ICMP + 2] == sum % 0x100 && pkt[ICMP + 3] == sum / 0x100
  {
    hide CsumReplace2;
    pkt[ICMP] := ECHO_REPLY;
    var sum := CsumReplace2(Pair(pkt[ICMP + 2], pkt[ICMP + 3]), ECHO_REQUEST, ECHO_REPLY);
    pkt[ICMP + 2], pkt[ICMP + 3] := sum % 0x100, sum / 0x100;
  }

  /** process_packet's responder, which the source compiles out with `if (false)`; the
      hand-over of the frame to the TX ring is modelled in UmemFrames. */
  method BuildEchoReply(pkt: array<byte>, len: nat) returns (accepted: bool)
    requires pkt.Length >= MIN_LEN
    modifies pkt
    ensures accepted <==>
              && old(pkt[12]) == 0x86 && old(pkt[13]) == 0xDD && len >= 62
              && old(pkt[20]) == 58 && old(pkt[54]) == 128
    ensures pkt[..] == if accepted then Reply(old(pkt[..])) else old(pkt[..])
  {
    hide CsumReplace2, ReplyWith;
    if !(pkt[12] == 0x86 && pkt[13] == 0xDD) || len < MIN_LEN ||
       pkt[20] != IPPROTO_ICMPV6 || pkt[ICMP] != ECHO_REQUEST
    {
      return false;
    }
    ghost var o := pkt[..];
    SwapFields(pkt, 0, 6, 6);
    SwapFields(pkt, SRC, DST, 16);
    SetType(pkt);
    ReplyByBytes(o, pkt[..], ReplyChecksum(o));
    return true;
  }

  /* ---- the checksum an ICMPv6 receiver verifies ---- */

  /** Memory as a little-endian host reads it in 16-bit words, the last byte padded. */
  function Words(bs: seq<byte>): (ws: seq<u16>)
  {
    if bs == [] then []
    else if |bs| == 1 then [bs[0]]
    else [Pair(bs[0], bs[1])] + Words(bs[2..])
  }

  /** The same memory in network byte order, as RFC 1071 states the sum. */
  function NetworkWords(bs: seq<byte>): (ws: seq<u16>)
  {
    SwapAll(Words(bs))
  }

  function PayloadLength(pkt: seq<byte>): (n: nat)
    requires |pkt| >= MIN_LEN
  {
    Pair(pkt[19], pkt[18])
  }

  /** The ICMPv6 message lies inside the frame and has a full header. */
  predicate WellFormed(pkt: seq<byte>)
  {
    |pkt| >= MIN_LEN && 8 <= PayloadLength(pkt) && ICMP + PayloadLength(pkt) <= |pkt|
  }

  /** Pseudo-header (section 8.1 of RFC 8200) and message (section 2.3 of RFC 4443). */
  function Covered(pkt: seq<byte>): (bs: seq<byte>)
    requires WellFormed(pkt)
  {
    pkt[SRC..DST] + (pkt[DST..ICMP] +
    ([0, 0, pkt[18], pkt[19], 0, 0, 0, IPPROTO_ICMPV6] +
    pkt[ICMP..ICMP + PayloadLength(pkt)]))
  }

  predicate ChecksumOk(pkt: seq<byte>)
    requires WellFormed(pkt)
  {
    Verifies(NetworkWords(Covered(pkt)))
  }

  /* ---- proofs ---- */

  function ByteSum(bs: seq<byte>): (n: nat)
  {
    Sum(Words(bs))
  }

  lemma {:induction false} ByteSumAppend(a: seq<byte>, b: seq<byte>)
    requires |a| % 2 == 0
    ensures ByteSum(a + b) == ByteSum(a) + ByteSum(b)
    decreases |a|
  {
    if a == [] {
      assert a + b == b;
    } else {
      ByteSumAppend(a[2..], b);
      assert (a + b)[2..] == a[2..] + b;
    }
  }

  lemma CoveredSum(pkt: seq<byte>)
    requires WellFormed(pkt)
    ensures ByteSum(Covered(pkt)) ==
            ByteSum(pkt[SRC..DST]) + ByteSum(pkt[DST..ICMP]) +
            ByteSum([0, 0, pkt[18], pkt[19], 0, 0, 0, IPPROTO_ICMPV6]) +
            ByteSum(pkt[ICMP..ICMP + PayloadLength(pkt)])
  {
    var msg := pkt[ICMP..ICMP + PayloadLength(pkt)];
    var rest := [0, 0, pkt[18], pkt[19], 0, 0, 0, IPPROTO_ICMPV6];
    ByteSumAppend(pkt[SRC..DST], pkt[DST..ICMP] + (rest + msg));
    ByteSumAppend(pkt[DST..ICMP], rest + msg);
    ByteSumAppend(rest, msg);
  }

  lemma ByteSumStep(bs: seq<byte>)
    requires |bs| >= 2
    ensures ByteSum(bs) == Pair(bs[0], bs[1]) + ByteSum(bs[2..])
  {
    assert Words(bs)[1..] == Words(bs[2..]);
  }

  lemma MessageSum(msg: seq<byte>)
    requires |msg| >= 8
    ensures ByteSum(msg) == Load16(msg, 0) + Load16(msg, 2) + ByteSum(msg[4..])
  {
    ByteSumStep(msg);
    ByteSumStep(msg[2..]);
    assert msg[2..][2..] == msg[4..];
  }

  lemma ConstantSum(a: byte, b: byte)
    ensures ByteSum([0, 0, a, b, 0, 0, 0, IPPROTO_ICMPV6]) > 0
  {
    var bs: seq<byte> := [0, 0, a, b, 0, 0, 0, IPPROTO_ICMPV6];
    var tail: seq<byte> := [0, IPPROTO_ICMPV6];
    assert bs == [0, 0, a, b, 0, 0] + tail;
    ByteSumAppend([0, 0, a, b, 0, 0], tail);
    assert tail[2..] == [];
    assert Words(tail) == [0x100 * IPPROTO_ICMPV6];
  }

  /** The message part of the reply differs in its type byte and its checksum only. */
  lemma ReplyMessage(pkt: seq<byte>)
    requires WellFormed(pkt)
    ensures var r, n := Reply(pkt), PayloadLength(pkt);
            && WellFormed(r) && PayloadLength(r) == n
            && r[SRC..DST] == pkt[DST..ICMP] && r[DST..ICMP] == pkt[SRC..DST]
            && r[18] == pkt[18] && r[19] == pkt[19]
            && r[ICMP..ICMP + n][4..] == pkt[ICMP..ICMP + n][4..]
            && r[ICMP] == ECHO_REPLY && r[ICMP + 1] == pkt[ICMP + 1]
            && Load16(r, ICMP + 2) == ReplyChecksum(pkt)
  {
    var r := Reply(pkt);
    ReplyReturnsToSender(pkt);
    assert r[18] == pkt[12..SRC][6] && r[19] == pkt[12..SRC][7];
    var n := PayloadLength(pkt);
    SameTail(pkt, r, ICMP, n);
  }

  lemma SameTail(a: seq<byte>, b: seq<byte>, at: nat, n: nat)
    requires |a| == |b| && 4 <= n && at + n <= |a| && a[at + 4..] == b[at + 4..]
    ensures b[at..at + n][4..] == a[at..at + n][4..]
  {
    assert a[at..at + n][4..] == a[at + 4..][..n - 4];
    assert b[at..at + n][4..] == b[at + 4..][..n - 4];
  }

  /** The patched checksum is the old one less the increase of the type byte, modulo 0xFFFF. */
  lemma ReplyChecksumShift(sum: u16)
    ensures exists k: int :: CsumReplace2(sum, ECHO_REQUEST, ECHO_REPLY) == sum - 1 + 0xFFFF * k
  {
    ReplaceIsCanonical(sum, ECHO_REQUEST, ECHO_REPLY);
    var total := Complement(sum) + Complement(ECHO_REQUEST) + ECHO_REPLY;
    assert total == 0xFFFF + (0xFFFF - sum) + 1;
    var q := (total - 1) / 0xFFFF;
    assert Canonical(total) == total - 0xFFFF * q;
    assert CsumReplace2(sum, ECHO_REQUEST, ECHO_REPLY) == sum - 1 + 0xFFFF * (q - 1);
  }

  lemma ReplySum(pkt: seq<byte>)
    requires WellFormed(pkt) && pkt[ICMP] == ECHO_REQUEST
    ensures WellFormed(Reply(pkt))
    ensures exists k: int :: ByteSum(Covered(Reply(pkt))) == ByteSum(Covered(pkt)) + 0xFFFF * k
    ensures ByteSum(Covered(pkt)) > 0 && ByteSum(Covered(Reply(pkt))) > 0
  {
    var r, n := Reply(pkt), PayloadLength(pkt);
    ReplyMessage(pkt);
    CoveredSum(pkt);
    CoveredSum(r);
    ConstantSum(pkt[18], pkt[19]);
    MessageSum(pkt[ICMP..ICMP + n]);
    MessageSum(r[ICMP..ICMP + n]);
    ReplyChecksumShift(Load16(pkt, ICMP + 2));
    var k: int :| ReplyChecksum(pkt) == Load16(pkt, ICMP + 2) - 1 + 0xFFFF * k;
    assert ByteSum(Covered(r)) == ByteSum(Covered(pkt)) + 0xFFFF * k;
  }

  lemma SameRemainder(a: nat, b: nat, k: int)
    requires b == a + 0xFFFF * k
    ensures a % 0xFFFF == 0 <==> b % 0xFFFF == 0
  {
    if a % 0xFFFF == 0 {
      MultipleHasNoRemainder(b, a / 0xFFFF + k);
    }
    if b % 0xFFFF == 0 {
      MultipleHasNoRemainder(a, b / 0xFFFF - k);
    }
  }

  /* ---- main results ---- */

  /** For every address pair, code and payload, the reply's checksum is valid in network byte
      order exactly when the request's was. */
  lemma ReplyKeepsChecksumValidity(pkt: seq<byte>)
    requires WellFormed(pkt) && IsEchoRequest(pkt, |pkt|)
    ensures WellFormed(Reply(pkt))
    ensures ChecksumOk(Reply(pkt)) <==> ChecksumOk(pkt)
  {
    ReplySum(pkt);
    var r := Reply(pkt);
    ByteOrderIndependent(Words(Covered(pkt)));
    ByteOrderIndependent(Words(Covered(r)));
    VerifiesByRemainder(Words(Covered(pkt)));
    VerifiesByRemainder(Words(Covered(r)));
    var k: int :| ByteSum(Covered(r)) == ByteSum(Covered(pkt)) + 0xFFFF * k;
    SameRemainder(ByteSum(Covered(pkt)), ByteSum(Covered(r)), k);
  }

  /** The reply goes back to the sender, answers with the same code, identifier, sequence
      number and data, and touches nothing else of the frame. */
  lemma ReplyReturnsToSender(pkt: seq<byte>)
    requires |pkt| >= MIN_LEN
    ensures var r := Reply(pkt);
            && r[0..6] == pkt[6..12] && r[6..12] == pkt[0..6] && r[12..22] == pkt[12..22]
            && r[22..38] == pkt[38..54] && r[38..54] == pkt[22..38]
            && r[54] == 129 && r[55] == pkt[55] && r[58..] == pkt[58..]
            && !IsEchoRequest(r, |r|)
  {
    var r := Reply(pkt);
    assert r[0..6] == pkt[6..12];
    assert r[SRC..DST] == pkt[DST..ICMP];
    assert r[ICMP + 4..] == pkt[ICMP + 4..];
  }
}
