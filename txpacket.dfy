/**
 * The transmit side of src/omnipod_pda.cc as values: the byte-to-bits
 * helper i8tob, the bounded appends of the file-local do_put, the symbol
 * string that transmit_on_packet assembles, and the sample runs that
 * transmit_packet lays down for each symbol.
 */
module TxPacket {
  import HexRender
  import Manchester

  // ---------------------------------------------------------------------
  // i8tob

  /** c >> k on an unsigned value: k halvings. */
  function Shr(c: nat, k: nat): nat
    decreases k
  {
    if k == 0 then c else Shr(c / 2, k - 1)
  }

  function BitChar(x: nat): char { if x % 2 == 1 then '1' else '0' }

  /** The n low bits of c as '0'/'1' characters, most significant first. */
  function ByteBits(c: nat, n: nat): (r: string)
    ensures |r| == n
  {
    if n == 0 then [] else ByteBits(c / 2, n - 1) + [BitChar(c % 2)]
  }

  lemma {:induction false} ShrHalves(c: nat, k: nat)
    ensures Shr(c, k + 1) == Shr(c, k) / 2
    decreases k
  {
    if k > 0 {
      ShrHalves(c / 2, k - 1);
    }
  }

  /**
   * The bits i8tob writes are the byte back: read MSB-first they have
   * the byte's value, so the receive renderer shows the byte itself.
   */
  lemma {:induction false} ByteBitsValue(c: nat, n: nat)
    requires c < HexRender.Pow2(n)
    ensures HexRender.BitsOnly(ByteBits(c, n))
    ensures HexRender.BitsValue(ByteBits(c, n)) == c
  {
    if n > 0 {
      var p := ByteBits(c / 2, n - 1);
      ByteBitsValue(c / 2, n - 1);
      assert ByteBits(c, n) == p + [BitChar(c % 2)];
      assert (p + [BitChar(c % 2)])[..n - 1] == p;
    }
  }

  /** i8tob: writes the byte c into b[0..8], most significant bit first. */
  method I8ToB(c: HexRender.Octet, b: array<char>)
    requires b.Length == 8
    modifies b
    ensures b[..] == ByteBits(c, 8)
  {
    var i := 0;
    while i < 8
      invariant 0 <= i <= 8
      invariant b[..i] == ByteBits(Shr(c, 8 - i), i)
    {
      ShrHalves(c, 7 - i);
      b[i] := BitChar(Shr(c, 7 - i) % 2);
      assert b[..i + 1] == b[..i] + [b[i]];
      i := i + 1;
    }
    assert b[..] == b[..8];
  }

  /** The displayed hex of i8tob's output is the byte itself. */
  lemma I8ToBRendersByte(c: HexRender.Octet)
    ensures HexRender.HexPart(ByteBits(c, 8)) == HexRender.Hex2(c) + " : "
  {
    HexRender.Pow2Small();
    ByteBitsValue(c, 8);
    HexRender.RenderOneByte(ByteBits(c, 8));
  }

  /**
   * (m_secret >> ((4 - 1 - i) * 8)) & 0xff: the i-th byte of the secret,
   * most significant first.
   */
  function SecretByte(secret: nat, i: nat): HexRender.Octet
    requires i < 4
  {
    Shr(secret, (4 - 1 - i) * 8) % 256
  }

  lemma {:induction false} ShrAdd(c: nat, a: nat, b: nat)
    ensures Shr(c, a + b) == Shr(Shr(c, a), b)
    decreases a
  {
    if a > 0 {
      ShrAdd(c / 2, a - 1, b);
    }
  }

  /** A shift by eight is a division by 256. */
  lemma ShrByte(c: nat)
    ensures Shr(c, 8) == c / 256
  {
    var c1 := c / 2;
    var c2 := c1 / 2;
    var c3 := c2 / 2;
    var c4 := c3 / 2;
    var c5 := c4 / 2;
    var c6 := c5 / 2;
    var c7 := c6 / 2;
    assert Shr(c, 8) == Shr(c7, 1) == c7 / 2;
  }

  /** Four base-256 digits, most significant first, put back together. */
  lemma Base256(x: nat, x1: nat, x2: nat, x3: nat)
    requires x1 == x / 256 && x2 == x1 / 256 && x3 == x2 / 256 && x < 0x1_0000_0000
    ensures x == (x3 % 256) * 0x100_0000 + (x2 % 256) * 0x1_0000 + (x1 % 256) * 0x100 + x % 256
  {
    assert x == 256 * x1 + x % 256;
    assert x1 == 256 * x2 + x1 % 256;
    assert x2 == 256 * x3 + x2 % 256;
    assert x3 < 256;
  }

  /** The four secret bytes put back together are the secret. */
  lemma SecretBytesReassemble(secret: nat)
    requires secret < 0x1_0000_0000
    ensures secret == SecretByte(secret, 0) * 0x100_0000 + SecretByte(secret, 1) * 0x1_0000
                    + SecretByte(secret, 2) * 0x100 + SecretByte(secret, 3)
  {
    var s1 := Shr(secret, 8);
    var s2 := Shr(secret, 16);
    var s3 := Shr(secret, 24);
    ShrByte(secret);
    ShrAdd(secret, 8, 8);
    ShrByte(s1);
    ShrAdd(secret, 16, 8);
    ShrByte(s2);
    assert SecretByte(secret, 3) == secret % 256;
    Base256(secret, s1, s2, s3);
  }

  // ---------------------------------------------------------------------
  // The file-local do_put of src/omnipod_pda.cc and the symbol string of
  // transmit_on_packet

  /** do_put as a value: s is appended whole when it fits in cap, else dropped. */
  function Put(acc: string, s: string, cap: nat): string
  {
    if |s| + |acc| > cap then acc else acc + s
  }

  /** A sequence of do_put calls, in order, from the text acc. */
  function Fill(ps: seq<string>, acc: string, cap: nat): string
    decreases |ps|
  {
    if ps == [] then acc else Fill(ps[1..], Put(acc, ps[0], cap), cap)
  }

  /** The concatenation of the pieces. */
  function Concat(ps: seq<string>): string
    decreases |ps|
  {
    if ps == [] then [] else ps[0] + Concat(ps[1..])
  }

  /** Every piece has at least one character. */
  predicate NonEmpty(ps: seq<string>)
  {
    forall k :: 0 <= k < |ps| ==> ps[k] != []
  }

  /**
   * do_put: copies s into packet at offset when offset + |s| <= packetLen
   * and moves offset past it; otherwise changes nothing.
   */
  method DoPut(packet: array<char>, packetLen: nat, offset: nat, s: string) returns (offset': nat)
    requires packetLen <= packet.Length && offset <= packetLen
    modifies packet
    ensures offset' == if |s| + offset > packetLen then offset else offset + |s|
    ensures packet[..offset'] == Put(old(packet[..offset]), s, packetLen)
  {
    if |s| + offset > packetLen {
      return offset;
    }
    forall k | 0 <= k < |s| {
      packet[offset + k] := s[k];
    }
    offset' := offset + |s|;
    assert packet[..offset'] == old(packet[..offset]) + s;
  }

  /** Consecutive do_put calls, one per piece (the 16 calls of a block). */
  method DoPutAll(packet: array<char>, packetLen: nat, offset: nat, ps: seq<string>) returns (offset': nat)
    requires packetLen <= packet.Length && offset <= packetLen
    modifies packet
    ensures offset' <= packetLen
    ensures packet[..offset'] == Fill(ps, old(packet[..offset]), packetLen)
  {
    offset' := offset;
    var k := 0;
    while k < |ps|
      invariant 0 <= k <= |ps| && offset' <= packetLen
      invariant Fill(ps[k..], packet[..offset'], packetLen) == Fill(ps, old(packet[..offset]), packetLen)
    {
      assert ps[k..][1..] == ps[k + 1..];
      offset' := DoPut(packet, packetLen, offset', ps[k]);
      k := k + 1;
    }
  }

  /** Splitting the calls splits the fold. */
  lemma {:induction false} FillAppend(a: seq<string>, b: seq<string>, acc: string, cap: nat)
    ensures Fill(a + b, acc, cap) == Fill(b, Fill(a, acc, cap), cap)
    decreases |a|
  {
    if a != [] {
      assert (a + b)[1..] == a[1..] + b;
      FillAppend(a[1..], b, Put(acc, a[0], cap), cap);
    } else {
      assert a + b == b;
    }
  }

  /** The offset never passes packet_len, and earlier text is never touched. */
  lemma {:induction false} FillBounded(ps: seq<string>, acc: string, cap: nat)
    requires |acc| <= cap
    ensures |Fill(ps, acc, cap)| <= cap
    ensures acc <= Fill(ps, acc, cap)
    decreases |ps|
  {
    if ps != [] {
      FillBounded(ps[1..], Put(acc, ps[0], cap), cap);
    }
  }

  /** When everything fits, every piece is appended in order. */
  lemma {:induction false} FillAllFit(ps: seq<string>, acc: string, cap: nat)
    requires |acc| + |Concat(ps)| <= cap
    ensures Fill(ps, acc, cap) == acc + Concat(ps)
    decreases |ps|
  {
    if ps != [] {
      FillAllFit(ps[1..], acc + ps[0], cap);
      assert acc + ps[0] + Concat(ps[1..]) == acc + Concat(ps);
    }
  }

  /** A full packet stays full: no non-empty piece is appended any more. */
  lemma {:induction false} FillFull(ps: seq<string>, acc: string, cap: nat)
    requires |acc| == cap && NonEmpty(ps)
    ensures Fill(ps, acc, cap) == acc
    decreases |ps|
  {
    if ps != [] {
      FillFull(ps[1..], acc, cap);
    }
  }

  /** A piece list repeated k times, as the source's counted loops make it. */
  function Rep(ps: seq<string>, k: nat): seq<string>
  {
    if k == 0 then [] else ps + Rep(ps, k - 1)
  }

  lemma {:induction false} ConcatAppend(a: seq<string>, b: seq<string>)
    ensures Concat(a + b) == Concat(a) + Concat(b)
    decreases |a|
  {
    if a != [] {
      assert (a + b)[1..] == a[1..] + b;
      ConcatAppend(a[1..], b);
    } else {
      assert a + b == b;
    }
  }

  lemma {:induction false} RepAppend(ps: seq<string>, j: nat, k: nat)
    ensures Rep(ps, j + k) == Rep(ps, j) + Rep(ps, k)
    decreases j
  {
    if j > 0 {
      RepAppend(ps, j - 1, k);
    }
  }

  /** One more pass of a counted loop appends one more copy. */
  lemma RepSnoc(ps: seq<string>, k: nat)
    ensures Rep(ps, k + 1) == Rep(ps, k) + ps
  {
    RepAppend(ps, k, 1);
    assert Rep(ps, 1) == ps + [];
  }

  lemma {:induction false} RepLength(ps: seq<string>, k: nat)
    ensures |Concat(Rep(ps, k))| == k * |Concat(ps)|
  {
    if k > 0 {
      RepLength(ps, k - 1);
      ConcatAppend(ps, Rep(ps, k - 1));
      assert k * |Concat(ps)| == |Concat(ps)| + (k - 1) * |Concat(ps)|;
    }
  }

  lemma {:induction false} RepNonEmpty(ps: seq<string>, k: nat)
    requires NonEmpty(ps)
    ensures NonEmpty(Rep(ps, k))
  {
    if k > 0 {
      RepNonEmpty(ps, k - 1);
      var r := Rep(ps, k);
      assert r == ps + Rep(ps, k - 1);
      forall i | 0 <= i < |r|
        ensures r[i] != []
      {
        if i >= |ps| {
          assert r[i] == Rep(ps, k - 1)[i - |ps|];
        }
      }
    }
  }

  // The fixed symbol strings of transmit_on_packet.
  const Start: string := "1110101011"
  const Ab: string := "10101011"
  const Three: string := "0011"
  const Seven: string := "0111"
  const BCode: string := "1011"
  const FCode: string := "1111"

  /** The secret as four i8tob outputs, secret_bits[0..4]. */
  function SecretBits(secret: nat): (sb: seq<string>)
    ensures |sb| == 4 && forall i :: 0 <= i < 4 ==> |sb[i]| == 8
  {
    [ByteBits(SecretByte(secret, 0), 8), ByteBits(SecretByte(secret, 1), 8),
     ByteBits(SecretByte(secret, 2), 8), ByteBits(SecretByte(secret, 3), 8)]
  }

  /** Four do_put calls: a low violation, eight secret bits, a code, then ab. */
  function Quarter(bits: string, code: string): seq<string>
  {
    ["v", bits, code, Ab]
  }

  /** The sixteen do_put calls of one pass of the inner repeat loop. */
  function Block(sb: seq<string>): seq<string>
    requires |sb| == 4
  {
    Quarter(sb[1], Three) + Quarter(sb[0], Seven) + Quarter(sb[3], BCode) + Quarter(sb[2], FCode)
  }

  /** One pass of the outer loop: the start word, 17 blocks, then the silence. */
  function Frame(sb: seq<string>, silence: nat): seq<string>
    requires |sb| == 4
  {
    [Start] + Rep(Block(sb), 17) + Rep(["S"], silence)
  }

  /** Every do_put call of transmit_on_packet, in order. */
  function OnPacket(sb: seq<string>, silence: nat): seq<string>
    requires |sb| == 4
  {
    Rep(Frame(sb, silence), 10)
  }

  lemma QuarterText(bits: string, code: string)
    ensures Concat(Quarter(bits, code)) == "v" + bits + code + Ab
  {
    var q := Quarter(bits, code);
    assert q[1..][1..][1..][1..] == [];
    assert Concat(q[1..][1..][1..]) == Ab;
    assert Concat(q[1..][1..]) == code + Ab;
  }

  lemma BlockText(sb: seq<string>)
    requires |sb| == 4 && forall i :: 0 <= i < 4 ==> |sb[i]| == 8
    ensures |Concat(Block(sb))| == 84 && NonEmpty(Block(sb))
  {
    QuarterText(sb[1], Three);
    QuarterText(sb[0], Seven);
    QuarterText(sb[3], BCode);
    QuarterText(sb[2], FCode);
    var q1, q2, q3, q4 := Quarter(sb[1], Three), Quarter(sb[0], Seven), Quarter(sb[3], BCode), Quarter(sb[2], FCode);
    ConcatAppend(q1, q2);
    ConcatAppend(q1 + q2, q3);
    ConcatAppend(q1 + q2 + q3, q4);
  }

  /**
   * A quarter that meets the end of the buffer: the violation and the
   * four-symbol code fit, the eight secret bits and ab do not.
   */
  lemma QuarterAtEnd(bits: string, code: string, acc: string, cap: nat)
    requires |bits| == 8 && |code| == 4
    requires |acc| + 5 <= cap < |acc| + 9
    ensures Fill(Quarter(bits, code), acc, cap) == acc + "v" + code
  {
    var q := Quarter(bits, code);
    var a1 := acc + "v";
    var a3 := a1 + code;
    assert q[1..][1..][1..][1..] == [];
    calc {
      Fill(q, acc, cap);
      Fill(q[1..], a1, cap);
      Fill(q[1..][1..], a1, cap);
      Fill(q[1..][1..][1..], a3, cap);
      Fill(q[1..][1..][1..][1..], a3, cap);
    }
  }

  /**
   * The block that meets the end of the buffer: with 1018 symbols already
   * written, `cap` room in all and each secret byte eight bits long, the
   * block's do_put calls add "v", three and, when a 1024th symbol fits,
   * one more "v"; every other call is refused.
   */
  lemma BlockAtEnd(sb: seq<string>, acc: string, cap: nat)
    requires |sb| == 4 && forall i :: 0 <= i < 4 ==> |sb[i]| == 8
    requires |acc| == 1018 && (cap == 1023 || cap == 1024)
    ensures Fill(Block(sb), acc, cap) == if cap == 1024 then acc + "v" + Three + "v" else acc + "v" + Three
  {
    var q1, q2, q3, q4 := Quarter(sb[1], Three), Quarter(sb[0], Seven), Quarter(sb[3], BCode), Quarter(sb[2], FCode);
    var rest := q2 + q3 + q4;
    assert Block(sb) == q1 + rest;
    FillAppend(q1, rest, acc, cap);
    QuarterAtEnd(sb[1], Three, acc, cap);
    var a3 := acc + "v" + Three;
    assert NonEmpty(rest) by {
      BlockText(sb);
      assert rest == Block(sb)[4..];
    }
    if cap == 1024 {
      assert Fill(rest, a3, cap) == Fill(rest[1..], a3 + "v", cap);
      FillFull(rest[1..], a3 + "v", cap);
    } else {
      FillFull(rest, a3, cap);
    }
  }

  /** The start word and the first twelve blocks all fit. */
  lemma HeadFits(sb: seq<string>, cap: nat)
    requires |sb| == 4 && forall i :: 0 <= i < 4 ==> |sb[i]| == 8
    requires cap >= 1018
    ensures Fill(Rep(Block(sb), 12), Start, cap) == Start + Concat(Rep(Block(sb), 12))
    ensures |Start + Concat(Rep(Block(sb), 12))| == 1018
  {
    BlockText(sb);
    RepLength(Block(sb), 12);
    FillAllFit(Rep(Block(sb), 12), Start, cap);
  }

  lemma NonEmptyAppend(a: seq<string>, b: seq<string>)
    requires NonEmpty(a) && NonEmpty(b)
    ensures NonEmpty(a + b)
  {
    forall i | 0 <= i < |a + b|
      ensures (a + b)[i] != []
    {
      if i >= |a| {
        assert (a + b)[i] == b[i - |a|];
      }
    }
  }

  lemma FrameNonEmpty(sb: seq<string>, silence: nat)
    requires |sb| == 4 && forall i :: 0 <= i < 4 ==> |sb[i]| == 8
    ensures NonEmpty(Frame(sb, silence))
  {
    BlockText(sb);
    RepNonEmpty(Block(sb), 17);
    RepNonEmpty(["S"], silence);
    NonEmptyAppend([Start], Rep(Block(sb), 17));
    NonEmptyAppend([Start] + Rep(Block(sb), 17), Rep(["S"], silence));
  }

  /** The thirteenth block fills the buffer; the last four blocks are refused. */
  lemma BlocksFill(sb: seq<string>, cap: nat)
    requires |sb| == 4 && forall i :: 0 <= i < 4 ==> |sb[i]| == 8
    requires cap == 1023 || cap == 1024
    ensures Fill(Rep(Block(sb), 17), Start, cap)
         == Start + Concat(Rep(Block(sb), 12)) + (if cap == 1024 then "v" + Three + "v" else "v" + Three)
    ensures |Fill(Rep(Block(sb), 17), Start, cap)| == cap
  {
    var blk := Block(sb);
    var head := Start + Concat(Rep(blk, 12));
    HeadFits(sb, cap);
    BlockAtEnd(sb, head, cap);
    var full := Fill(blk, head, cap);
    RepAppend(blk, 12, 5);
    FillAppend(Rep(blk, 12), Rep(blk, 5), Start, cap);
    assert Rep(blk, 5) == blk + Rep(blk, 4);
    FillAppend(blk, Rep(blk, 4), head, cap);
    BlockText(sb);
    RepNonEmpty(blk, 4);
    FillFull(Rep(blk, 4), full, cap);
  }

  /** So the first frame fills the buffer, and its silence is refused. */
  lemma FirstFrameFill(sb: seq<string>, silence: nat, cap: nat)
    requires |sb| == 4 && forall i :: 0 <= i < 4 ==> |sb[i]| == 8
    requires cap == 1023 || cap == 1024
    ensures Fill(Frame(sb, silence), [], cap) == Fill(Rep(Block(sb), 17), Start, cap)
  {
    var blk := Block(sb);
    var silent := Rep(["S"], silence);
    BlocksFill(sb, cap);
    FillAppend([Start] + Rep(blk, 17), silent, [], cap);
    FillAppend([Start], Rep(blk, 17), [], cap);
    assert Fill([Start], [], cap) == Start;
    RepNonEmpty(["S"], silence);
    FillFull(silent, Fill(Rep(blk, 17), Start, cap), cap);
  }

  /**
   * What the do_put calls of transmit_on_packet leave in a buffer of
   * `cap` symbols: the start word, twelve whole blocks and a fragment of
   * the thirteenth; the other four blocks, the silence and the nine
   * repeats of the frame are refused, whatever the silence count.
   */
  lemma OnPacketFill(sb: seq<string>, silence: nat, cap: nat)
    requires |sb| == 4 && forall i :: 0 <= i < 4 ==> |sb[i]| == 8
    requires cap == 1023 || cap == 1024
    ensures Fill(OnPacket(sb, silence), [], cap)
         == Start + Concat(Rep(Block(sb), 12)) + (if cap == 1024 then "v" + Three + "v" else "v" + Three)
  {
    var f := Frame(sb, silence);
    FirstFrameFill(sb, silence, cap);
    BlocksFill(sb, cap);
    assert OnPacket(sb, silence) == f + Rep(f, 9);
    FillAppend(f, Rep(f, 9), [], cap);
    FrameNonEmpty(sb, silence);
    RepNonEmpty(f, 9);
    FillFull(Rep(f, 9), Fill(f, [], cap), cap);
  }

  // ---------------------------------------------------------------------
  // The end of transmit_on_packet

  /** sizeof(data) in transmit_on_packet. */
  const DataSize: nat := 1024

  /**
   * As written, do_put may fill all of data[0..1024], so the terminating
   * `data[offset] = 0` writes data[1024], one past the end of the array.
   */
  lemma TerminatorOutOfBounds(secret: nat, silence: nat)
    ensures |Fill(OnPacket(SecretBits(secret), silence), [], DataSize)| == DataSize
  {
    OnPacketFill(SecretBits(secret), silence, DataSize);
    BlocksFill(SecretBits(secret), DataSize);
    FirstFrameFill(SecretBits(secret), silence, DataSize);
  }

  /**
   * With do_put bounded by sizeof(data) - 1 the terminator always fits,
   * and the packet is the start word, twelve whole blocks and "v" + three.
   */
  lemma TerminatorFits(sb: seq<string>, silence: nat)
    requires |sb| == 4 && forall i :: 0 <= i < 4 ==> |sb[i]| == 8
    ensures |Fill(OnPacket(sb, silence), [], DataSize - 1)| < DataSize
    ensures Fill(OnPacket(sb, silence), [], DataSize - 1) == Start + Concat(Rep(Block(sb), 12)) + "v" + Three
  {
    OnPacketFill(sb, silence, DataSize - 1);
    BlocksFill(sb, DataSize - 1);
  }

  /**
   * The symbols of the status packet: the start word, twelve whole blocks
   * and "v" + three, what TerminatorFits shows the do_put calls leave.
   */
  function StatusPacket(secret: nat): string
  {
    Start + Concat(Rep(Block(SecretBits(secret)), 12)) + "v" + Three
  }

  /**
   * The silence count as written, (int)((250.0 * (m_sps / 1000.0)) / m_bitlen)
   * with m_bitlen = 2 * m_sps: the quotient is 1/8 and truncates to 0.
   */
  function SilenceAsWritten(sps: nat): int
    requires sps >= 1
  {
    ((250.0 * (sps as real / 1000.0)) / ((2 * sps) as real)).Floor
  }

  lemma RealQuotient(a: real, b: real, c: real)
    requires b != 0.0 && a == c * b
    ensures a / b == c
  {
  }

  lemma SilenceAsWrittenIsZero(sps: nat)
    requires sps >= 1
    ensures SilenceAsWritten(sps) == 0
  {
    var x := sps as real;
    assert 250.0 * (x / 1000.0) == 0.125 * (2.0 * x);
    RealQuotient(250.0 * (x / 1000.0), (2 * sps) as real, 0.125);
  }

  /**
   * The 250 ms of silence the comment asks for, in 'S' symbols of m_bitlen
   * samples each: (int)((250.0 * (m_sr / 1000.0)) / m_bitlen).
   */
  function SilenceSymbols(sr: real, sps: nat): int
    requires sps >= 1
  {
    ((250.0 * (sr / 1000.0)) / ((2 * sps) as real)).Floor
  }

  /**
   * At a sample rate of exactly sps samples per symbol (4000 symbols a
   * second), 250 ms is 500 bits' worth of 'S' symbols.
   */
  lemma SilenceSymbolsIs250ms(sps: nat)
    requires sps >= 1
    ensures SilenceSymbols((sps * 4000) as real, sps) == 500
  {
    var x := sps as real;
    assert (sps * 4000) as real == 4000.0 * x;
    assert 250.0 * ((sps * 4000) as real / 1000.0) == 500.0 * (2.0 * x);
    RealQuotient(250.0 * ((sps * 4000) as real / 1000.0), (2 * sps) as real, 500.0);
  }

  // ---------------------------------------------------------------------
  // The sample runs of transmit_packet

  /** SHRT_MAX, the in-phase level of a high half-bit. */
  const ShrtMax: int := 32767

  /** n samples at one level. */
  function Run(level: int, n: nat): (r: seq<int>)
    ensures |r| == n && forall k :: 0 <= k < n ==> r[k] == level
  {
    seq(n, _ => level)
  }

  /** The level of one Manchester symbol code: 1 is high, 0 is low. */
  function Level(code: Manchester.Byte): int
  {
    if code == 1 then ShrtMax else 0
  }

  /**
   * The samples transmit_packet lays down for one symbol character:
   * m_zero and m_one (2 * sps samples each, the two halves in opposite
   * levels), m_hv and m_lv (sps / 2 samples), 'S' as 2 * sps zero samples,
   * and nothing for any other character.
   */
  function Wave(c: char, sps: nat): seq<int>
  {
    match c
    case '0' => Run(0, sps) + Run(ShrtMax, sps)
    case '1' => Run(ShrtMax, sps) + Run(0, sps)
    case '^' => Run(ShrtMax, sps / 2)
    case 'v' => Run(0, sps / 2)
    case 'S' => Run(0, 2 * sps)
    case _ => []
  }

  /** The whole transmit buffer for a symbol string, symbol by symbol. */
  function Modulate(s: string, sps: nat): seq<int>
  {
    if s == [] then [] else Wave(s[0], sps) + Modulate(s[1..], sps)
  }

  /** Samples of a run of Manchester codes, sps samples per code. */
  function Halves(codes: seq<Manchester.Byte>, sps: nat): seq<int>
  {
    if codes == [] then [] else Run(Level(codes[0]), sps) + Halves(codes[1..], sps)
  }

  lemma WaveWidth(c: char, sps: nat)
    ensures |Wave(c, sps)| <= 2 * sps
    ensures c in "01S" ==> |Wave(c, sps)| == 2 * sps
  {
  }

  /**
   * The data_len * m_bitlen samples transmit_packet allocates always hold
   * what it copies in: no symbol is wider than m_bitlen.
   */
  lemma MulPred(n: nat, w: nat)
    requires n >= 1
    ensures n * w == (n - 1) * w + w
  {
    var m := n - 1;
    assert n * w == (m + 1) * w;
  }

  lemma {:induction false} ModulateFits(s: string, sps: nat)
    ensures |Modulate(s, sps)| <= |s| * (2 * sps)
  {
    if s != [] {
      ModulateFits(s[1..], sps);
      WaveWidth(s[0], sps);
      MulPred(|s|, 2 * sps);
    }
  }

  lemma {:induction false} ModulateAppend(a: string, b: string, sps: nat)
    ensures Modulate(a + b, sps) == Modulate(a, sps) + Modulate(b, sps)
    decreases |a|
  {
    if a == [] {
      assert a + b == b;
    } else {
      assert (a + b)[1..] == a[1..] + b;
      ModulateAppend(a[1..], b, sps);
    }
  }

  /** Modulating one more symbol appends its wave. */
  lemma ModulateSnoc(s: string, c: char, sps: nat)
    ensures Modulate(s + [c], sps) == Modulate(s, sps) + Wave(c, sps)
  {
    ModulateAppend(s, [c], sps);
    assert Modulate([c], sps) == Wave(c, sps) + Modulate([], sps);
  }

  lemma {:induction false} HalvesAppend(a: seq<Manchester.Byte>, b: seq<Manchester.Byte>, sps: nat)
    ensures Halves(a + b, sps) == Halves(a, sps) + Halves(b, sps)
    decreases |a|
  {
    if a == [] {
      assert a + b == b;
    } else {
      assert (a + b)[1..] == a[1..] + b;
      HalvesAppend(a[1..], b, sps);
    }
  }

  /**
   * Transmitting a string of bits lays down exactly the Manchester code
   * sequence that manchester_decode turns back into those bits: each
   * code is one run of sps samples at its level.
   */
  lemma {:induction false} ModulateBits(bits: seq<bool>, sps: nat)
    ensures Modulate(Manchester.BitChars(bits), sps) == Halves(Manchester.Encode(bits), sps)
  {
    if bits != [] {
      var c: char := if bits[0] then '1' else '0';
      var pair: seq<Manchester.Byte> := if bits[0] then [1, 0] else [0, 1];
      ModulateBits(bits[1..], sps);
      assert ([c] + Manchester.BitChars(bits[1..]))[1..] == Manchester.BitChars(bits[1..]);
      HalvesAppend(pair, Manchester.Encode(bits[1..]), sps);
      assert Halves(pair, sps) == Wave(c, sps) by {
        assert pair[1..][1..] == [];
      }
    }
  }
}
