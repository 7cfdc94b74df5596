/**
 * The text that omnipod_pda::display_c_hex_bytes (src/omnipod_pda.cc)
 * renders for a decoded packet, without its timestamp prefix: a hex part
 * that packs each run of '0'/'1' characters MSB-first into bytes, then
 * " : ", then a bit part that repeats the bits in groups of four.
 */
module HexRender {

  predicate IsBit(c: char) { c == '0' || c == '1' }

  /** Every character is '0' or '1' (stated from the back, as the folds read). */
  predicate BitsOnly(s: string)
  {
    s == [] || (BitsOnly(s[..|s| - 1]) && IsBit(s[|s| - 1]))
  }

  function BitOf(c: char): nat { if c == '1' then 1 else 0 }

  function Pow2(n: nat): (p: nat)
    ensures p >= 1
  {
    if n == 0 then 1 else 2 * Pow2(n - 1)
  }

  /** h << n, as the unbounded value (the source shifts values below 256 only). */
  function Shl(h: nat, n: nat): nat
    decreases n
  {
    if n == 0 then h else Shl(2 * h, n - 1)
  }

  /** A value that fits in a byte. */
  type Octet = x: nat | x < 256

  lemma Pow2Small()
    ensures Pow2(7) == 128 && Pow2(8) == 256
  {
    assert Pow2(2) == 4;
    assert Pow2(4) == 16;
    assert Pow2(6) == 64;
  }

  /** The lower-case digit printf's "%x" writes for d. */
  function HexDigit(d: nat): char
    requires d < 16
  {
    if d == 0 then '0' else if d == 1 then '1' else if d == 2 then '2' else if d == 3 then '3' else
    if d == 4 then '4' else if d == 5 then '5' else if d == 6 then '6' else if d == 7 then '7' else
    if d == 8 then '8' else if d == 9 then '9' else if d == 10 then 'a' else if d == 11 then 'b' else
    if d == 12 then 'c' else if d == 13 then 'd' else if d == 14 then 'e' else 'f'
  }

  /** printf's "%2.2x" of a byte. */
  function Hex2(b: Octet): (r: string)
    ensures |r| == 2
  {
    [HexDigit(b / 16), HexDigit(b % 16)]
  }

  // ---------------------------------------------------------------------
  // The hex part as the source computes it: a left fold of one step per
  // character over the state (output, h, h_count, b_count).

  datatype HexState = HexState(out: string, h: nat, hCount: nat, bCount: nat)

  /** h holds the hCount bits of the run seen so far. */
  predicate ValidHex(st: HexState) { st.hCount < 8 && st.h < Pow2(st.hCount) }

  /** The space written before every fourth byte. */
  function Sep(bCount: nat): string
  {
    if bCount > 0 && bCount % 4 == 0 then " " else ""
  }

  /** Writes one byte and starts a new run. */
  function Emit(st: HexState, byte: Octet): (r: HexState)
    ensures ValidHex(r) && r.bCount == st.bCount + 1
  {
    HexState(st.out + Sep(st.bCount) + Hex2(byte), 0, 0, st.bCount + 1)
  }

  /** Pads a partial run with zeros on the right. */
  function Padded(st: HexState): Octet
    requires ValidHex(st)
  {
    PaddedBound(st.h, st.hCount);
    Shl(st.h, 8 - st.hCount)
  }

  function HexStep(st: HexState, c: char): (r: HexState)
    requires ValidHex(st)
    ensures ValidHex(r)
  {
    if IsBit(c) then
      var h := 2 * st.h + BitOf(c);
      assert h < Pow2(st.hCount + 1);
      if st.hCount + 1 >= 8 then Pow2Small(); Emit(st, h)
      else st.(h := h, hCount := st.hCount + 1)
    else
      var flushed := if st.hCount > 0 then Emit(st, Padded(st)) else st;
      HexState(flushed.out + (if flushed.bCount > 0 then " " else "") + [c], 0, 0, 4)
  }

  function HexFold(s: string): (r: HexState)
    ensures ValidHex(r)
  {
    if s == [] then HexState([], 0, 0, 0) else HexStep(HexFold(s[..|s| - 1]), s[|s| - 1])
  }

  function HexFinish(st: HexState): string
    requires ValidHex(st)
  {
    if st.hCount > 0 then Emit(st, Padded(st)).out else st.out
  }

  function HexPart(s: string): string
  {
    HexFinish(HexFold(s)) + " : "
  }

  // ---------------------------------------------------------------------
  // The bit part: the bits in groups of four; any other character is
  // written as " c " and restarts the grouping.

  datatype BitState = BitState(out: string, dno: nat)

  function BitStep(st: BitState, c: char): BitState
  {
    if IsBit(c) then BitState(st.out + Sep(st.dno) + [c], st.dno + 1)
    else BitState(st.out + [' ', c, ' '], 0)
  }

  function BitFold(s: string): BitState
  {
    if s == [] then BitState([], 0) else BitStep(BitFold(s[..|s| - 1]), s[|s| - 1])
  }

  /** The rendered line (without its timestamp). */
  function Render(s: string): string
  {
    HexPart(s) + BitFold(s).out
  }

  // ---------------------------------------------------------------------
  // An independent description of the same text for a bit string: cut it
  // into bytes of eight bits, the last one padded with zeros on the right,
  // and write them in hex with a space before every fourth byte.

  /** The value of a bit string read MSB-first. */
  function BitsValue(r: string): nat
  {
    if r == [] then 0 else 2 * BitsValue(r[..|r| - 1]) + BitOf(r[|r| - 1])
  }

  function Pack(s: string): seq<Octet>
  {
    if |s| == 0 then []
    else if |s| <= 8 then
      BitsValueBound(s);
      PaddedBound(BitsValue(s), |s|);
      [Shl(BitsValue(s), 8 - |s|)]
    else
      BitsValueBound(s[..8]);
      Pow2Small();
      [BitsValue(s[..8])] + Pack(s[8..])
  }

  /** The bytes in hex, with a space before every fourth byte after the first. */
  function HexGroups(bytes: seq<Octet>): string
  {
    if bytes == [] then []
    else HexGroups(bytes[..|bytes| - 1]) + Sep(|bytes| - 1) + Hex2(bytes[|bytes| - 1])
  }

  /** The bits with a space before every fourth bit after the first. */
  function BitGroups(s: string): string
  {
    if s == [] then [] else BitGroups(s[..|s| - 1]) + Sep(|s| - 1) + [s[|s| - 1]]
  }

  // ---------------------------------------------------------------------
  // Lemmas

  lemma {:induction false} BitsValueBound(r: string)
    ensures BitsValue(r) < Pow2(|r|)
  {
    if r != [] {
      BitsValueBound(r[..|r| - 1]);
    }
  }

  lemma {:induction false} ShlBound(h: nat, n: nat, m: nat)
    requires h < Pow2(n)
    ensures Shl(h, m) < Pow2(n + m)
    decreases m
  {
    if m > 0 {
      ShlBound(2 * h, n + 1, m - 1);
    }
  }

  /** Padding a partial run of n bits on the right leaves a byte. */
  lemma PaddedBound(h: nat, n: nat)
    requires n <= 8 && h < Pow2(n)
    ensures Shl(h, 8 - n) < 256
  {
    ShlBound(h, n, 8 - n);
    Pow2Small();
  }

  /** The byte a run of exactly eight bits packs into is its MSB-first value. */
  lemma {:induction false} EightBits(p: string, c: char)
    ensures BitsValue(p + [c]) == 2 * BitsValue(p) + BitOf(c)
  {
    assert (p + [c])[..|p|] == p;
  }

  lemma {:induction false} PackAppend(x: string, y: string)
    requires |x| % 8 == 0 && 0 < |y| <= 8
    ensures Pack(x + y) == Pack(x) + Pack(y)
    decreases |x|
  {
    if |x| > 0 {
      assert (x + y)[..8] == x[..8];
      assert (x + y)[8..] == x[8..] + y;
      PackAppend(x[8..], y);
    } else {
      assert x + y == y;
    }
  }

  lemma HexGroupsSnoc(bytes: seq<Octet>, b: Octet)
    ensures HexGroups(bytes + [b]) == HexGroups(bytes) + Sep(|bytes|) + Hex2(b)
  {
    assert (bytes + [b])[..|bytes|] == bytes;
  }

  /** k complete runs pack into k bytes. */
  lemma {:induction false} PackLength(s: string, k: nat)
    requires |s| == 8 * k
    ensures |Pack(s)| == k
    decreases k
  {
    if k > 1 {
      PackLength(s[8..], k - 1);
    }
  }

  /**
   * The fold's state on a bit string holding k complete runs of eight:
   * each complete run has been written as its byte, and h holds the bits
   * of the partial run after them.
   */
  lemma {:induction false} HexFoldOnBits(s: string, k: nat)
    requires BitsOnly(s) && 8 * k <= |s| < 8 * k + 8
    ensures HexFold(s) == HexState(HexGroups(Pack(s[..8 * k])), BitsValue(s[8 * k..]), |s| - 8 * k, k)
    decreases |s|
  {
    if s != [] {
      var p, c := s[..|s| - 1], s[|s| - 1];
      assert s == p + [c];
      if |s| == 8 * k {
        HexFoldOnBits(p, k - 1);
        CompleteRun(p, c, k - 1);
        assert s[..8 * k] == s && s[8 * k..] == [];
      } else {
        HexFoldOnBits(p, k);
        assert p[..8 * k] == s[..8 * k];
        assert s[8 * k..] == p[8 * k..] + [c];
        EightBits(p[8 * k..], c);
        HexFoldSnoc(p, c);
        HexStepAccumulates(HexFold(p), c);
      }
    }
  }

  /** The eighth bit of a run writes the run's byte. */
  lemma CompleteRun(p: string, c: char, k: nat)
    requires |p| == 8 * k + 7 && IsBit(c)
    requires HexFold(p) == HexState(HexGroups(Pack(p[..8 * k])), BitsValue(p[8 * k..]), 7, k)
    ensures HexFold(p + [c]) == HexState(HexGroups(Pack(p + [c])), 0, 0, k + 1)
  {
    var y := p[8 * k..] + [c];
    BitsValueBound(y);
    Pow2Small();
    var b := BitsValue(y);
    EightBits(p[8 * k..], c);
    EmitsRun(p, c, HexFold(p), b);
    RunGroups(p, c, k, b);
  }

  /** The packed bytes of a bit string ending in a complete run. */
  lemma RunGroups(p: string, c: char, k: nat, b: Octet)
    requires |p| == 8 * k + 7 && b == BitsValue(p[8 * k..] + [c])
    ensures HexGroups(Pack(p + [c])) == HexGroups(Pack(p[..8 * k])) + Sep(k) + Hex2(b)
  {
    var x, y := p[..8 * k], p[8 * k..] + [c];
    assert p + [c] == x + y;
    RunPacks(x, y, k);
    HexGroupsSnoc(Pack(x), b);
  }

  lemma EmitsRun(p: string, c: char, st: HexState, b: Octet)
    requires IsBit(c) && HexFold(p) == st && st.hCount == 7 && b == 2 * st.h + BitOf(c)
    ensures HexFold(p + [c]) == HexState(st.out + Sep(st.bCount) + Hex2(b), 0, 0, st.bCount + 1)
  {
    HexFoldSnoc(p, c);
    HexStepEmits(st, c, b);
  }

  /** A complete run after k complete runs packs into one more byte. */
  lemma RunPacks(x: string, y: string, k: nat)
    requires |x| == 8 * k && |y| == 8
    ensures BitsValue(y) < 256 && |Pack(x)| == k
    ensures Pack(x + y) == Pack(x) + [BitsValue(y)]
  {
    BitsValueBound(y);
    Pow2Small();
    PackLength(x, k);
    PackAppend(x, y);
  }

  /** A partial run at the end packs into one byte padded with zeros. */
  lemma PartialPacks(x: string, y: string, k: nat, b: Octet)
    requires |x| == 8 * k && 0 < |y| < 8 && b == Shl(BitsValue(y), 8 - |y|)
    ensures |Pack(x)| == k && Pack(x + y) == Pack(x) + [b]
  {
    assert Pack(y) == [b];
    PackLength(x, k);
    PackAppend(x, y);
  }

  /** For a bit string the hex part is the packed bytes in groups of four. */
  lemma HexPartOnBits(s: string)
    requires BitsOnly(s)
    ensures HexPart(s) == HexGroups(Pack(s)) + " : "
  {
    var k := |s| / 8;
    HexFoldOnBits(s, k);
    if |s| > 8 * k {
      PartialRunPart(s, k, HexFold(s));
    } else {
      assert s[..8 * k] == s;
    }
  }

  /** A trailing partial run is written as one more, padded, byte. */
  lemma PartialRunPart(s: string, k: nat, st: HexState)
    requires 8 * k < |s| < 8 * k + 8 && ValidHex(st)
    requires st == HexState(HexGroups(Pack(s[..8 * k])), BitsValue(s[8 * k..]), |s| - 8 * k, k)
    ensures HexFinish(st) == HexGroups(Pack(s))
  {
    var x, y := s[..8 * k], s[8 * k..];
    var b := Padded(st);
    assert s == x + y;
    PartialPacks(x, y, k, b);
    HexGroupsSnoc(Pack(x), b);
  }

  /** For a bit string the bit part is the bits in groups of four. */
  lemma {:induction false} BitPartOnBits(s: string)
    requires BitsOnly(s)
    ensures BitFold(s) == BitState(BitGroups(s), |s|)
  {
    if s != [] {
      var p, c := s[..|s| - 1], s[|s| - 1];
      BitFoldSnoc(p, c);
      BitPartOnBits(p);
      assert s == p + [c];
    }
  }

  /**
   * A byte written MSB-first as eight '0'/'1' characters renders as its
   * own two hex digits.
   */
  lemma RenderOneByte(s: string)
    requires BitsOnly(s) && |s| == 8
    ensures BitsValue(s) < 256 && HexPart(s) == Hex2(BitsValue(s)) + " : "
  {
    BitsValueBound(s);
    Pow2Small();
    HexPartOnBits(s);
  }

  /** A bit before the eighth of a run is shifted into h. */
  lemma HexStepAccumulates(st: HexState, c: char)
    requires ValidHex(st) && IsBit(c) && st.hCount < 7
    ensures HexStep(st, c) == st.(h := 2 * st.h + BitOf(c), hCount := st.hCount + 1)
  {
  }

  /** The eighth bit of a run writes the run's byte. */
  lemma HexStepEmits(st: HexState, c: char, b: Octet)
    requires ValidHex(st) && IsBit(c) && st.hCount == 7 && b == 2 * st.h + BitOf(c)
    ensures HexStep(st, c) == HexState(st.out + Sep(st.bCount) + Hex2(b), 0, 0, st.bCount + 1)
  {
  }

  /** Any other character first writes the partial run, padded. */
  lemma HexStepFlushes(st: HexState, c: char, b: Octet)
    requires ValidHex(st) && !IsBit(c) && st.hCount > 0 && b == Shl(st.h, 8 - st.hCount)
    ensures HexStep(st, c) == HexState(st.out + Sep(st.bCount) + Hex2(b) + " " + [c], 0, 0, 4)
  {
  }

  /**
   * The whole line for a bit string: the packed bytes in hex, " : ", and
   * the bits, each part grouped by four.
   */
  lemma RenderOnBits(s: string)
    requires BitsOnly(s)
    ensures Render(s) == HexGroups(Pack(s)) + " : " + BitGroups(s)
  {
    HexPartOnBits(s);
    BitPartOnBits(s);
  }

  /** One more character is one more step of the hex fold. */
  lemma HexFoldSnoc(s: string, c: char)
    ensures HexFold(s + [c]) == HexStep(HexFold(s), c)
  {
    assert (s + [c])[..|s|] == s;
  }

  /** One more character is one more step of the bit fold. */
  lemma BitFoldSnoc(s: string, c: char)
    ensures BitFold(s + [c]) == BitStep(BitFold(s), c)
  {
    assert (s + [c])[..|s|] == s;
  }

  // ---------------------------------------------------------------------
  // display_c_hex_bytes's two loops (the text is built in strings rather
  // than in a char buffer that is assumed to be large enough)

  method RenderHexBytes(data: array<char>, dataLen: nat) returns (text: string)
    requires dataLen <= data.Length
    ensures text == Render(data[..dataLen])
  {
    var hex := HexLoop(data, dataLen);
    var bits := BitLoop(data, dataLen);
    text := hex + bits;
  }

  /** The first loop: the hex part and its " : " separator. */
  method HexLoop(data: array<char>, dataLen: nat) returns (out: string)
    requires dataLen <= data.Length
    ensures out == HexPart(data[..dataLen])
  {
    out := [];
    var h: nat, hCount: nat, bCount: nat := 0, 0, 0;
    var i := 0;
    while i < dataLen
      invariant i <= dataLen
      invariant HexFold(data[..i]) == HexState(out, h, hCount, bCount)
    {
      var c := data[i];
      HexFoldSnoc(data[..i], c);
      assert data[..i + 1] == data[..i] + [c];
      out, h, hCount, bCount := HexLoopStep(out, h, hCount, bCount, c);
      i := i + 1;
    }
    assert data[..dataLen] == data[..i];
    if hCount > 0 {
      PaddedBound(h, hCount);
      h := Shl(h, 8 - hCount);
      out := out + Sep(bCount) + Hex2(h);
    }
    out := out + " : ";
  }

  /** One pass of the first loop's body, on the character c. */
  method HexLoopStep(out0: string, h0: nat, hCount0: nat, bCount0: nat, c: char)
    returns (out: string, h: nat, hCount: nat, bCount: nat)
    requires ValidHex(HexState(out0, h0, hCount0, bCount0))
    ensures HexState(out, h, hCount, bCount) == HexStep(HexState(out0, h0, hCount0, bCount0), c)
  {
    out, h, hCount, bCount := out0, h0, hCount0, bCount0;
    ghost var st := HexState(out, h, hCount, bCount);
    if c == '0' || c == '1' {
      h := 2 * h + BitOf(c);
      hCount := hCount + 1;
      if hCount >= 8 {
        Pow2Small();
        HexStepEmits(st, c, h);
        out := out + Sep(bCount) + Hex2(h);
        bCount, h, hCount := bCount + 1, 0, 0;
      }
    } else {
      if hCount > 0 {
        PaddedBound(h, hCount);
        h := Shl(h, 8 - hCount);
        HexStepFlushes(st, c, h);
        out := out + Sep(bCount) + Hex2(h);
        bCount, h, hCount := bCount + 1, 0, 0;
      }
      out := out + (if bCount > 0 then " " else "") + [c];
      bCount := 4;
    }
  }

  /** The second loop: the bits in groups of four. */
  method BitLoop(data: array<char>, dataLen: nat) returns (bits: string)
    requires dataLen <= data.Length
    ensures bits == BitFold(data[..dataLen]).out
  {
    var dno := 0;
    bits := [];
    var i := 0;
    while i < dataLen
      invariant i <= dataLen
      invariant BitFold(data[..i]) == BitState(bits, dno)
    {
      var c := data[i];
      assert data[..i + 1] == data[..i] + [c];
      BitFoldSnoc(data[..i], c);
      if c == '0' || c == '1' {
        bits, dno := bits + Sep(dno) + [c], dno + 1;
      } else {
        bits, dno := bits + [' ', c, ' '], 0;
      }
      i := i + 1;
    }
    assert data[..dataLen] == data[..i];
  }
}
