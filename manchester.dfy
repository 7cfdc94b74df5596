/**
 * The Manchester symbol decoder of src/utils.cc.
 *
 * The receive slicer turns pulse widths into symbol codes 0..7:
 *   0 / 1  a full-width low / high symbol,
 *   2 / 3  a half-width low / high violation, written 'v' / '^',
 *   4 / 5  a 1.5-width low / high run (violation then a full symbol),
 *   6 / 7  a 2.5-width low / high run.
 * The decoder walks the codes and, for the code at i and its successor,
 * emits a short string and advances by one or two codes; in six
 * straddling cases it first overwrites the successor with the trailing
 * full symbol and advances by one only.
 */
module Manchester {

  /** An `unsigned char`. */
  type Byte = x: int | 0 <= x < 256

  /** What one decoding step does to the cursor. */
  datatype Action =
    | Advance(n: nat)      // i += n
    | Rewrite(v: Byte)     // dbuf[i + 1] = v; i += 1

  /** The characters the decoder can ever write. */
  predicate InAlphabet(c: char) {
    c == '0' || c == '1' || c == 'v' || c == '^' || c == '*' || c == '#' || c == 'X'
  }

  predicate AllInAlphabet(s: string) {
    forall k :: 0 <= k < |s| ==> InAlphabet(s[k])
  }

  /**
   * One pass of the switch in manchester_decode: `a` is dbuf[i], `b` is
   * dbuf[i + 1] (not consulted when `a` is 2, 3 or above 7).
   */
  function Step(a: Byte, b: Byte): (r: (string, Action))
    ensures 1 <= |r.0| <= 4 && AllInAlphabet(r.0)
    ensures r.1.Advance? ==> r.1.n == 1 || r.1.n == 2
    ensures r.1.Rewrite? ==> r.1.v <= 1
  {
    match a
    case 0 =>
      (match b
       case 0 => ("*", Advance(1))
       case 1 => ("0", Advance(2))
       case 2 => ("#", Advance(1))
       case 3 => ("*", Advance(1))
       case 4 => ("#", Advance(1))
       case 5 => ("0^", Advance(2))
       case 6 => ("#", Advance(1))
       case 7 => ("0^", Rewrite(1))
       case _ => ("X", Advance(2)))
    case 1 =>
      (match b
       case 0 => ("1", Advance(2))
       case 1 => ("*", Advance(1))
       case 2 => ("*", Advance(1))
       case 3 => ("#", Advance(1))
       case 4 => ("1v", Advance(2))
       case 5 => ("#", Advance(1))
       case 6 => ("1v", Rewrite(0))
       case 7 => ("#", Advance(1))
       case _ => ("X", Advance(2)))
    case 2 => ("v", Advance(1))
    case 3 => ("^", Advance(1))
    case 4 =>
      (match b
       case 0 => ("#", Advance(1))
       case 1 => ("v0", Advance(2))
       case 2 => ("#", Advance(1))
       case 3 => ("v*", Advance(1))
       case 4 => ("#", Advance(1))
       case 5 => ("v0^", Advance(2))
       case 6 => ("#", Advance(1))
       case 7 => ("v0^", Rewrite(1))
       case _ => ("X", Advance(2)))
    case 5 =>
      (match b
       case 0 => ("^1", Advance(2))
       case 1 => ("#", Advance(1))
       case 2 => ("^*", Advance(1))
       case 3 => ("#", Advance(1))
       case 4 => ("^1v", Advance(2))
       case 5 => ("#", Advance(1))
       case 6 => ("^1v", Rewrite(0))
       case 7 => ("#", Advance(1))
       case _ => ("X", Advance(2)))
    case 6 =>
      (match b
       case 0 => ("#", Advance(1))
       case 1 => ("*v0", Advance(2))
       case 2 => ("#", Advance(1))
       case 3 => ("*", Advance(1))
       case 4 => ("#", Advance(1))
       case 5 => ("*v0v", Advance(2))
       case 6 => ("#", Advance(1))
       case 7 => ("*v0^", Rewrite(1))
       case _ => ("X", Advance(2)))
    case 7 =>
      (match b
       case 0 => ("*^1", Advance(2))
       case 1 => ("#", Advance(1))
       case 2 => ("*", Advance(1))
       case 3 => ("#", Advance(1))
       case 4 => ("*^1v", Advance(2))
       case 5 => ("#", Advance(1))
       case 6 => ("*^1v", Rewrite(0))
       case 7 => ("#", Advance(1))
       case _ => ("X", Advance(2)))
    case _ => ("X", Advance(1))
  }

  /** The codes still to be decoded after one step on s[0], s[1]. */
  function Rest(s: seq<Byte>): (t: seq<Byte>)
    requires |s| >= 2
    ensures 1 <= |s| - |t| <= 2
  {
    match Step(s[0], s[1]).1
    case Advance(n) => s[n..]
    case Rewrite(v) => [v] + s[2..]
  }

  /** The decoded text with an unbounded output buffer. */
  function Decode(s: seq<Byte>): string
    decreases |s|
  {
    if |s| < 2 then [] else Step(s[0], s[1]).0 + Decode(Rest(s))
  }

  /**
   * do_put of src/utils.cc as a value: the whole of `c` is appended when
   * the new length stays below cap - 1, otherwise nothing is.
   */
  function Put(acc: string, c: string, cap: nat): string
    requires cap >= 1
  {
    if |acc| + |c| < cap - 1 then acc + c else acc
  }

  /** What manchester_decode leaves in `data` when `max_data_len` is `cap`. */
  function DecodeInto(s: seq<Byte>, acc: string, cap: nat): string
    requires cap >= 1
    decreases |s|
  {
    if |s| < 2 then acc else DecodeInto(Rest(s), Put(acc, Step(s[0], s[1]).0, cap), cap)
  }

  /** Manchester encoding of bits: 0 is low then high, 1 is high then low. */
  function Encode(bits: seq<bool>): (s: seq<Byte>)
  {
    if bits == [] then [] else (if bits[0] then [1, 0] else [0, 1]) + Encode(bits[1..])
  }

  function BitChars(bits: seq<bool>): string
  {
    if bits == [] then [] else [if bits[0] then '1' else '0'] + BitChars(bits[1..])
  }

  // ---------------------------------------------------------------------
  // Properties of the decoding table

  /**
   * A valid Manchester pair decodes to its bit and consumes both codes;
   * a lone violation code is echoed and consumes one code; a first code
   * above 7 emits "X" and consumes one code.
   */
  lemma PairsAndViolations(b: Byte)
    ensures Step(0, 1) == ("0", Advance(2)) && Step(1, 0) == ("1", Advance(2))
    ensures Step(2, b) == ("v", Advance(1)) && Step(3, b) == ("^", Advance(1))
    ensures forall a: Byte :: a > 7 ==> Step(a, b) == ("X", Advance(1))
  {
  }

  /**
   * The straddling cases are exactly the ones whose successor is a 2.5
   * run of the opposite level, and the rewritten successor is the trailing
   * full symbol of that run (7 leaves a high, 6 a low).
   */
  lemma StraddleCases(a: Byte, b: Byte)
    ensures Step(a, b).1.Rewrite? <==>
      ((a == 0 || a == 4 || a == 6) && b == 7) || ((a == 1 || a == 5 || a == 7) && b == 6)
    ensures Step(a, b).1.Rewrite? ==> Step(a, b).1.v == b - 6
  {
  }

  /** After a straddling step the decoder continues on the rewritten code. */
  lemma {:induction false} StraddleContinues(a: Byte, b: Byte, t: seq<Byte>)
    requires Step(a, b).1.Rewrite?
    ensures Decode([a, b] + t) == Step(a, b).0 + Decode([b - 6] + t)
  {
    StraddleCases(a, b);
    var s := [a, b] + t;
    assert s[0] == a && s[1] == b && s[2..] == t;
  }

  /** Decoding Manchester-encoded bits gives the bits back as '0'/'1'. */
  lemma {:induction false} DecodeEncode(bits: seq<bool>)
    ensures Decode(Encode(bits)) == BitChars(bits)
  {
    if bits != [] {
      var s := Encode(bits);
      assert s == (if bits[0] then [1, 0] else [0, 1]) + Encode(bits[1..]);
      assert Rest(s) == Encode(bits[1..]);
      DecodeEncode(bits[1..]);
    }
  }

  /** The output alphabet is closed. */
  lemma {:induction false} DecodeAlphabet(s: seq<Byte>)
    ensures AllInAlphabet(Decode(s))
    decreases |s|
  {
    if |s| >= 2 {
      DecodeAlphabet(Rest(s));
    }
  }

  /** Each step writes at most four characters and consumes at least one code. */
  lemma {:induction false} DecodeLength(s: seq<Byte>)
    requires |s| >= 1
    ensures |Decode(s)| <= 4 * (|s| - 1)
    decreases |s|
  {
    if |s| >= 2 && |Rest(s)| >= 1 {
      DecodeLength(Rest(s));
    }
  }

  /** The bounded output is a prefix-closed, never-overflowing buffer. */
  lemma {:induction false} DecodeIntoBounded(s: seq<Byte>, acc: string, cap: nat)
    requires cap >= 1 && |acc| < cap && AllInAlphabet(acc)
    ensures |DecodeInto(s, acc, cap)| < cap
    ensures AllInAlphabet(DecodeInto(s, acc, cap))
    ensures acc <= DecodeInto(s, acc, cap)
    decreases |s|
  {
    if |s| >= 2 {
      DecodeIntoBounded(Rest(s), Put(acc, Step(s[0], s[1]).0, cap), cap);
    }
  }

  /** With room for four characters per remaining step, no append is refused. */
  lemma {:induction false} NoRefusal(s: seq<Byte>, acc: string, cap: nat)
    requires cap >= 1 && |s| >= 1
    requires |acc| + 4 * (|s| - 1) < cap - 1
    ensures DecodeInto(s, acc, cap) == acc + Decode(s)
    decreases |s|
  {
    if |s| >= 2 {
      var out, r := Step(s[0], s[1]).0, Rest(s);
      assert |acc| + |out| < cap - 1;
      var acc' := acc + out;
      assert Put(acc, out, cap) == acc';
      assert DecodeInto(s, acc, cap) == DecodeInto(r, acc', cap);
      assert Decode(s) == out + Decode(r);
      if |r| >= 1 {
        assert |acc'| + 4 * (|r| - 1) < cap - 1;
        NoRefusal(r, acc', cap);
      }
      assert acc' + Decode(r) == acc + (out + Decode(r));
    }
  }

  /** The caller's buffer of 4 * count + 1 characters is always large enough. */
  lemma CallerBufferSuffices(s: seq<Byte>)
    requires |s| >= 1
    ensures DecodeInto(s, [], 4 * |s| + 1) == Decode(s)
  {
    NoRefusal(s, [], 4 * |s| + 1);
  }

  // ---------------------------------------------------------------------
  // The imperative decoder

  /**
   * do_put: copies `c` into `buf` at offset `o` when o + |c| < bufSize - 1
   * and returns the new offset; otherwise leaves both unchanged and reports
   * failure.
   */
  method DoPut(buf: array<char>, bufSize: nat, o: nat, c: string) returns (o': nat, failed: bool)
    requires 1 <= bufSize <= buf.Length && o < bufSize
    modifies buf
    ensures failed <==> !(o + |c| < bufSize - 1)
    ensures o' == if failed then o else o + |c|
    ensures buf[..o'] == Put(old(buf[..o]), c, bufSize)
    ensures buf[o'..] == old(buf[o'..])
  {
    if o + |c| < bufSize - 1 {
      forall k | 0 <= k < |c| {
        buf[o + k] := c[k];
      }
      o', failed := o + |c|, false;
      assert buf[..o'] == old(buf[..o]) + c;
    } else {
      o', failed := o, true;
    }
  }

  /**
   * manchester_decode: decodes dbuf[..dbufCount] into `data`, at most
   * maxDataLen - 1 characters plus a terminating NUL, and returns the
   * number of characters written. The codes are rewritten in place in
   * the straddling cases.
   */
  method ManchesterDecode(dbuf: array<Byte>, dbufCount: nat, data: array<char>, maxDataLen: nat)
    returns (dataLen: nat)
    requires 1 <= dbufCount <= dbuf.Length
    requires 1 <= maxDataLen <= data.Length
    modifies dbuf, data
    ensures dataLen < maxDataLen
    ensures data[..dataLen] == DecodeInto(old(dbuf[..dbufCount]), [], maxDataLen)
    ensures data[dataLen] == '\0'
    ensures forall k :: 0 <= k < dbuf.Length && (k == 0 || k >= dbufCount) ==> dbuf[k] == old(dbuf[k])
  {
    ghost var codes := dbuf[..dbufCount];
    dataLen := 0;
    var i := 0;
    while i < dbufCount - 1
      invariant 0 <= i <= dbufCount && dataLen < maxDataLen
      invariant DecodeInto(dbuf[i..dbufCount], data[..dataLen], maxDataLen)
             == DecodeInto(codes, [], maxDataLen)
      invariant forall k :: 0 <= k < dbuf.Length && (k == 0 || k >= dbufCount) ==> dbuf[k] == old(dbuf[k])
      decreases dbufCount - i
    {
      i, dataLen := DecodeStep(dbuf, dbufCount, i, data, maxDataLen, dataLen);
    }
    data[dataLen] := '\0';
  }

  /**
   * One pass of manchester_decode's loop body: decodes the codes at i and
   * i + 1, appends the text through do_put and moves i on, rewriting
   * dbuf[i + 1] in the straddling cases.
   */
  method DecodeStep(dbuf: array<Byte>, dbufCount: nat, i0: nat, data: array<char>, maxDataLen: nat, dataLen0: nat)
    returns (i: nat, dataLen: nat)
    requires i0 + 1 < dbufCount <= dbuf.Length
    requires 1 <= maxDataLen <= data.Length && dataLen0 < maxDataLen
    modifies dbuf, data
    ensures i0 < i <= dbufCount && dataLen < maxDataLen
    ensures DecodeInto(dbuf[i..dbufCount], data[..dataLen], maxDataLen)
         == DecodeInto(old(dbuf[i0..dbufCount]), old(data[..dataLen0]), maxDataLen)
    ensures forall k :: 0 <= k < dbuf.Length && (k <= i0 || k >= dbufCount) ==> dbuf[k] == old(dbuf[k])
  {
    ghost var s := dbuf[i0..dbufCount];
    var step := Step(dbuf[i0], dbuf[i0 + 1]);
    assert s[0] == dbuf[i0] && s[1] == dbuf[i0 + 1];
    ghost var acc := data[..dataLen0];
    assert DecodeInto(s, acc, maxDataLen) == DecodeInto(Rest(s), Put(acc, step.0, maxDataLen), maxDataLen);
    var failed;
    dataLen, failed := DoPut(data, maxDataLen, dataLen0, step.0);
    match step.1
    case Advance(n) =>
      assert dbuf[i0 + n..dbufCount] == s[n..] == Rest(s);
      i := i0 + n;
    case Rewrite(v) =>
      dbuf[i0 + 1] := v;
      assert dbuf[i0 + 2..dbufCount] == s[2..];
      assert dbuf[i0 + 1..dbufCount] == [v] + s[2..] == Rest(s);
      i := i0 + 1;
  }

  /**
   * The decoder as the receive path calls it, with a 4 * count + 1 buffer:
   * the whole decoded text is written, over the closed alphabet.
   */
  method DecodeForReceive(dbuf: array<Byte>, dbufCount: nat, data: array<char>)
    returns (dataLen: nat)
    requires 1 <= dbufCount <= dbuf.Length && data.Length == 4 * dbufCount + 1
    modifies dbuf, data
    ensures dataLen < data.Length
    ensures data[..dataLen] == Decode(old(dbuf[..dbufCount]))
    ensures AllInAlphabet(data[..dataLen]) && dataLen <= 4 * (dbufCount - 1)
  {
    ghost var codes := dbuf[..dbufCount];
    dataLen := ManchesterDecode(dbuf, dbufCount, data, 4 * dbufCount + 1);
    CallerBufferSuffices(codes);
    DecodeAlphabet(codes);
    DecodeLength(codes);
  }
}
