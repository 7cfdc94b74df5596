/**
 * The omnipod_pda block of src/omnipod_pda.cc and src/omnipod_pda.h: the
 * transaction state, the receive slicer feeding the Manchester decoder,
 * and the transmit buffer with its retransmissions.
 *
 * Samples are integer amplitudes (0 or SHRT_MAX) instead of complex
 * floats; the comparison of a sample with the running average is an
 * input.  Text the block displays is kept in two logs: `statusLog` for
 * display_status and `shown` for the decoded packets display_c_hex_bytes
 * prints in monitor mode.
 */
module Pda {
  import Manchester
  import HexRender
  import TxPacket
  import RxSlicer

  type Byte = Manchester.Byte

  /** e_state.  ST_ON is declared but never entered. */
  datatype State = Idle | On | Status | StatusOnSent

  /** m_retransmit_max. */
  const RetransmitMax: nat := 10

  const U32: nat := 0x1_0000_0000
  const U64: nat := 0x1_0000_0000_0000_0000

  /** m_at_never, ULLONG_MAX. */
  const AtNever: nat := 0xFFFF_FFFF_FFFF_FFFF

  /** m_symbol_rate. */
  const SymbolRate: real := 4000.0

  /** C's round() on a non-negative value: halves go up. */
  function Round(x: real): nat
    requires x >= 0.0
  {
    (x + 0.5).Floor
  }

  /** An `unsigned int` stored into an `int`: values from 2^31 on wrap negative. */
  function ToInt32(u: nat): int
    requires u < U32
  {
    if u < 0x8000_0000 then u else u - U32
  }

  /** A stored sequence number is accepted by start_status exactly when it is below 2^31. */
  lemma SeqnoAccepted(u: nat)
    requires u < U32
    ensures ToInt32(u) >= 0 <==> u < 0x8000_0000
    ensures -0x8000_0000 <= ToInt32(u) < 0x8000_0000
  {
  }

  // ---------------------------------------------------------------------
  // The receive path as values

  predicate SmallCodes(b: seq<Byte>)
  {
    forall k :: 0 <= k < |b| ==> b[k] <= 7
  }

  /** What decode_rx_symbols displays for one burst handed to it. */
  function Display(b: seq<Byte>, monitor: bool): seq<string>
  {
    var d := Manchester.Decode(b);
    if b == [] || d == [] || !monitor then [] else [HexRender.Render(d)]
  }

  function ShowAll(bursts: seq<seq<Byte>>, monitor: bool): seq<string>
  {
    if bursts == [] then [] else ShowAll(bursts[..|bursts| - 1], monitor) + Display(bursts[|bursts| - 1], monitor)
  }

  /** What slice() does with a pulse of width `w`; `high` is m_sign >= 0. */
  function SliceBy(st: RxSlicer.RxBuf, w: RxSlicer.Width, high: bool): RxSlicer.RxBuf
    requires w.Half? ==> w.k <= 2
  {
    if w == RxSlicer.Invalid then RxSlicer.Flush(st) else RxSlicer.PushAll(st, RxSlicer.Codes(w, high))
  }

  /** slice() on a pulse of `count` samples whose sign was `sign`. */
  function SliceRx(st: RxSlicer.RxBuf, count: nat, sign: int, sps: nat): RxSlicer.RxBuf
  {
    var w := RxSlicer.Classify(count, sps);
    RxSlicer.CodesInRange(w, sign >= 0, count, sps);
    SliceBy(st, w, sign >= 0)
  }

  /**
   * process_rx_sample(): flush a pulse that has gone on too long, then
   * track the sign, running slice() on the old pulse when it flips.
   */
  function RxSample(st: RxSlicer.RxBuf, e: RxSlicer.Edge, below: bool, sps: nat, jitter: nat)
    : (RxSlicer.RxBuf, RxSlicer.Edge)
  {
    var st1 := if e.count > RxSlicer.AvgN * sps then RxSlicer.Flush(st) else st;
    var t := RxSlicer.Track(e, below, jitter);
    (if t.1 then SliceRx(st1, e.count, e.sign, sps) else st1, t.0)
  }

  lemma {:induction false} PushAllCodes(st: RxSlicer.RxBuf, codes: seq<Byte>)
    requires |st.buf| < RxSlicer.BufSize && SmallCodes(st.buf) && SmallCodes(codes)
    ensures SmallCodes(RxSlicer.PushAll(st, codes).buf)
    ensures forall k :: |st.bursts| <= k < |RxSlicer.PushAll(st, codes).bursts| ==>
              SmallCodes(RxSlicer.PushAll(st, codes).bursts[k]) && RxSlicer.PushAll(st, codes).bursts[k] != []
    decreases |codes|
  {
    if codes != [] {
      var next := RxSlicer.Push(st, codes[0]);
      assert SmallCodes(next.buf);
      PushAllCodes(next, codes[1..]);
      RxSlicer.PushAllKeeps(next, codes[1..]);
    }
  }

  /** slice() keeps the receive invariants of RxSampleKeeps. */
  lemma SliceRxKeeps(st: RxSlicer.RxBuf, count: nat, sign: int, sps: nat)
    requires |st.buf| < RxSlicer.BufSize && SmallCodes(st.buf)
    ensures var r := SliceRx(st, count, sign, sps);
      |r.buf| < RxSlicer.BufSize && SmallCodes(r.buf) && st.bursts <= r.bursts
      && (forall k :: |st.bursts| <= k < |r.bursts| ==> SmallCodes(r.bursts[k]) && r.bursts[k] != [])
      && RxSlicer.Joined(st.bursts) + st.buf <= RxSlicer.Joined(r.bursts) + r.buf
  {
    var w := RxSlicer.Classify(count, sps);
    RxSlicer.CodesInRange(w, sign >= 0, count, sps);
    if w == RxSlicer.Invalid {
      RxSlicer.FlushKeeps(st);
    } else {
      var codes := RxSlicer.Codes(w, sign >= 0);
      PushAllCodes(st, codes);
      RxSlicer.PushAllKeeps(st, codes);
    }
  }

  /**
   * One sample keeps the receive invariants: the buffer stays below
   * BUFSIZ and holds only codes 0..7, every burst handed to the decoder
   * is non-empty and holds only codes 0..7, no code is lost or reordered,
   * and the sign, count and pending count stay in range.
   */
  lemma RxSampleKeeps(st: RxSlicer.RxBuf, e: RxSlicer.Edge, below: bool, sps: nat, jitter: nat)
    requires |st.buf| < RxSlicer.BufSize && SmallCodes(st.buf)
    requires RxSlicer.EdgeOk(e, jitter) && jitter < U32 - 1
    ensures var r := RxSample(st, e, below, sps, jitter);
      |r.0.buf| < RxSlicer.BufSize && SmallCodes(r.0.buf) && RxSlicer.EdgeOk(r.1, jitter)
      && st.bursts <= r.0.bursts
      && (forall k :: |st.bursts| <= k < |r.0.bursts| ==> SmallCodes(r.0.bursts[k]) && r.0.bursts[k] != [])
      && RxSlicer.Joined(st.bursts) + st.buf <= RxSlicer.Joined(r.0.bursts) + r.0.buf
  {
    RxSlicer.TrackKeeps(e, below, jitter);
    var st1 := if e.count > RxSlicer.AvgN * sps then RxSlicer.Flush(st) else st;
    RxSlicer.FlushKeeps(st);
    assert |st1.buf| < RxSlicer.BufSize && SmallCodes(st1.buf) && st.bursts <= st1.bursts;
    assert RxSlicer.Joined(st.bursts) + st.buf == RxSlicer.Joined(st1.bursts) + st1.buf;
    SliceRxKeeps(st1, e.count, e.sign, sps);
    var r := RxSample(st, e, below, sps, jitter);
    assert st1.bursts <= r.0.bursts;
    forall k | |st.bursts| <= k < |r.0.bursts|
      ensures SmallCodes(r.0.bursts[k]) && r.0.bursts[k] != []
    {
      if k < |st1.bursts| {
        assert r.0.bursts[k] == st1.bursts[k] == st.buf;
      }
    }
  }

  lemma {:induction false} ShowAllAppend(a: seq<seq<Byte>>, b: seq<seq<Byte>>, monitor: bool)
    ensures ShowAll(a + b, monitor) == ShowAll(a, monitor) + ShowAll(b, monitor)
    decreases |b|
  {
    if b == [] {
      assert a + b == a;
    } else {
      var n := |b|;
      assert (a + b)[..|a + b| - 1] == a + b[..n - 1];
      assert (a + b)[|a + b| - 1] == b[n - 1];
      ShowAllAppend(a, b[..n - 1], monitor);
    }
  }

  /** slice() from a buffer with bursts already handed over adds its own after them. */
  lemma SliceRxShift(buf: seq<Byte>, bs: seq<seq<Byte>>, count: nat, sign: int, sps: nat)
    ensures SliceRx(RxSlicer.RxBuf(buf, bs), count, sign, sps)
         == RxSlicer.RxBuf(SliceRx(RxSlicer.RxBuf(buf, []), count, sign, sps).buf,
                           bs + SliceRx(RxSlicer.RxBuf(buf, []), count, sign, sps).bursts)
  {
    var w := RxSlicer.Classify(count, sps);
    RxSlicer.CodesInRange(w, sign >= 0, count, sps);
    if w != RxSlicer.Invalid {
      RxSlicer.PushAllShift(buf, bs, RxSlicer.Codes(w, sign >= 0));
    } else if buf == [] {
      assert bs + [] == bs;
    }
  }

  /**
   * process_rx_sample() in the order its code runs: the timeout flush, then
   * on a flip slice() on what the flush left, whose bursts come after the
   * flushed one.
   */
  lemma RxSampleSteps(buf: seq<Byte>, e: RxSlicer.Edge, below: bool, sps: nat, jitter: nat, monitor: bool)
    ensures var st1 := if e.count > RxSlicer.AvgN * sps then RxSlicer.Flush(RxSlicer.RxBuf(buf, [])) else RxSlicer.RxBuf(buf, []);
      var t := RxSlicer.Track(e, below, jitter);
      var sl := SliceRx(RxSlicer.RxBuf(st1.buf, []), e.count, e.sign, sps);
      var r := RxSample(RxSlicer.RxBuf(buf, []), e, below, sps, jitter);
      r.1 == t.0
      && (t.1 ==> r.0.buf == sl.buf
                  && ShowAll(r.0.bursts, monitor) == ShowAll(st1.bursts, monitor) + ShowAll(sl.bursts, monitor))
      && (!t.1 ==> r.0 == st1)
  {
    var st1 := if e.count > RxSlicer.AvgN * sps then RxSlicer.Flush(RxSlicer.RxBuf(buf, [])) else RxSlicer.RxBuf(buf, []);
    var sl := SliceRx(RxSlicer.RxBuf(st1.buf, []), e.count, e.sign, sps);
    SliceRxShift(st1.buf, st1.bursts, e.count, e.sign, sps);
    ShowAllAppend(st1.bursts, sl.bursts, monitor);
  }

  // ---------------------------------------------------------------------
  // The receive path on the symbol buffer m_rx_buf and its count

  /**
   * The body of decode_rx_symbols on a non-empty buffer: decode it into a
   * buffer of four characters per code and render the result, which is
   * shown only when it is not empty and monitor mode is on.
   */
  method DecodeBurst(buf: array<Byte>, n: nat, monitor: bool) returns (text: seq<string>)
    requires 1 <= n <= buf.Length
    modifies buf
    ensures text == Display(old(buf[..n]), monitor)
  {
    var decoded := new char[n * 4 + 1];
    var decodedLen := Manchester.DecodeForReceive(buf, n, decoded);
    // an empty result is dropped; otherwise it is shown in monitor mode
    if decodedLen > 0 && monitor {
      var line := HexRender.RenderHexBytes(decoded, decodedLen);
      text := [line];
    } else {
      text := [];
    }
  }

  /** `if (m_rx_buf_count) decode_rx_symbols()`: hands a non-empty buffer to the decoder. */
  method FlushAt(buf: array<Byte>, n: nat, monitor: bool) returns (n': nat, lines: seq<string>)
    requires n <= buf.Length
    modifies buf
    ensures var st := RxSlicer.Flush(RxSlicer.RxBuf(old(buf[..n]), []));
      n' <= n && buf[..n'] == st.buf && lines == ShowAll(st.bursts, monitor)
  {
    n' := 0;
    if n > 0 {
      ghost var burst := buf[..n];
      lines := DecodeBurst(buf, n, monitor);
      assert ShowAll([burst], monitor) == Display(burst, monitor);
    } else {
      lines := [];
    }
  }

  /** `m_rx_buf[m_rx_buf_count++] = code`, then a decode when the buffer is full. */
  method PushAt(buf: array<Byte>, n: nat, code: Byte, monitor: bool) returns (n': nat, lines: seq<string>)
    requires buf.Length == RxSlicer.BufSize && n < buf.Length
    modifies buf
    ensures var st := RxSlicer.Push(RxSlicer.RxBuf(old(buf[..n]), []), code);
      n' < buf.Length && buf[..n'] == st.buf && lines == ShowAll(st.bursts, monitor)
  {
    ghost var before := buf[..n];
    buf[n] := code;
    n' := n + 1;
    assert buf[..n'] == before + [code];
    if n' >= RxSlicer.BufSize {
      lines := DecodeBurst(buf, n', monitor);
      assert ShowAll([before + [code]], monitor) == Display(before + [code], monitor);
      n' := 0;
    } else {
      lines := [];
    }
  }

  /** The loop of slice() that stores `k` copies of one code. */
  method PushRunAt(buf: array<Byte>, n: nat, code: Byte, k: nat, monitor: bool) returns (n': nat, lines: seq<string>)
    requires buf.Length == RxSlicer.BufSize && n < buf.Length
    modifies buf
    ensures var st := RxSlicer.PushAll(RxSlicer.RxBuf(old(buf[..n]), []), RxSlicer.Copies(code, k));
      n' < buf.Length && buf[..n'] == st.buf && lines == ShowAll(st.bursts, monitor)
  {
    ghost var st0 := RxSlicer.RxBuf(buf[..n], []);
    ghost var st := st0;
    n' := n;
    lines := [];
    var j := 0;
    while j < k
      invariant 0 <= j <= k && n' < buf.Length
      invariant st == RxSlicer.PushAll(st0, RxSlicer.Copies(code, j))
      invariant buf[..n'] == st.buf && lines == ShowAll(st.bursts, monitor)
    {
      ghost var p := RxSlicer.Push(RxSlicer.RxBuf(st.buf, []), code);
      var more;
      n', more := PushAt(buf, n', code, monitor);
      ShowAllAppend(st.bursts, p.bursts, monitor);
      lines := lines + more;
      RxSlicer.PushAllSnoc(st0, RxSlicer.Copies(code, j), code);
      st := RxSlicer.RxBuf(p.buf, st.bursts + p.bursts);
      j := j + 1;
    }
  }

  /** The branches of slice() once the width of the pulse is known; `high` is m_sign >= 0. */
  method SliceAt(buf: array<Byte>, n: nat, w: RxSlicer.Width, high: Byte, monitor: bool)
    returns (n': nat, lines: seq<string>)
    requires buf.Length == RxSlicer.BufSize && n < buf.Length
    requires high <= 1 && (w.Half? ==> w.k <= 2)
    modifies buf
    ensures var st := SliceBy(RxSlicer.RxBuf(old(buf[..n]), []), w, high == 1);
      n' < buf.Length && buf[..n'] == st.buf && lines == ShowAll(st.bursts, monitor)
  {
    match w
    case Full(k) =>
      assert RxSlicer.Codes(w, high == 1) == RxSlicer.Copies(high, k);
      n', lines := PushRunAt(buf, n, high, k, monitor);
    case Half(k) =>
      assert RxSlicer.Codes(w, high == 1) == [(k + 1) * 2 + high];
      RxSlicer.PushAllOne(RxSlicer.RxBuf(buf[..n], []), (k + 1) * 2 + high);
      n', lines := PushAt(buf, n, (k + 1) * 2 + high, monitor);
    case Invalid =>
      n', lines := FlushAt(buf, n, monitor);
  }

  /** slice() on the buffer: the width loops, then the branch they select. */
  method SlicePulseAt(buf: array<Byte>, n: nat, count: nat, sign: int, sps: nat, monitor: bool)
    returns (n': nat, lines: seq<string>)
    requires buf.Length == RxSlicer.BufSize && n < buf.Length && SmallCodes(buf[..n])
    modifies buf
    ensures var st := SliceRx(RxSlicer.RxBuf(old(buf[..n]), []), count, sign, sps);
      n' < buf.Length && buf[..n'] == st.buf && lines == ShowAll(st.bursts, monitor)
    ensures SmallCodes(buf[..n'])
  {
    SliceRxKeeps(RxSlicer.RxBuf(buf[..n], []), count, sign, sps);
    var w := RxSlicer.MatchWidth(count, sps);
    RxSlicer.CodesInRange(w, sign >= 0, count, sps);
    n', lines := SliceAt(buf, n, w, if sign >= 0 then 1 else 0, monitor);
  }

  /**
   * The sign tracking of process_rx_sample() on the buffer: a sample on
   * the pulse's own side absorbs the pending count, one on the other side
   * is held back while no more than m_jitter have been seen, and the next
   * one slices the old pulse and starts a new one with the samples held
   * back.
   */
  method TrackAt(buf: array<Byte>, n: nat, e: RxSlicer.Edge, below: bool, sps: nat, jitter: nat, monitor: bool)
    returns (n': nat, e': RxSlicer.Edge, lines: seq<string>)
    requires buf.Length == RxSlicer.BufSize && n < buf.Length && SmallCodes(buf[..n])
    requires RxSlicer.EdgeOk(e, jitter) && jitter < U32 - 1
    modifies buf
    ensures var t := RxSlicer.Track(e, below, jitter);
      var st := if t.1 then SliceRx(RxSlicer.RxBuf(old(buf[..n]), []), e.count, e.sign, sps)
                else RxSlicer.RxBuf(old(buf[..n]), []);
      n' < buf.Length && buf[..n'] == st.buf && lines == ShowAll(st.bursts, monitor) && e' == t.0
    ensures SmallCodes(buf[..n']) && RxSlicer.EdgeOk(e', jitter)
  {
    RxSlicer.TrackKeeps(e, below, jitter);
    var same := if below then e.sign < 0 else e.sign > 0;
    if same {
      e' := RxSlicer.Edge(e.sign, (e.count + e.changeCount + 1) % U32, 0);
      n', lines := n, [];
    } else if e.changeCount < jitter {
      e' := RxSlicer.Edge(e.sign, e.count, e.changeCount + 1);
      n', lines := n, [];
    } else {
      n', lines := SlicePulseAt(buf, n, e.count, e.sign, sps, monitor);
      e' := RxSlicer.Edge(if below then -1 else 1, e.changeCount + 1, 0);
    }
  }

  /**
   * process_rx_sample() on the buffer and the pulse being measured: a
   * pulse longer than m_avg_n symbols flushes the buffer before the sign
   * is tracked.
   */
  method RxSampleAt(buf: array<Byte>, n: nat, e: RxSlicer.Edge, below: bool, sps: nat, jitter: nat, monitor: bool)
    returns (n': nat, e': RxSlicer.Edge, lines: seq<string>)
    requires buf.Length == RxSlicer.BufSize && n < buf.Length && SmallCodes(buf[..n])
    requires RxSlicer.EdgeOk(e, jitter) && jitter < U32 - 1
    modifies buf
    ensures var r := RxSample(RxSlicer.RxBuf(old(buf[..n]), []), e, below, sps, jitter);
      n' < buf.Length && buf[..n'] == r.0.buf && lines == ShowAll(r.0.bursts, monitor) && e' == r.1
    ensures SmallCodes(buf[..n']) && RxSlicer.EdgeOk(e', jitter)
  {
    RxSampleSteps(buf[..n], e, below, sps, jitter, monitor);
    var m := n;
    var flushed := [];
    if e.count > RxSlicer.AvgN * sps {
      m, flushed := FlushAt(buf, n, monitor);
    }
    var more;
    n', e', more := TrackAt(buf, m, e, below, sps, jitter, monitor);
    lines := flushed + more;
  }

  // ---------------------------------------------------------------------
  // The transmit path on arrays

  /** memcpy of a run of samples to buf[p..]. */
  method CopyAt(buf: array<int>, p: nat, src: seq<int>) returns (p': nat)
    requires p + |src| <= buf.Length
    modifies buf
    ensures p' == p + |src| && buf[..p'] == old(buf[..p]) + src
  {
    forall k | 0 <= k < |src| {
      buf[p + k] := src[k];
    }
    p' := p + |src|;
    assert buf[..p'] == old(buf[..p]) + src;
  }

  /** One symbol of transmit_packet's switch, written at buf[p..]. */
  method PutSymbol(buf: array<int>, p: nat, c: char, zero: array<int>, one: array<int>,
                   hv: array<int>, lv: array<int>, sps: nat) returns (p': nat)
    requires p + |TxPacket.Wave(c, sps)| <= buf.Length
    requires zero[..] == TxPacket.Wave('0', sps) && one[..] == TxPacket.Wave('1', sps)
    requires hv[..] == TxPacket.Wave('^', sps) && lv[..] == TxPacket.Wave('v', sps)
    modifies buf
    ensures p' == p + |TxPacket.Wave(c, sps)| && buf[..p'] == old(buf[..p]) + TxPacket.Wave(c, sps)
  {
    match c
    case '0' => p' := CopyAt(buf, p, zero[..]);
    case '1' => p' := CopyAt(buf, p, one[..]);
    case '^' => p' := CopyAt(buf, p, hv[..]);
    case 'v' => p' := CopyAt(buf, p, lv[..]);
    case 'S' => p' := CopyAt(buf, p, TxPacket.Run(0, 2 * sps));
    case _ =>
      // "cannot transmit symbol": nothing is written
      p' := p;
      assert buf[..p'] == old(buf[..p]) + [];
  }

  /**
   * transmit_packet's buffer: data_len * m_bitlen samples, filled symbol
   * by symbol from the tables; the count is how far the fill got.
   */
  method ModulatePacket(data: array<char>, dataLen: nat, zero: array<int>, one: array<int>,
                        hv: array<int>, lv: array<int>, sps: nat)
    returns (buf: array<int>, count: nat)
    requires dataLen <= data.Length
    requires zero[..] == TxPacket.Wave('0', sps) && one[..] == TxPacket.Wave('1', sps)
    requires hv[..] == TxPacket.Wave('^', sps) && lv[..] == TxPacket.Wave('v', sps)
    ensures fresh(buf) && buf.Length == dataLen * (2 * sps)
    ensures count <= buf.Length && buf[..count] == TxPacket.Modulate(data[..dataLen], sps)
  {
    buf := new int[dataLen * (2 * sps)];
    count := 0;
    var i := 0;
    while i < dataLen
      invariant 0 <= i <= dataLen && count <= buf.Length
      invariant buf[..count] == TxPacket.Modulate(data[..i], sps)
      invariant zero[..] == TxPacket.Wave('0', sps) && one[..] == TxPacket.Wave('1', sps)
      invariant hv[..] == TxPacket.Wave('^', sps) && lv[..] == TxPacket.Wave('v', sps)
    {
      assert data[..i + 1] == data[..i] + [data[i]];
      TxPacket.ModulateSnoc(data[..i], data[i], sps);
      TxPacket.ModulateFits(data[..i + 1], sps);
      RxSlicer.MulMono(i + 1, dataLen, 2 * sps);
      count := PutSymbol(buf, count, data[i], zero, one, hv, lv, sps);
      i := i + 1;
    }
    assert data[..dataLen] == data[..i];
  }

  /** The four i8tob calls of transmit_on_packet: secret_bits[i] is byte i, most significant first. */
  method SecretBitsOf(secret: nat) returns (sb: seq<string>)
    requires secret < U32
    ensures sb == TxPacket.SecretBits(secret)
  {
    sb := [];
    var bits := new char[8];
    for i := 0 to 4
      invariant |sb| == i
      invariant forall k :: 0 <= k < i ==> sb[k] == TxPacket.ByteBits(TxPacket.SecretByte(secret, k), 8)
    {
      TxPacket.I8ToB(TxPacket.SecretByte(secret, i), bits);
      sb := sb + [bits[..]];
    }
  }

  /** The repeat loop of transmit_on_packet: seventeen blocks of sixteen do_put calls. */
  method BlocksPut(data: array<char>, cap: nat, offset: nat, sb: seq<string>) returns (offset': nat)
    requires |sb| == 4 && cap <= data.Length && offset <= cap
    modifies data
    ensures offset' <= cap
    ensures data[..offset'] == TxPacket.Fill(TxPacket.Rep(TxPacket.Block(sb), 17), old(data[..offset]), cap)
  {
    var blk := TxPacket.Block(sb);
    offset' := offset;
    for r := 0 to 17
      invariant offset' <= cap && data[..offset'] == TxPacket.Fill(TxPacket.Rep(blk, r), old(data[..offset]), cap)
    {
      offset' := TxPacket.DoPutAll(data, cap, offset', blk);
      TxPacket.RepSnoc(blk, r);
      TxPacket.FillAppend(TxPacket.Rep(blk, r), blk, old(data[..offset]), cap);
    }
  }

  /** The silence loop of transmit_on_packet: `silence` do_put calls of "S". */
  method SilencePut(data: array<char>, cap: nat, offset: nat, silence: nat) returns (offset': nat)
    requires cap <= data.Length && offset <= cap
    modifies data
    ensures offset' <= cap
    ensures data[..offset'] == TxPacket.Fill(TxPacket.Rep(["S"], silence), old(data[..offset]), cap)
  {
    offset' := offset;
    for j := 0 to silence
      invariant offset' <= cap && data[..offset'] == TxPacket.Fill(TxPacket.Rep(["S"], j), old(data[..offset]), cap)
    {
      offset' := TxPacket.DoPut(data, cap, offset', "S");
      TxPacket.RepSnoc(["S"], j);
      TxPacket.FillAppend(TxPacket.Rep(["S"], j), ["S"], old(data[..offset]), cap);
      assert ["S"][1..] == [];
    }
  }

  /** One pass of transmit_on_packet's outer loop: the start word, the blocks, the silence. */
  method FramePut(data: array<char>, cap: nat, offset: nat, sb: seq<string>, silence: nat) returns (offset': nat)
    requires |sb| == 4 && cap <= data.Length && offset <= cap
    modifies data
    ensures offset' <= cap
    ensures data[..offset'] == TxPacket.Fill(TxPacket.Frame(sb, silence), old(data[..offset]), cap)
  {
    ghost var base := data[..offset];
    var o1 := TxPacket.DoPut(data, cap, offset, TxPacket.Start);
    assert [TxPacket.Start][1..] == [];
    var o2 := BlocksPut(data, cap, o1, sb);
    offset' := SilencePut(data, cap, o2, silence);
    ghost var blocks := TxPacket.Rep(TxPacket.Block(sb), 17);
    TxPacket.FillAppend([TxPacket.Start], blocks, base, cap);
    TxPacket.FillAppend([TxPacket.Start] + blocks, TxPacket.Rep(["S"], silence), base, cap);
  }

  /**
   * The do_put calls of transmit_on_packet into data[1024], bounded by
   * sizeof(data) - 1 so that the terminator written after them stays
   * inside the array: the secret's bits, then ten frames.
   */
  method OnPacketSymbols(secret: nat, silence: nat) returns (data: array<char>, offset: nat)
    requires secret < U32
    ensures fresh(data) && data.Length == TxPacket.DataSize
    ensures offset < data.Length && data[offset] == 0 as char
    ensures data[..offset] == TxPacket.Fill(TxPacket.OnPacket(TxPacket.SecretBits(secret), silence), [], TxPacket.DataSize - 1)
  {
    data := new char[TxPacket.DataSize];
    var cap := TxPacket.DataSize - 1;
    var sb := SecretBitsOf(secret);
    ghost var frame := TxPacket.Frame(sb, silence);
    offset := 0;
    for i := 0 to 10
      invariant offset <= cap && data[..offset] == TxPacket.Fill(TxPacket.Rep(frame, i), [], cap)
    {
      offset := FramePut(data, cap, offset, sb, silence);
      TxPacket.RepSnoc(frame, i);
      TxPacket.FillAppend(TxPacket.Rep(frame, i), frame, [], cap);
    }
    data[offset] := 0 as char;
  }

  /** The copy loop of process_tx: as many samples as are left and as fit. */
  method CopyOut(src: array<int>, cur: nat, count: nat, dst: array<int>, off: nat, room: nat) returns (i: nat)
    requires src != dst && cur <= count <= src.Length && off + room <= dst.Length
    modifies dst
    ensures i == if count - cur < room then count - cur else room
    ensures dst[..off] == old(dst[..off]) && dst[off..off + i] == src[cur..cur + i]
    ensures dst[off + i..] == old(dst[off + i..])
  {
    i := 0;
    while i + cur < count && i < room
      invariant 0 <= i <= room && cur + i <= count
      invariant dst[..off] == old(dst[..off]) && dst[off..off + i] == src[cur..cur + i]
      invariant dst[off + i..] == old(dst[off + i..])
    {
      dst[off + i] := src[cur + i];
      i := i + 1;
    }
  }

  // ---------------------------------------------------------------------
  // The symbol tables

  /** The constructor's first loops: m_zero is low then high, m_one high then low. */
  method BitTables(s: nat) returns (z: array<int>, o: array<int>)
    ensures fresh(z) && fresh(o) && z != o
    ensures z[..] == TxPacket.Wave('0', s) && o[..] == TxPacket.Wave('1', s)
  {
    z := new int[2 * s];
    o := new int[2 * s];
    var i := 0;
    while i < s
      invariant 0 <= i <= s
      invariant forall k :: 0 <= k < i ==> z[k] == 0 && o[k] == TxPacket.ShrtMax
    {
      z[i] := 0;
      o[i] := TxPacket.ShrtMax;
      i := i + 1;
    }
    while i < 2 * s
      invariant s <= i <= 2 * s
      invariant forall k :: 0 <= k < s ==> z[k] == 0 && o[k] == TxPacket.ShrtMax
      invariant forall k :: s <= k < i ==> z[k] == TxPacket.ShrtMax && o[k] == 0
    {
      z[i] := TxPacket.ShrtMax;
      o[i] := 0;
      i := i + 1;
    }
    ghost var lowHigh := TxPacket.Run(0, s) + TxPacket.Run(TxPacket.ShrtMax, s);
    ghost var highLow := TxPacket.Run(TxPacket.ShrtMax, s) + TxPacket.Run(0, s);
    forall k | 0 <= k < 2 * s
      ensures z[k] == lowHigh[k] && o[k] == highLow[k]
    {
      if k < s {
        assert lowHigh[k] == TxPacket.Run(0, s)[k];
        assert highLow[k] == TxPacket.Run(TxPacket.ShrtMax, s)[k];
      } else {
        assert lowHigh[k] == TxPacket.Run(TxPacket.ShrtMax, s)[k - s];
        assert highLow[k] == TxPacket.Run(0, s)[k - s];
      }
    }
    assert z[..] == lowHigh;
    assert o[..] == highLow;
  }

  /** The constructor's last loop: m_hv high and m_lv low for half a symbol. */
  method LevelTables(s: nat) returns (h: array<int>, l: array<int>)
    ensures fresh(h) && fresh(l) && h != l
    ensures h[..] == TxPacket.Wave('^', s) && l[..] == TxPacket.Wave('v', s)
  {
    h := new int[s / 2];
    l := new int[s / 2];
    var i := 0;
    while i < s / 2
      invariant 0 <= i <= s / 2
      invariant forall k :: 0 <= k < i ==> h[k] == TxPacket.ShrtMax && l[k] == 0
    {
      h[i] := TxPacket.ShrtMax;
      l[i] := 0;
      i := i + 1;
    }
    assert h[..] == TxPacket.Wave('^', s);
    assert l[..] == TxPacket.Wave('v', s);
  }

  /**
   * The transmit scheduler's fields: m_tx_buf, m_tx_buf_count,
   * m_tx_buf_cur, m_tx_at, m_retransmit_num and m_tx_sample_number.
   */
  datatype Tx = Tx(buf: array?<int>, count: nat, cur: nat, at: nat, retransmitNum: nat, sampleNumber: nat)

  /** No buffer means nothing counted and nothing scheduled. */
  predicate TxOk(t: Tx)
  {
    t.sampleNumber < U64 && t.at < U64 && t.retransmitNum < RetransmitMax
    && (t.buf != null ==> t.cur <= t.count <= t.buf.Length)
    && (t.buf == null ==> t.count == 0 && t.cur == 0 && t.retransmitNum == 0 && t.at == AtNever)
  }

  /** The ranges the block's fields stay in, and the states that hold a transmit buffer. */
  predicate FieldsOk(f: Fields, jitter: nat)
  {
    RxSlicer.EdgeOk(f.edge, jitter) && f.rxSampleNumber < U64 && TxOk(f.tx)
    && -1 <= f.secret < U32 && -0x8000_0000 <= f.seqno < 0x8000_0000
    && f.state != On
    && (f.state != Idle ==> f.secret >= 0 && f.seqno >= 0)
    && (f.state == StatusOnSent <==> f.tx.buf != null)
  }

  /** The receive side of the block at one moment: m_rx_buf's codes, the edge, the display and m_monitor. */
  datatype RxSide = RxSide(buf: seq<Byte>, edge: RxSlicer.Edge, shown: seq<string>, monitor: bool)

  /** The block's fields other than array contents, for stating what a method changes. */
  datatype Fields = Fields(
    state: State, monitor: bool, secret: int, seqno: int,
    edge: RxSlicer.Edge, rxBufCount: nat, rxSampleNumber: nat,
    tx: Tx, statusLog: seq<string>, shown: seq<string>)

  // ---------------------------------------------------------------------
  // The transmit scheduler as values

  /** (unsigned long long)(250.0 * m_sr / 1000.0): 250 ms in receive samples. */
  function RetransmitDelay(sr: real): nat
    requires 0.0 <= sr
  {
    (250.0 * sr / 1000.0).Floor
  }

  /** How many samples one process_tx call copies out, `room` being noutput. */
  function TxCopied(t: Tx, room: nat): nat
  {
    if t.buf == null || t.count <= t.cur then 0
    else if t.count - t.cur < room then t.count - t.cur else room
  }

  /**
   * What the end of process_tx does to a buffer played to its end: it is
   * rescheduled `delay` samples after the current receive sample until
   * it has gone out m_retransmit_max times, and is then dropped and the
   * block goes back to ST_IDLE.
   */
  function TxEnd(f: Fields, delay: nat): Fields
  {
    if f.tx.retransmitNum + 1 < RetransmitMax then
      f.(tx := f.tx.(retransmitNum := f.tx.retransmitNum + 1, at := (f.rxSampleNumber + delay) % U64, cur := 0))
    else
      f.(tx := Tx(null, 0, 0, AtNever, 0, f.tx.sampleNumber), state := Idle,
         statusLog := f.statusLog + ["Exceeded retries"])
  }

  /**
   * The fields after one process_tx call: the cursor and the transmit
   * sample number advance by the samples copied, and a buffer played to
   * its end is handled as TxEnd says.
   */
  function TxAfter(f: Fields, room: nat, delay: nat): Fields
  {
    if f.tx.buf == null then f
    else
      var k := TxCopied(f.tx, room);
      var g := f.(tx := f.tx.(cur := f.tx.cur + k, sampleNumber := (f.tx.sampleNumber + k) % U64));
      if g.tx.cur < g.tx.count then g else TxEnd(g, delay)
  }

  /** The copy takes what is left of the buffer, or what fits, whichever is less. */
  lemma TxCopiedIsMin(t: Tx, room: nat)
    requires TxOk(t) && t.buf != null
    ensures TxCopied(t, room) <= room && t.cur + TxCopied(t, room) <= t.count
    ensures TxCopied(t, room) == room || t.cur + TxCopied(t, room) == t.count
  {
  }

  /** process_tx keeps the block's ranges and its state cycle. */
  lemma TxAfterKeeps(f: Fields, room: nat, delay: nat, jitter: nat)
    requires FieldsOk(f, jitter)
    ensures FieldsOk(TxAfter(f, room, delay), jitter)
    ensures TxAfter(f, room, delay).state == f.state || TxAfter(f, room, delay).state == Idle
  {
  }

  /** A scheduled buffer is due once the transmit side has passed m_tx_at. */
  predicate TxDue(t: Tx)
  {
    t.at < t.sampleNumber
  }

  /** Without a buffer m_tx_at is m_at_never, and nothing is ever due. */
  lemma NeverDue(t: Tx)
    requires TxOk(t) && t.buf == null
    ensures t.at == AtNever && !TxDue(t)
  {
  }

  /** n process_tx calls in a row, each with room for `room` samples. */
  function Plays(f: Fields, room: nat, delay: nat, n: nat): Fields
  {
    if n == 0 then f else TxAfter(Plays(f, room, delay, n - 1), room, delay)
  }

  /**
   * With room for the whole buffer each time, the n-th call for n below
   * m_retransmit_max plays the buffer once more and reschedules it.
   */
  lemma {:induction false} PlaysReschedule(f: Fields, room: nat, delay: nat, n: nat, jitter: nat)
    requires FieldsOk(f, jitter) && f.tx.buf != null && f.tx.cur == 0 && f.tx.retransmitNum == 0
    requires f.tx.count <= room && n < RetransmitMax
    ensures var g := Plays(f, room, delay, n);
      g.tx.buf == f.tx.buf && g.tx.count == f.tx.count && g.tx.cur == 0
      && g.tx.retransmitNum == n && g.state == f.state && FieldsOk(g, jitter)
  {
    if n > 0 {
      PlaysReschedule(f, room, delay, n - 1, jitter);
    }
  }

  /**
   * So the packet goes out m_retransmit_max times in all: the tenth call
   * drops the buffer, sets m_tx_at to m_at_never and returns to ST_IDLE.
   */
  lemma TenPlays(f: Fields, room: nat, delay: nat, jitter: nat)
    requires FieldsOk(f, jitter) && f.tx.buf != null && f.tx.cur == 0 && f.tx.retransmitNum == 0
    requires f.tx.count <= room
    ensures var g := Plays(f, room, delay, RetransmitMax);
      g.state == Idle && g.tx.buf == null && g.tx.at == AtNever && g.tx.retransmitNum == 0
      && g.statusLog == Plays(f, room, delay, RetransmitMax - 1).statusLog + ["Exceeded retries"]
  {
    PlaysReschedule(f, room, delay, RetransmitMax - 1, jitter);
  }

  class OmnipodPda {
    /** m_sr, m_sps, m_jitter, m_average_len, m_bitlen, m_hv_len, m_lv_len. */
    const sr: real
    const sps: nat
    const jitter: nat
    const averageLen: nat
    const bitlen: nat
    const hvLen: nat
    const lvLen: nat

    /** m_zero, m_one, m_hv, m_lv: one symbol's samples each. */
    const zero: array<int>
    const one: array<int>
    const hv: array<int>
    const lv: array<int>

    /** m_rx_buf, BUFSIZ symbol codes. */
    const rxBuf: array<Byte>

    var state: State
    var monitor: bool
    var secret: int
    var seqno: int

    /** m_sign, m_count and m_change_count: the pulse being measured. */
    var edge: RxSlicer.Edge
    var rxBufCount: nat
    var rxSampleNumber: nat

    var tx: Tx

    var statusLog: seq<string>
    var shown: seq<string>

    function Snap(): Fields
      reads this
    {
      Fields(state, monitor, secret, seqno, edge, rxBufCount, rxSampleNumber, tx, statusLog, shown)
    }

    /** The symbol tables the constructor builds. */
    predicate Tables()
      reads zero, one, hv, lv
    {
      zero[..] == TxPacket.Wave('0', sps) && one[..] == TxPacket.Wave('1', sps)
      && hv[..] == TxPacket.Wave('^', sps) && lv[..] == TxPacket.Wave('v', sps)
    }

    /** The rates fixed by the constructor, and arrays that never alias. */
    predicate Consts()
    {
      0.0 <= sr && 1 <= sps < 0x10_0000 && jitter == sps / 4 && averageLen == RxSlicer.AvgN * sps
      && bitlen == 2 * sps && hvLen == sps / 2 && lvLen == sps / 2
      && rxBuf.Length == RxSlicer.BufSize
      && rxBuf as object != zero && rxBuf as object != one && rxBuf as object != hv && rxBuf as object != lv
    }

    /** The receive buffer holds codes 0..7 and is never left full. */
    predicate RxOk()
      reads this, rxBuf
    {
      rxBufCount < rxBuf.Length && SmallCodes(rxBuf[..rxBufCount])
    }

    predicate Valid()
      reads this, rxBuf
    {
      Consts() && RxOk() && FieldsOk(Snap(), jitter)
    }

    /** A scheduler output buffer: none of the block's own sample arrays. */
    predicate Outside(output: array<int>)
      reads this
    {
      output != zero && output != one && output != hv && output != lv && output != tx.buf
      && output as object != rxBuf
    }

    /** The constructor: the rates derived from sr, the symbol tables, and the idle state. */
    constructor (sampleRate: real)
      requires 2000.0 <= sampleRate < SymbolRate * 0x10_0000 as real - 2000.0
      ensures Valid() && Tables() && fresh(rxBuf) && fresh(zero) && fresh(one) && fresh(hv) && fresh(lv)
      ensures sr == sampleRate && sps == Round(sampleRate / SymbolRate)
      ensures Snap() == Fields(Idle, true, -1, -1, RxSlicer.Edge(-1, 0, 0), 0, 0,
                             Tx(null, 0, 0, AtNever, 0, 0), [], [])
    {
      var s := Round(sampleRate / SymbolRate);
      sr := sampleRate;
      sps := s;
      jitter := s / 4;
      averageLen := RxSlicer.AvgN * s;
      bitlen := 2 * s;
      hvLen := s / 2;
      lvLen := s / 2;
      var z, o := BitTables(s);
      var h, l := LevelTables(s);
      zero := z;
      one := o;
      hv := h;
      lv := l;
      rxBuf := new Byte[RxSlicer.BufSize];
      state := Idle;
      monitor := true;
      secret := -1;
      seqno := -1;
      edge := RxSlicer.Edge(-1, 0, 0);
      rxBufCount := 0;
      rxSampleNumber := 0;
      tx := Tx(null, 0, 0, AtNever, 0, 0);
      statusLog := [];
      shown := [];
    }

    // -------------------------------------------------------------------
    // The transaction state

    /** set_monitor: switches monitor mode and reports it. */
    method SetMonitor(on: bool)
      requires Valid()
      modifies this
      ensures Valid()
      ensures Snap() == old(Snap()).(monitor := on,
        statusLog := old(statusLog) + [if on then "Monitor mode is on" else "Monitor mode is off"])
    {
      monitor := on;
      if monitor {
        statusLog := statusLog + ["Monitor mode is on"];
      } else {
        statusLog := statusLog + ["Monitor mode is off"];
      }
    }

    /**
     * start_status: leaves ST_IDLE for ST_STATUS only when both the secret
     * and the sequence number have been set; otherwise changes nothing but
     * the status line.
     */
    method StartStatus()
      requires Valid()
      modifies this
      ensures Valid()
      ensures old(state == Idle && secret >= 0 && seqno >= 0) ==>
        Snap() == old(Snap()).(state := Status, statusLog := old(statusLog) + ["Status protocol starting"])
      ensures !old(state == Idle && secret >= 0 && seqno >= 0) ==>
        Snap() == old(Snap()).(statusLog := old(statusLog) + ["Transaction already in progress"])
    {
      if state == Idle && secret >= 0 && seqno >= 0 {
        state := Status;
        statusLog := statusLog + ["Status protocol starting"];
        return;
      }
      statusLog := statusLog + ["Transaction already in progress"];
    }

    /** set_secret: only an idle block takes a new secret. */
    method SetSecret(newSecret: nat)
      requires Valid() && newSecret < U32
      modifies this
      ensures Valid()
      ensures Snap() == if old(state) == Idle then old(Snap()).(secret := newSecret) else old(Snap())
    {
      if state != Idle {
        return;
      }
      secret := newSecret;
    }

    /** set_seqno: only an idle block takes a new sequence number, stored as an int. */
    method SetSeqno(newSeqno: nat)
      requires Valid() && newSeqno < U32
      modifies this
      ensures Valid()
      ensures Snap() == if old(state) == Idle then old(Snap()).(seqno := ToInt32(newSeqno)) else old(Snap())
    {
      if state != Idle {
        return;
      }
      seqno := ToInt32(newSeqno);
    }

    // -------------------------------------------------------------------
    // The receive path

    /**
     * decode_rx_symbols: decodes the buffered codes, shows the result in
     * monitor mode when it is not empty, and empties the buffer.
     */
    method DecodeRxSymbols()
      requires Valid()
      modifies this, rxBuf
      ensures Valid()
      ensures rxBufCount == 0 && shown == old(shown) + Display(old(rxBuf[..rxBufCount]), old(monitor))
      ensures Snap() == old(Snap()).(rxBufCount := 0, shown := shown)
    {
      if rxBufCount > 0 {
        var text := DecodeBurst(rxBuf, rxBufCount, monitor);
        shown := shown + text;
      }
      rxBufCount := 0;
    }

    /**
     * slice(): classifies the pulse that just ended and stores its codes,
     * or, for a width that matches nothing, decodes what the buffer holds.
     */
    method Slice()
      requires Valid()
      modifies this, rxBuf
      ensures Valid()
      ensures var st := SliceRx(RxSlicer.RxBuf(old(rxBuf[..rxBufCount]), []), old(edge.count), old(edge.sign), sps);
        rxBuf[..rxBufCount] == st.buf && shown == old(shown) + ShowAll(st.bursts, old(monitor))
      ensures Snap() == old(Snap()).(rxBufCount := rxBufCount, shown := shown)
    {
      var n, lines := SlicePulseAt(rxBuf, rxBufCount, edge.count, edge.sign, sps, monitor);
      rxBufCount, shown := n, shown + lines;
    }

    /**
     * process_rx_sample(): `below` is cur < avg.  A pulse longer than
     * m_avg_n symbols flushes the buffer; then the sign is tracked, and on
     * a flip slice() runs on the old pulse before a new one starts.
     */
    method ProcessRxSample(below: bool)
      requires Valid()
      modifies this, rxBuf
      ensures Valid()
      ensures var r := RxSample(RxSlicer.RxBuf(old(rxBuf[..rxBufCount]), []),
                                old(edge), below, sps, jitter);
        rxBuf[..rxBufCount] == r.0.buf && shown == old(shown) + ShowAll(r.0.bursts, old(monitor)) && edge == r.1
      ensures Snap() == old(Snap()).(edge := edge, rxBufCount := rxBufCount, shown := shown)
    {
      var n, e', lines := RxSampleAt(rxBuf, rxBufCount, edge, below, sps, jitter, monitor);
      rxBufCount, edge, shown := n, e', shown + lines;
    }

    // -------------------------------------------------------------------
    // The transmit path

    /**
     * transmit_on_packet: the status packet's symbols, modulated into a
     * fresh transmit buffer due at once; the block moves to
     * ST_STATUS_ON_SENT.  The silence is 250 ms at the sample rate.
     */
    method TransmitOnPacket()
      requires Valid() && Tables() && state == Status
      modifies this
      ensures Valid() && tx.buf != null && fresh(tx.buf)
      ensures tx.buf[..tx.count] == TxPacket.Modulate(TxPacket.StatusPacket(secret), sps)
      ensures Snap() == old(Snap()).(state := StatusOnSent, tx := old(tx).(buf := tx.buf, count := tx.count, cur := 0, at := 0))
    {
      var s := TxPacket.SilenceSymbols(sr, sps);
      var silence := if s < 0 then 0 else s;
      var data, offset := OnPacketSymbols(secret, silence);
      TxPacket.TerminatorFits(TxPacket.SecretBits(secret), silence);
      var buf, count := ModulatePacket(data, offset, zero, one, hv, lv, sps);
      tx, state := tx.(buf := buf, count := count, cur := 0, at := 0), StatusOnSent;
    }

    /**
     * process_tx: copies what is left of the buffer, as far as `room`
     * allows, to output[off..], then reschedules or retires the buffer as
     * TxAfter says.  Without a buffer it copies nothing.
     */
    method ProcessTx(output: array<int>, off: nat, room: nat) returns (written: nat)
      requires Valid() && Outside(output) && off + room <= output.Length
      modifies this, output
      ensures Valid()
      ensures written == TxCopied(old(tx), room)
      ensures Snap() == TxAfter(old(Snap()), room, RetransmitDelay(sr))
      ensures var b := old(tx.buf); var c := old(tx.cur);
        b != null ==> c + written <= b.Length && output[off..off + written] == b[c..c + written]
      ensures output[..off] == old(output[..off]) && output[off + written..] == old(output[off + written..])
    {
      if tx.buf == null {
        return 0;
      }
      written := PlayOut(output, off, room);
      ghost var out := output[..];
      if tx.cur >= tx.count {
        EndOfBuffer();
      }
      assert output[..] == out;
    }

    /** The copy loop of process_tx with the cursor and sample number it advances. */
    method PlayOut(output: array<int>, off: nat, room: nat) returns (written: nat)
      requires Valid() && Outside(output) && off + room <= output.Length && tx.buf != null
      modifies this, output
      ensures Valid() && written == TxCopied(old(tx), room)
      ensures Snap() == old(Snap()).(tx := old(tx).(cur := old(tx.cur) + written,
                                                    sampleNumber := (old(tx.sampleNumber) + written) % U64))
      ensures var b := old(tx.buf); var c := old(tx.cur);
        c + written <= b.Length && output[off..off + written] == b[c..c + written]
      ensures output[..off] == old(output[..off]) && output[off + written..] == old(output[off + written..])
    {
      written := CopyOut(tx.buf, tx.cur, tx.count, output, off, room);
      tx := tx.(cur := tx.cur + written, sampleNumber := (tx.sampleNumber + written) % U64);
    }

    /**
     * The end of process_tx once the buffer has been played out: count the
     * transmission, then reschedule the buffer 250 ms on, or, after
     * m_retransmit_max transmissions, drop it and go back to ST_IDLE.
     */
    method EndOfBuffer()
      requires Valid() && tx.buf != null && tx.cur == tx.count
      modifies this
      ensures Valid()
      ensures Snap() == TxEnd(old(Snap()), RetransmitDelay(sr))
    {
      if tx.retransmitNum + 1 < RetransmitMax {
        tx := tx.(retransmitNum := tx.retransmitNum + 1, at := (rxSampleNumber + RetransmitDelay(sr)) % U64, cur := 0);
      } else {
        tx, state, statusLog := Tx(null, 0, 0, AtNever, 0, tx.sampleNumber), Idle, statusLog + ["Exceeded retries"];
      }
    }

    /**
     * The end of general_work: zeros go out while the transmit side lags
     * the receive side and there is room, so that the transmitter never
     * runs dry.
     */
    method PadTx(output: array<int>, w: nat, noutput: nat) returns (w': nat)
      requires Valid() && Outside(output) && w <= noutput <= output.Length
      modifies this, output
      ensures Valid()
      ensures var gap := if old(tx.sampleNumber) < rxSampleNumber then rxSampleNumber - old(tx.sampleNumber) else 0;
        w' == w + (if gap < noutput - w then gap else noutput - w)
      ensures w' == noutput || tx.sampleNumber >= rxSampleNumber
      ensures forall i :: w <= i < w' ==> output[i] == 0
      ensures output[..w] == old(output[..w]) && output[w'..] == old(output[w'..])
      ensures Snap() == old(Snap()).(tx := old(tx).(sampleNumber := old(tx.sampleNumber) + (w' - w)))
    {
      w' := w;
      while tx.sampleNumber < rxSampleNumber && w' < noutput
        invariant w <= w' <= noutput && tx.sampleNumber == old(tx.sampleNumber) + (w' - w)
        invariant old(tx.sampleNumber) < rxSampleNumber ==> tx.sampleNumber <= rxSampleNumber
        invariant old(tx.sampleNumber) >= rxSampleNumber ==> w' == w
        invariant forall i :: w <= i < w' ==> output[i] == 0
        invariant output[..w] == old(output[..w]) && output[w'..] == old(output[w'..])
        invariant Snap() == old(Snap()).(tx := old(tx).(sampleNumber := tx.sampleNumber))
      {
        output[w'] := 0;
        w' := w' + 1;
        tx := tx.(sampleNumber := tx.sampleNumber + 1);
      }
    }

    // -------------------------------------------------------------------
    // general_work

    /**
     * general_work past its start-up: the state and the monitor flag are
     * read once; each entry of `below` is one receive sample (cur < avg
     * for it), which advances m_rx_sample_number, goes to the slicer while
     * a transaction is under way or in monitor mode, and, during a
     * transaction, first sends the status packet and then plays the
     * transmit buffer whenever it is due.  Zeros pad the output last.
     */
    method GeneralWork(below: seq<bool>, output: array<int>, noutput: nat) returns (w: nat)
      requires Valid() && Tables() && Outside(output) && noutput <= output.Length
      modifies this, rxBuf, output
      ensures Valid() && w <= noutput
      ensures rxSampleNumber == (old(rxSampleNumber) + |below|) % U64
      ensures w == noutput || tx.sampleNumber >= rxSampleNumber
    {
      var st := state;
      var mon := monitor;
      w := 0;
      for r := 0 to |below|
        invariant Valid() && Tables() && Outside(output) && w <= noutput
        invariant rxSampleNumber == (old(rxSampleNumber) + r) % U64
        invariant st == Status ==> state == Status
      {
        st, w := SampleStep(below[r], st, mon, output, w, noutput);
      }
      w := PadTx(output, w, noutput);
    }

    /** One sample of the general_work loop; `st` is the state it read on entry. */
    method SampleStep(below: bool, st: State, mon: bool, output: array<int>, w: nat, noutput: nat)
      returns (st': State, w': nat)
      requires Valid() && Tables() && Outside(output) && w <= noutput <= output.Length
      requires st == Status ==> state == Status
      modifies this, rxBuf, output
      ensures Valid() && Tables() && Outside(output) && w <= w' <= noutput
      ensures rxSampleNumber == (old(rxSampleNumber) + 1) % U64
      ensures st' == Status ==> state == Status
      ensures st' == (if st == Status then StatusOnSent else st)
      ensures Received(old(RxView()), below, st != Idle || mon)
    {
      ReceiveStep(below, st != Idle || mon);
      st', w' := TransmitStep(st, output, w, noutput);
    }

    /** The receive side as the slicer sees it: buffered codes, edge, display and monitor flag. */
    function RxView(): RxSide
      reads this, rxBuf
      requires rxBufCount <= rxBuf.Length
    {
      RxSide(rxBuf[..rxBufCount], edge, shown, monitor)
    }

    /**
     * What one sample does to the receive side `before`: process_rx_sample's
     * effect as RxSample gives it when `listen`, and nothing otherwise.
     */
    predicate Received(before: RxSide, below: bool, listen: bool)
      reads this, rxBuf
      requires rxBufCount <= rxBuf.Length
    {
      if listen then
        var r := RxSample(RxSlicer.RxBuf(before.buf, []), before.edge, below, sps, jitter);
        rxBuf[..rxBufCount] == r.0.buf && shown == before.shown + ShowAll(r.0.bursts, before.monitor) && edge == r.1
      else
        rxBuf[..rxBufCount] == before.buf && edge == before.edge && shown == before.shown
    }

    /** The receive half of one sample: count it, and slice it when `listen`. */
    method ReceiveStep(below: bool, listen: bool)
      requires Valid()
      modifies this, rxBuf
      ensures Valid()
      ensures Snap() == old(Snap()).(edge := edge, rxBufCount := rxBufCount, shown := shown,
                                     rxSampleNumber := (old(rxSampleNumber) + 1) % U64)
      ensures Received(old(RxView()), below, listen)
    {
      rxSampleNumber := (rxSampleNumber + 1) % U64;
      if listen {
        ProcessRxSample(below);
      }
    }

    /** The transmit half of one sample, during a transaction. */
    method TransmitStep(st: State, output: array<int>, w: nat, noutput: nat) returns (st': State, w': nat)
      requires Valid() && Tables() && Outside(output) && w <= noutput <= output.Length
      requires st == Status ==> state == Status
      modifies this, output
      ensures Valid() && Tables() && Outside(output) && w <= w' <= noutput
      ensures rxSampleNumber == old(rxSampleNumber) && monitor == old(monitor)
      ensures edge == old(edge) && rxBufCount == old(rxBufCount) && shown == old(shown)
      ensures st' == Status ==> state == Status
      ensures st' == (if st == Status then StatusOnSent else st)
    {
      st', w' := st, w;
      if st != Idle {
        if st == Status {
          st' := StatusOnSent;
          TransmitOnPacket();
        }
        if tx.at < tx.sampleNumber && w < noutput {
          var k := ProcessTx(output, w, noutput - w);
          w' := w + k;
        }
      }
    }
  }
}
