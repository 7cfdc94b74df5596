/**
 * The receive front end of src/omnipod_pda.cc as values: the width test
 * of slice(), the symbol codes it stores, the bounded symbol buffer it
 * feeds, and the sign tracking with jitter tolerance of
 * process_rx_sample().
 *
 * Widths are exact: `i - 0.30 < count / sps <= i + 0.30` is written
 * `(10 i - 3) sps < 10 count <= (10 i + 3) sps`, which also gives the
 * source's outcome when sps is 0 (count / 0 is infinite or not a number,
 * and every test fails).
 */
module RxSlicer {
  import Manchester

  type Byte = Manchester.Byte

  /** m_avg_n: the full-width loop stops below m_avg_n - 1. */
  const AvgN: nat := 8

  /** sizeof(m_rx_buf): BUFSIZ, which is 8192 in glibc. */
  const BufSize: nat := 8192

  /** The width of a pulse in symbols lies within 0.3 of the whole number i. */
  predicate FullWindow(i: nat, count: nat, sps: nat)
  {
    (10 * i - 3) * sps < 10 * count && 10 * count <= (10 * i + 3) * sps
  }

  /** The width lies within 0.3 of i + 0.5. */
  predicate HalfWindow(i: nat, count: nat, sps: nat)
  {
    (10 * i + 2) * sps < 10 * count && 10 * count <= (10 * i + 8) * sps
  }

  /** What slice() makes of one pulse. */
  datatype Width =
    | Full(n: nat)   // n whole symbols, 1 <= n <= 6
    | Half(k: nat)   // k + 0.5 symbols, k <= 2
    | Invalid

  /** The first whole width from i up to 6 whose window holds the pulse, or 0. */
  function FullFrom(i: nat, count: nat, sps: nat): nat
    decreases AvgN - 1 - i
  {
    if i >= AvgN - 1 then 0 else if FullWindow(i, count, sps) then i else FullFrom(i + 1, count, sps)
  }

  /** The first half width from i up to 2 whose window holds the pulse, or 3. */
  function HalfFrom(i: nat, count: nat, sps: nat): nat
    decreases 3 - i
  {
    if i > 2 then 3 else if HalfWindow(i, count, sps) then i else HalfFrom(i + 1, count, sps)
  }

  /** Whole widths are tried first, then half widths. */
  function Classify(count: nat, sps: nat): Width
  {
    var n := FullFrom(1, count, sps);
    if n > 0 then Full(n)
    else
      var k := HalfFrom(0, count, sps);
      if k <= 2 then Half(k) else Invalid
  }

  /** `n` copies of one code, built the way slice()'s loop stores them. */
  function Copies(b: Byte, n: nat): (r: seq<Byte>)
    ensures |r| == n && forall i :: 0 <= i < n ==> r[i] == b
  {
    if n == 0 then [] else Copies(b, n - 1) + [b]
  }

  /** The codes slice() stores for a pulse: `high` is m_sign >= 0. */
  function Codes(w: Width, high: bool): seq<Byte>
    requires w.Half? ==> w.k <= 2
  {
    var b: Byte := if high then 1 else 0;
    match w
    case Full(n) => Copies(b, n)
    case Half(k) => [(k + 1) * 2 + b]
    case Invalid => []
  }

  // ---------------------------------------------------------------------
  // The width loops of slice()

  lemma MulMono(a: int, b: int, s: nat)
    requires a <= b
    ensures a * s <= b * s
  {
  }

  /**
   * Once a window starts at or after the pulse, so does every later one:
   * the loop's early exit on `i - m_error < symbols` loses nothing.
   */
  lemma {:induction false} NoLaterFull(i: nat, count: nat, sps: nat)
    requires i >= 1 && (10 * i - 3) * sps >= 10 * count
    ensures FullFrom(i, count, sps) == 0
    decreases AvgN - 1 - i
  {
    if i < AvgN - 1 {
      MulMono(10 * i - 3, 10 * (i + 1) - 3, sps);
      NoLaterFull(i + 1, count, sps);
    }
  }

  lemma {:induction false} NoLaterHalf(i: nat, count: nat, sps: nat)
    requires (10 * i + 2) * sps >= 10 * count
    ensures HalfFrom(i, count, sps) == 3
    decreases 3 - i
  {
    if i <= 2 {
      MulMono(10 * i + 2, 10 * (i + 1) + 2, sps);
      NoLaterHalf(i + 1, count, sps);
    }
  }

  /** The two loops of slice() that pick a pulse's width. */
  method MatchWidth(count: nat, sps: nat) returns (w: Width)
    ensures w == Classify(count, sps)
  {
    var i := 1;
    while i < AvgN - 1 && (10 * i - 3) * sps < 10 * count
      invariant 1 <= i <= AvgN - 1
      invariant FullFrom(1, count, sps) == FullFrom(i, count, sps)
      decreases AvgN - 1 - i
    {
      if 10 * count <= (10 * i + 3) * sps {
        return Full(i);
      }
      i := i + 1;
    }
    if i < AvgN - 1 {
      NoLaterFull(i, count, sps);
    }
    i := 0;
    while i <= 2 && (10 * i + 2) * sps < 10 * count
      invariant 0 <= i <= 3
      invariant HalfFrom(0, count, sps) == HalfFrom(i, count, sps)
      decreases 3 - i
    {
      if 10 * count <= (10 * i + 8) * sps {
        return Half(i);
      }
      i := i + 1;
    }
    if i <= 2 {
      NoLaterHalf(i, count, sps);
    }
    w := Invalid;
  }

  // ---------------------------------------------------------------------
  // What the classification means

  lemma {:induction false} FullFromFound(i: nat, count: nat, sps: nat)
    requires i >= 1
    ensures FullFrom(i, count, sps) == 0 || (i <= FullFrom(i, count, sps) < AvgN - 1
                                            && FullWindow(FullFrom(i, count, sps), count, sps))
    ensures FullFrom(i, count, sps) == 0 <==> forall j :: i <= j < AvgN - 1 ==> !FullWindow(j, count, sps)
    decreases AvgN - 1 - i
  {
    if i < AvgN - 1 && !FullWindow(i, count, sps) {
      FullFromFound(i + 1, count, sps);
    }
  }

  lemma {:induction false} HalfFromFound(i: nat, count: nat, sps: nat)
    ensures HalfFrom(i, count, sps) == 3 || (i <= HalfFrom(i, count, sps) <= 2
                                            && HalfWindow(HalfFrom(i, count, sps), count, sps))
    ensures HalfFrom(i, count, sps) == 3 <==> forall j :: i <= j <= 2 ==> !HalfWindow(j, count, sps)
    decreases 3 - i
  {
    if i <= 2 && !HalfWindow(i, count, sps) {
      HalfFromFound(i + 1, count, sps);
    }
  }

  /** Two windows of different whole widths never overlap. */
  lemma FullWindowsDisjoint(i: nat, j: nat, count: nat, sps: nat)
    requires 1 <= i < j && FullWindow(i, count, sps)
    ensures !FullWindow(j, count, sps)
  {
    MulMono(10 * i + 3, 10 * j - 3, sps);
  }

  lemma HalfWindowsDisjoint(i: nat, j: nat, count: nat, sps: nat)
    requires i < j && HalfWindow(i, count, sps)
    ensures !HalfWindow(j, count, sps)
  {
    MulMono(10 * i + 8, 10 * j + 2, sps);
  }

  /** A pulse is n whole symbols exactly when it lies in the n-th window, 1 <= n <= 6. */
  lemma ClassifyFull(count: nat, sps: nat, n: nat)
    ensures Classify(count, sps) == Full(n) <==> 1 <= n <= AvgN - 2 && FullWindow(n, count, sps)
  {
    FullFromFound(1, count, sps);
    var m := FullFrom(1, count, sps);
    if 1 <= n <= AvgN - 2 && FullWindow(n, count, sps) && m != n {
      if m < n {
        FullWindowsDisjoint(m, n, count, sps);
      } else {
        FullWindowsDisjoint(n, m, count, sps);
      }
    }
  }

  /**
   * A pulse is k + 0.5 symbols exactly when it lies in no whole window
   * and in the k-th half window, k <= 2: whole widths take precedence
   * where the windows overlap.
   */
  lemma ClassifyHalf(count: nat, sps: nat, k: nat)
    ensures Classify(count, sps) == Half(k) <==>
              k <= 2 && HalfWindow(k, count, sps)
              && forall j :: 1 <= j < AvgN - 1 ==> !FullWindow(j, count, sps)
  {
    FullFromFound(1, count, sps);
    HalfFromFound(0, count, sps);
    var m := HalfFrom(0, count, sps);
    if k <= 2 && HalfWindow(k, count, sps) && m != k {
      if m < k {
        HalfWindowsDisjoint(m, k, count, sps);
      } else {
        HalfWindowsDisjoint(k, m, count, sps);
      }
    }
  }

  /** A pulse is rejected exactly when it lies in no window at all. */
  lemma ClassifyInvalid(count: nat, sps: nat)
    ensures Classify(count, sps) == Invalid <==>
              (forall j :: 1 <= j < AvgN - 1 ==> !FullWindow(j, count, sps))
              && (forall j :: 0 <= j <= 2 ==> !HalfWindow(j, count, sps))
  {
    FullFromFound(1, count, sps);
    HalfFromFound(0, count, sps);
  }

  /** A pulse of exactly n symbols, 1 <= n <= 6, is read as n symbols. */
  lemma ExactWhole(n: nat, sps: nat)
    requires 1 <= n <= AvgN - 2 && sps >= 1
    ensures Classify(n * sps, sps) == Full(n)
  {
    assert FullWindow(n, n * sps, sps);
    ClassifyFull(n * sps, sps, n);
  }

  /** A pulse of exactly seven symbols is rejected: m_avg_n - 1 caps the run. */
  lemma SevenRejected(sps: nat)
    requires sps >= 1
    ensures Classify(7 * sps, sps) == Invalid
  {
    forall j | 1 <= j < AvgN - 1
      ensures !FullWindow(j, 7 * sps, sps)
    {
      MulMono(10 * j + 3, 70, sps);
    }
    forall j | 0 <= j <= 2
      ensures !HalfWindow(j, 7 * sps, sps)
    {
      MulMono(10 * j + 8, 70, sps);
    }
    ClassifyInvalid(7 * sps, sps);
  }

  /** A pulse of exactly k + 0.5 symbols, k <= 2, is read as a half width. */
  lemma ExactHalf(k: nat, count: nat, sps: nat)
    requires k <= 2 && sps >= 1 && 2 * count == (2 * k + 1) * sps
    ensures Classify(count, sps) == Half(k)
  {
    assert 10 * count == (10 * k + 5) * sps;
    forall j | 1 <= j < AvgN - 1
      ensures !FullWindow(j, count, sps)
    {
      if j <= k {
        MulMono(10 * j + 3, 10 * k + 3, sps);
      } else {
        MulMono(10 * k + 7, 10 * j - 3, sps);
      }
    }
    ClassifyHalf(count, sps, k);
  }

  /**
   * slice() stores only codes the decoder knows, 0..7, and at most six of
   * them for one pulse.
   */
  lemma CodesInRange(w: Width, high: bool, count: nat, sps: nat)
    requires w == Classify(count, sps)
    ensures w.Half? ==> w.k <= 2
    ensures |Codes(w, high)| <= AvgN - 2
    ensures forall k :: 0 <= k < |Codes(w, high)| ==> Codes(w, high)[k] <= 7
    ensures |Codes(w, high)| == 0 <==> w == Invalid
  {
    FullFromFound(1, count, sps);
    HalfFromFound(0, count, sps);
  }

  // ---------------------------------------------------------------------
  // The symbol buffer m_rx_buf

  /** The buffer's contents and the bursts handed to the decoder so far. */
  datatype RxBuf = RxBuf(buf: seq<Byte>, bursts: seq<seq<Byte>>)

  /**
   * One `m_rx_buf[m_rx_buf_count++] = code`, then decode_rx_symbols()
   * when the buffer is full.
   */
  function Push(st: RxBuf, code: Byte): RxBuf
  {
    if |st.buf| + 1 >= BufSize then RxBuf([], st.bursts + [st.buf + [code]])
    else RxBuf(st.buf + [code], st.bursts)
  }

  function PushAll(st: RxBuf, codes: seq<Byte>): RxBuf
    decreases |codes|
  {
    if codes == [] then st else PushAll(Push(st, codes[0]), codes[1..])
  }

  /** decode_rx_symbols(): a non-empty buffer is handed over and emptied. */
  function Flush(st: RxBuf): RxBuf
  {
    if st.buf == [] then st else RxBuf([], st.bursts + [st.buf])
  }

  function Joined(bursts: seq<seq<Byte>>): seq<Byte>
  {
    if bursts == [] then [] else Joined(bursts[..|bursts| - 1]) + bursts[|bursts| - 1]
  }

  /**
   * Pushing never loses or reorders a code: what was handed over plus
   * what is buffered is what came in, and the count stays below BUFSIZ.
   */
  lemma {:induction false} PushAllKeeps(st: RxBuf, codes: seq<Byte>)
    requires |st.buf| < BufSize
    ensures |PushAll(st, codes).buf| < BufSize
    ensures st.bursts <= PushAll(st, codes).bursts
    ensures Joined(PushAll(st, codes).bursts) + PushAll(st, codes).buf == Joined(st.bursts) + st.buf + codes
    decreases |codes|
  {
    if codes != [] {
      var next := Push(st, codes[0]);
      PushAllKeeps(next, codes[1..]);
      assert PushAll(st, codes) == PushAll(next, codes[1..]);
      assert Joined(next.bursts) + next.buf == Joined(st.bursts) + st.buf + [codes[0]] by {
        if |st.buf| + 1 >= BufSize {
          assert next.bursts[..|next.bursts| - 1] == st.bursts;
        }
      }
      assert codes == [codes[0]] + codes[1..];
    }
  }

  /** Every burst handed over when the buffer fills holds exactly BUFSIZ codes. */
  lemma {:induction false} PushAllFullBursts(st: RxBuf, codes: seq<Byte>)
    requires |st.buf| < BufSize
    ensures forall k :: |st.bursts| <= k < |PushAll(st, codes).bursts| ==> |PushAll(st, codes).bursts[k]| == BufSize
    decreases |codes|
  {
    if codes != [] {
      var next := Push(st, codes[0]);
      PushAllFullBursts(next, codes[1..]);
      PushAllKeeps(next, codes[1..]);
    }
  }

  /** Bursts handed over earlier play no part in what later pushes do. */
  lemma {:induction false} PushAllShift(buf: seq<Byte>, bs: seq<seq<Byte>>, codes: seq<Byte>)
    ensures PushAll(RxBuf(buf, bs), codes)
         == RxBuf(PushAll(RxBuf(buf, []), codes).buf, bs + PushAll(RxBuf(buf, []), codes).bursts)
    decreases |codes|
  {
    if codes == [] {
      assert bs + [] == bs;
    } else {
      var a := Push(RxBuf(buf, bs), codes[0]);
      var b := Push(RxBuf(buf, []), codes[0]);
      assert a == RxBuf(b.buf, bs + b.bursts);
      PushAllShift(a.buf, bs + b.bursts, codes[1..]);
      PushAllShift(b.buf, b.bursts, codes[1..]);
      var rest := PushAll(RxBuf(b.buf, []), codes[1..]);
      assert (bs + b.bursts) + rest.bursts == bs + (b.bursts + rest.bursts);
    }
  }

  lemma {:induction false} PushAllSnoc(st: RxBuf, codes: seq<Byte>, c: Byte)
    ensures PushAll(st, codes + [c]) == Push(PushAll(st, codes), c)
    decreases |codes|
  {
    if codes == [] {
      assert codes + [c] == [c];
      assert [c][1..] == [];
    } else {
      assert (codes + [c])[1..] == codes[1..] + [c];
      PushAllSnoc(Push(st, codes[0]), codes[1..], c);
    }
  }

  lemma PushAllOne(st: RxBuf, c: Byte)
    ensures PushAll(st, [c]) == Push(st, c)
  {
    assert [c][1..] == [];
  }

  lemma FlushKeeps(st: RxBuf)
    ensures Flush(st).buf == []
    ensures Joined(Flush(st).bursts) == Joined(st.bursts) + st.buf
  {
  }

  // ---------------------------------------------------------------------
  // Sign tracking in process_rx_sample()

  /** m_sign, m_count and m_change_count. */
  datatype Edge = Edge(sign: int, count: nat, changeCount: nat)

  predicate EdgeOk(e: Edge, jitter: nat)
  {
    (e.sign == -1 || e.sign == 1) && e.count < 0x1_0000_0000 && e.changeCount <= jitter
  }

  /**
   * One sample, `below` meaning cur < avg: the new edge state and whether
   * slice() ran on the old one.  A sample on the current side absorbs any
   * pending opposite samples into the count; an opposite sample is held
   * back until more than m_jitter of them have come in a row.
   */
  function Track(e: Edge, below: bool, jitter: nat): (Edge, bool)
  {
    var same := if below then e.sign < 0 else e.sign > 0;
    if same then (Edge(e.sign, (e.count + e.changeCount + 1) % 0x1_0000_0000, 0), false)
    else if e.changeCount < jitter then (Edge(e.sign, e.count, e.changeCount + 1), false)
    else (Edge(if below then -1 else 1, e.changeCount + 1, 0), true)
  }

  lemma TrackKeeps(e: Edge, below: bool, jitter: nat)
    requires EdgeOk(e, jitter) && jitter < 0x1_0000_0000 - 1
    ensures EdgeOk(Track(e, below, jitter).0, jitter)
    ensures Track(e, below, jitter).1 ==> Track(e, below, jitter).0.sign == (if below then -1 else 1) != e.sign
  {
  }

  /** A run of samples, fed one by one; the edges slice() ran on, in order. */
  function TrackAll(e: Edge, samples: seq<bool>, jitter: nat): (Edge, seq<Edge>)
    decreases |samples|
  {
    if samples == [] then (e, [])
    else
      var t := Track(e, samples[0], jitter);
      var r := TrackAll(t.0, samples[1..], jitter);
      (r.0, (if t.1 then [e] else []) + r.1)
  }

  /**
   * A glitch of k <= m_jitter opposite samples followed by one more sample
   * on the current side changes nothing but the count, which takes in all
   * k + 1 samples.
   */
  lemma {:induction false} GlitchAbsorbed(e: Edge, below: bool, k: nat, jitter: nat)
    requires (e.sign == -1 || e.sign == 1) && e.changeCount == 0 && k <= jitter
    requires below == (e.sign > 0)
    ensures TrackAll(e, seq(k, _ => below) + [!below], jitter)
         == (Edge(e.sign, (e.count + k + 1) % 0x1_0000_0000, 0), [])
  {
    HeldBack(e, below, k, jitter);
    var run := seq(k, _ => below);
    TrackAllAppend(e, run, [!below], jitter);
    SingleSample(Edge(e.sign, e.count, k), !below, jitter);
  }

  /** k <= m_jitter opposite samples in a row are only counted as pending. */
  lemma {:induction false} HeldBack(e: Edge, below: bool, k: nat, jitter: nat)
    requires (e.sign == -1 || e.sign == 1) && e.changeCount == 0 && k <= jitter
    requires below == (e.sign > 0)
    ensures TrackAll(e, seq(k, _ => below), jitter) == (Edge(e.sign, e.count, k), [])
  {
    if k == 0 {
      assert seq(k, _ => below) == [];
    } else {
      HeldBack(e, below, k - 1, jitter);
      var run := seq(k - 1, _ => below);
      assert seq(k, _ => below) == run + [below];
      TrackAllAppend(e, run, [below], jitter);
      SingleSample(Edge(e.sign, e.count, k - 1), below, jitter);
    }
  }

  lemma SingleSample(e: Edge, below: bool, jitter: nat)
    ensures TrackAll(e, [below], jitter)
         == (Track(e, below, jitter).0, if Track(e, below, jitter).1 then [e] else [])
  {
    assert [below][1..] == [];
    var pre: seq<Edge> := if Track(e, below, jitter).1 then [e] else [];
    assert pre + [] == pre;
  }

  /**
   * The (m_jitter + 1)-th opposite sample in a row flips the sign, runs
   * slice() on the pulse so far, and starts the new pulse with all
   * m_jitter + 1 samples.
   */
  lemma Flip(e: Edge, below: bool, jitter: nat)
    requires (e.sign == -1 || e.sign == 1) && e.changeCount == 0
    requires below == (e.sign > 0)
    ensures TrackAll(e, seq(jitter + 1, _ => below), jitter)
         == (Edge(-e.sign, jitter + 1, 0), [Edge(e.sign, e.count, jitter)])
  {
    HeldBack(e, below, jitter, jitter);
    var run := seq(jitter, _ => below);
    assert seq(jitter + 1, _ => below) == run + [below];
    TrackAllAppend(e, run, [below], jitter);
    var held := Edge(e.sign, e.count, jitter);
    SingleSample(held, below, jitter);
    assert [] + [held] == [held];
  }

  lemma {:induction false} TrackAllAppend(e: Edge, a: seq<bool>, b: seq<bool>, jitter: nat)
    ensures TrackAll(e, a + b, jitter)
         == (TrackAll(TrackAll(e, a, jitter).0, b, jitter).0,
             TrackAll(e, a, jitter).1 + TrackAll(TrackAll(e, a, jitter).0, b, jitter).1)
    decreases |a|
  {
    if a == [] {
      assert a + b == b;
      assert [] + TrackAll(e, b, jitter).1 == TrackAll(e, b, jitter).1;
    } else {
      assert (a + b)[1..] == a[1..] + b;
      var t := Track(e, a[0], jitter);
      TrackAllAppend(t.0, a[1..], b, jitter);
      var pre: seq<Edge> := if t.1 then [e] else [];
      var x := TrackAll(t.0, a[1..], jitter);
      var y := TrackAll(x.0, b, jitter);
      assert pre + (x.1 + y.1) == (pre + x.1) + y.1;
    }
  }
}
