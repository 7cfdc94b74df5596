// The start-up rules of the Python front end (python/omnipda.py): which
// daughterboard slot to use, the decimation and interpolation of the USRP,
// the gains, and how the flow graph is wired.  The USRP itself is a record
// of what its queries answer; opening it, tuning it and connecting blocks
// are library calls, so only their outcomes appear here.

module Config {

  datatype Option<T> = None | Some(value: T)

  datatype Result<T, E> = Ok(value: T) | Err(error: E)

  /** A subdevice spec: (slot, subdevice). */
  type Spec = (int, int)

  /** The sample rate the front end asks for, 250 kHz. */
  const SampleRate: nat := 250000

  /** Why start-up ends in sys.exit (or in an uncaught exception). */
  datatype Failure =
    | CannotOpenUsrp
    | ZeroDivision
    | Unbalanced
    | InvalidRxSpec
    | InvalidTxSpec
    | NoRxBoard
    | NoTxBoard
    | ArityError
    | RxTuneFailed
    | TxTuneFailed

  // ---------------------------------------------------------------------
  // Daughterboards

  /** valid_rx_subdev: the board in that slot is one of the two receivers (ids 1 and 15). */
  predicate ValidRxSubdev(dbid: Spec -> int, s: Spec): (b: bool)
    ensures b ==> !ValidTxSubdev(dbid, s)
  {
    dbid(s) == 1 || dbid(s) == 15
  }

  /** valid_tx_subdev: the board in that slot is one of the two transmitters (ids 0 and 14). */
  predicate ValidTxSubdev(dbid: Spec -> int, s: Spec): (b: bool)
    ensures b ==> dbid(s) != 1 && dbid(s) != 15
  {
    dbid(s) == 0 || dbid(s) == 14
  }

  /** The preference order of pick_rx_subdev_spec and pick_tx_subdev_spec: side A, then side B. */
  function PickSubdevSpec(valid: Spec -> bool, none: Failure): (r: Result<Spec, Failure>)
    ensures r.Ok? <==> valid((0, 0)) || valid((1, 0))
    ensures r.Ok? ==> valid(r.value)
    ensures r.Ok? && r.value != (0, 0) ==> r.value == (1, 0) && !valid((0, 0))
    ensures r.Err? ==> r.error == none
  {
    if valid((0, 0)) then Ok((0, 0))
    else if valid((1, 0)) then Ok((1, 0))
    else Err(none)
  }

  /** pick_rx_subdev_spec: the first receiving slot, or "No suitable RX daughterboard found!". */
  function PickRxSubdevSpec(dbid: Spec -> int): (r: Result<Spec, Failure>)
    ensures r.Ok? ==> ValidRxSubdev(dbid, r.value)
    ensures r.Ok? <==> ValidRxSubdev(dbid, (0, 0)) || ValidRxSubdev(dbid, (1, 0))
    ensures ValidRxSubdev(dbid, (0, 0)) ==> r == Ok((0, 0))
    ensures r.Err? ==> r.error == NoRxBoard
  {
    PickSubdevSpec(s => ValidRxSubdev(dbid, s), NoRxBoard)
  }

  /** pick_tx_subdev_spec: the first transmitting slot, or "No suitable TX daughterboard found!". */
  function PickTxSubdevSpec(dbid: Spec -> int): (r: Result<Spec, Failure>)
    ensures r.Ok? ==> ValidTxSubdev(dbid, r.value)
    ensures r.Ok? <==> ValidTxSubdev(dbid, (0, 0)) || ValidTxSubdev(dbid, (1, 0))
    ensures ValidTxSubdev(dbid, (0, 0)) ==> r == Ok((0, 0))
    ensures r.Err? ==> r.error == NoTxBoard
  {
    PickSubdevSpec(s => ValidTxSubdev(dbid, s), NoTxBoard)
  }

  /**
   * The RX spec as the constructor chooses it.  A spec given with -R is
   * checked by calling valid_rx_subdev with one argument against its two
   * parameters, so that branch always raises a TypeError.
   */
  function SelectRxAsWritten(given: Option<Spec>, dbid: Spec -> int): (r: Result<Spec, Failure>)
    ensures given.Some? ==> r == Err(ArityError)
    ensures given.None? ==> r == PickRxSubdevSpec(dbid)
  {
    if given.Some? then Err(ArityError) else PickRxSubdevSpec(dbid)
  }

  /** The RX spec as evidently intended: a given spec is used when the board there receives. */
  function SelectRx(given: Option<Spec>, dbid: Spec -> int): (r: Result<Spec, Failure>)
    ensures r.Ok? ==> ValidRxSubdev(dbid, r.value)
    ensures given.Some? ==> (r.Ok? <==> ValidRxSubdev(dbid, given.value))
    ensures given.Some? && r.Ok? ==> r.value == given.value
    ensures given.Some? && r.Err? ==> r.error == InvalidRxSpec
    ensures given.None? ==> r == PickRxSubdevSpec(dbid)
  {
    if given.None? then PickRxSubdevSpec(dbid)
    else if ValidRxSubdev(dbid, given.value) then Ok(given.value)
    else Err(InvalidRxSpec)
  }

  /** The TX spec as written: -T fails the same way as -R. */
  function SelectTxAsWritten(given: Option<Spec>, dbid: Spec -> int): (r: Result<Spec, Failure>)
    ensures given.Some? ==> r == Err(ArityError)
    ensures given.None? ==> r == PickTxSubdevSpec(dbid)
  {
    if given.Some? then Err(ArityError) else PickTxSubdevSpec(dbid)
  }

  /** The TX spec as evidently intended. */
  function SelectTx(given: Option<Spec>, dbid: Spec -> int): (r: Result<Spec, Failure>)
    ensures r.Ok? ==> ValidTxSubdev(dbid, r.value)
    ensures given.Some? ==> (r.Ok? <==> ValidTxSubdev(dbid, given.value))
    ensures given.Some? && r.Ok? ==> r.value == given.value
    ensures given.Some? && r.Err? ==> r.error == InvalidTxSpec
    ensures given.None? ==> r == PickTxSubdevSpec(dbid)
  {
    if given.None? then PickTxSubdevSpec(dbid)
    else if ValidTxSubdev(dbid, given.value) then Ok(given.value)
    else Err(InvalidTxSpec)
  }

  /** A receiving board named with -R is refused as written and taken as intended. */
  lemma GivenRxSpecNeverUsed(s: Spec, dbid: Spec -> int)
    requires ValidRxSubdev(dbid, s)
    ensures SelectRxAsWritten(Some(s), dbid) == Err(ArityError)
    ensures SelectRx(Some(s), dbid) == Ok(s)
  {
  }

  /** A transmitting board named with -T is refused as written and taken as intended. */
  lemma GivenTxSpecNeverUsed(s: Spec, dbid: Spec -> int)
    requires ValidTxSubdev(dbid, s)
    ensures SelectTxAsWritten(Some(s), dbid) == Err(ArityError)
    ensures SelectTx(Some(s), dbid) == Ok(s)
  {
  }

  // ---------------------------------------------------------------------
  // Rates

  datatype Rates = Rates(decimation: nat, interpolation: nat, sampleRate: nat)

  /**
   * Decimation is the ADC rate over 250 kHz, truncated; interpolation is
   * twice that; the sample rate is recomputed as the ADC rate over the
   * decimation in integer division, which is by zero when the ADC is
   * slower than 250 kHz, and start-up stops unless the DAC side, divided
   * by the interpolation, gives the same rate.
   */
  function ConfigureRates(adc: nat, dac: nat): (r: Result<Rates, Failure>)
    ensures adc < SampleRate <==> r == Err(ZeroDivision)
    ensures r.Ok? ==> r.value.interpolation == 2 * r.value.decimation
    ensures r.Ok? ==> r.value.decimation * SampleRate <= adc < (r.value.decimation + 1) * SampleRate
    ensures r.Ok? ==> r.value.decimation >= 1 && r.value.sampleRate == dac / r.value.interpolation
    ensures r.Ok? ==> r.value.sampleRate == adc / r.value.decimation
    ensures var d := adc / SampleRate;
      r == Err(Unbalanced) <==> d >= 1 && adc / d != dac / (2 * d)
    ensures var d := adc / SampleRate;
      r.Ok? <==> d >= 1 && adc / d == dac / (2 * d)
  {
    var d := adc / SampleRate;
    if d == 0 then Err(ZeroDivision)
    else if adc / d != dac / (2 * d) then Err(Unbalanced)
    else Ok(Rates(d, 2 * d, adc / d))
  }

  /** Integer division has one quotient and remainder. */
  lemma DivUnique(n: nat, d: nat, q: nat, m: nat)
    requires 0 < d && n == q * d + m && m < d
    ensures n / d == q
  {
    var q' := n / d;
    var m' := n % d;
    assert n == q' * d + m';
    if q' < q {
      assert (q - q') * d == m' - m;
      assert (q - q') * d >= d by { MulAtLeast(q - q', d); }
    } else if q' > q {
      assert (q' - q) * d == m - m';
      assert (q' - q) * d >= d by { MulAtLeast(q' - q, d); }
    }
  }

  lemma MulAtLeast(k: nat, d: nat)
    requires 1 <= k
    ensures k * d >= d
  {
  }

  /** With a DAC clocked at twice the ADC, as on the USRP, the rates always balance. */
  lemma {:induction false} BalancedWhenDacDoubles(adc: nat)
    requires adc >= SampleRate
    ensures ConfigureRates(adc, 2 * adc).Ok?
  {
    var d := adc / SampleRate;
    var q, m := adc / d, adc % d;
    DivUnique(2 * adc, 2 * d, q, 2 * m);
  }

  lemma MulLe(a: nat, b: nat, d: nat)
    requires a <= b
    ensures a * d <= b * d
  {
    assert b * d == a * d + (b - a) * d;
  }

  /** k * d <= n makes k at most n / d. */
  lemma QuotientAtLeast(n: nat, d: nat, k: nat)
    requires 0 < d && k * d <= n
    ensures k <= n / d
  {
    var q := n / d;
    assert n == q * d + n % d;
    if q < k {
      MulLe(q + 1, k, d);
    }
  }

  /** n < c * d makes n / d less than c. */
  lemma QuotientBelow(n: nat, d: nat, c: nat)
    requires 0 < d && n < c * d
    ensures n / d < c
  {
    var q := n / d;
    assert q * d <= n;
    if q >= c {
      MulLe(c, q, d);
    }
  }

  /** The rate handed to the decoder stays within [250 kHz, 500 kHz). */
  lemma {:induction false} SampleRateRange(adc: nat, dac: nat)
    requires ConfigureRates(adc, dac).Ok?
    ensures SampleRate <= ConfigureRates(adc, dac).value.sampleRate < 2 * SampleRate
  {
    var d := adc / SampleRate;
    assert ConfigureRates(adc, dac).value.sampleRate == adc / d;
    assert SampleRate * d <= adc < (d + 1) * SampleRate;
    QuotientAtLeast(adc, d, SampleRate);
    MulLe(d + 1, 2 * d, SampleRate);
    assert (d + 1) * SampleRate <= 2 * SampleRate * d;
    QuotientBelow(adc, d, 2 * SampleRate);
  }

  /** The 52 MHz and 64 MHz clocks of the comment both give exactly 250 kHz. */
  lemma UsrpClocks()
    ensures ConfigureRates(52000000, 104000000) == Ok(Rates(208, 416, SampleRate))
    ensures ConfigureRates(64000000, 128000000) == Ok(Rates(256, 512, SampleRate))
  {
  }

  // ---------------------------------------------------------------------
  // Gains

  /** The RX gain: three quarters of the way up the board's range. */
  function RxGain(lo: real, hi: real): (g: real)
    ensures lo <= hi ==> lo <= g <= hi
    ensures g - lo == 3.0 * (hi - g)
  {
    0.75 * (hi - lo) + lo
  }

  /** The TX gain: the top of the board's range, never below the RX gain of the same range. */
  function TxGain(lo: real, hi: real): (g: real)
    ensures lo <= hi ==> RxGain(lo, hi) <= g
  {
    hi
  }

  // ---------------------------------------------------------------------
  // Topology

  datatype Block =
    | UsrpSource
    | FileSource
    | UsrpSink
    | NullSink
    | ReplaySource
    | Throttle
    | Decoder
    | ReplayNullSink

  type Link = (Block, Block)

  /** connect(a, b, ...): each block feeds the next. */
  function Chain(bs: seq<Block>): (ls: seq<Link>)
    ensures |ls| == if |bs| < 2 then 0 else |bs| - 1
    ensures forall i :: 0 <= i < |ls| ==> ls[i] == (bs[i], bs[i + 1])
  {
    if |bs| < 2 then [] else [(bs[0], bs[1])] + Chain(bs[1..])
  }

  /** With -f the input is the file and the sink a null sink; otherwise both are the USRP. */
  function SourceOf(fileInput: bool): Block
  {
    if fileInput then FileSource else UsrpSource
  }

  function SinkOf(fileInput: bool): Block
  {
    if fileInput then NullSink else UsrpSink
  }

  /**
   * The connections the constructor makes: with -r the sink plays the
   * replay file through a throttle and the decoder's output goes to a
   * null sink of its own; otherwise the decoder sits between source and sink.
   */
  function Topology(fileInput: bool, replay: bool): (ls: seq<Link>)
    ensures |ls| == if replay then 4 else 2
    ensures forall l :: l in ls ==> l.0 != l.1
  {
    var source, sink := SourceOf(fileInput), SinkOf(fileInput);
    if replay then [(ReplaySource, Throttle), (Throttle, sink), (source, Decoder), (Decoder, ReplayNullSink)]
    else [(source, Decoder), (Decoder, sink)]
  }

  /** The links are those of the constructor's connect calls, in their order. */
  lemma TopologyConnects(fileInput: bool, replay: bool)
    ensures var source, sink := SourceOf(fileInput), SinkOf(fileInput);
      Topology(fileInput, replay) ==
        if replay then Chain([ReplaySource, Throttle, sink]) + Chain([source, Decoder, ReplayNullSink])
        else Chain([source, Decoder, sink])
  {
    var source, sink := SourceOf(fileInput), SinkOf(fileInput);
    assert Chain([ReplaySource, Throttle, sink]) == [(ReplaySource, Throttle), (Throttle, sink)];
    assert Chain([source, Decoder, ReplayNullSink]) == [(source, Decoder), (Decoder, ReplayNullSink)];
    assert Chain([source, Decoder, sink]) == [(source, Decoder), (Decoder, sink)];
  }

  /** The decoder always listens to the source, and nothing else feeds it. */
  lemma DecoderInput(fileInput: bool, replay: bool)
    ensures (SourceOf(fileInput), Decoder) in Topology(fileInput, replay)
    ensures forall l :: l in Topology(fileInput, replay) && l.1 == Decoder ==> l.0 == SourceOf(fileInput)
  {
  }

  /** The sink hears only the throttle with -r and only the decoder without it. */
  lemma SinkInput(fileInput: bool, replay: bool)
    ensures forall l :: l in Topology(fileInput, replay) && l.1 == SinkOf(fileInput) ==>
      l.0 == (if replay then Throttle else Decoder)
    ensures (if replay then Throttle else Decoder, SinkOf(fileInput)) in Topology(fileInput, replay)
  {
  }

  /** With -r the decoder's output goes only to its null sink. */
  lemma ReplayDiscardsDecoder(fileInput: bool)
    ensures forall l :: l in Topology(fileInput, true) && l.0 == Decoder ==> l.1 == ReplayNullSink
  {
  }

  /** With -f nothing reaches the radio and nothing comes from it. */
  lemma FileInputNeverTransmits(replay: bool)
    ensures forall l :: l in Topology(true, replay) ==> l.1 != UsrpSink && l.0 != UsrpSource
  {
  }

  // ---------------------------------------------------------------------
  // transceiver_interface.__init__

  datatype Options = Options(
    filename: Option<string>, replayFilename: Option<string>,
    rxSubdevSpec: Option<Spec>, txSubdevSpec: Option<Spec>)

  /** What the USRP answers: whether it opens, its clocks, boards, gain ranges and tuning. */
  datatype Usrp = Usrp(
    opens: bool, adcRate: nat, dacRate: nat,
    rxDbid: Spec -> int, txDbid: Spec -> int,
    rxGainRange: Spec -> (real, real), txGainRange: Spec -> (real, real),
    rxTunes: bool, txTunes: bool)

  datatype Radio =
    | FromFile
    | Live(rates: Rates, rxSpec: Spec, txSpec: Spec, rxGain: real, txGain: real)

  datatype Setup = Setup(radio: Radio, sampleRate: nat, fileInput: bool, replay: bool)

  /**
   * The checks of the constructor in their order: with -f none of them is
   * made and the rate stays 250 kHz; otherwise the USRP must open, the
   * rates must balance, both boards must suit, and both sides must tune.
   */
  function Configure(opts: Options, dev: Usrp): (r: Result<Setup, Failure>)
    ensures r.Ok? ==> r.value.fileInput == opts.filename.Some? && r.value.replay == opts.replayFilename.Some?
    ensures r.Ok? ==> SampleRate <= r.value.sampleRate < 2 * SampleRate
    ensures r.Ok? ==> (r.value.radio.FromFile? <==> opts.filename.Some?)
    ensures opts.filename.Some? ==> r.Ok? && r.value.sampleRate == SampleRate
    ensures r.Ok? && r.value.radio.Live? ==>
      ValidRxSubdev(dev.rxDbid, r.value.radio.rxSpec) && ValidTxSubdev(dev.txDbid, r.value.radio.txSpec)
      && ConfigureRates(dev.adcRate, dev.dacRate) == Ok(r.value.radio.rates)
    ensures r.Ok? && r.value.radio.Live? ==>
      r.value.sampleRate == r.value.radio.rates.sampleRate
      && SelectRx(opts.rxSubdevSpec, dev.rxDbid) == Ok(r.value.radio.rxSpec)
      && SelectTx(opts.txSubdevSpec, dev.txDbid) == Ok(r.value.radio.txSpec)
      && r.value.radio.rxGain == RxGain(dev.rxGainRange(r.value.radio.rxSpec).0, dev.rxGainRange(r.value.radio.rxSpec).1)
      && r.value.radio.txGain == TxGain(dev.txGainRange(r.value.radio.txSpec).0, dev.txGainRange(r.value.radio.txSpec).1)
    // the checks fail in the order the constructor makes them
    ensures opts.filename.None? && !dev.opens ==> r == Err(CannotOpenUsrp)
    ensures (opts.filename.None? && dev.opens && ConfigureRates(dev.adcRate, dev.dacRate).Err?)
      ==> r == Err(ConfigureRates(dev.adcRate, dev.dacRate).error)
    ensures (opts.filename.None? && dev.opens && ConfigureRates(dev.adcRate, dev.dacRate).Ok?
             && SelectRx(opts.rxSubdevSpec, dev.rxDbid).Err?)
      ==> r == Err(SelectRx(opts.rxSubdevSpec, dev.rxDbid).error)
    ensures (opts.filename.None? && dev.opens && ConfigureRates(dev.adcRate, dev.dacRate).Ok?
             && SelectRx(opts.rxSubdevSpec, dev.rxDbid).Ok? && SelectTx(opts.txSubdevSpec, dev.txDbid).Err?)
      ==> r == Err(SelectTx(opts.txSubdevSpec, dev.txDbid).error)
    ensures (opts.filename.None? && dev.opens && ConfigureRates(dev.adcRate, dev.dacRate).Ok?
             && SelectRx(opts.rxSubdevSpec, dev.rxDbid).Ok? && SelectTx(opts.txSubdevSpec, dev.txDbid).Ok?)
      ==> (!dev.rxTunes ==> r == Err(RxTuneFailed)) && (dev.rxTunes && !dev.txTunes ==> r == Err(TxTuneFailed))
    ensures r.Ok? <==>
      (opts.filename.Some?
       || (dev.opens && ConfigureRates(dev.adcRate, dev.dacRate).Ok? && SelectRx(opts.rxSubdevSpec, dev.rxDbid).Ok?
           && SelectTx(opts.txSubdevSpec, dev.txDbid).Ok? && dev.rxTunes && dev.txTunes))
  {
    var file, replay := opts.filename.Some?, opts.replayFilename.Some?;
    if file then Ok(Setup(FromFile, SampleRate, file, replay))
    else if !dev.opens then Err(CannotOpenUsrp)
    else
      var rates := ConfigureRates(dev.adcRate, dev.dacRate);
      if rates.Err? then Err(rates.error)
      else
        var rx := SelectRx(opts.rxSubdevSpec, dev.rxDbid);
        if rx.Err? then Err(rx.error)
        else
          var tx := SelectTx(opts.txSubdevSpec, dev.txDbid);
          if tx.Err? then Err(tx.error)
          else if !dev.rxTunes then Err(RxTuneFailed)
          else if !dev.txTunes then Err(TxTuneFailed)
          else
            var rxRange, txRange := dev.rxGainRange(rx.value), dev.txGainRange(tx.value);
            SampleRateRange(dev.adcRate, dev.dacRate);
            Ok(Setup(Live(rates.value, rx.value, tx.value,
                          RxGain(rxRange.0, rxRange.1), TxGain(txRange.0, txRange.1)),
                     rates.value.sampleRate, file, replay))
  }
}
