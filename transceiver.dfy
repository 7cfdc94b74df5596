// The Python objects around the decoder block (python/omnipda.py):
// transceiver_interface, which wires the flow graph and starts and stops
// it, and the two handlers of pda_ui that drive it, the Run toggle and the
// Status button.  The text fields' int(text, 16) is taken as given: the
// handlers receive its value, or None where it raised ValueError.

module Transceiver {
  import Pda
  import RxSlicer
  import opened Config

  /** What arrives from Python as an int is an unsigned int on the C++ side, or SWIG raises. */
  predicate FitsUnsigned(v: int)
  {
    0 <= v < Pda.U32
  }

  class TransceiverInterface {
    const setup: Setup
    const pda: Pda.OmnipodPda
    var links: seq<Link>
    var running: bool
    var statusLog: seq<string>

    predicate Valid()
      reads this, pda, pda.rxBuf, pda.zero, pda.one, pda.hv, pda.lv
    {
      pda.Valid() && pda.Tables()
    }

    /**
     * The constructor past its checks: the decoder block at the agreed
     * sample rate, then the connections for the chosen topology.
     */
    constructor (s: Setup)
      requires SampleRate <= s.sampleRate < 2 * SampleRate
      ensures Valid() && fresh(pda) && fresh(pda.rxBuf)
      ensures setup == s && pda.sr == s.sampleRate as real
      ensures pda.Snap() == Pda.Fields(Pda.Idle, true, -1, -1, RxSlicer.Edge(-1, 0, 0), 0, 0, Pda.Tx(null, 0, 0, Pda.AtNever, 0, 0), [], [])
      ensures links == Topology(s.fileInput, s.replay)
      ensures !running && statusLog == []
    {
      setup := s;
      pda := new Pda.OmnipodPda(s.sampleRate as real);
      links := [];
      running := false;
      statusLog := [];
      new;
      Wire(s.fileInput, s.replay);
    }

    /** The connect calls of the constructor, for the chosen topology. */
    method Wire(fileInput: bool, replay: bool)
      modifies this
      ensures links == old(links) + Topology(fileInput, replay)
      ensures running == old(running) && statusLog == old(statusLog)
    {
      var source, sink := SourceOf(fileInput), SinkOf(fileInput);
      if replay {
        Connect([ReplaySource, Throttle, sink]);
        Connect([source, Decoder, ReplayNullSink]);
      } else {
        Connect([source, Decoder, sink]);
      }
    }

    /** connect(a, b, ...): adds one link from each block to the next. */
    method Connect(chain: seq<Block>)
      modifies this
      ensures links == old(links) + Chain(chain)
      ensures running == old(running) && statusLog == old(statusLog)
    {
      links := links + Chain(chain);
    }

    /** do_start: the flow graph runs and the status line says so. */
    method DoStart()
      modifies this
      ensures running && links == old(links)
      ensures statusLog == old(statusLog) + ["PDA Transceiver started"]
    {
      running := true;
      statusLog := statusLog + ["PDA Transceiver started"];
    }

    /** do_stop: the flow graph stops and the status line says so. */
    method DoStop()
      modifies this
      ensures !running && links == old(links)
      ensures statusLog == old(statusLog) + ["PDA Transceiver stopped"]
    {
      running := false;
      statusLog := statusLog + ["PDA Transceiver stopped"];
    }

    /** set_secret, through the binding: false where the value does not fit an unsigned int. */
    method SetSecret(v: int) returns (passed: bool)
      requires Valid()
      modifies pda
      ensures Valid() && passed == FitsUnsigned(v)
      ensures !passed ==> pda.Snap() == old(pda.Snap())
      ensures passed ==> pda.Snap() == if old(pda.state) == Pda.Idle then old(pda.Snap()).(secret := v) else old(pda.Snap())
    {
      passed := FitsUnsigned(v);
      if passed {
        pda.SetSecret(v);
      }
    }

    /** set_seqno, through the binding. */
    method SetSeqno(v: int) returns (passed: bool)
      requires Valid()
      modifies pda
      ensures Valid() && passed == FitsUnsigned(v)
      ensures !passed ==> pda.Snap() == old(pda.Snap())
      ensures passed ==> pda.Snap() == if old(pda.state) == Pda.Idle then old(pda.Snap()).(seqno := Pda.ToInt32(v)) else old(pda.Snap())
    {
      passed := FitsUnsigned(v);
      if passed {
        pda.SetSeqno(v);
      }
    }

    /** set_monitor, passed through. */
    method SetMonitor(on: bool)
      requires Valid()
      modifies pda
      ensures Valid()
      ensures pda.Snap() == old(pda.Snap()).(monitor := on,
        statusLog := old(pda.statusLog) + [if on then "Monitor mode is on" else "Monitor mode is off"])
    {
      pda.SetMonitor(on);
    }

    /** start_status, passed through. */
    method StartStatus()
      requires Valid()
      modifies pda
      ensures Valid()
      ensures pda.Snap() == StartStatusOn(old(pda.Snap()))
    {
      pda.StartStatus();
    }
  }

  /**
   * transceiver_interface(): the start-up checks, then the block and its
   * connections; a failed check ends start-up with nothing built.
   */
  method Open(opts: Options, dev: Usrp) returns (r: Result<TransceiverInterface, Failure>)
    ensures r.Err? <==> Configure(opts, dev).Err?
    ensures r.Err? ==> r.error == Configure(opts, dev).error
    ensures r.Ok? ==> fresh(r.value) && r.value.Valid() && !r.value.running
    ensures r.Ok? ==> r.value.setup == Configure(opts, dev).value
    ensures r.Ok? ==> r.value.links == Topology(opts.filename.Some?, opts.replayFilename.Some?)
  {
    var c := Configure(opts, dev);
    if c.Err? {
      return Err(c.error);
    }
    var t := new TransceiverInterface(c.value);
    return Ok(t);
  }

  /** What start_status does to the block's fields. */
  function StartStatusOn(f: Pda.Fields): (g: Pda.Fields)
    ensures g.state == Pda.Status <==> f.state == Pda.Status || (f.state == Pda.Idle && f.secret >= 0 && f.seqno >= 0)
    ensures g == f.(state := g.state, statusLog := g.statusLog) && |g.statusLog| == |f.statusLog| + 1
  {
    if f.state == Pda.Idle && f.secret >= 0 && f.seqno >= 0 then
      f.(state := Pda.Status, statusLog := f.statusLog + ["Status protocol starting"])
    else
      f.(statusLog := f.statusLog + ["Transaction already in progress"])
  }

  /** set_secret after the binding's check. */
  function SecretOn(f: Pda.Fields, v: int): Pda.Fields
  {
    if FitsUnsigned(v) && f.state == Pda.Idle then f.(secret := v) else f
  }

  /** set_seqno after the binding's check. */
  function SeqnoOn(f: Pda.Fields, v: int): Pda.Fields
  {
    if FitsUnsigned(v) && f.state == Pda.Idle then f.(seqno := Pda.ToInt32(v)) else f
  }

  /**
   * What pod_status_pressed does to the block: nothing unless both fields
   * parse; then set_secret, set_seqno and start_status in turn, where a
   * value the binding refuses raises and ends the handler there.
   */
  function StatusPressed(f: Pda.Fields, secret: Option<int>, seqno: Option<int>): Pda.Fields
  {
    if secret.None? || seqno.None? then f
    else if !FitsUnsigned(secret.value) then f
    else if !FitsUnsigned(seqno.value) then SecretOn(f, secret.value)
    else StartStatusOn(SeqnoOn(SecretOn(f, secret.value), seqno.value))
  }

  /** start_status is never reached unless both the secret and the sequence number parse as hex. */
  lemma StatusNeedsBothHex(f: Pda.Fields, secret: Option<int>, seqno: Option<int>)
    requires secret.None? || seqno.None?
    ensures StatusPressed(f, secret, seqno) == f
  {
  }

  /** An idle block with parsing values starts the status protocol with exactly those values. */
  lemma StatusFromIdle(f: Pda.Fields, s: int, q: int)
    requires f.state == Pda.Idle && FitsUnsigned(s) && 0 <= q < 0x8000_0000
    ensures StatusPressed(f, Some(s), Some(q)) ==
      f.(secret := s, seqno := q, state := Pda.Status, statusLog := f.statusLog + ["Status protocol starting"])
  {
  }

  /** A transaction under way is left alone: only the refusal is logged. */
  lemma StatusWhileBusy(f: Pda.Fields, s: int, q: int)
    requires f.state != Pda.Idle && FitsUnsigned(s) && FitsUnsigned(q)
    ensures StatusPressed(f, Some(s), Some(q)) == f.(statusLog := f.statusLog + ["Transaction already in progress"])
  {
  }

  /** The wx frame's two handlers that drive the transceiver. */
  class PdaUi {
    const tinterface: TransceiverInterface
    var runLabel: string
    var statusText: string

    predicate Valid()
      reads this, tinterface, tinterface.pda, tinterface.pda.rxBuf,
        tinterface.pda.zero, tinterface.pda.one, tinterface.pda.hv, tinterface.pda.lv
    {
      tinterface.Valid()
    }

    /** The frame turns monitor mode on, as its checkbox starts checked. */
    constructor (t: TransceiverInterface)
      requires t.Valid()
      modifies t.pda
      ensures Valid() && tinterface == t && runLabel == "Run" && statusText == ""
      ensures t.pda.Snap() == old(t.pda.Snap()).(monitor := true, statusLog := old(t.pda.statusLog) + ["Monitor mode is on"])
    {
      tinterface := t;
      runLabel := "Run";
      statusText := "";
      new;
      t.SetMonitor(true);
    }

    /** run_pressed: the toggle starts or stops the flow graph and relabels itself. */
    method RunPressed(checked: bool)
      modifies this, tinterface
      ensures tinterface.running == checked
      ensures runLabel == if checked then "Stop" else "Run"
      ensures tinterface.statusLog ==
        old(tinterface.statusLog) + [if checked then "PDA Transceiver started" else "PDA Transceiver stopped"]
      ensures tinterface.links == old(tinterface.links) && statusText == old(statusText)
    {
      if checked {
        tinterface.DoStart();
        runLabel := "Stop";
      } else {
        tinterface.DoStop();
        runLabel := "Run";
      }
    }

    /**
     * pod_status_pressed, given what int(text, 16) made of the two fields:
     * a field that does not parse is reported on the status bar and ends
     * the handler.
     */
    method PodStatusPressed(secret: Option<int>, seqno: Option<int>)
      requires Valid()
      modifies this, tinterface.pda
      ensures Valid()
      ensures tinterface.pda.Snap() == StatusPressed(old(tinterface.pda.Snap()), secret, seqno)
      ensures statusText ==
        if secret.None? then "Non-hex characters in secret!"
        else if seqno.None? then "Non-hex characters in sequence number!"
        else ""
      ensures runLabel == old(runLabel)
    {
      if secret.None? {
        statusText := "Non-hex characters in secret!";
        return;
      }
      statusText := "";
      if seqno.None? {
        statusText := "Non-hex characters in sequence number!";
        return;
      }
      statusText := "";
      var passed := tinterface.SetSecret(secret.value);
      if !passed {
        return;
      }
      passed := tinterface.SetSeqno(seqno.value);
      if !passed {
        return;
      }
      tinterface.StartStatus();
    }
  }
}
