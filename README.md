# omnipda: a verified model of the Omnipod PDA transceiver core

omnipda is a GNU Radio application that talks to an insulin pod over a
USRP. Its C++ block `omnipod_pda` does four things:

- It slices the received baseband into Manchester symbol codes by pulse width.
- It decodes bursts of those codes into text.
- It renders the text in hex and in bits for the monitor display.
- For the status protocol, it builds a symbol string from the pod's secret,
  modulates it into samples and plays it out ten times, 250 ms apart.

A Python front end chooses the USRP daughterboards, rates and gains, wires
the flow graph, and drives the block from two buttons.

The model has one module per part of the program:

- `Manchester` (manchester.dfy): `manchester_decode` and its bounded
  `do_put` from src/utils.cc. There is a step table, a decoding function,
  the array method proved against it, and an encoder for the round trip.
- `HexRender` (hexrender.dfy): the text of `display_c_hex_bytes`. Its two
  loops are proved against folds, and the folds against an independent
  byte-packing description.
- `TxPacket` (txpacket.dfy): `i8tob`, the file-local `do_put`, the symbol
  string of `transmit_on_packet`, and the per-symbol samples of
  `transmit_packet`.
- `RxSlicer` (rxslicer.dfy): the width classes of `slice`, the bounded
  symbol buffer, and the sign tracking with jitter of `process_rx_sample`.
- `Pda` (pda.dfy): the class `OmnipodPda`. It has the fields of
  src/omnipod_pda.h, the symbol tables built by the constructor, the
  receive path on `m_rx_buf`, the transmit scheduler, and `general_work`'s
  sample loop and padding.
- `Config` (config.dfy): the Python start-up rules. These cover subdevice
  choice, decimation and interpolation, gains, and the flow-graph topology.
- `Transceiver` (transceiver.dfy): `transceiver_interface` and the Run and
  Status handlers of `pda_ui`.

Integer widths are written out where they matter:

- `unsigned long long` sample counters wrap modulo 2^64.
- `m_count` wraps modulo 2^32.
- An `unsigned int` sequence number stored in an `int` becomes negative
  from 2^31 on.

The Python binding accepts only values that fit an `unsigned int`; anything
else raises and ends the handler.

## Model

| member | source | states |
|---|---|---|
| Manchester.PairsAndViolations | src/utils.cc:23-115 | a (0,1) pair decodes to "0" and a (1,0) pair to "1", two codes consumed; a lone half-symbol code gives "v" or "^" and one code; any code above 7 gives "X" and one code |
| Manchester.StraddleCases | src/utils.cc:55-58 | the decoder rewrites the next code exactly in the six straddling cases, and the rewritten code is the full symbol left over (code minus 6) |
| Manchester.StraddleContinues | src/utils.cc:184-187 | after a rewrite, decoding continues as if the leftover full symbol had been received in place of the 1.5- or 2.5-width code |
| Manchester.DecodeEncode | src/utils.cc:18-289 | decoding the Manchester encoding of any bit string gives back that bit string as '0'/'1' characters (round trip) |
| Manchester.DecodeAlphabet | src/utils.cc:18-289 | the decoder only ever writes characters of its fixed output alphabet |
| Manchester.DecodeLength | src/utils.cc:18-289 | the output is at most four characters per input code (the caller's n*4+1 buffer) |
| Manchester.DecodeIntoBounded | src/utils.cc:5-15 | with a bounded output buffer the text stays below the buffer size, keeps what was written, and stays in the alphabet |
| Manchester.NoRefusal | src/utils.cc:9 | as long as each piece fits below the bound, the bounded writer refuses nothing: the output is the unbounded decoding |
| Manchester.CallerBufferSuffices | src/omnipod_pda.cc:343-347 | a buffer of 4*n+1 characters is always large enough for the whole decoding |
| Manchester.DoPut | src/utils.cc:5-15 | the piece is appended exactly when offset + length < size - 1, otherwise it is refused; the rest of the buffer is unchanged |
| Manchester.ManchesterDecode | src/utils.cc:18-289 | the array loop writes exactly the bounded decoding of the input codes, followed by a terminating NUL |
| Manchester.DecodeStep | src/utils.cc:24-283 | one pass of the loop body moves the cursor forward, keeps the bounded decoding of what is left unchanged, and rewrites no code outside the one after the cursor |
| Manchester.DecodeForReceive | src/omnipod_pda.cc:343-347 | called with the receive path's 4*n+1 buffer, the method writes the full decoding, and the result is in the alphabet and within the bound |
| HexRender.RenderHexBytes | src/omnipod_pda.cc:244-332 | the two loops build exactly the rendered line: the hex part, " : ", then the bit part |
| HexRender.HexLoop | src/omnipod_pda.cc:262-313 | the hex loop and its tail produce the hex part of the line |
| HexRender.HexLoopStep | src/omnipod_pda.cc:263-303 | one character of the hex loop: a bit is accumulated, a full byte is printed, any other character flushes the partial byte and is printed |
| HexRender.BitLoop | src/omnipod_pda.cc:316-327 | the bit loop produces the bit part of the line |
| HexRender.RenderOnBits | src/omnipod_pda.cc:244-332 | for a string of bits, the line is the bytes packed MSB-first in hex, with a space every four bytes, then " : ", then the bits in groups of four |
| HexRender.HexFoldOnBits | src/omnipod_pda.cc:262-278 | on bits, after the loop the printed text is the complete bytes and the pending value holds the leftover bits |
| HexRender.PartialRunPart | src/omnipod_pda.cc:305-311 | a final partial byte is padded with zeros on the right before it is printed |
| HexRender.BitPartOnBits | src/omnipod_pda.cc:316-327 | on bits, the bit part is the bits with a space before every fourth bit |
| HexRender.RenderOneByte | src/omnipod_pda.cc:262-313 | eight bits render as their byte's two hex digits followed by " : " |
| HexRender.PackAppend | src/omnipod_pda.cc:262-278 | packing whole bytes distributes over concatenation |
| TxPacket.I8ToB | src/omnipod_pda.cc:627-633 | the eight characters are the bits of the byte, most significant first |
| TxPacket.ByteBitsValue | src/omnipod_pda.cc:627-633 | i8tob's characters are all bits and read back to the byte's value |
| TxPacket.I8ToBRendersByte | src/omnipod_pda.cc:627-633 | the hex display of i8tob's output is the byte itself in hex |
| TxPacket.SecretBytesReassemble | src/omnipod_pda.cc:663-664 | the four bytes taken from the secret, most significant first, reassemble the 32-bit secret |
| TxPacket.DoPut | src/omnipod_pda.cc:636-642 | a piece is appended only when it fits within the packet length, otherwise the offset is unchanged |
| TxPacket.DoPutAll | src/omnipod_pda.cc:666-693 | a run of do_put calls leaves the packet holding the bounded fill of the pieces |
| TxPacket.FillAllFit | src/omnipod_pda.cc:636-642 | when everything fits, the bounded fill is the plain concatenation |
| TxPacket.FillBounded | src/omnipod_pda.cc:636-642 | the fill never passes the packet length and only appends |
| TxPacket.FillAppend | src/omnipod_pda.cc:636-642 | filling two lists of pieces in turn is filling their concatenation |
| TxPacket.QuarterText | src/omnipod_pda.cc:669-672 | each quarter of a block is "v", a secret byte's bits, a four-bit code and "10101011" |
| TxPacket.BlockText | src/omnipod_pda.cc:668-688 | one repeat of the block is 84 symbols |
| TxPacket.HeadFits | src/omnipod_pda.cc:667-688 | the start word and the first twelve blocks, 1018 symbols, fit whole |
| TxPacket.OnPacketFill | src/omnipod_pda.cc:666-693 | the whole packet fill is decided by the first frame: later frames and the silence are refused |
| TxPacket.TerminatorOutOfBounds | src/omnipod_pda.cc:656-694 | as written, the fill reaches offset 1024, so the terminator is written one past data[1024] |
| TxPacket.TerminatorFits | src/omnipod_pda.cc:656-694 | bounded by sizeof(data) - 1, the fill stops at 1023 symbols and the terminator lands inside the array |
| TxPacket.SilenceAsWrittenIsZero | src/omnipod_pda.cc:690-692 | the silence loop bound, 250 * (m_sps / 1000) / m_bitlen, truncates to zero for every sample rate |
| TxPacket.SilenceSymbolsIs250ms | src/omnipod_pda.cc:690-692 | the intended bound, 250 ms at the symbol rate, is 500 symbols when the sample rate is 4000 * m_sps |
| TxPacket.WaveWidth | src/omnipod_pda.cc:594-619 | '0', '1' and 'S' each lay down exactly m_bitlen samples, and no symbol lays down more |
| TxPacket.ModulateFits | src/omnipod_pda.cc:590-621 | the modulated samples fit the data_len * m_bitlen buffer |
| TxPacket.ModulateAppend | src/omnipod_pda.cc:594-620 | modulation works symbol by symbol: it distributes over concatenation |
| TxPacket.ModulateBits | src/omnipod_pda.cc:594-603 | modulating bits gives the same samples as Manchester-encoding them and laying down half-symbols |
| RxSlicer.MatchWidth | src/omnipod_pda.cc:383-449 | the two width loops of slice find the first whole width, then the first half width, as Classify says |
| RxSlicer.ClassifyFull | src/omnipod_pda.cc:389-409 | a pulse is n whole symbols iff 1 <= n <= 6 and its width is within 0.30 of n |
| RxSlicer.ClassifyHalf | src/omnipod_pda.cc:429-448 | a pulse is k + 0.5 symbols iff k <= 2, no whole width matches, and its width is within 0.30 of k + 0.5 |
| RxSlicer.ClassifyInvalid | src/omnipod_pda.cc:451-458 | a pulse matches nothing iff no whole and no half window holds it |
| RxSlicer.FullFromFound | src/omnipod_pda.cc:389-390 | the whole-width search returns the first matching width, or 0 exactly when none matches |
| RxSlicer.HalfFromFound | src/omnipod_pda.cc:430-431 | the half-width search returns the first matching width, or 3 exactly when none matches |
| RxSlicer.ExactWhole | src/omnipod_pda.cc:389-409 | a pulse of exactly n symbols, 1 <= n <= 6, is classed as n whole symbols |
| RxSlicer.SevenRejected | src/omnipod_pda.cc:389 | seven symbols is past the m_avg_n - 1 limit and matches nothing |
| RxSlicer.ExactHalf | src/omnipod_pda.cc:429-448 | a pulse of exactly k + 0.5 symbols, k <= 2, is classed as a half symbol |
| RxSlicer.CodesInRange | src/omnipod_pda.cc:399-440 | slice stores between 0 and 6 codes, all below 8, and none only for an unmatched width |
| RxSlicer.PushAllKeeps | src/omnipod_pda.cc:399-406 | storing codes never loses or reorders one: handed-over bursts plus the buffer are the input; the count stays below BUFSIZ |
| RxSlicer.PushAllFullBursts | src/omnipod_pda.cc:403-405 | every burst handed over because the buffer filled is exactly BUFSIZ codes long |
| RxSlicer.FlushKeeps | src/omnipod_pda.cc:451-458 | a flush hands the whole buffer to the decoder and empties it |
| RxSlicer.TrackKeeps | src/omnipod_pda.cc:491-521 | one sample keeps the sign at +-1, the pending count within m_jitter, and the count below 2^32; a slice flips the sign |
| RxSlicer.HeldBack | src/omnipod_pda.cc:497-498 | up to m_jitter opposite samples are only counted as pending |
| RxSlicer.GlitchAbsorbed | src/omnipod_pda.cc:492-494 | a glitch within m_jitter followed by a sample on the old side is absorbed into the count, with no slice |
| RxSlicer.Flip | src/omnipod_pda.cc:499-504 | m_jitter + 1 opposite samples slice the old pulse once and start a new one |
| RxSlicer.TrackAllAppend | src/omnipod_pda.cc:491-521 | tracking two runs of samples in turn is tracking their concatenation |
| Pda.SeqnoAccepted | src/omnipod_pda.cc:185 | a sequence number stored into the int field passes start_status's test iff it is below 2^31 |
| Pda.RxSampleKeeps | src/omnipod_pda.cc:464-522 | one sample keeps the receive invariants: codes 0..7, buffer below BUFSIZ, non-empty bursts, no code lost or reordered |
| Pda.RxSampleSteps | src/omnipod_pda.cc:486-521 | the timeout flush happens before the slice, and its burst is displayed before the slice's |
| Pda.ShowAllAppend | src/omnipod_pda.cc:358-360 | the display of bursts handed over in turn is the concatenation of their displays |
| Pda.DecodeBurst | src/omnipod_pda.cc:343-360 | a non-empty burst is decoded and rendered, and shown only in monitor mode when the decoding is not empty |
| Pda.FlushAt | src/omnipod_pda.cc:451-458 | handing over a non-empty buffer empties it and shows its decoding, as Flush says; an empty buffer is left alone |
| Pda.PushAt | src/omnipod_pda.cc:440-445 | one code is stored, and a buffer that is then full is decoded and emptied, as Push says |
| Pda.PushRunAt | src/omnipod_pda.cc:399-406 | the copy loop stores k copies of the code one by one, as PushAll of Copies says, decoding whenever the buffer fills |
| Pda.SliceAt | src/omnipod_pda.cc:394-458 | once the width is known, the codes of that width class are stored, or the buffer is decoded for an unmatched width, as SliceBy says |
| Pda.SlicePulseAt | src/omnipod_pda.cc:383-461 | slice on the array buffer stores the codes of the width class, handing full buffers to the decoder |
| Pda.TrackAt | src/omnipod_pda.cc:491-521 | the sign tracking on the array buffer: the edge becomes Track's, slice runs on the old pulse exactly when Track flips, and the invariants hold |
| Pda.RxSampleAt | src/omnipod_pda.cc:464-522 | process_rx_sample on the array buffer does what the value model RxSample does, and keeps the invariants |
| Pda.ModulatePacket | src/omnipod_pda.cc:578-624 | transmit_packet allocates data_len * m_bitlen samples and fills them with the modulation of the symbols |
| Pda.PutSymbol | src/omnipod_pda.cc:595-619 | one symbol of the switch appends exactly that symbol's samples from the tables, and an unknown symbol appends nothing |
| Pda.CopyOut | src/omnipod_pda.cc:546-547 | the copy loop moves min(count - cur, room) samples from the cursor to the output and leaves the rest of the output unchanged |
| Pda.SecretBitsOf | src/omnipod_pda.cc:663-664 | the four i8tob calls give the secret's bytes, most significant first |
| Pda.BlocksPut | src/omnipod_pda.cc:668-688 | the repeat loop leaves the data holding the bounded fill of seventeen blocks |
| Pda.SilencePut | src/omnipod_pda.cc:690-692 | the silence loop leaves the data holding the bounded fill of that many "S" symbols |
| Pda.FramePut | src/omnipod_pda.cc:667-692 | one pass of the outer loop leaves the data holding the bounded fill of the start word, the blocks and the silence |
| Pda.OnPacketSymbols | src/omnipod_pda.cc:645-694 | the data array holds the corrected fill of the status packet, followed by a terminator inside the array |
| Pda.BitTables | src/omnipod_pda.cc:80-97 | m_zero is a low half then a high half, and m_one the reverse, each m_sps samples |
| Pda.LevelTables | src/omnipod_pda.cc:98-101 | m_hv is m_sps/2 high samples and m_lv as many low |
| Pda.TxCopiedIsMin | src/omnipod_pda.cc:546-549 | process_tx copies the smaller of what is left and what fits |
| Pda.TxAfterKeeps | src/omnipod_pda.cc:537-575 | process_tx keeps the block's ranges; the state stays as it was or returns to idle |
| Pda.NeverDue | src/omnipod_pda.cc:103-108 | with no transmit buffer, m_tx_at is m_at_never and nothing is ever due |
| Pda.PlaysReschedule | src/omnipod_pda.cc:550-560 | each of the first nine plays of a buffer reschedules it and counts the retransmission |
| Pda.TenPlays | src/omnipod_pda.cc:561-571 | the tenth play drops the buffer, makes it never due, returns to idle and reports "Exceeded retries" |
| Pda.OmnipodPda.constructor | src/omnipod_pda.cc:39-117 | m_sps = round(sr / 4000), the four symbol tables, and the idle state with no secret, no sequence number and monitor mode on |
| Pda.OmnipodPda.SetMonitor | src/omnipod_pda.cc:169-179 | sets monitor mode and reports it on the status line; nothing else changes |
| Pda.OmnipodPda.StartStatus | src/omnipod_pda.cc:182-193 | an idle block with a secret and a sequence number enters the status state; otherwise only the refusal is reported |
| Pda.OmnipodPda.SetSecret | src/omnipod_pda.cc:196-205 | only an idle block takes the new secret |
| Pda.OmnipodPda.SetSeqno | src/omnipod_pda.cc:208-217 | only an idle block takes the new sequence number, stored as a 32-bit int |
| Pda.OmnipodPda.DecodeRxSymbols | src/omnipod_pda.cc:335-380 | the buffer's decoding is shown as Display says and the buffer is emptied; nothing else changes |
| Pda.OmnipodPda.Slice | src/omnipod_pda.cc:383-461 | the buffer and display change as SliceRx says for the current pulse |
| Pda.OmnipodPda.ProcessRxSample | src/omnipod_pda.cc:464-522 | the edge, buffer and display change as RxSample says; nothing else changes |
| Pda.OmnipodPda.TransmitOnPacket | src/omnipod_pda.cc:645-699 | a fresh transmit buffer holds the modulated status packet, due at once; the state becomes ST_STATUS_ON_SENT |
| Pda.OmnipodPda.ProcessTx | src/omnipod_pda.cc:537-575 | copies TxCopied samples to the output and leaves the fields as TxAfter says; the rest of the output is unchanged |
| Pda.OmnipodPda.PlayOut | src/omnipod_pda.cc:546-549 | the copy moves TxCopied samples, and the cursor and the transmit sample number (mod 2^64) advance by that many |
| Pda.OmnipodPda.EndOfBuffer | src/omnipod_pda.cc:550-572 | a buffer played to its end is counted and rescheduled 250 ms later, or after ten plays dropped with a return to idle, as TxEnd says |
| Pda.OmnipodPda.PadTx | src/omnipod_pda.cc:773-777 | zeros fill the output while the transmit side lags the receive side and there is room; the transmit sample number advances by as many |
| Pda.OmnipodPda.GeneralWork | src/omnipod_pda.cc:728-777 | each sample advances the receive sample number modulo 2^64; on return the output is full or the transmit side has caught up |
| Pda.OmnipodPda.SampleStep | src/omnipod_pda.cc:734-767 | one sample of the loop: the sample number advances; the receive side changes as Received says, with listening gated on `state != ST_IDLE \|\| monitor`; ST_STATUS becomes ST_STATUS_ON_SENT |
| Pda.OmnipodPda.ReceiveStep | src/omnipod_pda.cc:734-743 | one sample is counted modulo 2^64; when listening, the buffer, edge and display change as RxSample says, otherwise they stay as they were; nothing else changes |
| Pda.OmnipodPda.TransmitStep | src/omnipod_pda.cc:750-767 | the transmit half of one sample: the local ST_STATUS becomes ST_STATUS_ON_SENT, output is written only up to noutput, and the receive side, the monitor flag and the receive counter stay as they were |
| Config.ValidRxSubdev | python/omnipda.py:42-45 | a slot is a receiver when its board id is 1 or 15; such a board is never a valid transmitter |
| Config.ValidTxSubdev | python/omnipda.py:48-51 | a slot is a transmitter when its board id is 0 or 14, never one of the receiver ids |
| Config.PickSubdevSpec | python/omnipda.py:54-69 | slot (0,0) is preferred, then (1,0); the result is a valid slot, and there is an error exactly when neither is valid |
| Config.PickRxSubdevSpec | python/omnipda.py:54-60 | the chosen receive slot holds a receiver board (id 1 or 15); none is found exactly when neither slot has one |
| Config.PickTxSubdevSpec | python/omnipda.py:63-69 | the chosen transmit slot holds a transmitter board (id 0 or 14); none is found exactly when neither slot has one |
| Config.SelectRxAsWritten | python/omnipda.py:145-151 | as written, a given -R spec always ends start-up with a call error; without one, the pick is used |
| Config.SelectRx | python/omnipda.py:145-151 | a given receive spec is used exactly when it is valid, with the "Invalid RX daughterboard" error otherwise |
| Config.SelectTxAsWritten | python/omnipda.py:154-160 | as written, a given -T spec always ends start-up with a call error; without one, the pick is used |
| Config.SelectTx | python/omnipda.py:154-160 | a given transmit spec is used exactly when it is valid, with the "Invalid TX daughterboard" error otherwise |
| Config.GivenRxSpecNeverUsed | python/omnipda.py:146 | even a valid -R spec is refused as written, and accepted as intended |
| Config.GivenTxSpecNeverUsed | python/omnipda.py:155 | even a valid -T spec is refused as written, and accepted as intended |
| Config.ConfigureRates | python/omnipda.py:135-143 | decimation is floor(adc / 250 kHz), at least 1, or start-up fails; interpolation is twice it; the sample rate is adc / decimation; start-up aborts as unbalanced exactly when that differs from dac / interpolation, and succeeds exactly when they agree |
| Config.BalancedWhenDacDoubles | python/omnipda.py:134-143 | a DAC clocked at twice the ADC always balances |
| Config.SampleRateRange | python/omnipda.py:140 | the resulting sample rate lies between 250 kHz and 500 kHz |
| Config.UsrpClocks | python/omnipda.py:134 | the 52 MHz and 64 MHz clocks both give exactly 250 kHz (decimation 208 and 256) |
| Config.RxGain | python/omnipda.py:173-174 | the receive gain lies within the board's range, three quarters of the way up |
| Config.TxGain | python/omnipda.py:175 | the transmit gain is the top of its range, at least the receive rule's value |
| Config.Topology | python/omnipda.py:180-187 | four links with a replay file, two without, and no block feeds itself |
| Config.TopologyConnects | python/omnipda.py:180-187 | the links are exactly those of the constructor's connect calls, in order |
| Config.Chain | python/omnipda.py:184-187 | connect links each block to the next, in order |
| Config.DecoderInput | python/omnipda.py:180-187 | the decoder is fed by the source, and only by it, in both topologies |
| Config.SinkInput | python/omnipda.py:180-187 | the sink is fed by the throttled replay file when replaying, otherwise by the decoder |
| Config.ReplayDiscardsDecoder | python/omnipda.py:183-185 | when replaying, the decoder's output goes only to a null sink |
| Config.FileInputNeverTransmits | python/omnipda.py:121-123 | with file input, no link touches the USRP source or sink |
| Config.Configure | python/omnipda.py:119-175 | file input skips the radio at 250 kHz; otherwise start-up succeeds exactly when the USRP opens, the rates balance, both boards suit and both sides tune, and the first failing check, in that order, is the error; a live setup carries the selected specs, the balanced rates, a rate in range and the gains of RxGain and TxGain over the boards' ranges |
| Transceiver.TransceiverInterface.constructor | python/omnipda.py:177-187 | builds the block at the agreed sample rate and connects the chosen topology |
| Transceiver.TransceiverInterface.DoStart | python/omnipda.py:193-195 | the flow graph runs and "PDA Transceiver started" is reported |
| Transceiver.TransceiverInterface.DoStop | python/omnipda.py:197-199 | the flow graph stops and "PDA Transceiver stopped" is reported |
| Transceiver.TransceiverInterface.Wire | python/omnipda.py:180-187 | the constructor's connect calls add exactly the links of Topology for the chosen sources and sinks |
| Transceiver.TransceiverInterface.Connect | python/omnipda.py:184-187 | connect appends the links of its chain and changes nothing else |
| Transceiver.TransceiverInterface.SetMonitor | python/omnipda.py:201-202 | set_monitor passes through: the block's monitor flag is set and reported |
| Transceiver.TransceiverInterface.StartStatus | python/omnipda.py:204-205 | start_status passes through: the block changes as StartStatusOn says |
| Transceiver.TransceiverInterface.SetSecret | python/omnipda.py:207-208 | the value reaches the block exactly when it fits an unsigned int |
| Transceiver.TransceiverInterface.SetSeqno | python/omnipda.py:210-211 | the value reaches the block exactly when it fits an unsigned int |
| Transceiver.Open | python/omnipda.py:85-187 | start-up fails exactly when the configuration rules fail; otherwise a stopped transceiver with the rules' setup and topology |
| Transceiver.StartStatusOn | src/omnipod_pda.cc:182-193 | the status state is reached iff already there, or idle with a secret and a sequence number; one status line is added |
| Transceiver.StatusNeedsBothHex | python/omnipda.py:353-359 | a field that is not hex leaves the block untouched |
| Transceiver.StatusFromIdle | python/omnipda.py:353-364 | from idle, valid hex values start the status protocol with exactly those values |
| Transceiver.StatusWhileBusy | python/omnipda.py:353-364 | during a transaction the button changes nothing but the refusal message |
| Transceiver.PdaUi.constructor | python/omnipda.py:246-248 | the frame starts with monitor mode on |
| Transceiver.PdaUi.RunPressed | python/omnipda.py:341-348 | checking the toggle starts the flow graph and labels it "Stop"; unchecking stops it and labels it "Run" |
| Transceiver.PdaUi.PodStatusPressed | python/omnipda.py:353-405 | the block changes as StatusPressed says, and the status bar names the first field that is not hex |

## Left out

- The command-line parser, `main`, and the wx layout are not modelled. Neither are the save, clear, exit and about menu handlers, or `monitor_checked`. They hold no logic beyond the calls that are modelled.
- GNU Radio and USRP calls are not modelled. Opening the device, `set_decim_rate`, `set_mux`, `tune`, `set_gain`, `start`, `stop` and `wait` appear only as the USRP record's answers, the `running` flag and the `links` list.
- `interface_director` is kept as logs. `display_status` appends to `statusLog`. `display_data` output from the monitor appends to `shown`. The Python object on the far side is not modelled.
- `int(text, 16)` is taken as an `Option<int>` parameter. Python's parser is not modelled.
- Floating point is not modelled:
  - the running averages `m_average_a` and `m_average_b` and `std::abs` of complex samples are not modelled; `general_work` receives, for each sample, whether it lies below the average;
  - samples are integer amplitudes;
  - `round` and the 250 ms expressions are computed on reals;
  - `int(adc_rate() / 250000.0)` is taken as integer division of the integer clock rate.
- The first call of `general_work` (`starting_now`) is not modelled. It fills the averages and sets `m_rx_sample_number` to `m_average_len`, so the model starts from any sample number.
- The receive timestamps are not modelled. `m_rx_buf_received` and `m_rx_last_buf_received` feed only the `%6.1lfms` prefix of the displayed line, which is left out as well.
- HexRender.RenderHexBytes: does not model `snprintf` truncation at `bufsize`. The text is built as a string, which is the output whenever it fits.
- `process_decoded` and `m_rx_decoded` are not modelled. The assignment is commented out in the source, so the pointer is always null and the call never happens.
- `m_tx_enabled` and `m_rx_enabled` are set but never read.
- Allocation failures (`new` returning null, and the exceptions the constructor throws) are not modelled.
- `printf` and `display_data` debugging messages are not modelled. This covers "Transmit %d", "Rescheduled for %llu", "Retransmit finished" and the null-buffer message in `process_tx`.
- The state mutex, the Python GIL and the threads of the flow graph are not modelled. Each operation runs whole.
- The transceiver's `statusLog` and the block's `statusLog` are kept apart, while the program sends both to one status bar. Their interleaving is not modelled.
- Pda.OmnipodPda.GeneralWork: does not state the full new state. Its contract gives the sample count, the bounds on `w` and the padding outcome. The per-sample effects are stated by SampleStep and ReceiveStep (the receive side and the listen gate), and by TransmitOnPacket and ProcessTx.
- Pda.OmnipodPda.SampleStep: states the receive side, the state carried between samples and the counter, but not the new transmit fields.
- Pda.OmnipodPda.TransmitStep: states the state carried between samples, the output bound and what stays unchanged, but not the new transmit fields.
- Config.Configure: uses the corrected SelectRx and SelectTx, so a valid `-R` or `-T` spec is accepted. As written, python/omnipda.py:146 and :155 raise TypeError for any such spec (Config.SelectRxAsWritten, Config.SelectTxAsWritten).
- Transceiver.Open: builds on Configure, so with `-R` or `-T` it can succeed where the program as written stops with TypeError.
- Pda.OmnipodPda.TransmitOnPacket: sends the corrected packet, whose fill is bounded by sizeof(data) - 1: 1023 symbols ending in "v0011", and the 250 ms silence count (refused in any case, as the first frame fills the buffer). As written, the fill is 1024 symbols ending in one more "v", and the terminator is written outside `data` (TxPacket.TerminatorOutOfBounds).
- RxSlicer.BufSize: is 8192, the value of BUFSIZ in glibc. The C library's BUFSIZ decides the capacity of `m_rx_buf`, and other libraries may differ.

## Findings

| source | as written | input that shows it | evidently intended | confidence | as-written member | corrected member |
|---|---|---|---|---|---|---|
| src/omnipod_pda.cc:656-694 | `do_put` is bounded by `sizeof(data)`, 1024, and then `data[offset] = 0` | any secret: the start word and twelve blocks are 1018 symbols, then "v", "0011" and "v" make the offset exactly 1024 | room for the terminator, bounding the fill by 1023 | not executed | TxPacket.TerminatorOutOfBounds | TxPacket.TerminatorFits |
| src/omnipod_pda.cc:690-692 | the silence loop runs `(int)((250.0 * (m_sps / 1000.0)) / m_bitlen)` times | any m_sps: the bound is 0.125 and truncates to 0 | 250 ms of "S" symbols, 500 at 4000 symbols per second | not executed | TxPacket.SilenceAsWrittenIsZero | TxPacket.SilenceSymbolsIs250ms |
| python/omnipda.py:146 | `valid_rx_subdev(options.rx_subdev_spec)` is called with one argument | any `-R` option: the call raises TypeError before the spec is checked | `valid_rx_subdev(self.source, options.rx_subdev_spec)` | not executed | Config.SelectRxAsWritten | Config.SelectRx |
| python/omnipda.py:155 | `valid_tx_subdev(options.tx_subdev_spec)` is called with one argument | any `-T` option: the call raises TypeError before the spec is checked | `valid_tx_subdev(self.sink, options.tx_subdev_spec)` | not executed | Config.SelectTxAsWritten | Config.SelectTx |

The silence finding has no effect on the packet sent. The 1024-symbol
buffer already fills during the first frame, so later frames and any
silence would be refused (TxPacket.OnPacketFill).
