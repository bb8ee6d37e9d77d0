# Exact kernels of SpanDSP, modelled and verified in Dafny

SpanDSP is a library of telephony signal processing. Most of it is floating point, but it rests on exact, stateful
kernels: a loss-recovery protocol, two adaptive codecs and their bit packing, CRCs, bit error rate test patterns, a
random number generator, a sliding correlator, serial framing, a debouncer. Each kernel is modelled in a file of its
own, as values and pure functions where the C code computes, and as classes with fields and loops where it updates
state. The methods of a class are proved against the functions, and the theorems are about the functions, over every
input and every sequence of calls.

| file | kernel |
|---|---|
| `options.dfy`, `arith.dfy`, `bits.dfy`, `code_packing.dfy`, `divisibility.dfy`, `stability.dfy` | shared: optional values, shifts that floor, int16 conversion, sums, bit strings, streams of codes, prime powers and common factors, the pole triangle |
| `rfc2198_sim.dfy`, `rfc2198_run.dfy` | bundles of redundant packets over a path that loses some of them |
| `filter_tools.dfy` | the recursive in-place FFT, over exact complex numbers |
| `bert_pattern.dfy`, `bert_meter.dfy`, `bert.dfy`, `bert_tester.dfy` | LFSR patterns, the decades of error counts, self-synchronising reception |
| `bert_polynomial.dfy`, `bert_period.dfy` | the patterns are of maximal length: polynomials over the two-element field, and the prime factors of 2^n - 1 |
| `crc.dfy` | ITU CRC-16 and CRC-32 (sections C.2 and C.3 of RFC 1662) |
| `g726.dfy`, `g726_adapt.dfy`, `g726_codec.dfy` | ITU-T G.726 ADPCM at 16, 24, 32 and 40 kbit/s |
| `g726_accuracy.dfy`, `g726_link.dfy`, `g726_adaptation.dfy` | how near the decoder's signal is to the encoder's, and what adaptation and prediction do |
| `g722_band.dfy`, `g722.dfy`, `g722_codec.dfy` | the two bands of ITU-T G.722 at 64, 56 and 48 kbit/s |
| `g722_accuracy.dfy`, `g722_link.dfy`, `g722_adaptation.dfy` | the same two questions for G.722 |
| `awgn.dfy` | three linear congruential sequences and a shuffle table |
| `dds.dfy`, `fsk.dfy` | the quadrant-folded sine table and the sliding FSK correlator |
| `async_serial.dfy` | start-stop characters, with ITU-T V.14 deletion of stop bits |
| `bitstream.dfy` | fields of up to 25 bits in bytes, in either bit order |
| `adsi.dfy`, `adsi_modem.dfy`, `baudot.dfy` | caller ID message framing, and TDD text |
| `dtmf.dfy` | the DTMF block loop and hit debouncer |

Integer widths are written out: `>>` on a negative number is a floor shift, `Int16` and `Sat16` are the conversions and
saturations of the C code, and sums that must fit int32_t are shown to. Callbacks are output sequences, and files or
devices behind them are parameters.

## Where the code and its own words differ

- `src/dtmf.c` lists hit patterns for its debouncer. Two of them are not what the code does: the hits A, B, B from idle
  do not start digit B, and C, D, D within digit B end B but do not start D (`Dtmf.AbbDoesNotStart`,
  `Dtmf.CddDoesNotStart`). The others hold. With no digit in progress the code takes the hits since the last gap in
  pairs, and a digit starts only with a pair of equal hits. `Dtmf.TwoHitsStart` says exactly when two equal hits are
  enough: in a digit, if the hit before them was that of the digit or the same as they are; with no digit in progress,
  if an even number of hits is pending, or the hit before was the same. Three equal hits always are
  (`Dtmf.ThreeHitsSuffice`).
- A comment in `src/bert.c` speaks of a sliding window over the last 1000 bits and of ten errors or more. The window is
  tumbling: a decade is judged only when it wraps, on the last 10^(i + 1) bits (`BertMeter.Rollover`), and between
  multiples of 1000 bits the reported rate stands (`BertMeter.RateStands`; in `BertMeter.NotSliding` a hundred of the
  last 1000 bits are bad). A rate is reported for more than ten errors, not for ten (`BertMeter.RateIs`,
  `BertMeter.FirstWindow`, `BertMeter.TenErrors`).
- A BERT receiver keeps sync on a clean line only if `resync_len * resync_percent` is at least 100
  (`Bert.KeepsSyncIff`). With less, the threshold rounds to zero and sync is lost at the end of every measuring period.
- `fsk_rx_fillin` never moves the window position, so any number of missing samples clears one slot of each window
  (`Fsk.Receiver.FillIn`).
- `g722_decode` stops with the last byte, even when what is left is a whole code, which comes out with the next call.
  That is so exactly when the bytes so far end where a code does (`G722Codec.DecodedCount`), as after 7 bytes at
  56 kbit/s or 3 bytes at 48 kbit/s (`G722Codec.HeldBack`).
- `adsi_tx_set_preamble` accepts lengths with which messages are lost. Every message of 2 to 255 octets arrives if and
  only if the ones complete the preamble's last character, they then leave an idle line or nothing is left of the
  preamble, and there are no more than 11 stop bits (`Adsi.ArrivesIff`). A shorter message is sent but never delivered
  (`Adsi.ShortMessageIsLost`).
- G.726's `fmult` counts a coefficient or a signal of zero as one half, so that a zero coefficient still contributes up
  to eight units; otherwise it is the product to within 9.2% and a unit, as long as that fits
  (`G726Adaptation.FmultNear`).
- A G.726 decoder returns its signal times four as int16_t, so that a signal of more than 14 bits wraps;
  `G726Link.OutputNear` is about the signal, and the sample is what is left of it.
- The Baudot code for `^` is that of the figure shift, so `^` is never received, and NUL is code 0, which is no character
  (`Baudot.FigureCodes`, `Baudot.LetterCodes`).

## Model
| member | source | states |
|---|---|---|
| Rfc2198Sim.Sender.Put | spandsp-sim/rfc2198_sim.c:83-117 | what goes out is the bundle of the packet and the previous depth - 1 ones, newest first, and the history ring then ends with the packet |
| Rfc2198Sim.Sender.Construct | spandsp-sim/rfc2198_sim.c:99-115 | the loop over the ring writes the length and bytes of each of the last depth packets, across the wrap of the ring |
| Rfc2198Sim.Sender.Store | spandsp-sim/rfc2198_sim.c:94-97 | the 32-slot ring holds the newest packets in rotation |
| Rfc2198Sim.ReadEntry | spandsp-sim/rfc2198_sim.c:162-178 | at any entry of a bundle, the length and bytes read are those of that packet, and the reader is left at the next entry |
| Rfc2198Sim.Receiver.Get | spandsp-sim/rfc2198_sim.c:120-184 | a queued packet is handed out before the path is looked at; otherwise the next bundle is taken, if any |
| Rfc2198Sim.Receiver.Unbundle | spandsp-sim/rfc2198_sim.c:149-180 | a bundle releases, in order, exactly the packets it carries that are not older than the next one expected |
| Rfc2198Sim.Receiver.Collect | spandsp-sim/rfc2198_sim.c:155-171 | the queue built for a gap holds each released packet with its own number and payload |
| Rfc2198Run.StepKeepsInv | spandsp-sim/rfc2198_sim.c:83-184 | sending, losing and receiving each keep the protocol invariant |
| Rfc2198Run.RunKeepsInv | spandsp-sim/rfc2198_sim.c:83-184 | the invariant holds after every sequence of events |
| Rfc2198Run.DeliveredInOrder | spandsp-sim/rfc2198_sim.c:141-184 | deliveries have strictly increasing numbers, each with the payload sent under it: no duplicates |
| Rfc2198Run.ReleasedIffCovered | spandsp-sim/rfc2198_sim.c:141-184 | a packet is released if and only if one of the depth bundles that carry it arrived |
| Rfc2198Run.DeliveredIffCovered | spandsp-sim/rfc2198_sim.c:141-184 | the same for what has been handed out or queued after any sequence of events |
| Rfc2198Run.GapRecovery | spandsp-sim/rfc2198_sim.c:141-184 | of the packets lost before an arrival, exactly the last depth - 1 are recovered |
| Rfc2198Run.GapLoss | spandsp-sim/rfc2198_sim.c:141-184 | a gap of g losses leaves exactly max(0, g - (depth - 1)) packets undelivered |
| Rfc2198Run.Simulate | spandsp-sim/rfc2198_sim.c:83-184 | the two ends, driven by any schedule of sending, loss and receiving, deliver what the protocol model delivers |
| FilterTools.FftIsDft | src/filter_tools.c:75-108 | for every power of two up to 8192, result k is the sum over j of in[j] w(8192/n * j * k) |
| FilterTools.DftSplit | src/filter_tools.c:84-106 | the Fourier sum of a sequence is that of its even entries plus the twiddled one of its odd entries |
| FilterTools.DftWholeTurn | src/filter_tools.c:96-106 | frequencies half a length apart give the same half-length sums |
| FilterTools.ButterflyIsDft | src/filter_tools.c:96-106 | one butterfly, in either half, yields the whole sum |
| FilterTools.TwiddleInTable | src/filter_tools.c:96-106 | every index into the twiddle table stays below 4096 |
| FilterTools.NormMul | src/filter_tools.c:96-106 | the product of the butterflies is the complex one: norms multiply |
| FilterTools.Parseval | src/filter_tools.c:75-108 | for every length and every table on the unit circle, the energy of the transform is the length times that of the input; nothing is assumed of the angles |
| FilterTools.TwiddlesOnCircle | src/filter_tools.c:96-106 | every table of powers of a root of unity is such a table |
| FilterTools.FourPoints | src/filter_tools.c:75-108 | the transform of four points, component by component: j turns forwards |
| FilterTools.Deinterleave | src/filter_tools.c:84-93 | even and odd entries are moved to the two halves of temp |
| FilterTools.Combine | src/filter_tools.c:96-106 | the butterflies are written over data from the halves in temp |
| FilterTools.Fftx | src/filter_tools.c:75-108 | the recursion, which overwrites both arrays at each level, leaves the transform in data |
| FilterTools.Ifft | src/filter_tools.c:111-125 | data ends up as the Fourier sums of what it held |
| BertPattern.PatternRecurs | src/bert.c:100-123 | the bits sent obey the recurrence of the generator polynomial |
| BertPattern.AlignedPredicts | src/bert.c:256-337 | a receiver in step predicts the next bit, and both registers stay in step |
| BertPattern.SelfSynchronises | src/bert.c:256-337 | from any register, as many error-free bits as the register is long bring the receiver into step |
| BertPolynomial.LengthSteps | src/bert.c:100-123 | the generator polynomial takes every register to zero: Length steps are Shift steps and none |
| BertPolynomial.MulIs | src/bert.c:100-123 | a product of polynomials modulo the generator acts on a register as its factors do, one after the other |
| BertPeriod.MaximalLength | src/bert.c:458-507 | for each of the four presets, a register of n bits that is not zero repeats after the multiples of 2^n - 1 steps, and after no other number of steps |
| BertPeriod.OnesAreNotZero | src/bert.c:458-515 | the register that bert_init sets is one of these |
| BertPeriod.PatternPeriod | src/bert.c:458-507 | the pattern sent has the period 2^n - 1 and no shorter one |
| BertPeriod.AllDifferent | src/bert.c:458-507 | the registers of one period are all different |
| BertPeriod.ReachesAll | src/bert.c:458-507 | from any register but zero, every other one but zero is reached within a period |
| Bert.SyncsInTime | src/bert.c:256-337 | from any register a clean pattern gives sync within L + resync_time - 1 bits, not before resync_time bits, and only in step |
| Bert.CountsFlips | src/bert.c:270-337 | in step and in sync a bit counts as bad exactly if the line flipped it |
| Bert.CountsInSync | src/bert.c:256-337 | whatever bits the line brings, also while sync is lost and found again, the totals count the bits taken in sync and those of them that were not predicted, and the decades are the odometer of all of them |
| Bert.CountsFromStart | src/bert.c:256-549 | from bert_init on, totals, decades and reported rate depend on the error flags of the bits taken in sync alone |
| Bert.CountsAllFlips | src/bert.c:270-337 | until a resync fires, those flags are exactly the bits that the line flipped |
| Bert.StaysInSync | src/bert.c:270-337 | fewer errors than the resync threshold never lose sync, from any point of a measuring period |
| Bert.KeepsSync | src/bert.c:318-336 | a threshold of at least one keeps sync on a clean line for ever |
| Bert.LosesSync | src/bert.c:318-336 | a threshold of zero loses it at the end of the measuring period |
| Bert.KeepsSyncIff | src/bert.c:318-336 | sync is kept on a clean line for ever if and only if resync_len * resync_percent >= 100 |
| Bert.PeriodEnds | src/bert.c:318-336 | over one measuring period sync is lost if and only if at least the threshold of bits are bad, at its end and not before; if it is kept, the next period starts |
| Bert.KeptIff | src/bert.c:318-336 | over any number of periods sync is kept throughout if and only if every whole period has fewer bad bits than the threshold |
| Bert.LossIsCounted | src/bert.c:318-336 | the resync count rises if and only if one of them has not |
| BertMeter.SumOfGroups | src/bert.c:148-207 | ten successive groups of 10^i bits make one group of 10^(i+1) |
| BertMeter.SumIsGroup | src/bert.c:148-207 | a full decade's snapshots sum to the errors of one group of the next decade |
| BertMeter.AssessIsOdometer | src/bert.c:148-207 | an assessment keeps every decade pointer a base-10 digit, and every snapshot the errors of its own group |
| BertMeter.CountedIsOdometer | src/bert.c:304-317 | this holds after every counted bit, and the reported rate is the one its windows give |
| BertMeter.LastGroup | src/bert.c:148-207 | when a decade wraps, the group judged is the last 10^i counted bits |
| BertMeter.Rollover | src/bert.c:160-190 | the loop reaches decade i at the multiples of 10^i counted bits and wraps it at those of 10^(i+1), when the ten snapshots it sums are the errors of the last 10^(i+1) counted bits |
| BertMeter.MeteredIsOdometer | src/bert.c:304-317 | for any history from bert_init on, the decades are its odometer, and each assessment sets the rate that its windows give |
| BertMeter.RateIs | src/bert.c:160-190 | an assessment changes the rate to decade i if and only if i is the lowest decade that wraps with more than ten errors |
| BertMeter.RateStands | src/bert.c:153-160 | between the multiples of 1000 counted bits the rate stands, whatever the errors, against the comment's sliding window |
| BertMeter.FirstWindow | src/bert.c:153-175 | the first 1000 counted bits raise the rate if and only if more than ten are bad, against the comment's ten |
| BertMeter.TenErrors | src/bert.c:153-175 | 1000 bits with exactly ten errors leave the rate at 8, with eleven they set it to 2 |
| BertMeter.NotSliding | src/bert.c:153-160 | 100 errors in the last 1000 of 1100 bits leave the rate at 8 |
| BertTester.Counters.AssessErrorRate | src/bert.c:148-207 | the loop over the decade arrays computes the assessment |
| BertTester.Counters.SumDecade | src/bert.c:168-171 | the sum of the ten snapshots of one decade |
| BertTester.Tester.constructor | src/bert.c:395-549 | the register of the pattern all ones at both ends, looking for sync, and the decades cleared |
| BertTester.Tester.GetBit | src/bert.c:86-145 | the next bit of the pattern, up to the limit, with the register moved on |
| BertTester.Tester.PutBit | src/bert.c:210-373 | a bit moves the receiver as the model says, searching or counting, and reports what it says |
| BertTester.PassAll | src/bert.c:86-373 | two testers, or one in a loop, over a line that flips any bits: sender and receiver run as the model's do |
| BertTester.Synchronise | src/bert.c:86-373 | over a clean line the receiver is in sync, and in step, within L + resync_time - 1 bits |
| BertTester.Measurement | src/bert.c:86-549 | two fresh testers synchronise; over a line that then flips any bits, no resync is counted if and only if every whole measuring period has fewer errors than the threshold, and then all errors are counted |
| ItuCrc.TableIsSerial | src/crc.c:40-160 | every table entry is eight bit-serial steps |
| ItuCrc.TableStepIsSerial | src/crc.c:81-89 | a table-driven step is the bit-serial CRC of one octet, from any register |
| ItuCrc.FeedLinear | src/crc.c:81-89 | the CRC of a sum of bit strings is the sum of their CRCs |
| ItuCrc.BurstLeavesTrace | src/crc.c:112-122 | a nonzero pattern within 16 or 32 bits, anywhere in a string of any length, has a nonzero CRC from zero |
| ItuCrc.FramedIsAccepted | src/crc.c:190-218 | every frame that append makes passes check |
| ItuCrc.AcceptedIffNoTrace | src/crc.c:208-218 | other octets of that length pass if and only if the CRC of the difference from zero is zero |
| ItuCrc.BurstIsDetected | src/crc.c:190-218 | check rejects every appended frame with any burst of errors within 16 (32) bits, at any position, for any length |
| ItuCrc.LongerBurstIsMissed | src/crc.c:208-218 | the width is exact: every frame of 3 (5) octets or more has a burst within 17 (33) bits that passes |
| ItuCrc.Calc | src/crc.c:161-169 | the table-driven loop computes the bit-serial CRC |
| ItuCrc.CalcBits | src/crc.c:172-187 | so does the loop over single bits, for any number of them |
| ItuCrc.Append | src/crc.c:190-205 | the buffer becomes the framed message, and nothing else changes |
| ItuCrc.Check | src/crc.c:208-218 | true exactly for octets that end in the residue |
| G726.StepSize | src/g726.c:271-288 | the step size lies between yl >> 6 and yu, and so in 544..5120 |
| G726.Initial | src/g726.c:1175-1238 | the initial state is within the ranges that every state keeps |
| G726.LogMonotone | src/g726.c:310-326 | the logarithm never falls as the magnitude rises, across exponents too |
| G726.SignedQuantize | src/g726.c:336-356 | as a two's complement number a code is its level, or its one's complement |
| G726.QuantizeMonotone | src/g726.c:298-356 | for a fixed step size the code never falls as the difference rises, at all four rates |
| G726.Quantize | src/g726.c:298-356 | every code is below 2, 3, 4 or 5 bits, so the decoder's mask leaves it alone |
| G726Adapt.ReconstructIs | src/g726.c:364-383 | the antilog shift 14 - dex is never negative, and bit 15 is the sign of the code |
| G726Adapt.MagnitudeMonotone | src/g726.c:364-383 | the magnitude of dq never falls as the table logarithm of the code rises |
| G726Adapt.AntilogBounds | src/g726.c:364-383 | every magnitude fits 0x3FFF, or 0x7FFF at 40 kbit/s |
| G726Adapt.RebuiltIsExact | src/g726.c:753 | the mask loses nothing: sr is exactly se plus or minus the magnitude, before it is stored |
| G726Adapt.PolesInRange | src/g726.c:453-531 | the limits LIMC and LIMD keep the second pole coefficient within 12288, and the first within 15360 less the second |
| G726Adapt.ScaleInRange | src/g726.c:437-448 | 544 <= yu <= 5120 and 34816 <= yl <= 327680 are kept |
| G726Adapt.SpeedInRange | src/g726.c:596-620 | 0 <= ap <= 512, 0 <= dms <= 3584 and 0 <= dml <= 14336 are kept |
| G726Adapt.UpdateKeepsValid | src/g726.c:389-621 | one update keeps all of these ranges, for any difference and signal |
| G726Adapt.StateAfter | src/g726.c:389-621 | so they hold after any codes at all |
| G726Accuracy.FindsLevel | src/g726.c:88-217 | at all four rates the quantizer finds the level of a code from the logarithm that the code is rebuilt with: the two tables agree |
| G726Accuracy.AntilogUndoesLog | src/g726.c:298-383 | the antilogarithm undoes the logarithm: exactly from 2^7 up, and below that as far as integers allow |
| G726Accuracy.Requantizes | src/g726.c:298-383 | the magnitude of a code, quantized again with the same step size, has the level of the code |
| G726Accuracy.UndoesQuantizer | src/g726.c:298-383 | the magnitude rebuilt lies in the decision interval that the difference was quantized in, and has its sign |
| G726Accuracy.SignalNear | src/g726.c:730-760 | so the signal rebuilt from the code of a sample is as far from the sample as that interval is wide |
| G726Link.OutputNear | src/g726.c:730-1106 | the same for every sample of a stream |
| G726Link.Transmit | src/g726.c:1054-1171 | encoder, bytes and decoder: as many samples come out as the bytes hold, each as near to its input as that |
| G726Adaptation.ScaleFollows | src/g726.c:389-621 | from one state, a code of a larger level leads to scale factors and averages that are no smaller |
| G726Adaptation.AveragesFollow | src/g726.c:446-608 | each average moves towards what it follows, and not beyond |
| G726Adaptation.YuFollows | src/g726.c:435-444 | so does the fast scale factor, within its limits |
| G726Adaptation.SpeedFollows | src/g726.c:604-620 | the speed rises towards 512 if the step is small, a tone is there or the averages differ, and falls towards 0 if not |
| G726Adaptation.FloatAIs | src/g726.c:555-566 | the floating form of a difference has its sign, and its first six bits |
| G726Adaptation.FloatBIs | src/g726.c:568-589 | so has that of the reconstructed signal, but for -0x8000, which is stored as zero |
| G726Adaptation.FmultNear | src/g726.c:221-241 | fmult is the product over 2^11, from 9.2% less to 4.7% more and up to a unit, with its sign, as long as it fits |
| G726Adaptation.EstimateNear | src/g726.c:245-266 | the signal estimate is that of the filter with the poles a and the zeros b on the past signals and differences, up to 9.2% of its terms |
| G726Adaptation.Remembers | src/g726.c:552-589 | after any codes the state holds the last two signals and the last six differences, in order |
| G726Adaptation.ZerosFollow | src/g726.c:533-549 | the zeros move so that the filter predicts more of the new difference, by 32 for each unit of the past ones |
| G726Adaptation.PolesFollow | src/g726.c:468-531 | the poles rise if the partial signal keeps its sign, up to their limits |
| G726Adaptation.PartialSignal | src/g726.c:750-758 | that partial signal is the difference and what the zeros had predicted: the estimate cancels |
| G726Adaptation.RestartsAbove | src/g726.c:417-429 | a restart needs a tone and a difference above a threshold: a larger difference restarts as well, a zero one never, the largest always |
| G726Adaptation.Restarts | src/g726.c:453-464 | a restart forgets the filter, sets the speed in the middle and ends the tone |
| G726Codec.PolesStable | src/g726.c:453-531 | in every such state each root of the pole predictor lies inside the unit circle |
| G726Codec.QuantizeDifference | src/g726.c:298-356 | the table search loop finds the code |
| G726Codec.Codec.constructor | src/g726.c:1175-1238 | an encoder or decoder starts in the initial state with nothing packed |
| G726Codec.Codec.Update | src/g726.c:389-621 | the fields, updated in the order of the source, become the next state |
| G726Codec.Codec.AdaptZeros | src/g726.c:533-553 | every zero coefficient is moved by the difference of the same age |
| G726Codec.Codec.Delay | src/g726.c:556-592 | the delay lines shift by one, with the new values in floating form |
| G726Codec.Codec.EncodeSample | src/g726.c:730-1000 | the code of a sample, and the state that the code alone leads to |
| G726Codec.Codec.DecodeSample | src/g726.c:767-1041 | the same state, and the signal it stands for, from the low bits of the code |
| G726Codec.Codec.Pack | src/g726.c:1140-1165 | the byte emitted and the bits left pending are the bits pending before and those of the code |
| G726Codec.Codec.Encode | src/g726.c:1109-1172 | for any call the codes are those of the samples, and bytes and pending bits together are the codes |
| G726Codec.Codec.Unpack | src/g726.c:1056-1088 | a code and the bits left are the bits pending before and those of any byte read |
| G726Codec.Codec.Decode | src/g726.c:1044-1106 | for any call the samples are those of the codes taken, and too few bits for a code are left |
| G726Codec.MaskIsIdentity | src/g726.c:773-775 | the decoder's mask leaves a packed code unchanged |
| G726Codec.Lockstep | src/g726.c:1044-1172 | whatever the calls, a decoder that has read the first of the bytes emitted has exactly the codes wholly in them, and the state the encoder had after that many samples |
| CodePacking.ReadIsPrefix | src/g726.c:1056-1165 | a reader of whole codes from a prefix of packed bytes has the first codes, as many as the bytes wholly contain |
| Stability.RootsInside | src/g726.c:517-531 | inside the triangle that the limits set, every real or complex root of the pole polynomial is inside the unit circle |
| G722Band.Step | src/g722.c:533-554 | an index keeps the scale factor, the step and the poles of a band in range |
| G722Band.DetInRange | src/g722.c:548-552 | the step stays in 32..16384 (low band) or 8..16384 (high band), so it never overflows |
| G722Band.Block4Poles | src/g722.c:202-228 | whatever the difference, the pole coefficients stay in the stability triangle |
| G722Band.PolesStable | src/g722.c:202-238 | so every root of a band's pole predictor is inside the unit circle |
| G722.Embedded | src/g722.c:298-319 | the low band and high band indices of a cut code are those of the 64 kbit/s code |
| G722.RatesAgree | src/g722.c:279-376 | codes cut to 56 or 48 kbit/s lead to the same bands as the 64 kbit/s codes |
| G722.MixedRatesPart | src/g722.c:346-376 | high bands differ after the first code if only one end runs at 8000 samples per second |
| G722.LowCode | src/g722.c:520-531 | the low band code is one of 4..63 |
| G722Accuracy.UndoesQuantizer | src/g722.c:300-325 | at each rate the low band difference decoded has the sign of the one encoded, and lies in the interval of thresholds that the rate leaves of its level |
| G722Accuracy.AdaptsToCell | src/g722.c:326-330 | what both ends adapt with is the 48 kbit/s difference, which lies in that interval too |
| G722Accuracy.LowNear | src/g722.c:279-376 | the low band output is as far from the sample as that interval is wide |
| G722Accuracy.HighNear | src/g722.c:351-357 | so is the high band output |
| G722Accuracy.OutputNear | src/g722.c:261-618 | the same for every pair of samples of a stream, at each rate |
| G722Link.Transmit | src/g722.c:261-618 | encoder, bytes and decoder: as many pairs come out as the bytes hold, each as near to its input as that |
| G722Adaptation.ScaleFollows | src/g722.c:330-348 | from one band, the index of a larger difference leads to a scale factor that is no smaller |
| G722Adaptation.DetRises | src/g722.c:341-348 | the scale factor never falls as its logarithm rises |
| G722Adaptation.DetDoubles | src/g722.c:341-348 | it doubles with each 2048 of the logarithm, up to the bits dropped |
| G722Adaptation.EvenSteps | src/g722.c:125-135 | the 32 mantissas are the steps of the 32nd root of two |
| G722Adaptation.ZerosFollow | src/g722.c:238-253 | the zeros move so that the filter predicts more of the new difference, by 128 for each unit of the past ones |
| G722Adaptation.FirstPoleFollows | src/g722.c:216-224 | the first pole rises if the partial signal keeps its sign, up to its limit |
| G722Adaptation.SecondPoleFollows | src/g722.c:202-214 | so does the second, for the sign before last |
| G722Adaptation.PolesShare | src/g722.c:202-214 | the second is lower where the first one explains that the sign is kept |
| G722Adaptation.PartialSignal | src/g722.c:197-200 | that partial signal is the reconstructed one less what the poles had predicted |
| G722Adaptation.Predicts | src/g722.c:184-258 | the prediction is that of the filter with the poles a and the zeros b on the past signals and differences, up to one unit for each of its eight terms |
| G722Codec.ScaleFits | src/g722.c:538-546 | the encoder's early conversion to int16_t loses nothing, so both ends scale alike |
| G722Codec.BandState.Zeros | src/g722.c:238-255 | the loop from the oldest difference to the newest updates, sums and shifts all six taps |
| G722Codec.BandState.Adapt | src/g722.c:184-258 | block4 in place computes the next predictor |
| G722Codec.BandState.Advance | src/g722.c:533-554 | scale factor, step and predictor move on by an index, as at the other end |
| G722Codec.QuantizeLow | src/g722.c:520-530 | the threshold search finds the low band code |
| G722Codec.Encoder.EncodeSample | src/g722.c:517-594 | one code is the cut 64 kbit/s code, and the bands move on with it |
| G722Codec.Encoder.Encode | src/g722.c:457-618 | for any call the 64 kbit/s codes do not depend on the rate, and bytes and pending bits are those codes cut to it |
| G722Codec.Decoder.DecodeSample | src/g722.c:298-378 | the output uses every bit of a code, the bands only its index |
| G722Codec.Decoder.Decode | src/g722.c:261-410 | for any call the outputs are those of the codes taken, and the number of codes taken so far is fixed by the number of bytes: a byte is read only for a code that needs it, and nothing after the last |
| G722Codec.DecodedCount | src/g722.c:279-297 | a packed decoder has the codes that its bytes wholly contain, but for the last one when the bytes end where a code does, and exactly then a whole code is left |
| G722Codec.HeldBack | src/g722.c:279-297 | one call with 7 bytes at 56 kbit/s, or 3 at 48, decodes all but the last of the codes in them |
| G722Codec.Lockstep | src/g722.c:261-618 | whatever the calls and the rate, a decoder that has read the first of the bytes emitted has the first of the encoder's codes, exactly as many as DecodedCount says, and the bands the encoder had after them |
| G722Codec.EncoderBands | src/g722.c:457-618 | the encoder's bands are those that its 64 kbit/s codes lead to |
| Divisibility.SumDivisible | src/awgn.c:71-81 | 1 + a + ... + a^(k-1) is divisible by p^e if and only if k is |
| Awgn.NoOverflow | src/awgn.c:83-127 | every product and sum fits int32_t |
| Awgn.FullPeriod | src/awgn.c:71-127 | each sequence returns to a value after exactly the multiples of M steps |
| Awgn.Covers | src/awgn.c:71-127 | from any seed each sequence takes every value below M |
| Awgn.Distinct | src/awgn.c:71-127 | within one period no value comes twice: a step is a permutation |
| Awgn.IndexInTable | src/awgn.c:110-120 | the shuffle index is in 0..96, so the error branch is dead, and the 97 entries share the values of the third sequence evenly |
| Awgn.UniformRange | src/awgn.c:100-101 | over exact reals every number made is in [0, 1) |
| Awgn.UniformGrid | src/awgn.c:100-101 | over exact reals the numbers are the multiples of 1 / (M1 M2), in the order of the pairs of values they are made of |
| Awgn.UniformDistinct | src/awgn.c:100-101 | so each pair has its own |
| Awgn.Generator.RanInit | src/awgn.c:83-102 | the three sequences start from the seed as the source has it, and the table holds the first 97 numbers |
| Awgn.Generator.Ran | src/awgn.c:105-127 | a table entry is handed out and replaced by the next number; nothing else changes |
| Awgn.Generator.Draw | src/awgn.c:105-127 | over any number of draws the shuffle neither loses nor repeats a number |
| Dds.HalfTurn | src/dds_int.c:340-355 | half a turn later the sine is the opposite |
| Dds.QuarterTurn | src/dds_int.c:340-355 | the second quadrant is the first one backwards |
| Dds.InQuadrature | src/dds_int.c:340-402 | the two parts of dds_complexi lie on one circle, to 0.004% of its square, and turn by the same angle, forwards, from each table step to the next, to 0.6% |
| Dds.Lookup | src/dds_int.c:340-355 | for every phase the sine stays within 32767 |
| Arith.TotalUpdate | src/fsk.c:414-428 | taking out an old product and putting in a new one gives the sum of the changed window |
| Fsk.SpanShift | src/fsk.c:694-711 | the scaling shift is the bit length of the span, 1 to 8 |
| Fsk.ScaledProduct | src/fsk.c:417-419 | a product fits int32_t, and scaled it is at most 32767 * 2^(15 - shift) |
| Fsk.EnergyFits | src/fsk.c:424-428 | for every span up to 128 the sums and the two-square energies fit int32_t |
| Fsk.RecentTotal | src/fsk.c:414-428 | after one span of values, from any position in the ring, the sum of the whole window is that of those values |
| Fsk.SumNear | src/fsk.c:414-428 | the sum of the scaled products is the exact correlation with the oscillator, scaled, up to a unit for each sample |
| Fsk.EnergyNear | src/fsk.c:424-428 | the energy is the sum of the two squares over 2^30, up to the bits dropped |
| Fsk.Scaling | src/fsk.c:694-711 | the loop that computes span and shift |
| Fsk.Tone.Correlate | src/fsk.c:412-429 | one slot of each window changes, the running sums stay those of the whole windows, and the products, the sums with the slot taken out and put back, and the energy all fit int32_t |
| Fsk.Tone.Skip | src/fsk.c:648-660 | the same for a missing sample, whose product is zero |
| Fsk.Receiver.Receive | src/fsk.c:408-480 | on every path both tones keep their sums, signal_present and baud_phase move as NextCarrier says, the position moves only when the sample is demodulated, and then the decision compares the energies |
| Fsk.CarrierComesUp | src/fsk.c:443-480 | samples above the turn-on threshold turn the carrier on after half a span less 30 of them, and it then stays on |
| Fsk.Receiver.ReceiveSpan | src/fsk.c:408-480 | with the carrier on, after one span of samples the decision is that of correlating those samples afresh, whatever came before |
| Fsk.Receiver.FillIn | src/fsk.c:637-667 | missing samples clear one slot of each window and never move the position |
| AsyncSerial.Unpacks | src/async.c:143-178 | a character shifted in from the top of the register comes out masked, with its parity found right |
| AsyncSerial.Delivers | src/async.c:133-198 | the bit after the data delivers the character: a stop bit, or with V.14 the next start bit |
| AsyncSerial.SentInParity | src/async.c:307-330 | the bits sent have an even or odd number of ones, or a last one or zero, as the parity says |
| AsyncSerial.DeliversInParity | src/async.c:143-198 | whatever bits follow a start bit, the receiver delivers the character if they are in parity, and counts a parity error if not |
| AsyncSerial.OneErrorIsNoticed | src/async.c:145-172 | so with even or odd parity one inverted bit is never accepted |
| AsyncSerial.RxLine | src/async.c:121-198 | an idle receiver delivers exactly the masked characters, with no errors, for 5 to 8 bits, any parity and idling, and any deletable stop bits deleted |
| AsyncSerial.SentIsLine | src/async.c:285-337 | what is transmitted is such a line with nothing deleted |
| AsyncSerial.FrameBits | src/async.c:307-330 | the register sends the data, any parity bit, and then only ones |
| AsyncSerial.Receiver.PutBit | src/async.c:93-200 | a bit moves the receiver as the model says; of the statuses only six are passed on |
| AsyncSerial.Transmitter.GetBit | src/async.c:277-338 | start bit, then the bits of the register, presend bits first, idle bits when there is nothing to send |
| AsyncSerial.Transmitter.SendAll | src/async.c:277-338 | any list of characters and idle times becomes its line |
| AsyncSerial.RoundTrip | src/async.c:93-338 | transmitted and received, the masked characters arrive with no errors |
| BitstreamPacking.JoinedBits | src/bitstream.c:48-83 | a field joins the register behind the bits it holds, in either order |
| BitstreamPacking.FrontRestBits | src/bitstream.c:116-145 | taking the first bits leaves exactly the others |
| BitstreamPacking.Bitstream.Put | src/bitstream.c:48-83 | the bytes written and the bits pending are those pending before and the field; a field that would overfill the register is dropped |
| BitstreamPacking.Bitstream.Emit | src/bitstream.c:86-100 | the partial byte is written, zero padded, and the state does not change |
| BitstreamPacking.Bitstream.Flush | src/bitstream.c:103-113 | the padded byte is committed and the register emptied |
| BitstreamPacking.Bitstream.Get | src/bitstream.c:116-145 | the value read and the bits left are the bits there were |
| BitstreamPacking.RoundTrip | src/bitstream.c:48-145 | fields of 1 to 25 bits put, flushed and read back give each value modulo 2^width; the ceil(bits / 8) bytes are the fields and zeros, whatever is emitted in between |
| Adsi.CharRun | src/adsi.c:221-325 | start bit, eight data bits and one or more stop bits are one accepted octet, and further stop bits count towards an idle line |
| Adsi.SumsToZero | src/adsi.c:708-713 | the octets of a message and its sumcheck add up to a multiple of 256 |
| Adsi.DeliveredIffZeroSum | src/adsi.c:296-311 | a complete message is delivered if and only if what was received does |
| Adsi.OneOctetIsNoticed | src/adsi.c:296-311 | so a message with one octet altered is never delivered |
| Adsi.PreambleChars | src/adsi.c:102-107 | alternating bits read as characters 0x55 |
| Adsi.PreamblePart | src/adsi.c:102-117 | a part character of the preamble is completed by ones, as 0xFF, 0xFD, 0xF5, 0xD5 or 0x55 |
| Adsi.PreambleRun | src/adsi.c:221-311 | a preamble of any length delivers nothing: every 88 octets look like a message and fail its sumcheck, and the rest is left over |
| Adsi.MessageRun | src/adsi.c:221-327 | the characters of a message deliver it once, with octet 1 set to len - 2, and not before its last octet |
| Adsi.MessageArrives | src/adsi.c:94-327 | everything sent for one message of 2 to 255 octets produces exactly one delivery and leaves the receiver at rest |
| Adsi.StreamArrives | src/adsi.c:94-327 | for any sequence of such messages: one delivery each, in order, and no others |
| Adsi.ArrivesIff | src/adsi.c:94-327 | for all settings of adsi_tx_set_preamble: every message arrives if and only if the ones complete the preamble's last character, the line is then idle or nothing is left over, and there are at most 11 stop bits |
| Adsi.ShortMessageIsLost | src/adsi.c:296-311 | a message of fewer than two octets is sent, but never delivered |
| AdsiModem.Receiver.PutBit | src/adsi.c:192-328 | a bit moves the receiver as the model says; a new carrier resets it |
| AdsiModem.Receiver.Accepted | src/adsi.c:296-311 | an octet is stored, and a complete message delivered if its sumcheck is right |
| AdsiModem.Transmitter.PutMessage | src/adsi.c:626-722 | for messages of any length: 0 while busy, -1 if too long, else the buffer is the forced message with its sumcheck and all its bits are to come |
| AdsiModem.Transmitter.GetBit | src/adsi.c:94-170 | the next of the bits to come, or the end of data |
| AdsiModem.Transmitter.SendMessage | src/adsi.c:94-170 | preamble, ones, characters and postamble, in full |
| AdsiModem.Exchange | src/adsi.c:94-722 | messages put, sent and received one after another arrive once each, with their lengths put right |
| Baudot.CharArrives | src/adsi.c:773-958 | from any agreeing shifts a character arrives in upper case or not at all, and the shifts still agree |
| Baudot.TextArrives | src/adsi.c:773-958 | so does any text, without NUL, `^` and the characters that have no code; transmit shift 2 agrees with any receive shift |
| Baudot.FigureCodes | src/adsi.c:775-905 | the codes of the figure shift are distinct from the shift codes, but for `^` |
| Baudot.LetterCodes | src/adsi.c:775-905 | the codes of the letter shift decode to the capital; NUL has code 0 |
| Baudot.TextOverLine | src/adsi.c:331-376 | over a start-stop line of five bits the codes of a text arrive without errors and decode to it |
| Baudot.Encoder.EncodeChar | src/adsi.c:773-933 | a code, with a shift before it if the last one was not for it |
| Baudot.Encoder.AddField | src/adsi.c:1193-1209 | the codes of a field are appended, and the shift is carried on |
| Baudot.Decoder.PutByte | src/adsi.c:331-376 | text is added to in blocks of 256, and no character is lost between them |
| Baudot.Decoder.CarrierDown | src/adsi.c:350-357 | the end of the carrier delivers the rest of the text |
| Dtmf.DeclaredAfterTwo | src/dtmf.c:304-349 | a digit is declared only by the second of two successive blocks that hit it |
| Dtmf.LastHitIs | src/dtmf.c:304-349 | in a digit the last hit is the raw one; otherwise the hits since the last gap are taken in pairs, and only an odd one is remembered |
| Dtmf.DeclaredIff | src/dtmf.c:304-349 | a digit is declared exactly by the second of two equal raw hits that differ from any digit in progress and, if none is, are one of those pairs |
| Dtmf.EndsIff | src/dtmf.c:304-349 | a digit ends exactly at the second of two successive blocks that do not hit it |
| Dtmf.DeclarationsAreSeparated | src/dtmf.c:304-349 | between two declarations of one digit there are two such blocks |
| Dtmf.TwoHitsStart | src/dtmf.c:278-310 | the exact condition, on the raw hits and the digit in progress, under which two equal hits start a digit |
| Dtmf.ThreeHitsSuffice | src/dtmf.c:304-349 | three equal hits always leave their digit in progress, whatever came before |
| Dtmf.AbccStarts | src/dtmf.c:277-310 | from idle A, B, C, C starts C: the first two hits are a pair that is dropped |
| Dtmf.IdlePatterns | src/dtmf.c:277-303 | the two listed patterns from idle with a gap hold |
| Dtmf.AbbDoesNotStart | src/dtmf.c:277-303 | A, B, B from idle does not start B, against the listed pattern; another B does |
| Dtmf.CddDoesNotStart | src/dtmf.c:277-303 | C, D, D in a digit B ends B without starting D, against the listed pattern; another D does |
| Dtmf.InDigitPatterns | src/dtmf.c:277-303 | the listed patterns that stay in a digit, end it, or replace it hold |
| Dtmf.EndsAndStartsAgain | src/dtmf.c:277-303 | so does the listed pattern that ends digit B and starts it again |
| Dtmf.SplittingDoesNotMatter | src/dtmf.c:132-360 | the digits, and the rest of the state, are the same for every splitting of the samples into calls |
| Dtmf.HitsSnoc | src/dtmf.c:154-208 | one more sample joins the last block, or completes it and adds its verdict |
| Dtmf.HearsAll | src/dtmf.c:132-360 | any further samples add the digits that their blocks start, in order, as far as the queue has room, and count the others as lost |
| Dtmf.DigitsOf | src/dtmf.c:132-360 | from dtmf_rx_init on, the digits waiting are the first 128, in order, of those that the raw hits of all blocks start, the others are counted as lost, and the debouncer is where the hits lead |
| Dtmf.SessionDigits | src/dtmf.c:132-408 | however dtmf_rx and dtmf_rx_get alternate, the digits handed out and then those waiting are digits started, in order, all but those counted as lost |
| Dtmf.Receive | src/dtmf.c:132-408 | a receiver driven with dtmf_rx and dtmf_rx_get does so |
| Dtmf.WithinBlock | src/dtmf.c:154-208 | samples up to the end of a block only add up, and the last of them ends it |
| Dtmf.Receiver.Rx | src/dtmf.c:132-360 | the loop over parts of blocks does what one sample at a time would do |
| Dtmf.Receiver.FinishBlock | src/dtmf.c:304-352 | a declared digit is stored, or counted as lost once 128 are waiting |
| Dtmf.Receiver.Get | src/dtmf.c:394-408 | the oldest digits are taken, and the others stay in order |

## Left out
- Floating point: rounding, dBm and power conversions, Goertzel filters, AGC, line models, windows and filter design. The FFT is over exact complex numbers, with the twiddle factors as a function w with w(0) = 1, w(a + b) = w(a) w(b) and w(4096) = -1; the generator's numbers are exact reals; the DTMF tone detector is any fold of samples with a verdict.
- `awgn`: the polar method that turns uniform numbers into Gaussian ones.
- G.726: A-law and u-law input and output with their tandem adjustment, and any bound on the zero coefficients, which wrap as int16_t does.
- G726Adaptation.EstimateNear: for products and sums that fit int16_t; `fmult` masks those that do not.
- G726Adaptation.ZerosFollow: for coefficients that int16_t can still move.
- G722Adaptation.Predicts: for signals of 15 bits, which block4 doubles without saturation.
- G726Codec.Codec.Decode: requires room for the samples the bytes complete, as the source does of its caller; the array of 8-bit samples for companded output is not modelled.
- G.722: the quadrature mirror filters and the interleaving of their output; encoder and decoder work on pairs of sub-band samples, which in the ITU test mode are the samples themselves.
- G722Codec.Lockstep: states the high band only for ends that agree on 8000 samples per second; `G722.MixedRatesPart` shows why.
- FSK: bit timing and character framing after the decision, the transmitter, and the power meter, whose comparisons with the carrier thresholds are inputs. What framing does to `baud_phase` does not reach the modelled part, which resets it first.
- FSK: `fsk_rx_restart` in mid-stream, which keeps the old windows.
- BERT: pattern classes 0 and 2, the zero-suppressing 2^20-1 pattern, and periodic reports.
- BertTester.Tester.constructor: covers the presets without zero suppression; the others need a different mechanism to synchronise.
- The path of `rfc2198_sim.c` is a queue that may lose bundles but neither reorders nor alters them, in place of the G.1050 model, which is not part of this model; bundles fit the fixed buffers.
- ADSI: the J-CLIP and DTMF variants, and the building and parsing of message fields other than for TDD.
- Adsi.MessageArrives: for the settings with which every message arrives; `Adsi.ArrivesIff` shows that with the others one is lost.
- Adsi.StreamArrives: for messages of at least two octets; a shorter one leaves its octets in the receiver.
- Baudot: characters above 127, for which the source's table has no entry.
- DTMF: callbacks, `duration` (which only logging and the realtime callback see), and `dtmf_rx_fillin`.
- Bitstreams: fields of more than 30 bits; 32-bit registers are numbers below 2^32.
- Async: a transmit register with more than 16 bits of character and stop bits.
- `echo.c`, `fax.c`, `fax_modems.c`, `data_modems.c`, `at_interpreter.c`, `ademco_contactid.c`, `bit_operations.c`, `g711.c`, `complex_vector_int.c` and `bell_r2_mf.c`, which would add callbacks of unseen code or only easy members.
- Logging, allocation, function pointers, examples and tables of data.
