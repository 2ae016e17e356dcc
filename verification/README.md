# A verified model of the G.729 Annex A codec

The repository is a fixed-point implementation of ITU-T G.729 with Annex A. Its encoder and its decoder are
two state machines that share 80 bits per frame: whatever one of them predicts from (quantised line spectra,
gain errors, past excitation, the last pitch gain), the other has to rebuild from those bits. This project
models both machines, the searches that choose the bits, the arithmetic kernels and the long-run behaviour,
and proves the properties they are built for.

The machines are modelled in the form the source gives them: classes whose fields are the memories, methods
with the loops of the source over arrays, each tied by its contract to a function of the old state; the
lemmas are about those functions. Words are mathematical integers with range types (`Word16`, `Word32`),
`>>` is floor division by a power of two, saturation and wrap-around are written out.

| file | part |
|---|---|
| Fixed | saturating 16/32-bit operators, Go conversions and division |
| Bits, G192 | the packed frame and the G.192 serial file |
| PitchCodes, AdaptiveCodebook, FixedCodebook, Gain, GainLaws, Synthesis | what each index means and how a subframe is rebuilt |
| LsfStability, LsfLsp, LspToLp, LspQuantizer | the line spectrum: ordering, conversions, MA prediction |
| Codec, LockStep, Transmitter, Receiver, Link | the two machines, their simulation, the classes, one frame over the wire |
| AdaptiveBands, Taming, Recovery | runs from the cold start that leave the simulation: by taming, by overflow recovery |
| Concealment | the bad-frame path and how it fades |
| OpenLoop, ClosedLoop | the pitch searches |
| PulseSearch, PulseScan, PulseRanking, MatchedFilter | the algebraic codebook search and its surface |
| GainSearch, GainCost, GainOptimum | the conjugate-structure gain search, and what it minimises |
| Autocorrelation, Levinson | LP analysis |
| Streaming, StreamedRun | the buffering wrapper, and what a receiver of its bytes has followed |

Main results:

- **Lock-step.** For every sequence of legal index choices, the receiver of the packed frames has the encoder's
  delay, code vector, gains, excitation and history in every subframe exactly when no subframe is tamed and synthesis
  overflow recovery never fires with something to change (`LockStep.RunLockStep`). After a tamed subframe the histories
  still agree exactly when both sides put the same samples in (`LockStep.SubframeInStep`). Both exceptions happen from
  the cold start: six frames of one legal choice cannot be played without taming, whatever the spectra are
  (`Taming.TamingDiverges`), and two legal frames on rows of the standard's LSP codebooks make recovery fire in the
  fourth subframe, after three in step (`Recovery.RecoveryDiverges`).
- **Streams.** However a recording is cut into writes, the bytes are those of the recording padded to whole frames
  (`Streaming.EncodeStream`), and a receiver of them follows the encoder on the same terms, whatever its searches
  choose (`StreamedRun.StreamFollowed`).
- **Predictors.** The LSP and gain memories agree after every frame whether or not those two fire
  (`LockStep.RunLinked`), and come back by themselves after any loss: gains after two good frames, LSP residuals
  after four, the whole spectrum after five, from any two states (`LockStep.Resynchronise`).
- **Kernels.** Every LP coefficient is the clamp of an integer within one Q12 unit of the exact product
  (`LspToLp.LspToLpNear`); the interpolated cosine rises for exactly 27 pairs of angles (`LsfLsp.RisesExactly`), and the
  inverse is nearest over the whole range all the same (`LsfLsp.LspToLsf`); the overflow flag is clear exactly when
  the unbounded recurrence fits, and then the output is that recurrence (`Synthesis.FilterMeaning`).
- **Searches.** The pulse search is the first maximiser of C^2/E through exact 128-bit comparison, its C is the inner
  product with the filtered code vector and 2E its energy up to 4 units; the gain search is the first minimiser of
  the scaled cost with no loss to 64 bits even where an intermediate square wraps, that cost is the energy of the
  quantisation error (`GainOptimum.CostIsError`), and the centre its candidates are nearest to is the unquantised minimum
  of it (`GainOptimum.CentreIsBest`).
- **Prediction.** Every stage of the Levinson recursion that divides without clipping solves its normal equations up to
  the roundings (`Levinson.NormalEquations`), and so does the predictor written out (`Levinson.PredictorSolves`).
- **Reconstruction.** The adaptive vector is equation (40) of the standard at the delay in thirds of a sample
  (`AdaptiveCodebook.InterpolationLaw`), the code vector the only solution of equation (46) on its four pulses
  (`FixedCodebook.CodeVectorLaw`), the excitation gp v + gc c (`Synthesis.ExcitationNear`), and the synthesis filter
  1/A(z) (`Synthesis.SynthesisInverts`).
- **Legal choices.** What the pitch, pulse and gain searches return is always a choice the bit stream can carry
  (`ClosedLoop.SearchFrame`, `PulseSearch.CandidatesAreLegal`, `GainCost.SearchConjugate`), so the lock-step results
  apply to it.
- **Concealment.** Whatever a receiver has been through, the pitch gain halves every six bad frames and the fixed
  gain every 26; after 390 both are zero, and two frames later so is the whole history
  (`Concealment.ConcealmentFadesOut`).

Where the code and its comments disagree, the model follows the code:

- `internal/lpc/autocorr.go:20-22` says the shifted r(0) fits 32 bits. The shift rounds negative samples down, so it
  need not: the sums are exact exactly when the energy of the shifted samples fits (`Autocorrelation.ShiftedExact`),
  and nine loud samples of pre-processed speech in silence are beyond it (`Autocorrelation.ShiftedPathWraps`).
- `internal/lsp/lsf_lsp.go:7-10` says a larger angle never has a larger LSP. The table falls, but its first cell is
  interpolated two units too far: `LsfLsp.RisesExactly` lists the pairs of angles that rise.
- `internal/pitch/closedloop/window.go:7-27,39-63` computes the search windows in 16 bits, so close to both ends of that
  range they wrap and hold no delay; the windows are right exactly elsewhere, which covers every pitch.
- `internal/fcbsearch/signs.go:26-28` gives the absolute value except for the least 32-bit number
  (`MatchedFilter.MagnitudeExact`).

## Model

| member | source | states |
|---|---|---|
| Fixed.LMult | internal/fixed/mult.go:5-11 | the doubled product is its 32-bit saturation; only the square of -32768 saturates |
| Bits.BitWriter.Write | internal/bitstream/bitio.go:25-36 | adds the set bits of the field at the position, drops what lies past the end, touches nothing else |
| Bits.BitReader.Read | internal/bitstream/bitio.go:56-69 | the number spelt by the next n bits, zeros past the end, low 16 bits of it |
| Bits.Pack | internal/bitstream/pack.go:8-36 | ten bytes spelling the fifteen fields whatever the buffer held; a short buffer is refused unchanged |
| Bits.Unpack | internal/bitstream/pack.go:41-63 | the fields at their positions, or the short-input error |
| Bits.UnpackPack | internal/bitstream/pack.go:8-63 | unpacking a packed frame gives every field cut to its width |
| Bits.PackUnpack | internal/bitstream/pack.go:8-63 | packing an unpacked frame gives the ten bytes back |
| G192.WriteG192Frame | internal/bitstream/g192.go:35-65 | sync, length and 80 little-endian softbits of the frame; a short frame is refused |
| G192.ReadG192Frame | internal/bitstream/g192.go:130-186 | short destination, end of input, short input, bad sync, length or softbit, or the frame and its flag, strict or lenient; what each outcome leaves in the destination |
| G192.ReadG192File | internal/bitstream/g192.go:204-219 | frames and flags up to the end, the truncation or the first bad frame |
| G192.FrameRoundTrip | internal/bitstream/g192.go:35-186 | either reader gets a written frame and its flag back |
| G192.StrictIsWritten | internal/bitstream/g192.go:130-186 | the strict reader accepts nothing but written frames |
| G192.FileRoundTrip | internal/bitstream/g192.go:204-219 | a file of written frames reads back whole; a cut-off tail is reported after them |
| PitchCodes.Subframe1Window | internal/pitch/closedloop/window.go:16-27 | seven delays inside [20, 143] exactly for the centres -32765..32764, containing a centre of that range; empty for the others, which wrap |
| PitchCodes.Subframe2Window | internal/pitch/closedloop/window.go:52-63 | ten delays inside [20, 143] exactly for the centres -32763..32763; empty for the others |
| PitchCodes.P1RoundTrip | internal/pitch/closedloop/encode.go:16-21 | the receiver gets the delay back exactly when P1 can carry it |
| PitchCodes.P1Bijection | internal/pitch/delay.go:20-30 | each of the 256 code words stands for one encodable delay, and encodes back |
| PitchCodes.P2RoundTrip | internal/pitch/closedloop/encode.go:33-35 | the 5-bit range is exactly the boundary-extended candidates, and each comes back |
| PitchCodes.P2Bijection | internal/pitch/delay.go:59-70 | each of the 32 code words stands for one candidate, and encodes back |
| PitchCodes.ParityIsOdd | internal/pitch/parity.go:16-22 | the bit is the complement of the sum of the six high bits of P1 |
| PitchCodes.ParityDetects | internal/pitch/parity.go:7-22 | parity checks, and notices a single inverted bit exactly when it is one of the six |
| AdaptiveCodebook.FirInterpolateRecursiveCurrent | internal/pitch/adaptive.go:104-128 | the recursive definition of the vector, sample by sample over what was there |
| AdaptiveCodebook.FirInterpolate | internal/pitch/adaptive.go:62-99 | the same filter over the past alone, on the given span only |
| AdaptiveCodebook.AdaptiveCodebook | internal/pitch/adaptive.go:42-58 | the recursive definition for every delay, whichever loop runs |
| AdaptiveCodebook.CodebookIgnoresContents | internal/pitch/adaptive.go:104-142 | for a decodable delay the vector does not depend on what v held |
| AdaptiveCodebook.CodebookIgnoresOldHistory | internal/pitch/adaptive.go:42-142 | nor on samples older than 153 |
| AdaptiveCodebook.FastIsRecursive | internal/pitch/adaptive.go:62-128 | from start sample 50 on the past-only filter is the recursive definition |
| AdaptiveCodebook.PhaseMeans | internal/pitch/adaptive.go:65-75 | start sample and phases of a delay of 3 tInt + tFrac thirds: 3 k - pos is that delay, and the two phases split one sample |
| AdaptiveCodebook.AccumulateByDistance | internal/pitch/adaptive.go:117-126 | every tap at sample m weighs u(m) by b30 at the distance of 3 (m - n) + 3 tInt + tFrac thirds |
| AdaptiveCodebook.InterpolationLaw | internal/pitch/adaptive.go:104-128 | equation (40) on the finished vector of any decodable delay, its own samples included; the rounded exact sum wherever no partial sum leaves 32 bits |
| FixedCodebook.ClampPitchGainForEnhancement | internal/fcb/enhance.go:22-30 | the enhancement gain lies in [3277, 13017] |
| FixedCodebook.PackS | internal/fcbsearch/pack.go:14-22 | bit i is the sign at pulse i |
| FixedCodebook.PositionsRoundTrip | internal/fcbsearch/pack.go:48-59 | decoding the 13-bit code of legal positions gives them back |
| FixedCodebook.CodesRoundTrip | internal/fcb/positions.go:19-31 | and every 13-bit code is the code of what it decodes to |
| FixedCodebook.SignsRoundTrip | internal/fcb/signs.go:15-26 | the four sign bits decode to the four signs |
| FixedCodebook.PlacePulses | internal/fcb/signs.go:15-26 | four pulses of 8191 or -8192 on an otherwise zero vector |
| FixedCodebook.BuildSparseCode | internal/fcbsearch/code.go:38-50 | the same vector from the encoder's signs |
| FixedCodebook.ApplyPitchEnhancement | internal/fcb/enhance.go:46-60 | the recursive enhancement in place; nothing for delays outside 1..39 or a zero gain |
| FixedCodebook.BuildCode | internal/fcbsearch/code.go:30-34 | pulses then enhancement with the clamped last pitch gain |
| FixedCodebook.Decode | internal/fcb/decode.go:20-24 | the receiver's vector from the two code words |
| FixedCodebook.SameVector | internal/fcbsearch/code.go:30-34 | the receiver rebuilds the encoder's vector |
| FixedCodebook.EnhancementLaw | internal/fcb/enhance.go:46-60 | the enhanced vector solves equation (46), c'(n) = c(n) + beta c'(n - t) with one rounding and one saturation, for delays 1..39, and is the vector itself for others |
| FixedCodebook.EnhancementUnique | internal/fcb/enhance.go:46-60 | no other vector solves it |
| FixedCodebook.CodeVectorLaw | internal/fcbsearch/code.go:30-50 | the vector of both machines: 8191 or -8192 at the four positions by their signs, zero elsewhere, then equation (46) with the clamped gain |
| FixedCodebook.LowestPulseSurvives | internal/fcb/enhance.go:46-60 | enhancement leaves the lowest pulse with its full amplitude and its own sign |
| Gain.GainMapsInverse | internal/gainquant/pack.go:18-20 | the gain permutations undo each other both ways |
| Gain.PitchGainQ14 | internal/gain/vq.go:19-25 | every pair gives a pitch gain in [0, 22215] |
| Gain.GammaQ13 | internal/gain/vq.go:19-25 | every pair gives a positive correction factor |
| Gain.NormLLoop | internal/fixed/norm.go:24-40 | the doubling loop counts the doublings below 2^30 |
| Gain.NormalisedRange | internal/gain/log2.go:44-62 | the logarithm's table argument lies in [1, 2) and the count is at most 30 |
| Gain.FixedCodebookEnergyLoop | internal/gain/energy.go:21-28 | the saturating energy sum |
| Gain.PredictedEnergyLoop | internal/gain/predictor.go:35-41 | the four-tap predicted energy |
| Gain.QuantizeFixedGainQ1 | internal/gain/pow2.go:149-158 | a multiple of 8192, at most 32767 of them, never above the gain |
| Gain.SplitGainQ14Loop | internal/gain/pow2.go:160-174 | mantissa and exponent by halving and doubling |
| Gain.SplitRoundTrip | internal/decoder/subframe.go:210-227 | a quantised gain survives mantissa and exponent exactly |
| Gain.GainsAgree | internal/gainquant/predictor.go:172-178 | the receiver rebuilds the gains the encoder committed |
| Gain.ErrorsAgree | internal/gainquant/predictor.go:200-211 | both error memories move alike for any vector with energy |
| Gain.EnergyPositive | internal/gain/energy.go:21-28 | one non-zero sample gives positive energy |
| Gain.Decoder.Decode | internal/gain/decode.go:118-217 | gains and new error memory of one subframe, cold start included |
| Gain.Decoder.MarkErasure | internal/gain/decode.go:86-102 | average minus 4 dB, not below the default |
| Gain.UpdatePastQuaEn | internal/gainquant/predictor.go:200-211 | the encoder's memory shifts and takes the quantised error |
| GainLaws.GainAtOne | internal/gain/pow2.go:127-147 | from one up to two the gain is the correction factor times 1 to 2 |
| GainLaws.OctaveDoubles | internal/gain/pow2.go:127-147 | one more in the logarithm doubles the gain, exactly from one upwards and up to the bit shifted out below |
| GainLaws.Log2Doubles | internal/gain/log2.go:44-62 | doubling the argument adds one to the logarithm |
| GainLaws.LouderVectorLowerGain | internal/gain/decode.go:245-252 | a vector of twice the energy is predicted 3.01 dB less, whatever the memory |
| GainLaws.CorrectionDoubles | internal/gain/decode.go:275-290 | twice the correction factor is 6165 / 1024 dB more in the memory |
| GainLaws.ErasureLowers | internal/gain/decode.go:86-102 | an erasure enters the floor of the mean less 4 dB, never below -14 dB nor above the largest entry less 4 dB |
| Synthesis.BuildExcitation | internal/synth/excitation.go:74-90 | the rounded sum of the two scaled contributions in every sample |
| Synthesis.ZeroGainSilence | internal/synth/excitation.go:74-90 | no gain on either side gives silence |
| Synthesis.ExcitationNear | internal/synth/excitation.go:74-90 | each sample is gp v + gc c to the nearest whole number, up to the bits the exponent shifts out |
| Synthesis.OverflowFlag.Saturate64 | internal/fixed/arith32.go:5-16 | saturates, and raises the flag exactly when it had to |
| Synthesis.Synthesizer.OnePass | internal/synth/filter.go:51-60 | forty outputs of the saturating recurrence and whether anything saturated |
| Synthesis.Synthesizer.FilterSubframe | internal/synth/filter.go:19-46 | one pass, or a second on a quarter of the excitation; memory and shift follow |
| Synthesis.PassExact | internal/synth/filter.go:19-60 | the flag is clear exactly when every intermediate of the unbounded recurrence fits; then outputs are exact |
| Synthesis.FilterMeaning | internal/synth/filter.go:19-46 | shift 0 exactly in that case, otherwise shift 2; memory is the last ten outputs |
| Synthesis.SynthesisInverts | internal/synth/filter.go:51-60 | A(z) on the output gives the excitation back to half a unit: the filter is 1/A(z) |
| Synthesis.QuarterMeans | internal/synth/filter.go:33-40 | the second pass filters the excitation rounded down to quarters |
| LsfStability.InsertionSort10 | internal/lsp/stability.go:83-93 | insertion sort in place |
| LsfStability.InsertionSortOrders | internal/lsp/stability.go:83-93 | the result is ordered and a permutation |
| LsfStability.EnforceLsfStabilityInPlace | internal/lsp/stability.go:34-55 | sort, forward pass, and the backward pass where the top is exceeded |
| LsfStability.EnforceStable | internal/lsp/stability.go:34-55 | any ten 16-bit values end within [41, 25682] with gaps of 321, saturation included |
| LsfStability.EnforceFixpoint | internal/lsp/stability.go:34-55 | exactly the stable vectors are left alone; the routine is idempotent |
| LsfStability.RearrangeAdjacent | internal/lsp/stability.go:70-79 | the pairwise spreading pass in place |
| LsfStability.PairSpread | internal/lsp/stability.go:70-79 | a pair too close is moved apart about its mean to the wanted gap or one less, any other left alone |
| LsfLsp.AngleFalls | internal/lsp/lsf_lsp.go:32-57 | the conversion strictly falls across any 128 angle units |
| LsfLsp.RisesExactly | internal/lsp/lsf_lsp.go:32-57 | of two angles the larger has the larger LSP exactly for 388..402 against 403 and 399..402 against 404..406 |
| LsfLsp.LspToLsf | internal/lsp/lsp_lsf.go:12-50 | an angle whose value is nearest over the whole range, with the sign-dependent tie rule; two endpoint shortcuts |
| LspToLp.BuildLspPolyQ24 | internal/lsp/lsp_lp.go:44-64 | the half-stored polynomial of five alternate factors |
| LspToLp.LspToLpInPlace | internal/lsp/lsp_lp.go:17-42 | the eleven LP coefficients |
| LspToLp.Palindrome | internal/lsp/lsp_lp.go:44-64 | the exact product is palindromic, so half of it is enough |
| LspToLp.PolyNear | internal/lsp/lsp_lp.go:44-68 | the recurrence is that product, coefficient by coefficient, within a few Q24 units |
| LspToLp.LspToLpNear | internal/lsp/lsp_lp.go:17-68 | every coefficient is the clamp of an integer within one Q12 unit of the exact value |
| LspToLp.ProductsFit | internal/lsp/lsp_lp.go:66-68 | no product leaves 64 bits |
| LspQuantizer.Decoder.Decode | internal/lsp/decoder.go:105-161 | new residual memory, spectrum, selector, and the two filters of the frame, cold start included |
| LspQuantizer.Decoder.DecodeErasure | internal/lsp/decoder.go:167-188 | filters from the old spectrum; the memory advances by the inverse residual |
| LspQuantizer.Decoder.ApplyPredictor | internal/lsp/predictor.go:28-37 | predicted angles from the old memory, then the shift |
| LspQuantizer.Quantize | internal/lsp/encoder_vq.go:137-200 | of the two proposals the one nearer after the receiver's own reconstruction; its residual is committed once |
| LspQuantizer.ApplyPredictorWithMemory | internal/lsp/encoder_predictor.go:24-39 | the receiver's prediction without moving the memory |
| LspQuantizer.CommitPredictorMemory | internal/lsp/encoder_predictor.go:83-88 | the memory shifts by one residual |
| LspQuantizer.PredictorExact | internal/lsp/predictor.go:39-50 | no accumulation saturates; the angle is the floor of the exact weighted sum |
| LspQuantizer.InverseNear | internal/lsp/predictor.go:52-67 | predicting from the inverse residual gives the target back to within -7 and 5 units wherever nothing saturates |
| LspQuantizer.StableFalls | internal/lsp/lsf_lsp.go:32-57 | stable angles give strictly falling LSPs |
| LspQuantizer.DecodedSpectrumOrdered | internal/lsp/decoder.go:105-161 | any indices on any memory give a stable, strictly ordered spectrum |
| Codec.UnpackedInWidth | internal/bitstream/pack.go:41-63 | a received frame has every field within its width |
| Codec.EncodableIsDecodable | internal/pitch/adaptive.go:42-142 | every delay P1 or P2 can carry is one the history covers |
| LockStep.ColdStart | encoder.go:375-381 | a fresh encoder and a fresh receiver are in step |
| LockStep.FrameCrossesWire | pack.go:18-34 | indices, both delays and both code words arrive, whatever the receiver's state |
| LockStep.CodeHasEnergy | internal/gain/decode.go:118-217 | the receiver's zero-energy branch is never taken for a legal frame |
| LockStep.ErrorsFollow | internal/gain/decode.go:118-217 | the gain error memories take the same new entry on both sides, even out of step |
| LockStep.TracesAgree | encoder.go:1656-1791 | from states in step a subframe leaves the same trace exactly when the encoder does not tame |
| LockStep.HistoryAgrees | internal/decoder/subframe.go:28-67 | the histories stay equal exactly when no rescaling happens or every sample is 0 or -1 |
| LockStep.RecoveryKeepsFiltered | internal/decoder/subframe.go:45-65 | recovery leaves in the history exactly the excitation its second pass filtered |
| LockStep.SubframeInStep | internal/decoder/subframe.go:28-67 | after any subframe, tamed or not, both sides are in step exactly when their excitations coincide after the shift and the shift leaves the rest of the history alone |
| LockStep.SubframeLockStep | internal/decoder/subframe.go:28-67 | the receiver has the same trace and stays in step exactly when nothing is tamed and no rescaling changes a sample |
| LockStep.FrameLockStep | internal/decoder/decode.go:40-82 | the receiver follows both subframes of a frame exactly when neither is disturbed so |
| LockStep.RunLockStep | internal/decoder/decode.go:40-82 | and every frame of any sequence of legal choices exactly when no frame is disturbed |
| LockStep.FrameLinked | internal/lsp/encoder_vq.go:137-200 | the predictor memories agree after any frame from linked states |
| LockStep.RunLinked | internal/lsp/decoder.go:105-161 | and after any run |
| LockStep.Resynchronise | internal/lsp/predictor.go:28-37 | from any two states: gain memory after two frames, residuals after four, the whole spectrum state after five |
| Taming.TamingDiverges | internal/gainquant/tame.go:48-58 | from the cold start, with any spectra and any receiver, six frames of one legal choice contain a tamed one, and the traces of the run differ |
| Taming.TamingShows | encoder.go:1656-1791 | a tamed frame leaves different traces on the two sides, from any states |
| Taming.NextInBand | internal/pitch/adaptive.go:62-99 | four pulses and a floor in known bands come back two subframes later in the bands computed from them, whatever the samples are |
| Recovery.FirstFilters | internal/lsp/decoder.go:105-161 | codebook rows 121, 28 and 24 decode from the cold memory to two filters written out in full |
| Recovery.SecondFilters | internal/lsp/decoder.go:105-161 | rows 35, 18 and 2 after them, with the other predictor, to two more |
| Recovery.Overflows | internal/synth/filter.go:51-60 | four pulses of 4955 leave 32 bits in the last of those filters |
| Recovery.RecoveryDiverges | internal/decoder/subframe.go:28-67 | two legal frames from the cold start on those rows: the receiver follows three subframes, the fourth is not tamed either, and both sides are out of step after it |
| Transmitter.TameGain | internal/gainquant/tame.go:48-58 | lowers the gain exactly when the energy and the gain exceed their limits |
| Transmitter.Encoder.constructor | encoder.go:375-381 | the cold encoder state |
| Transmitter.Encoder.LpcStep | encoder.go:832-924 | both LSP memories move by the chosen indices |
| Transmitter.Encoder.BuildSubframe | encoder.go:1656-1791 | excitation and tamed gain of the choice, state untouched |
| Transmitter.Encoder.CommitSubframe | encoder.go:1126-1166 | the committed state and the pitch, pulse and gain codes of the subframe |
| Transmitter.Encoder.BuildBitstreamFrame | pack.go:18-34 | the frame of the kept indices |
| Transmitter.Encoder.EncodeFrame | encoder.go:789-807 | state and ten bytes of one frame; a short output is refused with nothing moved |
| Receiver.Decoder.BuildVectors | internal/decoder/subframe.go:28-67 | both codebook vectors, state untouched |
| Receiver.Decoder.Synthesise | internal/decoder/subframe.go:28-67 | speech, history with overflow recovery, remembered pitch |
| Receiver.Decoder.DecodeSubframe | internal/decoder/subframe.go:28-67 | the whole new state and the speech of a good subframe |
| Receiver.Decoder.ErasureRandom | internal/decoder/subframe.go:201-208 | the generator steps, from its fixed seed when cold |
| Receiver.Decoder.ConcealErasureGains | internal/decoder/subframe.go:151-181 | attenuated gains, remembered, and the erased error memory |
| Receiver.Decoder.DecodeErasureSubframe | internal/decoder/subframe.go:69-102 | the whole new state and the speech of a concealed subframe |
| Receiver.Decoder.DecodeBad | internal/decoder/decode.go:40-82 | a concealed frame |
| Receiver.Decoder.DecodeGood | internal/decoder/decode.go:40-82 | a received frame, with the fallback delay on a parity error |
| Receiver.Decoder.Decode | internal/decoder/decode.go:40-82 | buffer errors leave everything alone; otherwise state and 80 samples of the frame |
| Link.RelayFrame | encoder.go:789-807 | a running encoder and a running receiver stay linked over one frame, and in step if it is quiet |
| Concealment.RememberedExactly | internal/decoder/subframe.go:28-67 | the remembered fixed gain is the quantised one the subframe used |
| Concealment.ConcealedExactly | internal/decoder/subframe.go:151-181 | the same in a concealed subframe |
| Concealment.DelaysDecodable | internal/decoder/decode.go:40-82 | every delay used, on parity errors and erasures too, is covered by 153 samples of history |
| Concealment.ReceiveSound | internal/decoder/decode.go:40-82 | good frames keep delays, gains and quantised gain in their ranges |
| Concealment.EraseSound | internal/decoder/subframe.go:132-137 | so do bad ones, and the delay they leave is at most 143 |
| Concealment.EraseFades | internal/decoder/subframe.go:151-181 | each gain is multiplied by its factor, rounded down, and falls strictly until zero |
| Concealment.RunHalves | internal/decoder/subframe.go:151-181 | the pitch gain halves every 6 bad frames, the fixed gain every 26, from any sound state |
| Concealment.EraseSilent | internal/decoder/subframe.go:69-102 | with both gains zero the excitation is zero and 40 more samples of history are |
| Concealment.SilenceFollows | internal/decoder/subframe.go:69-102 | four subframes later the whole history is zero |
| Concealment.Reached | internal/decoder/decode.go:40-82 | every sequence of received and lost frames from the cold start leaves delays and gains in their ranges |
| Concealment.ConcealmentFadesOut | internal/decoder/subframe.go:69-102 | after any such sequence, 390 bad frames in a row leave no gain and 392 a zero history |
| OpenLoop.PickBestFullScan | internal/pitch/openloop/select.go:63-67 | the lowest delay of the range with the largest correlation |
| OpenLoop.PickBestEvenWithRefinement | internal/pitch/openloop/select.go:72-105 | the lowest best even delay, then the lowest best of its neighbours |
| OpenLoop.IsNearSubmultiple | internal/pitch/openloop/merger.go:114-131 | the early exits decide exactly whether some multiple 2..7 is within two samples |
| OpenLoop.ComparisonsFit | internal/pitch/openloop/energy.go:72-97 | every product of both score comparisons stays inside 64 bits |
| OpenLoop.CommonShiftLeast | internal/pitch/openloop/energy.go:84-95 | the common shift is the least that brings both correlations below the width |
| OpenLoop.EnergyExact | internal/pitch/openloop/energy.go:31-38 | the energy is the sum of squares, clipped once at the end of the scale |
| OpenLoop.SilenceScoresZero | internal/pitch/openloop/energy.go:66-69 | where the energy of a delay is zero so is its correlation |
| OpenLoop.RepetitionScoresFull | internal/pitch/openloop/select.go:21-30 | where the frame repeats after k samples the correlation is twice the energy of delay k |
| OpenLoop.ComparisonMeans | internal/pitch/openloop/energy.go:72-97 | what an ordinary comparison says about R^2/E both ways, exact for correlations below 2^15 |
| OpenLoop.MergeThreeRanges | internal/pitch/openloop/merger.go:58-67 | the merge of the three winners |
| OpenLoop.MultiplesRejected | internal/pitch/openloop/merger.go:58-106 | whichever range wins, its delay beats by the lift every lower range winner it is a near multiple of |
| OpenLoop.MergeByScore | internal/pitch/openloop/merger.go:58-106 | away from near multiples the winner is ahead of every lower winner it displaced and not behind any other it was compared with |
| OpenLoop.UsableScoreWins | internal/pitch/openloop/merger.go:58-106 | the winner has a usable score exactly when some range has; without any, the lowest range wins |
| OpenLoop.LiftMeans | internal/pitch/openloop/merger.go:156-177 | what the truncated comparison says about the true scores: off by less than 2^s in each correlation |
| OpenLoop.NoScoreNeverWins | internal/pitch/openloop/merger.go:156-177 | a range without a score never displaces a lower one |
| OpenLoop.Search | internal/pitch/openloop/openloop.go:45-55 | the merge of the three range winners of the buffer, a pitch in [20, 143] |
| OpenLoop.PitchUnique | internal/pitch/openloop/openloop.go:45-55 | those conditions leave one pitch for every buffer |
| ClosedLoop.SearchInteger | internal/pitch/closedloop/correlate.go:103-130 | the lowest delay of the window with the largest criterion; an empty window gives its lower end and the least score |
| ClosedLoop.WholeDelays | internal/pitch/closedloop/frac.go:55-90 | at whole delays the fractional criterion is the integer one |
| ClosedLoop.FractionsInterpolate | internal/pitch/closedloop/frac.go:55-90 | at fractions the search interpolates with the adaptive codebook's equation (40) |
| ClosedLoop.CandidatesAscend | internal/pitch/closedloop/refine.go:81-148 | candidates stand in order of delay, so ties go to the shortest |
| ClosedLoop.RefineFractionSubframe1 | internal/pitch/closedloop/refine.go:81-110 | the first best candidate, boundary code points included, and P1 can carry it |
| ClosedLoop.RefineFractionSubframe2 | internal/pitch/closedloop/refine.go:122-148 | the same for P2 |
| ClosedLoop.SearchFrame | internal/pitch/closedloop/encode.go:16-43 | any signals and any centre whose window does not wrap: both results encode untruncated, decode to themselves, and parity checks |
| PulseSearch.Mul128By64Saturating | internal/fcbsearch/search.go:344-355 | the exact product, or all ones where 128 bits do not hold it |
| PulseSearch.Cmp128 | internal/fcbsearch/search.go:357-371 | the order of the values |
| PulseSearch.RatioExact | internal/fcbsearch/search.go:322-332 | on every pair a search can form, the limb arithmetic decides c1^2 e2 > c2^2 e1 |
| PulseSearch.CandidatesAreLegal | internal/fcbsearch/search.go:80-127 | every candidate is a pulse set the code word can carry |
| PulseSearch.LegalIsCandidate | internal/fcbsearch/search.go:80-127 | and every such pulse set is a candidate |
| PulseScan.SearchDepthFirst | internal/fcbsearch/search.go:80-127 | the first maximiser of C^2/E over all candidates with positive E, or the default |
| PulseScan.AnswerUnique | internal/fcbsearch/search.go:80-127 | that answer is unique |
| PulseScan.Scan | internal/fcbsearch/search.go:151-239 | the first maximiser over exactly the first `limit` prefixes above the threshold, and how many were entered |
| PulseScan.SearchDepthFirstThresholdScanEntered | internal/fcbsearch/search.go:151-239 | with its fallbacks to the exhaustive search |
| PulseScan.SomethingQualifies | internal/fcbsearch/search.go:164-186 | a prefix is above the threshold exactly when the 512 sums are not all equal |
| PulseScan.ThresholdMeans | internal/fcbsearch/search.go:164-186 | the threshold lies four tenths of the way from the mean of the sums to the largest, less than two below |
| PulseScan.Budget.SearchFrame | encoder.go:429-457 | two subframes enter at most 180 (60) prefixes, the first at most half, the second always with a positive budget |
| PulseRanking.SearchTopK | internal/fcbsearch/search.go:248-310 | the first entries of the ranked list, one to 32 |
| PulseRanking.SortedRanked | internal/fcbsearch/search.go:248-310 | the list is a stable sort of exactly the candidates with positive E |
| PulseRanking.TakeInsert | internal/fcbsearch/search.go:277-301 | the bounded table develops like the whole list |
| PulseRanking.HeadIsFirstBest | internal/fcbsearch/search.go:248-310 | its head is the exhaustive answer |
| MatchedFilter.AdjustedTarget | internal/fcbsearch/correlation.go:21-26 | the adjusted target sample by sample |
| MatchedFilter.AdjustedNear | internal/fcbsearch/correlation.go:21-26 | within half a unit of the exact target unless clipped |
| MatchedFilter.CorrelationD | internal/fcbsearch/correlation.go:44-52 | the clipped backward correlation |
| MatchedFilter.SignsFromD | internal/fcbsearch/signs.go:19-30 | sign and magnitude of every position |
| MatchedFilter.MagnitudeExact | internal/fcbsearch/signs.go:19-30 | the magnitude is right exactly for d above the least 32-bit value |
| MatchedFilter.PhiPrime | internal/fcbsearch/phi.go:35-54 | halved diagonal and signed, symmetric off-diagonal sums, clipped |
| MatchedFilter.CorrelationIsInnerProduct | internal/fcbsearch/search.go:91-105 | C is the inner product of the target and the filtered pulses, wherever the four correlations are not clipped |
| MatchedFilter.EnergyIsNorm | internal/fcbsearch/search.go:91-105 | 2E is the energy of the filtered pulses, at most 4 below it, wherever the ten entries are not clipped |
| GainSearch.GainSearchCorrelations | internal/gainquant/conjugate.go:177-189 | the five correlations |
| GainSearch.CorrelationsBounded | internal/gainquant/conjugate.go:177-189 | their bounds, with the two energies non-negative |
| GainSearch.NormalisedSmall | internal/gainquant/conjugate.go:112-144 | after the shift every operand has the target width |
| GainSearch.NormShiftLeast | internal/gainquant/conjugate.go:112-144 | the shift is the least that brings every correlation below the width |
| GainSearch.CauchySchwarz | internal/gainquant/conjugate.go:146 | before normalisation the determinant is never negative |
| GainSearch.CrossStrict | internal/gainquant/conjugate.go:112-144 | for widths up to 24 bits the normalised cross correlation stays above -2^24 |
| GainSearch.SolveFits | internal/gainquant/conjugate.go:75-172 | for every subframe and width up to 24 bits each product is below 2^48, each numerator below 2^49, and no step leaves 64 bits |
| GainSearch.SortByDist | internal/gainquant/conjugate.go:384-413 | both arrays sorted in place by distance |
| GainSearch.ByDistanceOrdered | internal/gainquant/conjugate.go:384-413 | the order is by distance, stable, and holds every index once |
| GainSearch.PreselectionNearest | internal/gainquant/conjugate.go:191-225 | the kept entries are nearer than every entry left out |
| GainCost.GainSearchCostShift | internal/gainquant/conjugate.go:314-354 | the shift from the largest gains and the five bit counts |
| GainCost.ShiftLeast | internal/gainquant/conjugate.go:314-366 | it is the least shift that covers all five terms |
| GainCost.CostFits | internal/gainquant/conjugate.go:227-260 | every term within 2^58, the cost within 2^62, and nothing lost to 64 bits |
| GainCost.WrappedIsCost | internal/gainquant/conjugate.go:243-252 | wrapping at every operation gives the wrapped exact cost, whatever the intermediate squares do |
| GainCost.MinimiseCost | internal/gainquant/conjugate.go:227-270 | the first minimiser of the scaled cost over the 32 pairs |
| GainCost.DistancesFit | internal/gainquant/conjugate.go:191-216 | the distances to a centre in reach are 64-bit numbers |
| GainCost.SelectFromCentre | internal/gainquant/conjugate.go:191-270 | preselection and search from any centre in reach |
| GainCost.SearchConjugate | internal/gainquant/conjugate.go:80-175 | the same from the normalised fixed-point centre, the width clamped to 1..24 |
| GainCost.CentreFits | internal/gainquant/conjugate.go:107-175 | for every subframe and width up to 24 the centre of the solve is in reach |
| GainOptimum.CostIsError | internal/gainquant/conjugate.go:177-189 | on the five correlations the cost is the energy of x - gp y - gc z less that of x, for any gains |
| GainOptimum.ShiftedCostNear | internal/gainquant/conjugate.go:227-252 | on the shifted ones it is the same up to less than one unit of each correlation |
| GainOptimum.ChosenIsNearest | internal/gainquant/conjugate.go:227-270 | so no preselected pair leaves a smaller error than the chosen one by more than the shift takes off the two |
| GainOptimum.RealCostIsCost | internal/gainquant/conjugate.go:243-252 | the cost over real gains is the cost of the search on whole ones |
| GainOptimum.ExactIsMinimum | internal/gainquant/conjugate.go:143-150 | the exact solution of the system is the one pair of real gains with the least cost |
| GainOptimum.CentreIsBest | internal/gainquant/conjugate.go:143-172 | the centre is the whole part of that minimum, of the best pitch gain alone where the determinant is not positive, of the best fixed gain alone without a pitch vector |
| GainOptimum.KeptNearest | internal/gainquant/conjugate.go:191-225 | kept first-codebook entries are nearest to the centre in fixed gain, kept second-codebook entries in pitch gain |
| Autocorrelation.ApplyWindow | internal/lpc/window.go:11-15 | every sample multiplied by its window entry |
| Autocorrelation.Autocorrelate | internal/lpc/autocorr.go:27-72 | the scale and the eleven 32-bit sums, on both paths |
| Autocorrelation.ScaleLeast | internal/lpc/autocorr.go:36-43 | the scale is the least number of quarterings that brings the energy below 2^31 |
| Autocorrelation.UnshiftedExact | internal/lpc/autocorr.go:45-58 | without a shift the sums are exact, every partial sum fits, and none exceeds r(0) |
| Autocorrelation.LaggedFits | internal/lpc/autocorr.go:45-58 | every partial sum of every lag fits 32 bits |
| Autocorrelation.ShiftedExact | internal/lpc/autocorr.go:60-71 | on either path every sum and partial sum is exact if and only if the energy of the samples summed fits 32 bits |
| Autocorrelation.ShiftedPathWraps | internal/lpc/window.go:11-15 | a buffer of pre-processed speech whose windowed, shifted r(0) wraps negative |
| Levinson.LevinsonDurbin | internal/lpc/levinson.go:57-112 | the ten-stage recursion and its Q12 result |
| Levinson.StageFits | internal/lpc/levinson.go:67-106 | for r(0) >= 0 every partial sum, update product and error product of a stage stays within 64 bits, the coefficient in Q15, the error non-negative and never growing |
| Levinson.IdleStage | internal/lpc/levinson.go:79-106 | a stage without error left changes nothing |
| Levinson.UnforcedBelow | internal/lpc/levinson.go:75-87 | a numerator of magnitude up to 32767/8 of the error is divided without clipping |
| Levinson.CoefficientCancels | internal/lpc/levinson.go:75-99 | where the division is neither skipped nor clipped, the new coefficient cancels the numerator to less than one unit of the error |
| Levinson.NormalEquations | internal/lpc/levinson.go:67-106 | after n such stages every normal equation 1..n holds up to the roundings, and the stored error is the prediction error |
| Levinson.PredictorSolves | internal/lpc/levinson.go:5-12 | the Q12 predictor written out solves all ten equations to about 6 % of the largest autocorrelation |
| Streaming.Encoder.Write | encoder_streaming.go:47-92 | consumes everything, keeps fewer than 80 samples, and emits the frames of the whole stream |
| Streaming.Encoder.Flush | encoder_streaming.go:100-118 | pads and emits the incomplete frame, or does nothing |
| Streaming.Encoder.Reset | encoder.go:749-759 | codec and buffer start anew; what was emitted stays |
| Streaming.FrameComplete | encoder_streaming.go:54-72 | completing the buffered frame is one more step of the frame-by-frame encoder |
| Streaming.SplitIndependent | encoder_streaming.go:47-92 | any splitting into writes is one write of the concatenation |
| Streaming.SameStream | encoder_streaming.go:47-92 | two splittings of the same samples leave the same bytes and state |
| Streaming.Play | encoder_streaming.go:47-118 | any sequence of writes, flushes and resets on one object leaves the bytes and the codec state of the stream they describe |
| Streaming.EncodeStream | examples/streaming_encode/main.go:41-68 | a recording written in pieces of any size and flushed: the bytes of the recording padded to whole frames |
| Streaming.EmittedGrows | encoder_streaming.go:47-118 | no operation takes back a byte |
| StreamedRun.StreamIsRun | encoder_streaming.go:47-92 | with the encoder of the two machines as the frame encoder, whatever its searches choose, the stream is the run of its choices and its packed frames |
| StreamedRun.PacketsDecode | internal/decoder/decode.go:40-82 | a receiver taking ten bytes at a time plays that run |
| StreamedRun.StreamFollowed | encoder_streaming.go:47-118 | a receiver of the bytes of any padded recording has the encoder's predictor memories, and follows every frame exactly when none is disturbed |

## Left out

- The quality, clean, PESQ and clip-repair profiles, their reranking and every floating-point path; the float gain centre of Core is an input of `SelectFromCentre`, anywhere its distances to the entries fit 64 bits.
- LspQuantizer.Quantize: what the three codebook searches propose for each predictor, and the weights, are inputs; the contents of the three LSP codebooks are a parameter of every result but `RecoveryDiverges`, which fixes the six rows it uses.
- Transmitter.Encoder.LpcStep: the analysis that proposes the indices is an input, as in `Quantize`.
- Transmitter.Encoder.EncodeFrame: the signal analysis that leads to the choices (pre-processing, LP analysis, target and impulse response, perceptual memories) does not feed the shared memories and is an input; the searches are modelled on their own.
- Receiver.Decoder.DecodeSubframe: the output is the synthesis signal, before the postfilter.
- Receiver.Decoder.DecodeErasureSubframe: likewise.
- Receiver.Decoder.DecodeGood: likewise.
- Receiver.Decoder.DecodeBad: likewise.
- Receiver.Decoder.Decode: the postfilter, the output high-pass and the final scaling are not modelled; the samples are those of the synthesis filter, which nothing after it feeds back into.
- MatchedFilter.CorrelationIsInnerProduct: stated where none of the four correlations was clipped.
- MatchedFilter.EnergyIsNorm: stated where none of the ten entries behind the four positions was clipped.
- Levinson.StageFits: stability of the resulting filter is not stated.
- Streaming.Encoder.Write: the sink never fails, and the frame encoder is an arbitrary deterministic step; `StreamedRun.FrameStep` is that of the model.
- Streaming.Encoder.Flush: likewise.
- PulseRanking.SearchTopK: the three parallel tables of the source are one table of records.
- Root search on unquantised LP polynomials, lag windowing, the G.711/WAV/RTP tooling, WebAssembly and command-line programs.
- Sharing of the overflow flag between decoders on different goroutines; each synthesiser has its own flag here.
