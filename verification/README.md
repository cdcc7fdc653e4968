# Verified model of the JS8 codec and receiver

This project models the parts of the JS8 library that are integer, bit or list logic, and proves what they are for:
a text packed into frames is the text that is shown, an accepted word satisfies its checks, a decoding attempt's cache
cannot be seen, reused spectra are those of the current stream exactly if no call crosses over from another one, a
stream gives the same result however it is cut, and a message typed to a station and heard from its tones is completed
once, with its calls, command and payload and a valid checksum, exactly if a condition on the typed text holds.

`dafny verify dfyconfig.toml` checks everything.

## How the model is built

* **Form.** Loops that update variables are methods with loops. The detector, the decimator, the decoding attempt, the
  spectrum cache, the decode scheduler and the message assembler are classes with the source's fields. Every such method
  is tied to a specification function, and the properties are lemmas about these functions.
* **Integer widths.** Machine words are either naturals with the truncations written out (`Words`) or bit strings of a
  fixed width, most significant bit first (`BitWords`). The 64-bit codeword is a natural; `JscCode.CodewordFits` shows
  that it never overflows.
* **Tables.** The dictionary, the check graph and the parity matrix are parameters. `JscPack` models the script that
  builds the lookup index, `BpGraph` the compile-time construction of the edge table and `ParityMatrix` that of the
  parity rows. `JscCompress.PackedImplements` says exactly when packed tables meet the premise of the packers, and
  `Ldpc.BuiltIsValid` takes a built edge table to that of the decoder.
* **Floating point.** Message updates of the belief-propagation decoder, the spectral transform and the tests of an
  attempt are arbitrary functions. The decimator and the spectrum sums use exact reals.
* **Checksums of payloads.** CRC-16/KERMIT and CRC-32/BZIP2 are arbitrary functions from text to 16 and 32 bits.
* **Text.** Strings hold characters below 128 wherever the source slices text by bytes.
* **Stations.** `Station` gives the transmitter its header packer, gates and command words as functions of the line
  (`DirectedText`, `CommandText`, `BaseCalls`). A few packers of other frames remain arbitrary, see the end.

`Wrappers.Unfold` is always true. A quantifier over it keeps a definition out of the proofs that do not ask for it.

## Where the code and its description differ

* `DecodeWindow::cycle` is described as the cycle of the window (src/rx/scheduling.rs:34-45), but the code reports the
  cycle of the sample count at the call. `Scheduling.CycleOfWindow` gives the exact condition under which they agree and
  `Scheduling.LateWindowReportsNextCycle` a run in which they do not.
* The dense code promises to show what it consumed. For the shipped entry ROSIDS the declared size is 1 and the text has
  six characters (src/varicode/jsc.rs:342-347), so a frame shows more than it counts.
  `DictionaryRoundTrip.DictionaryShowsConsumed` says for which dictionaries every covered text is shown as consumed, and
  `DictionaryRoundTrip.MisdeclaredSizeShowsMore` gives a dictionary with such an entry and the text that is not.
* A callsign that begins with `3D0`, or with `Q` and a letter, packs but is shown as `3DA0` or `3X`.
  `Callsign.CallsignReadsBack` states this exactly; `3D0AB` and `QA1BC` are shown to fail.
* The callsign `000AAA` has a valid shape but packs to 0, which stands for no callsign, so no header is made with it
  (src/varicode/mod.rs:1219-1224). `BaseCalls.ZeroParty` shows that it is the only one of its kind.
* A message is meant to arrive with the text that was typed. The command is found by its longest spelling, so text that
  goes on as another command is taken for it: ` MSG` with the text ` TO:HELLO` arrives as ` MSG TO:` with `HELLO`
  (src/command.rs:1194-1280). `EndToEnd.MessageRoundTrip` gives the exact condition, `CommandText.FoundAsWritten` spells
  it out for every command, and `EndToEnd.TextTakenForCommand` is the failing input.
* Reports from -31 to 31 are taken from a line (src/varicode/mod.rs:745-765), but the field holds -30 to 31
  (src/varicode/mod.rs:836-855), so -31 is received as -30. `LineHeader.ReportArrives` shows that it is the only one.
* Spectra are meant to be reused only for advancing windows (src/rx/time.rs:32-33), and the sample count starts anew at a
  reset (src/rx/mod.rs:340-344). The guard compares counts only, so after a restart whose first call for a mode has an
  end above that of its last one, columns of the old stream are searched as the new one's. `StreamReuse.ReuseIsRight`
  gives the exact condition, `StreamReuse.RewoundRunIsRight` what a caller has to see to, and
  `StreamReuse.RestartReusesOldColumns` two calls that fail.
* The table packer accepts lines whose tables answer a query with the rank after the byte's route: the binary search can
  land there (src/varicode/jsc.rs:225-238). `JscLookup.LookupIsScan` gives the exact condition,
  `JscCompress.EndedRangesImplement` one on the source lines that is enough, and `JscOverrun.RankAfterRouteIsAnswered`
  three lines that pack and fail.

Not a difference, but a limit: the base table of `decompress` ends at seven continuation digits, and
`JscCode.CodeIsInvertibleBelowLimit` shows that an index is decoded to itself if and only if it is below
7 * (9^8 - 1) / 8. Lookups return 18-bit indices, which all are.

## Model

| member | source | states |
|---|---|---|
| JscTables.LessIsByteOrder | src/varicode/jsc.rs:215-239 | keys are ordered by the first byte in which they differ, a key that is the beginning of another being smaller |
| JscLookup.FindRank | src/varicode/jsc.rs:215-239 | in a descending span, the result is the first rank whose key is the needle, possibly the rank right after the span, and none only if no key of the span is the needle |
| JscLookup.SearchSpan | src/varicode/jsc.rs:190-205 | the best candidate over the size mask is the first rank of the span that is a prefix of the query; without one it is the rank after the span if and only if its key is a prefix of the query, has a size in the mask and is below every key of the span |
| JscLookup.LookupBytes | src/varicode/jsc.rs:176-213 | on tables whose routes hold consecutive descending spans with exact masks, the answer is the first match of the route's ranks in order, or else the rank after the route if the search lands there, for every query |
| JscLookup.LookupIsScan | src/varicode/jsc.rs:176-239 | all lookups of a byte's queries are the plain scan of its route if and only if the rank after the route does not overrun it: its key begins with the byte, has a size in the mask of a last span, is below every key of that span, and no key of the route is a prefix of it |
| JscPack.AddSpan | scripts/pack_jsc_tables.py:233-246 | the span carries exactly the sizes that occur in it; it raises if and only if a key increases or a size needs more than 32 bits of mask |
| JscPack.CutSpans | scripts/pack_jsc_tables.py:208-217 | the spans cover the range without gaps, each is descending, and there is one more of them than the keys increase; it raises if and only if some line has no key or an oversized one |
| JscPack.WriteLookup | scripts/pack_jsc_tables.py:184-230 | every prefix line gets a route to its single entry or to a covering run of spans, and no other byte is routed; a direct route to the greatest 31-bit index is the mark for no route and is lost; it raises if and only if some line cannot be added in turn |
| JscPack.WriteMap | scripts/pack_jsc_tables.py:125-142 | every line becomes its padded record; it raises if and only if a line or a count does not fit its field |
| JscPack.RecordShowsLine | scripts/pack_jsc_tables.py:125-142 | whatever it is padded to, a record shows the line's own text and its declared size, negative ones as zero |
| JscPack.WriteRanks | scripts/pack_jsc_tables.py:160-181 | every rank refers to a map line of the same text and no shorter than its key; it raises if and only if the counts differ or some line does not |
| JscPack.PackTables | scripts/pack_jsc_tables.py:254-278 | tables are written if and only if all three parts can be, and they hold the records and ranks of the source lines and only valid ranks |
| JscPack.PackedLookup | scripts/pack_jsc_tables.py:184-246 | packed tables have the layout of the lookup for every byte, and the scan of a route is that of the source lines, with no index involved |
| JscOverrun.RankAfterRouteIsAnswered | scripts/pack_jsc_tables.py:184-246 | the rank lines AC, AB, AA with the prefix line A over the first two pack without an error, and the query AA is answered with the third, which the route does not hold |
| JscCode.Codeword | src/varicode/jsc.rs:16-29 | the word spells the bijective base-9 digits of the index, each plus 7 in a nibble, then the final nibble and the separator bit |
| JscCode.CodewordFits | src/varicode/jsc.rs:16-29 | a 32-bit index needs at most 45 bits, so nothing is shifted out of the word |
| JscCode.ValueDigits | src/varicode/jsc.rs:16-29 | digits and numbers correspond one to one: every digit string is that of its value plus the count of shorter strings |
| JscCode.CodeIsInvertibleBelowLimit | src/varicode/jsc.rs:91-174 | accumulation with the base table returns the index of a codeword if and only if it is below the limit of seven continuation digits |
| JscCode.Decompress | src/varicode/jsc.rs:91-174 | the two passes with the separator queue give the text of a one-pass decoder, on every bit string, well formed or not |
| JscCode.AccumulatorFits | src/varicode/jsc.rs:91-174 | for every bit string of a frame, well formed or not, accumulator and index stay below 2^64 |
| JscCode.DecodeMessage | src/varicode/jsc.rs:91-174 | any run of codewords decodes to its entries in order with spaces after exactly the flagged ones |
| JscCompress.CompressFrame | src/varicode/jsc.rs:31-85 | the 72 bits are the prefix, the greedily chosen codewords and the padding, and never more than 72; the count is that of the chosen words |
| JscCompress.PackedImplements | scripts/pack_jsc_tables.py:254-278 | packed tables implement the dictionary of their source lines, which is all the packers ask of tables, if and only if no route is overrun by the rank after it |
| JscCompress.EndedRangesImplement | scripts/pack_jsc_tables.py:254-278 | they do if no rank line right after a prefix line's range begins with its byte |
| JscRoundTrip.ConsumedWithinText | src/varicode/jsc.rs:31-76 | for every dictionary and text the consumed count stays inside the text, whatever sizes are declared |
| JscRoundTrip.ShownIsConsumed | src/varicode/jsc.rs:31-76 | for covered text with any runs of spaces, the codewords show the consumed characters if and only if every declared size used is the length of its text |
| JscRoundTrip.FrameAdvances | src/varicode/jsc.rs:31-76 | a frame of non-empty, exactly covered text takes at least one character |
| JscGreedy.FrameIsFilled | src/varicode/jsc.rs:31-76 | a frame of exactly covered text holds the beginning of the text's codewords, and either all of them or so many that the next one would leave no room for the zero that ends the message |
| Frame72.Pack72Bits | src/varicode/mod.rs:386-404 | the twelve characters are the base-64 digits of the 72-bit number |
| Frame72.PackedIsUnpacked | src/varicode/mod.rs:356-404 | unpacking undoes packing for every 64-bit value and 8-bit remainder |
| Frame72.Unpack72Bits | src/varicode/mod.rs:356-384 | the value and remainder of any twelve characters, those outside the 64 digits included, are their indices merged by place |
| Frame72.Bits72 | src/varicode/mod.rs:1313-1322 | the bits of value and remainder, most significant first |
| Frame72.LastIndexOfZero | src/varicode/mod.rs:1309-1311 | the position holds a zero and every later one a one; none if all are ones |
| Frame72.FinishFrame | src/varicode/jsc.rs:78-84 | the frame's bits are the message, a zero and ones up to 72 |
| Frame72.PaddingIsSelfDelimiting | src/varicode/jsc.rs:78-84 | any message of less than 72 bits is what precedes the last zero of its padded frame |
| FastData.PackFastData | src/varicode/mod.rs:1377-1387 | over tables that implement a dictionary, the frame is that of the dictionary's codewords |
| FastData.UnpackFastData | src/varicode/mod.rs:1457-1476 | short texts, texts with a space and frames of ones only show nothing; others show what precedes the last zero |
| FastData.OthersShowMessage | src/varicode/mod.rs:1457-1476 | any twelve characters without a space, whatever made them, show the codewords before the last zero of their bits |
| FastData.UnpackPacked | src/varicode/mod.rs:1457-1476 | a frame shows exactly the bits that were packed into it |
| FastData.FrameRoundTrip | src/varicode/mod.rs:1452-1476 | packing and unpacking covered text gives the consumed characters if and only if every size used is exact |
| FastData.ExactFrameRoundTrip | src/varicode/mod.rs:1452-1476 | with exact sizes the round trip holds for every covered text, and a frame takes at least one character |
| DictionaryRoundTrip.DictionaryShowsConsumed | src/varicode/mod.rs:1452-1476 | every covered text is shown as it is consumed if and only if every entry that a lookup on covered text can return declares the size of its text |
| DictionaryRoundTrip.MisdeclaredSizeShowsMore | src/varicode/jsc.rs:342-347 | with an entry ROSIDS of declared size 1 that text is covered, and its frame does not show what it consumes |
| Crc12.ReflectBits | src/internal/crc12.rs:10-19 | the low bits reversed, the others cleared |
| Crc12.CrcModuloWordUpdate | src/internal/crc12.rs:25-54 | for every register length from 1 to 16 and every truncated divisor, the register bits after the loop are those of dividing the word bit by bit, in either bit order; bits above them have no influence |
| Gf2.TopRunIsRemainder | src/internal/crc12.rs:25-54 | feeding bits at the top of the register divides the word followed by as many zeros as the register has bits |
| Crc12.MakeCrc12Table | src/internal/crc12.rs:56-64 | every entry is the remainder of its index byte and twelve zeros |
| Crc12.AugmentedCrc12 | src/internal/crc12.rs:69-81 | the byte-wise table loop leaves the remainder of the whole byte string, whatever the bits above bit 11 of register and table are |
| Crc12.Crc12 | src/internal/crc12.rs:84-86 | the remainder with the bits of 42 flipped |
| Crc12.DivisorIs1C06 | src/internal/crc12.rs:5-8 | the divisor x^12+x^11+x^10+x^2+x is the number 0x1C06, whose low twelve bits are the table polynomial |
| Gf2.RemainderIsUnique | src/internal/crc12.rs:69-81 | the divider's register is the remainder of polynomial division over GF(2), and nothing else is |
| Crc12.ChecksumIsRemainder | src/internal/crc12.rs:69-86 | a word is the remainder of the byte string by the divisor if and only if it is the checksum without its final flip |
| CrcCheck.CheckCrc12 | src/internal/local_routines.rs:10-29 | accepts exactly the words whose twelve checksum bits are the checksum of their 75 message and type bits, for inputs of every length |
| CrcCheck.UndetectedErrors | src/internal/local_routines.rs:10-29 | an error in the 75 bits of an accepted word stays undetected if and only if the degree-11 factor divides it |
| CrcCheck.ShortBurstsAreDetected | src/internal/local_routines.rs:10-29 | every non-empty error confined to at most 11 consecutive bits is rejected |
| CrcCheck.TwelveBitBurst | src/internal/local_routines.rs:10-29 | eleven is the best possible: exactly one pattern spanning twelve bits is accepted |
| ChannelEncoder.BuildAlphabetWords | src/encoder.rs:21-31 | the table inverts the alphabet and marks every other byte |
| ChannelEncoder.AlphabetWord | src/encoder.rs:33-40 | a valid byte gives its index, any other byte is reported |
| ChannelEncoder.PackMessage | src/encoder.rs:53-64 | nine bytes carry the 72 message bits in order; otherwise the first invalid character is reported |
| ChannelTones.CodewordBytes | src/encoder.rs:53-69 | eleven bytes carry message, type and checksum in order, followed by one zero bit |
| ChannelFrame.EncodeWithCostas | src/encoder.rs:43-92 | wrong length and the first invalid character are reported with the tones untouched; otherwise each of the 79 positions is written once, and the tones are patterns, parity symbols and data symbols |
| ChannelFrame.TonesReadBack | src/encoder.rs:71-89 | tones 43 to 71 carry the codeword, tones 7 to 35 its parity bits, and all tones are below 8 |
| ChannelFrame.ExtractMessage174 | src/internal/local_routines.rs:31-52 | accepted words give their twelve characters, others the empty text |
| ChannelFrame.FrameRoundTrip | src/encoder.rs:43-92 | for every message over the alphabet and every type, the bits read back from the data tones are accepted, extract to the message, and carry the type in bits 72 to 74 |
| ChannelFrame.AcceptedIsCodeword | src/decoder.rs:757-760 | every accepted 87-bit word is the codeword of its own twelve characters, which the encoder takes, and its three type bits |
| ChannelFrame.AcceptedEncodesBack | src/decoder.rs:757-760 | the tones encoded again from an accepted word spell its parity bits and the word |
| ChannelTones.ParityLinear | src/encoder.rs:81-89 | the parity of a sum under a mask is the sum of the parities |
| ChannelTones.ParityBitsLinear | src/encoder.rs:81-89 | encoding is linear |
| ChannelTones.UnitsSuffice | src/encoder.rs:81-89 | if the words of the 87 unit messages satisfy a check graph, the word of every message does |
| ChannelTones.SatisfyingIsEncoded | src/internal/local_types.rs:834-855 | if moreover only zero parity goes with a zero message, a word satisfies every check if and only if it is the encoding of its last 87 bits |
| ParityMatrix.BuildParityMatrix | src/internal/local_routines.rs:156-191 | each row holds the first 87 bits its digits spell, most significant first |
| ParityMatrix.RowSpellsText | src/internal/local_routines.rs:156-191 | each four columns of a row are the value of its hexadecimal digit |
| ParityMatrix.OnlyColumnsCount | src/encoder.rs:76-89 | the padding of the wide word never reaches a parity |
| CheckGraph.SatisfiesSum | src/internal/local_types.rs:834-841 | the sum of two words that satisfy every check satisfies every check |
| BpGraph.BuildEdges | src/internal/local_types.rs:718-756 | succeeds if and only if the two neighbour tables describe the same graph, and then pairs edges and slots one to one |
| Ldpc.BuiltIsValid | src/internal/local_types.rs:718-760 | a built edge table completes a code on which the decoder is proved |
| Ldpc.BpDecode | src/internal/local_types.rs:793-886 | for every message arithmetic: the first stopping iterate is returned with its syndrome weight; the best word is the first of least weight; the decoded bits change only on success |
| Ldpc.HardErrMeansSatisfied | src/internal/local_types.rs:847-855 | a non-negative error count is reported if and only if the returned word satisfies all checks |
| Ldpc.ReportIsUnique | src/internal/local_types.rs:793-886 | the report is determined by the code, the channel values and the options |
| Ldpc.ProductOfOthers | src/internal/local_types.rs:872-882 | the product for an edge is that of all the other edges of its check, in order |
| Ldpc.AbortsWithoutProgress | src/internal/local_types.rs:856-862 | a run is given up if and only if that is asked for, five iterations in a row brought no progress, ten are over and more than 15 checks fail |
| Ldpc.ContradictedIsNumber | src/internal/local_types.rs:849-853 | the error count is the number of positions at which the decision contradicts the channel value |
| BpDecoder.DecoderIsFunction | src/internal/local_types.rs:793-886 | every run of the decoder yields the report, the word and the decoded bits of one function of channel values and options, and leaves the decoded bits when it fails |
| BpDecoder.DecodedIsEncoded | src/internal/local_types.rs:847-886 | when the checks determine the parity, a run succeeds if and only if the returned word is the encoding of its decoded bits |
| BpDecoder.DecodedEncodesBack | src/decoder.rs:757-760 | when a run succeeds and the checksum of its decoded bits is right, the tones that are encoded again from them spell the returned word, parity included |
| BpTry.BpTry.Decode | src/decoder.rs:104-135 | the result and both words are those of calling the decoder, also when they come from the cache; a failing decode leaves the decoded bits |
| BpTry.BpTry.Run | src/decoder.rs:104-153 | the answer is true if and only if the word has a one, the checksum of the decoded bits is right and the contradicted signs are at most 30 in pass 4, else 35 below the sync limit, else 39 after pass 2, else 59; the new state is that of an attempt without a cache |
| BpTry.BpTry.RunAll | src/decoder.rs:104-153 | the cache is invisible over any sequence of attempts |
| BpTry.NearestIsFirstBest | src/decoder.rs:138-143 | after any sequence of attempts the nearest word, its channel values and its pass are those of the first remembered attempt with the fewest failed checks, or what they were if none was better |
| BpTry.CacheServes | src/decoder.rs:105-137 | after an attempt the cache serves what it served, and the attempt's outcome if and only if it was a remembered first pass of finite values under the common options and a place was free |
| BpDecoder.AttemptAnswers | src/decoder.rs:144-151 | with the iterative decoder and the checksum as they are, an attempt of any sequence answers true if and only if its word is the encoding of its last 87 bits, their checksum is right, a bit is set and the contradicted signs are within the limits |
| BpDecoder.AcceptedIsEncoded | src/decoder.rs:144-151 | then its decoded bits are accepted and the tones that are encoded again from them spell its word, parity included |
| Spectrum.UpdatedIsCurrent | src/decoder.rs:1063-1078 | within one stream, keeping and moving the columns of an earlier window a whole number of steps away and adding those of the new samples gives the columns of the current window |
| Spectrum.SpectrumCache.Sync | src/decoder.rs:1049-1122 | whatever the kept columns show, they are moved by the shift, the others are those of the current samples, and each sum is that of its columns |
| Spectrum.SpectrumCache.Decode | src/decoder.rs:1488-1735 | the first pass searches the kept columns and those of the window's samples; they stay recorded, under the window's start, if and only if it has one and no attempt of that pass decodes |
| DecodeWindows.LoadWindow | src/decoder.rs:1513-1536 | the samples from a ring position on, around the end of the ring, and zeros |
| DecodeWindows.CompleteWindow | src/rx/mod.rs:199-203 | a complete window is that stretch of the stream |
| DecodeWindows.PartialWindow | src/rx/mod.rs:199-203 | an incomplete window is the whole stream so far, and then zeros |
| StreamDecode.StreamStarts | src/rx/time.rs:29-46 | starts are offered if and only if every enabled mode advances over a complete window, and they are the windows' own |
| StreamDecode.DecodePass | src/decoder.rs:1838-1907 | one call decodes the enabled modes, the last first: each searches and records the columns its state determines, and the others keep what they had |
| StreamDecode.DecodeAll | src/rx/time.rs:19-73 | over any run of calls on any streams, restarts included, with any modes enabled, every call searches and every mode records exactly the columns that the calls determine, each with the stream and sample it comes from |
| StreamReuse.ReuseIsRight | src/rx/time.rs:32-46 | over any such run, every call searches the columns of its own windows if and only if no call offers a start that lies fewer than a window's columns in whole steps after one recorded on another stream |
| StreamDecode.ReuseIsInvisible | src/rx/time.rs:32-46 | then every call searches the spectra that it would have computed anew |
| StreamReuse.RewoundRunIsRight | src/rx/time.rs:35-42 | it is enough that the first call that enables a mode on another stream has an end not above that of the mode's last call |
| StreamReuse.RestartReusesOldColumns | src/rx/time.rs:35-42 | in normal mode, calls with ends 180000 and, after a restart, 180480: all columns but the last are those of the old stream |
| Decimator.Fir.Push | src/detector.rs:375-383 | both halves of the delay line hold the last 49 inputs, newest first |
| Decimator.FoldedIsDot | src/detector.rs:395-403 | folding pairs computes the plain convolution, for symmetric coefficients |
| Decimator.ToI16 | src/detector.rs:404-411 | the output is the whole number next to the sum on the side of zero; from 32768 on it is 32767, from -32769 down it is -32768 |
| Decimator.Fir.DownSample | src/detector.rs:389-413 | the output is the plain convolution of exactly the last 49 inputs, truncated toward zero and saturated |
| Detector.FramesOfChannels | src/detector.rs:226-268 | mono input is taken as it is, of interleaved channels the left one is taken or both are averaged toward zero, and an odd last sample is ignored |
| Detector.Detector.WriteI16 | src/detector.rs:212-310 | what is decimated and what is staged together are everything written; whole blocks only are decimated; the ring holds the last outputs |
| Detector.Detector.ResetPosition | src/detector.rs:313-321 | a new stream starts with an empty staging block and a fresh delay line |
| Detector.Detector.SetBlockSize | src/detector.rs:150-161 | the block changes and what was staged is dropped |
| Detector.WriteStream | src/detector.rs:212-310 | however a stream is cut into writes, the count is the block times the whole blocks, the staged part is the rest, and each of the last ring slots holds the truncated convolution of the inputs up to its own group of four |
| Scheduling.DecodeScheduler.NextWindow | src/rx/scheduling.rs:142-183 | a submode's call is the slot step on its own cursor, which `Scheduling.AnyCall` and the run results below say the meaning of; the other cursors do not move |
| Scheduling.AnyCall | src/rx/scheduling.rs:85-118 | whatever the counts of a call are, the awaited slot is kept if and only if the count neither fell nor grew by more than a period and the slot has begun or the one before it is complete; otherwise the slot of the count itself is awaited; the awaited slot is emitted if and only if its samples are there |
| Scheduling.CycleInRing | src/submode.rs:215-221 | below the ring size a sample count lies in its own cycle |
| Scheduling.SlotRunEmitsEverySlot | src/rx/scheduling.rs:73-118 | over any steady run, the emitted starts are the successive slots, each once, on the first call that has all its samples, ending at that call and with its cycle; the next start is one cycle later |
| Scheduling.RestartedRun | src/rx/scheduling.rs:85-99 | from a call whose count fell, or grew by more than a period, a run emits what a run that begins there from an empty cursor emits |
| Scheduling.AnyRunOnTime | src/rx/scheduling.rs:73-118 | over any run of counts below the ring size, the emissions fall into pieces, one from each such call to the next, and each piece is the successive slots from the one of its first call on, each once and on time, with none missed |
| Scheduling.NextMinuteIsEmitted | src/rx/scheduling.rs:85-99 | in normal mode, after the last slot of a minute the counts 480 and 163680 of the next one emit its first slot |
| Scheduling.CycleOfWindow | src/rx/scheduling.rs:107-111 | the reported cycle is the window's own if and only if the samples do not reach the next slot |
| Scheduling.LateWindowReportsNextCycle | src/rx/scheduling.rs:107-111 | a steady run in which the reported cycle is the next one's |
| ScanSchedule.Strides | src/rx/scheduling.rs:122-137 | the five strides, each leaving room for a whole frame in a window |
| ScanSchedule.ScanRunEmitsEveryWindow | src/rx/scheduling.rs:54-72 | over any run that advances by at most the stride, the windows are exactly the successive multiples of the stride |
| ScanSchedule.ScanRunEmitsLatest | src/rx/scheduling.rs:54-72 | while the counts do not fall, whatever they grow by, the windows are exactly those that were the last complete one at some call, each once and in order |
| ScanSchedule.RestartedScan | src/rx/scheduling.rs:56-58 | from a call whose count fell, a run emits what a run that begins there from an empty cursor emits |
| ScanSchedule.AnyScanEmitsLatest | src/rx/scheduling.rs:54-72 | over any run the windows fall into pieces, one from each call whose count fell to the next, and each piece is exactly those that were the last complete one at some of its calls |
| ScanSchedule.FrameInWindow | src/rx/scheduling.rs:54-72 | a frame at any position lies inside the window at the greatest multiple of the stride not above it |
| ScanSchedule.EveryFrameIsCovered | src/rx/scheduling.rs:54-72 | in every submode, the run emits a window that holds the frame once its samples are there |
| Commands.TokenReadsBack | src/command.rs:92-130 | every canonical token is read as its kind, a stored-message query as a query |
| Commands.CodeReadsBack | src/command.rs:132-169 | codes below 32 and kinds correspond one to one, but for the stored-message query |
| Commands.ChecksummedKinds | src/command.rs:303-308 | the kinds with a checksum, and no checksum of another size than 16 |
| Commands.ChecksummedIsBuffered | src/command.rs:319-324 | whatever token stands for a checksummed command is buffered |
| CommandText.TokenIsFound | src/command.rs:1194-1280 | the token of a checksummed command is found as written if and only if what follows it does not go on as a longer command and, unless the token ends itself, begins a new word |
| HeaderTokens.HeaderToken | src/varicode/mod.rs:1200-1236 | a found token that travels under the code of a checksummed command goes on under a token of that command |
| BaseCalls.PartyIsPlain | src/command.rs:1067-1136 | every upper-case call of the base shape fits a word and packs |
| BaseCalls.ZeroParty | src/varicode/mod.rs:524-605 | of these calls exactly 000AAA packs to zero |
| DirectedText.FindCallEnd | src/varicode/mod.rs:713-727 | after an optional group mark, the longest run of call characters; none if there is no such character |
| DirectedText.LongestReport | src/varicode/mod.rs:745-765 | what is taken after a blank is the longest number of at most two digits from -31 to 31 that stands there, and nothing if there is none |
| DirectedText.CouldBeDirected | src/varicode/mod.rs:1514-1533 | passes exactly the lines in which, after letters and digits only, a slash or a group mark stands or a letter next to a digit |
| Station.PartyIsDirected | src/varicode/mod.rs:1496-1533 | a line that begins with a plain call passes the gate of directed frames, and is no heartbeat and no compound frame |
| Station.PartyHeader | src/varicode/mod.rs:1147-1255 | between plain parties the header holds both calls and the code and takes the call, the token and the number; none is made if and only if the token has no code, the written calls are equal or one is 000AAA |
| Checksums.Pack16Injective | src/varicode/mod.rs:328-344 | different 16-bit values have different three-letter texts |
| Checksums.Checksum16Spells | src/varicode/mod.rs:248-260 | a text is the short checksum of another if and only if its three letters, by their places among the 41 and the most significant first, spell the low 16 bits of the CRC |
| Checksums.Checksum16Agrees | src/varicode/mod.rs:248-260 | two texts have the same short checksum if and only if their CRCs agree in 16 bits |
| Checksums.Checksum32Spells | src/varicode/mod.rs:262-275 | a text is the long checksum of another if and only if its six letters spell the high and the low half of the 32-bit CRC |
| Callsign.WordReadsBack | src/varicode/mod.rs:524-672 | every six-character word packs below the group values and is read back |
| Callsign.CallsignReadsBack | src/varicode/mod.rs:524-672 | a plain call, portable or not, is read back if and only if it does not begin with a rewritten prefix |
| Callsign.RewrittenPrefixIsNotReadBack | src/varicode/mod.rs:524-672 | 3D0AB packs and is shown as another call |
| Callsign.RewrittenLetterIsNotReadBack | src/varicode/mod.rs:524-672 | QA1BC packs and is shown as another call |
| Callsign.GroupReadsBack | src/varicode/mod.rs:524-612 | a group or placeholder of the table packs beyond all callsigns and is read back in upper case |
| DirectedFrame.FieldsReadBack | src/varicode/mod.rs:1237-1279 | calls, command, portable flags and number of a directed frame are read back, with the directed flag |
| FrameParse.HeaderIsParsed | src/internal/decoded_text.rs:31-66 | a directed frame is taken for nothing else and gives its own fields |
| FrameParse.OtherFrameIsParsed | src/internal/decoded_text.rs:31-205 | whatever 72 bits a frame without the data mark holds, its first three say what it is: below 3 a compound or heartbeat frame, 3 a directed one, above 3 legacy data, or the characters as they are |
| LineHeader.PackedHeader | src/varicode/mod.rs:1147-1255 | the header packed of a line is that of the target in front, the station's own call and the token and number found after it |
| LineHeader.PartsArrive | src/varicode/mod.rs:1257-1306 | the parts read from a header are the calls and token sent if and only if neither call begins with a rewritten prefix and the code is the token's |
| LineHeader.ReportArrives | src/varicode/mod.rs:1293-1300 | a report typed after the token of a command that takes one is received as that number, except that -31 is received as -30; without a report nothing is received after the token |
| FrameParse.DataIsParsed | src/internal/decoded_text.rs:31-81 | a frame marked as data is parsed as the text it shows |
| Framing.Transmit | src/varicode/mod.rs:1581-1706 | ends on every line, by header mode first and line length second, with the frames of the step function |
| Framing.BuildMessageFrames | src/varicode/mod.rs:1539-1714 | the frames of the prepared line, the first and the last marked; the rows on `OutgoingText` say what line is prepared and what its frames say |
| OutgoingText.LineIsBody | src/varicode/mod.rs:1557-1579 | a typed text is the own call with a colon or space and blanks, or nothing, then a body, then blanks; the line is the body, behind the selected call and one space if there is one, data is not forced, and the body is addressed to nobody |
| OutgoingText.BuiltSends | src/varicode/mod.rs:1581-1714 | for every line whose outgoing text is carried, the frames are the heartbeat and compound headers in front, then the one or two of a directed header if there is one, and then data frames whose parsed texts make up the outgoing text: a directed command's with its checksum, any other behind the own call exactly if that is asked for, nothing was sent before it, no call is selected, none is addressed and the own call is not in it |
| OutgoingText.EveryMessageSends | src/varicode/mod.rs:1581-1714 | every typed text has such headers and outgoing text |
| OutgoingText.PlainTextIsSent | src/varicode/mod.rs:1672-1705 | a text without a header goes out whole, as data, and behind the own call exactly under that condition |
| OutgoingText.DirectedTextIsSent | src/varicode/mod.rs:1620-1668 | a command without checksum sends its headers and then the rest of the line, trimmed in front if the command is buffered |
| OutgoingText.ForcedDataIsSent | src/varicode/mod.rs:1553-1579 | forced data sends the body as it is, without headers, address or identification |
| OutgoingText.GreetingIsSent | src/varicode/mod.rs:1672-1680 | K1ABC sends GOOD DAY as it is, or as K1ABC: GOOD DAY if it must identify itself |
| Framing.BuiltHasShape | src/varicode/mod.rs:1581-1713 | data frames form a suffix, exactly frame 0 is marked first and exactly the final frame last |
| FirstFrame.HeaderIsFirst | src/varicode/mod.rs:1620-1680 | a plain directed header is the first frame of its message |
| Air.FrameIsHeard | src/encoder.rs:43-92 | a frame's text and its three flags come back from the 79 tones |
| Air.AllAreHeard | src/encoder.rs:43-92 | encodable frames are all heard, in order, as they were sent |
| Reassembly.ValidMeansChecksummed | src/rx/reassembly.rs:224-276 | a checksum is valid if and only if the payload, without leading spaces, is the returned message, a space and three letters that spell the message's CRC |
| Reassembly.MessageBufferAssembler.PushDecoded | src/rx/reassembly.rs:106-133 | a frame reads and changes the buffer of its own key only |
| Reassembly.MessageBufferAssembler.HandleDirected | src/rx/reassembly.rs:135-189 | a directed frame starts a buffer or completes at once; no other key is touched |
| Reassembly.MessageBufferAssembler.PushAll | src/rx/reassembly.rs:106-214 | over a whole stream every event is the one its key's history determines |
| Reassembly.KeyTellsStreams | src/rx/reassembly.rs:108-111 | frames share a buffer if and only if they have the same submode and the same whole hertz |
| Reassembly.EventsOfSubstream | src/rx/reassembly.rs:106-133 | the events for a key in any interleaved stream are those of its frames alone |
| Reassembly.OpenBuffer | src/rx/reassembly.rs:106-167 | a buffer holds the header that opened it and exactly the fragments since, in order |
| Reassembly.CompletedIsItsFragments | src/rx/reassembly.rs:106-214 | a buffered completion is made of the latest start of its key and exactly the fragments since |
| Reassembly.CompletedIsValid | src/rx/reassembly.rs:191-213 | for any rules, no completion carries an invalid checksum, and a valid one is the 16- or 32-bit checksum of the payload, of the size the command asks for |
| Reassembly.WireCompletedIsValid | src/rx/reassembly.rs:191-213 | under the command set, a completion with a checksum has three letters that spell the low 16 bits of the CRC of its payload |
| Reassembly.CheckedIsCompleteOrDropped | src/rx/reassembly.rs:191-276 | the last fragment of an open buffer whose text ends in a space and three letters completes it, with the header's calls, command, time, strength and flags, if and only if the letters spell the CRC of what is before them, and drops it otherwise |
| Reassembly.UnsplitIsDropped | src/rx/reassembly.rs:240-264 | a text of a checksummed command that does not end so is dropped |
| Reassembly.UncheckedIsComplete | src/rx/reassembly.rs:224-238 | a command without checksum, or a message to the gateway, completes with the whole text but its trailing spaces |
| Reassembly.SingleIsItsFrame | src/rx/reassembly.rs:135-189 | a directed frame starts a buffer if and only if its command is buffered and it is not the last one or a callsign is still to come; any other completes at once, unbuffered, with its own calls and command, and its further parts joined by single spaces |
| Reassembly.OtherFrameIsFragment | src/rx/reassembly.rs:118-133 | a frame that is not directed is silent if it carries a compound callsign or its key has no open buffer; otherwise it ends the buffer if it is the last one and is appended if not |
| Transport.PiecesMakeLine | src/varicode/mod.rs:1682-1705 | the texts of the data frames, as they are parsed, make up the whole line |
| Transport.MessageEvents | src/rx/reassembly.rs:106-214 | a header and fragments that make up a checksummed payload give one start, appended fragments and one completion |
| Transport.MessageArrives | src/varicode/mod.rs:1539-1714 | the frames built for a directed, checksummed message arrive, for any data packer and parser that carry its line |
| StreamDelivery.DeliveredAnywhere | src/rx/reassembly.rs:106-214 | a message's frames deliver it in a stream of many keys, between other messages of its own key, if and only if they deliver it alone |
| EndToEnd.CoveredIsCarried | src/varicode/mod.rs:1452-1476 | any exactly covered line is carried by the data frames, piece by piece |
| EndToEnd.MessageRoundTrip | src/varicode/mod.rs:1539-1714 | a message typed by a plain station to a plain call, with a checksummed command and a non-empty text that goes out, with its checksum, as entries of exact size, sent as tones and heard in order on one key in any stream, gives one start and finally exactly one completion, with both calls, the command, the text without its leading blanks and a valid checksum, if and only if the written calls differ, neither is 000AAA, neither begins with a rewritten prefix, and the text does not extend the command |
| EndToEnd.TextTakenForCommand | src/command.rs:1194-1280 | the text TO:HELLO after MSG is taken for another command, and the message does not arrive as typed |

## Left out

- Audio devices, WAV reading, examples, benches, wall-clock reads and the detector's mutex: input, output and timing.
- Floating-point signal processing (synchronisation, coherent decoding, interference cancellation, whitening, baselines,
  transforms): no exact property; where a result is needed it is an arbitrary function.
- Rounding in the decimator and in the spectrum sums: both are modelled over exact reals.
- The literal dictionary, parity digits and neighbour tables: parameters with the premises their builders establish.
- Non-ASCII text: the consumed count is in characters while the line is sliced in bytes.
- Grid squares, the shape test of compound calls, and the packing of heartbeat and compound frames once their gates are
  passed: arbitrary functions in `Station.Station`.
- Compound callsigns and group targets in the end-to-end result: its parties are plain callsigns.
- The table of group names: a parameter of `Callsign`.
- Legacy data packing and the Huffman code: deprecated, and the padding argument would be the same.
- The detector variant that follows the wall clock: the continuous ring is modelled.
- The list of recently seen frames that suppresses repeats in overlapping windows.
- The modulator and transmit-slot timing: floating point with easy claims about state.
- Lookups of an incomplete or malformed table image: file headers and record bounds are not modelled.
- JscLookup.LookupBytes: nothing is said of the answer on tables that break the layout, only that the search ends.
- JscCode.Decompress: its accumulator is unbounded; `JscCode.AccumulatorFits` shows that frames never reach 64 bits, longer bit strings may.
- Detector.Detector.WriteI16: samples of stereo input are combined before decimation as in the source, but `Detector.WriteStream` cuts stereo streams at frame boundaries.
- Scheduling.SlotRunEmitsEverySlot: speaks of runs that grow by at most one cycle a call; `Scheduling.AnyRunOnTime` covers counts that fall or jump.
- EndToEnd.MessageRoundTrip: asks that the payload and its checksum are covered by entries of exact size, which the entry ROSIDS is not, and that every frame is received once and in order; losses are covered by `Reassembly.CompletedIsItsFragments` and `Reassembly.CompletedIsValid`.
