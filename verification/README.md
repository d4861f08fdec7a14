# Radio codec, flight-phase detection and flight replay, verified

A Dafny 4.11 model of three parts of the flight software, with proofs of what they are for.

**The Horus v2 radio codec** (`horus.c`, `golay.c`). A packet is the unique word `$$`, the payload,
and eleven parity bits for every twelve payload bits, from a (23,12,7) Golay code. The body of the
packet is optionally interleaved and scrambled; a 32-byte packet carries a CRC-16. `Horus.PacketCorrected`
is the main result: for every payload length, payload and configuration the decoder returns the payload
if the channel flips at most three bits of each codeword; `Channel.Transmit` puts encoder, channel and decoder together. It rests on the code being perfect
(`GolayTables.PerfectCode`), on its minimum distance (`Golay.CodewordWeight`), on the interleaver being
a permutation (`Interleaver.InterleaveInverse`, which needs the number theory of `Interleaver.Bezout` and
`Interleaver.TablePrime`), on the scrambler being an involution, and on methods, in the source's own loops and in
place on arrays, that are proved against these definitions.

**The flight-phase detector** (`linear_fit.hpp`, `circular_buffer.hpp`, `debouncer.hpp`,
`c_phase_controller.h`, `flight.hpp`, `c_detection_handler.cpp`). Readings feed rolling least-squares
slopes, slopes feed debouncers, debouncers feed a latching controller with one-shot timers.
The objects are classes proved against functions on values (`DetectionHandlers.DetectionHandler.HandleData`
computes `DataHandled`); `FlightRuns` puts these functions and the timers into a state machine whose
steps are "handle readings" and "a timer expires", and proves an invariant of every run
(`FlightRuns.RunKeeps`). `FlightResults` draws the conclusions: phases come in order and with their
margins, and each phase was preceded by the sustained measurements that it stands for, whatever the
wrap-around of 32-bit time; and it is detected as soon as they are there, apart from runs of measurements
that start or end at the one reserved time. `FlightExample` is a run that lands.

**The flight replay** (`openrocket_sensors.c`). A scan from a hint finds the packets around a time;
the value fetched is that of a piecewise linear function that does not mention the hint.

Numbers: machine words of the Golay code are natural numbers with recursive bit operations (`Words`),
bytes are `bv8`, the CRC and the scrambler are `bv16`, 32-bit times are numbers modulo 2^32 with the
reserved value written out, floating point is exact (`real`). Altitude from pressure is a parameter.

## Where code and documentation differ

- The comment on `golay23_decode` (golay.c:235) says it returns 12 bits; the code returns the 23-bit
  codeword, and its callers shift. `Decode` returns the codeword.
- The decoder fetches a parity byte whenever the parity count reaches a multiple of eight, at the end
  too. It reads one byte past the packet exactly if the number of codewords is a multiple of eight
  (`ReadsBeyondPacket`); `DecodeRxPacket` asks for a buffer that holds what is read.
- `NewestSample` tests an unsigned index for being negative. It is inside the buffer exactly if the
  number of samples added is not a multiple of the length (`NewestIndexInBounds`). Nothing modelled here calls it.
- A debouncer that is fed at time 2^32 - 1 cannot tell this time from "not passed".
  `PassedExactly` covers all times, `ReservedTimeHidesRun` shows a run that is missed, and nothing is
  ever passed wrongly (`PassedSound`).
- `timer_events` has room for three timers and lists two. The third is zero-filled: boost starts it,
  with no delay, and it reports boost. `SpareTimerChangesNoEvent` shows that it changes no event.
- `openrocket_sensors.h:58` documents the hint as the lower index of the call before. That is right until a
  call has looked past the end of the recording, and then wrong (`EarlierLowerAdmissible`); the drivers
  always pass 0.
- The checksum is stored low byte first, while the CRC shifts high bits out first. Bursts of at most 16 bits
  within the data, or within the field, always show; one across the border between them need not
  (`BurstIntoFieldMissed`).
- `interleave` has primes for at most 773 bits. `ScanExactly` shows that its search runs off the table for
  every larger number, and for no other; it then reads one entry past the end (`FindMultiplier`). In payload bytes
  the limit is 49, and 50 bytes, which make 776 bits, are over it (`SupportedExactly`).

## Model

| member | source | states |
|---|---|---|
| Golay.RemainderUnique | lib/f_core/radio/protocols/horus/golay.c:106-114 | a polynomial has one remainder of degree below 11 modulo the generator |
| Golay.GetSyndrome | lib/f_core/radio/protocols/horus/golay.c:115-124 | the two nested loops end for every 23-bit word and leave that remainder |
| Golay.SyndromeXor | lib/f_core/radio/protocols/horus/golay.c:115-124 | the syndrome is linear |
| Golay.SyndromeZero | lib/f_core/radio/protocols/horus/golay.c:106-124 | it is zero exactly on multiples of the generator |
| Golay.SystematicCodeword | lib/f_core/radio/protocols/horus/golay.c:154-157 | data followed by its syndrome is a codeword |
| Golay.CodewordSystematic | lib/f_core/radio/protocols/horus/golay.c:146-157 | every codeword is its upper twelve bits followed by their syndrome: the encoding table lists all of them |
| Golay.GeneratorRemainder | lib/f_core/radio/protocols/horus/golay.c:56-56 | the generator is a codeword, and x^11 leaves 0x475 |
| Golay.CodewordWeight | lib/f_core/radio/protocols/horus/golay.c:20-25 | minimum distance 7: a nonzero codeword has at least seven bits set |
| Golay.CorrectablePatternsDiffer | lib/f_core/radio/protocols/horus/golay.c:162-168 | two error patterns of weight at most 3 never share a syndrome |
| Combinations.NextComb | lib/f_core/radio/protocols/horus/golay.c:96-105 | in place: the successor of a combination in lexicographic order, for all n and r, without touching a[0] |
| Combinations.Restart | lib/f_core/radio/protocols/horus/golay.c:103-103 | the last loop counts up from position j although it reads a[j] while writing downwards |
| Combinations.RankOrder | lib/f_core/radio/protocols/horus/golay.c:93-105 | ranking combinations respects their order |
| Combinations.SuccessorByRank | lib/f_core/radio/protocols/horus/golay.c:93-105 | being the successor is the same as having the next rank |
| Combinations.Enumerate | lib/f_core/radio/protocols/horus/golay.c:181-202 | for all n and r with 1 <= r <= n, nextcomb can be called C(n,r) - 1 times from 1..r; the states it goes through are an enumeration |
| Combinations.EnumerationComplete | lib/f_core/radio/protocols/horus/golay.c:181-202 | an enumeration, as Enumerate makes one, has every r-subset, and has it once |
| GolayTables.PatternInjective | lib/f_core/radio/protocols/horus/golay.c:77-92 | different position lists give different error patterns |
| GolayTables.PositionsOf | lib/f_core/radio/protocols/horus/golay.c:77-92 | every error pattern comes from a position list |
| GolayTables.ArrToInt | lib/f_core/radio/protocols/horus/golay.c:81-92 | a position list becomes the word with these bits |
| GolayTables.CombCounts | lib/f_core/radio/protocols/horus/golay.c:174-202 | the loop bounds 253 and 1771 are the binomials, and all patterns of at most three errors number 2048 |
| GolayTables.PerfectCode | lib/f_core/radio/protocols/horus/golay.c:159-202 | perfect code: each of the 2048 syndromes belongs to a pattern of weight at most 3 |
| GolayTables.ErrorFor | lib/f_core/radio/protocols/horus/golay.c:159-168 | the one such pattern of a syndrome |
| GolayTables.NearestCodeword | lib/f_core/radio/protocols/horus/golay.c:239-245 | every word has a codeword within distance 3, and only one |
| GolayTables.Golay23.constructor | lib/f_core/radio/protocols/horus/golay.c:72-75 | two tables, not yet filled |
| GolayTables.Golay23.FillEncodingTable | lib/f_core/radio/protocols/horus/golay.c:154-157 | every entry is the codeword of its data |
| GolayTables.Golay23.FillSingle | lib/f_core/radio/protocols/horus/golay.c:171-177 | all patterns of at most one error are in the decoding table |
| GolayTables.Golay23.FillMultiple | lib/f_core/radio/protocols/horus/golay.c:181-202 | all patterns of r errors get in and none that was there is overwritten |
| GolayTables.Golay23.Init | lib/f_core/radio/protocols/horus/golay.c:136-205 | both tables are total and correct |
| GolayTables.Golay23.Encode | lib/f_core/radio/protocols/horus/golay.c:220-225 | the codeword with these data bits |
| GolayTables.Golay23.Decode | lib/f_core/radio/protocols/horus/golay.c:239-245 | the nearest codeword of any received word |
| Bytes.PackBits | lib/f_core/radio/protocols/horus/horus.c:98-100 | packing into bytes, most significant bit first, loses no bit and pads with zeros |
| Bytes.PackOfBytes | lib/f_core/radio/protocols/horus/horus.c:110-115 | unpacking and packing bytes is the identity |
| BitStreams.WriteBits | lib/f_core/radio/protocols/horus/horus.c:135-149 | the accumulator loop appends bits to a stream across byte boundaries |
| BitStreams.ReadParity | lib/f_core/radio/protocols/horus/horus.c:262-273 | the fetch loop yields the next eleven bits of the stream |
| HorusCodec.GetNumTxDataBytes | lib/f_core/radio/protocols/horus/horus.c:52-74 | the packet length: two bytes, payload, parity rounded up |
| HorusLayout.NumWordsCover | lib/f_core/radio/protocols/horus/horus.c:56-66 | just enough codewords for the payload, just enough bytes for their parity |
| HorusLayout.SentWord | lib/f_core/radio/protocols/horus/horus.c:128-159 | data and parity sent make up a codeword, for full and for short groups: parity by syndrome is parity by table |
| HorusLayout.CorrectedChunk | lib/f_core/radio/protocols/horus/horus.c:278-344 | a group with at most three errors is corrected, short or full |
| HorusLayout.CorrectedFullChunk | lib/f_core/radio/protocols/horus/horus.c:278-280 | a full group is corrected if and only if it has at most three errors |
| HorusLayout.DecodedBodyCorrect | lib/f_core/radio/protocols/horus/horus.c:242-351 | a body with at most three errors in each codeword decodes to the payload |
| HorusLayout.DecodedBodyOnlyIf | lib/f_core/radio/protocols/horus/horus.c:242-299 | a payload that is recovered had at most three errors in every full codeword |
| GroupRecovery.CorrectedExactly | lib/f_core/radio/protocols/horus/horus.c:278-344 | a group, short or full, is decoded to what was sent if and only if at most three bits are wrong or, for a short group, its errors are within three bits of a codeword that spares its data |
| GroupRecovery.FourErrorsHarmless | lib/f_core/radio/protocols/horus/horus.c:320-344 | so a short group can survive four errors: a concrete pattern |
| GroupRecovery.FewErrorsHarmless | lib/f_core/radio/protocols/horus/horus.c:320-344 | and it survives three errors at most in any case |
| GroupRecovery.DecodedBodyExactly | lib/f_core/radio/protocols/horus/horus.c:226-351 | a body is decoded to the payload sent if and only if all its groups survive, for every length and all errors |
| HorusCodec.EncodeParity | lib/f_core/radio/protocols/horus/horus.c:98-187 | the bit-serial encoder writes the parity stream of all groups, the short last one included |
| HorusCodec.EncodeBody | lib/f_core/radio/protocols/horus/horus.c:88-190 | unique word, payload and parity; the cursor ends at the promised length, nothing else is written |
| HorusCodec.DecodeGroups | lib/f_core/radio/protocols/horus/horus.c:231-299 | after the main loop all full groups are corrected and written |
| HorusCodec.DecodeBody | lib/f_core/radio/protocols/horus/horus.c:226-351 | the bit-serial decoder computes the corrected payload; its cursor ends at the payload length |
| HorusCodec.ReadsBeyondPacket | lib/f_core/radio/protocols/horus/horus.c:268-318 | it reads one byte past the packet if and only if the codewords number a multiple of eight |
| Interleaver.Bezout | lib/f_core/radio/protocols/horus/horus.c:366-368 | a common divisor as a linear combination |
| Interleaver.TargetInjective | lib/f_core/radio/protocols/horus/horus.c:376-381 | multiplying by a coprime number modulo any n never collides |
| Interleaver.TargetSurjective | lib/f_core/radio/protocols/horus/horus.c:376-381 | and reaches every position |
| Interleaver.TablePrime | lib/f_core/radio/protocols/horus/horus.c:357-360 | every number in the table is prime |
| Interleaver.TableDense | lib/f_core/radio/protocols/horus/horus.c:357-360 | every listed prime is more than half of the next |
| Interleaver.MultiplierCoprime | lib/f_core/radio/protocols/horus/horus.c:366-372 | the multiplier chosen for up to 773 bits is coprime to their number |
| Multipliers.LargestPrimeBelow | lib/f_core/radio/protocols/horus/horus.c:357-372 | up to 353 bits the multiplier is the largest prime below their number |
| Multipliers.MultiplierBeyond | lib/f_core/radio/protocols/horus/horus.c:357-372 | the multiplier for every number from 350 to 773, where the table has gaps |
| Multipliers.BitMoves | lib/f_core/radio/protocols/horus/horus.c:374-402 | bit i goes to position b i mod n, and direction 1 fetches it back |
| Multipliers.PacketBitMoves | lib/f_core/radio/protocols/horus/horus.c:357-402 | in the 504-bit body of the real packet bit i goes to 389 i mod 504 |
| Interleaver.InterleaveInverse | lib/f_core/radio/protocols/horus/horus.c:374-404 | either direction undoes the other |
| Interleaver.FindMultiplier | lib/f_core/radio/protocols/horus/horus.c:369-372 | the search finds that multiplier, and reads past the table if and only if there are more than 773 bits |
| Interleaver.ScanExactly | lib/f_core/radio/protocols/horus/horus.c:369-371 | the search ends inside the table if and only if there are at most 773 bits |
| Horus.SupportedExactly | lib/f_core/radio/protocols/horus/horus.c:194-196 | the encoder's packets stay within that limit if and only if the payload has at most 49 bytes (or there is no interleaver); 50 bytes make 776 bits |
| Interleaver.PermuteBits | lib/f_core/radio/protocols/horus/horus.c:374-404 | the OR-writes never collide: the output holds each input bit once |
| Interleaver.Interleave | lib/f_core/radio/protocols/horus/horus.c:362-409 | in place: the bits of the buffer are permuted, the rest is unchanged |
| Scrambler.StateNonzero | lib/f_core/radio/protocols/horus/horus.c:420-443 | the 15-bit register never becomes zero |
| Scrambler.KeystreamRecurrence | lib/f_core/radio/protocols/horus/horus.c:427-443 | out(t) is out(t-14) xor out(t-15) |
| Scrambler.KeystreamIsStream | lib/f_core/radio/protocols/horus/horus.c:420-443 | the whole keystream without the register: fifteen bits and the recurrence |
| Scrambler.ScrambledIs | lib/f_core/radio/protocols/horus/horus.c:427-438 | what scrambling does to every bit |
| Scrambler.ZerosScrambled | lib/f_core/radio/protocols/horus/horus.c:420-443 | the first fifteen bits that zeros become |
| Scrambler.ScrambleTwice | lib/f_core/radio/protocols/horus/horus.c:417-450 | scrambling twice is the identity |
| Scrambler.Scramble | lib/f_core/radio/protocols/horus/horus.c:417-450 | in place: every bit is xored with a keystream that does not depend on the data |
| Crc16.GenCrc16 | lib/f_core/radio/protocols/horus/horus.c:455-465 | the loop computes the CRC of the first bytes |
| Crc16.CrcIsDivision | lib/f_core/radio/protocols/horus/horus.c:455-465 | the byte-wise formula is bit-serial division by x^16+x^12+x^5+1 from 0xFFFF |
| Crc16.CheckValue | lib/f_core/radio/protocols/horus/horus.c:455-465 | the empty message gives 0xFFFF, the characters 1 to 9 give the published check value 0x29B1 |
| Crc16.DividePlus | lib/f_core/radio/protocols/horus/horus.c:455-465 | the division is linear in register and message |
| Crc16.BurstDetected | lib/f_core/radio/protocols/horus/horus.c:455-465 | messages that differ, and only within 16 consecutive bits, have different CRCs |
| Horus.FromAirOnAir | lib/f_core/radio/protocols/horus/horus.c:192-224 | the receiver undoes interleaving and scrambling, in all four configurations |
| Horus.EncodeTxPacket | lib/f_core/radio/protocols/horus/horus.c:88-206 | the whole packet and its length |
| Horus.DecodeRxPacket | lib/f_core/radio/protocols/horus/horus.c:209-352 | the received buffer is cleared in place and decoded |
| Horus.ErrorsAreFlips | lib/f_core/radio/protocols/horus/horus.c:218-224 | errors seen in a codeword are the bits of it that were flipped on the air |
| Horus.PacketCorrected | lib/f_core/radio/protocols/horus/horus.c:88-352 | at most three flips in each codeword: the payload comes back, for every length and configuration |
| Horus.PacketCorruptedBeyond | lib/f_core/radio/protocols/horus/horus.c:278-295 | more than three flips in a full codeword always corrupt the payload |
| Horus.PacketSizes | include/f_core/radio/protocols/horus/horus.h:10-10 | the 32-byte packet fills the 65-byte buffer, fits the interleaver and is never read beyond |
| Horus.HorusV2Encode | lib/f_core/radio/protocols/horus/horus.c:471-477 | the checksum is filled in and the packet is sent |
| Horus.HorusV2ChecksumVerify | lib/f_core/radio/protocols/horus/horus.c:484-487 | says whether the checksum is that of the packet |
| Horus.HorusV2Decode | lib/f_core/radio/protocols/horus/horus.c:480-483 | the packet decoded from the buffer |
| Channel.Transmit | lib/f_core/radio/protocols/horus/horus.c:88-352 | encoder, a channel that flips bits, decoder: the output is the payload if no codeword is hit more than three times |
| Channel.FlipsAreHits | lib/f_core/radio/protocols/horus/horus.c:88-352 | how often a codeword is hit depends on the noise only, not on the payload |
| Horus.LinkDelivers | lib/f_core/radio/protocols/horus/horus.c:471-487 | sent, damaged by at most three flips a codeword, received: the packet is back and its checksum is valid |
| Horus.DamageDetected | lib/f_core/radio/protocols/horus/horus.c:484-487 | a packet with one burst of at most 16 bits in its data never has a valid checksum |
| PacketDamage.DamageExactly | lib/f_core/radio/protocols/horus/horus.c:484-487 | a damaged packet stays valid if and only if the damage to the checksum is the remainder of the damage to the data |
| PacketDamage.FieldDamageDetected | lib/f_core/radio/protocols/horus/horus.c:484-487 | damage to the checksum field alone always shows |
| PacketDamage.BurstIntoFieldMissed | lib/f_core/radio/protocols/horus/horus.c:471-487 | a burst across the border of the field can go unnoticed: four bits among 13 consecutive ones, in every valid packet |
| CircularBuffers.CircularBuffer.constructor | include/f_core/utils/circular_buffer.hpp:11-11 | a buffer full of the initial value |
| CircularBuffers.CircularBuffer.Fill | include/f_core/utils/circular_buffer.hpp:13-13 | all samples are the value |
| CircularBuffers.CircularBuffer.AddSample | include/f_core/utils/circular_buffer.hpp:15-19 | the oldest sample goes, the new one is last |
| CircularBuffers.CircularBuffer.At | include/f_core/utils/circular_buffer.hpp:32-39 | index i is the i-th oldest sample, modulo the length |
| CircularBuffers.CircularBuffer.OldestSample | include/f_core/utils/circular_buffer.hpp:23-23 | the sample at index 0 |
| CircularBuffers.Rotate | include/f_core/utils/circular_buffer.hpp:15-19 | overwriting and advancing the index shifts the window by one |
| CircularBuffers.NewestIndexInBounds | include/f_core/utils/circular_buffer.hpp:24-30 | NewestSample stays in bounds if and only if the samples added are no multiple of the length |
| LinearFit.Group.SlideSum | include/f_core/utils/linear_fit.hpp:25-30 | over any abelian group, subtracting the oldest and adding the new value gives the new window's sum |
| LinearFit.RollingSum.constructor | include/f_core/utils/linear_fit.hpp:13-13 | window and total agree from the start |
| LinearFit.RollingSum.Fill | include/f_core/utils/linear_fit.hpp:17-23 | the total is summed up afresh |
| LinearFit.RollingSum.Feed | include/f_core/utils/linear_fit.hpp:25-30 | the window slides and the total remains its sum |
| LinearFit.RollingSum.Sum | include/f_core/utils/linear_fit.hpp:31-31 | the sum of the window |
| LinearFit.WindowIsRecentHistory | include/f_core/utils/linear_fit.hpp:25-30 | after any number of calls the window is the end of the padded history |
| LinearFit.MovingAverage.constructor | include/f_core/utils/linear_fit.hpp:46-46 | a window full of the start value |
| LinearFit.MovingAverage.Feed | include/f_core/utils/linear_fit.hpp:48-48 | the window slides |
| LinearFit.MovingAverage.Fill | include/f_core/utils/linear_fit.hpp:50-50 | the window is full of the value |
| LinearFit.MovingAverage.Avg | include/f_core/utils/linear_fit.hpp:49-49 | the number whose multiple by the length is the sum |
| LinearFit.AverageBetween | include/f_core/utils/linear_fit.hpp:49-49 | an average lies within any bounds of the window |
| LinearFit.SamplesLawful | include/f_core/utils/linear_fit.hpp:63-68 | samples with their two operators are an abelian group |
| LinearFit.DenominatorIsPairSpread | include/f_core/utils/linear_fit.hpp:80-80 | the denominator is the sum of squared distances over all pairs |
| LinearFit.SlopeExists | include/f_core/utils/linear_fit.hpp:82-85 | FindSlope returns false if and only if all x are equal |
| LinearFit.LeastSquares | include/f_core/utils/linear_fit.hpp:77-88 | slope and intercept are the unique line with the least sum of squared residuals |
| Debouncers.Debouncer.constructor | include/f_core/utils/debouncer.hpp:12-12 | not passed |
| Debouncers.Debouncer.Feed | include/f_core/utils/debouncer.hpp:13-23 | the state after one more sample, for both directions |
| Debouncers.Sides | include/f_core/utils/debouncer.hpp:32-38 | Over passes on the whole upper side of the target, Under on the whole lower side, neither at the target |
| Debouncers.PassesFurther | include/f_core/utils/debouncer.hpp:32-38 | what passes goes on passing further away |
| Debouncers.ElapsedAcrossWrap | include/f_core/utils/debouncer.hpp:28-28 | the difference of two 32-bit times on either side of a wrap-around |
| Debouncers.Debouncer.Passed | include/f_core/utils/debouncer.hpp:24-29 | the answer in this state |
| Debouncers.StateOfRun | include/f_core/utils/debouncer.hpp:13-23 | after every history the two fields are the first usable and the last time of the unbroken run at its end |
| Debouncers.PassedExactly | include/f_core/utils/debouncer.hpp:24-29 | when Passed holds, for every history, reserved times included |
| Debouncers.PassedIffRunLong | include/f_core/utils/debouncer.hpp:24-42 | away from the reserved time: if and only if the run lasts longer than the duration |
| Debouncers.ReservedTimeHidesRun | include/f_core/utils/debouncer.hpp:25-42 | a history in which the reserved time hides a run that is long enough |
| Debouncers.PassedSound | include/f_core/utils/debouncer.hpp:24-29 | Passed is never early |
| PhaseControllers.PhaseController.constructor | include/f_core/flight/c_phase_controller.h:65-84 | nothing reported, nothing started |
| PhaseControllers.PhaseController.SubmitEvent | include/f_core/flight/c_phase_controller.h:138-162 | reports, events, posted events and started timers after one report |
| PhaseControllers.PhaseController.HasEventOccured | include/f_core/flight/c_phase_controller.h:164-169 | the latched state of an event |
| PhaseControllers.ReportsAreSubmissions | include/f_core/flight/c_phase_controller.h:138-140 | a report is on file if and only if it was submitted |
| PhaseControllers.EventsFollowDeciders | include/f_core/flight/c_phase_controller.h:138-147 | with monotone decisions latching is invisible: an event has occurred if and only if it was reported and its decision holds now |
| PhaseControllers.OutcomeDependsOnSet | include/f_core/flight/c_phase_controller.h:138-147 | the final state depends on the set of reports alone |
| PhaseControllers.PostedAndStartedOnce | include/f_core/flight/c_phase_controller.h:142-155 | every event is posted once, every timer started at most once, exactly when its event has occurred |
| Flight.DecidersMonotone | app/backplane/sensor_module/include/flight.hpp:67-92 | the four decisions are monotone |
| Flight.EventsAreDecisions | app/backplane/sensor_module/include/flight.hpp:67-92 | in every reachable state of the controller eventStates[e] is deciders[e] of sourceStates[e] |
| FlightControllers.ControllerBySubmissions | app/backplane/sensor_module/src/c_detection_handler.cpp:31-129 | after every run the controller is in a state that submissions lead to |
| FlightControllers.FlightEventsAreDecisions | include/f_core/flight/c_phase_controller.h:138-155 | so in every run eventStates[e] is deciders[e] of sourceStates[e], events are posted once and timers started once |
| Flight.DecidersExactly | app/backplane/sensor_module/include/flight.hpp:67-92 | which of the six sources is enough for which of the four events |
| Flight.SubmitDecides | app/backplane/sensor_module/include/flight.hpp:41-92 | one deciding source is enough, and only boost starts timers: all three |
| Flight.SpareTimerHarmless | app/backplane/sensor_module/include/flight.hpp:34-59 | the zero-filled timer changes no event and starts no timer |
| DetectionHandlers.DetectionHandler.constructor | app/backplane/sensor_module/src/c_detection_handler.cpp:16-27 | all detectors idle, both windows full of zero points |
| DetectionHandlers.DetectionHandler.ContinueCollecting | app/backplane/sensor_module/src/c_detection_handler.cpp:29-29 | until the ground is hit |
| DetectionHandlers.DetectionHandler.HandleData | app/backplane/sensor_module/src/c_detection_handler.cpp:31-57 | windows, then boost, then noseover, then ground, on the objects what DataHandled is on values |
| DetectionHandlers.DetectionHandler.HandleBoost | app/backplane/sensor_module/src/c_detection_handler.cpp:107-129 | both accelerometers are fed, working ones that have passed report, the time of boost is kept |
| DetectionHandlers.DetectionHandler.HandleNoseover | app/backplane/sensor_module/src/c_detection_handler.cpp:82-105 | slopes are fed, working barometers that have passed report once the lockout is over |
| DetectionHandlers.DetectionHandler.HandleGround | app/backplane/sensor_module/src/c_detection_handler.cpp:59-80 | speeds are fed, working barometers that have passed report |
| DetectionHandlers.MagnitudeTurned | app/backplane/sensor_module/src/c_detection_handler.cpp:109-114 | the squared acceleration is the same after any rotation in a coordinate plane |
| DetectionHandlers.MagnitudeOnAxis | app/backplane/sensor_module/src/c_detection_handler.cpp:109-114 | along each of the three axes it is the square of the length |
| DetectionHandlers.SpeedUnsigned | app/backplane/sensor_module/src/c_detection_handler.cpp:66-71 | a speed is the velocity without its sign |
| DetectionHandlers.SlopeOf | include/f_core/utils/linear_fit.hpp:77-88 | the slope of the window of a rolling sum |
| HandlerEffects.BoostReports | app/backplane/sensor_module/src/c_detection_handler.cpp:119-124 | the primary IMU reports boost as source 1, the secondary one as source 0, each if it has passed and works |
| HandlerEffects.NoseoverReports | app/backplane/sensor_module/src/c_detection_handler.cpp:97-104 | the primary barometer reports noseover as source 3, the secondary one as source 2, each if it has passed and works and the lockout is over |
| HandlerEffects.GroundReports | app/backplane/sensor_module/src/c_detection_handler.cpp:74-79 | the same two report the landing |
| HandlerEffects.DataHandledEffect | app/backplane/sensor_module/src/c_detection_handler.cpp:31-57 | one call: which debouncer is fed with what, which event can come and on what grounds |
| FlightRuns.VelocitiesStand | app/backplane/sensor_module/src/c_detection_handler.cpp:59-93 | noseover is about velocities below 10 ft/s, landing about velocities between -10 and 10 ft/s |
| FlightRuns.PassedIsSustained | include/f_core/utils/debouncer.hpp:24-29 | a debouncer that has passed saw values in its band without a break for longer than the duration, in unwrapped time |
| FlightRuns.PassedIsSeen | include/f_core/utils/debouncer.hpp:24-42 | on every record shorter than 2^32 ms it has passed if and only if there is such a run that neither starts nor ends at the reserved time |
| FlightRuns.SustainedIsSeen | include/f_core/utils/debouncer.hpp:24-42 | away from the reserved time that is every such run |
| FlightRuns.HandledKeeps | app/backplane/sensor_module/src/c_detection_handler.cpp:31-129 | handling readings keeps the invariant |
| FlightRuns.ExpiredKeeps | include/f_core/flight/c_phase_controller.h:193-201 | a timer's callback keeps the invariant |
| FlightRuns.RunKeeps | app/backplane/sensor_module/src/c_detection_handler.cpp:31-129 | the invariant holds after every run |
| FlightResults.PhasesInOrder | app/backplane/sensor_module/src/c_detection_handler.cpp:31-129 | noseover implies lockout implies boost; noseover comes 15 s after boost or later; ground hit implies boost, and noseover or 350 s since boost |
| FlightResults.TimersDue | app/backplane/sensor_module/include/flight.hpp:41-59 | in every run the lockout timer can expire if and only if boost was 15 s ago or more and it has not yet, the full-flight timer likewise after 350 s, the third at once |
| FlightResults.NoseoverSustained | app/backplane/sensor_module/src/c_detection_handler.cpp:82-105 | before noseover one barometer saw less than 10 ft/s of climb for more than 250 ms, after boost |
| FlightResults.LandingSustained | app/backplane/sensor_module/src/c_detection_handler.cpp:49-80 | a landing seen by a barometer: velocities between -10 and 10 ft/s for more than 10 s, all of it after noseover |
| FlightResults.LandingAfterBoost | app/backplane/sensor_module/src/c_detection_handler.cpp:49-129 | it comes more than 25 s after boost, less the time readings are under way |
| FlightResults.NoseoverExactly | app/backplane/sensor_module/src/c_detection_handler.cpp:82-105 | in flights shorter than 2^32 ms readings bring about noseover if and only if the lockout is over and a working barometer shows such a run that neither starts nor ends at the reserved time |
| FlightResults.LandingExactly | app/backplane/sensor_module/src/c_detection_handler.cpp:54-80 | in flights shorter than 2^32 ms readings bring about a landing if and only if a working barometer shows such a run that neither starts nor ends at the reserved time |
| FlightResults.NoseoverByHandle | app/backplane/sensor_module/include/flight.hpp:41-59 | only readings that are handled bring about noseover, no timer does |
| FlightResults.NoseoverIsHandled | app/backplane/sensor_module/src/c_detection_handler.cpp:82-105 | noseover comes no later after the time stamp of its readings than readings are under way |
| FlightResults.SpareTimerChangesNoEvent | app/backplane/sensor_module/include/flight.hpp:34-59 | in every run the third timer's expiry changes nothing but a report and the clock |
| FlightResults.MagnitudesAre | app/backplane/sensor_module/src/c_detection_handler.cpp:109-117 | what is compared with the threshold, from the six components of the readings: primary IMU first |
| FlightResults.VelocitiesMeasured | app/backplane/sensor_module/src/c_detection_handler.cpp:33-71 | in every run each velocity that was watched is, for the primary and for the secondary barometer, a slope that no line fits the last ten altitudes better than |
| FlightResults.BoostSustained | app/backplane/sensor_module/src/c_detection_handler.cpp:107-129 | in flights of any length boost comes in a step that handles readings and after x^2 + y^2 + z^2 of one working accelerometer was over 2401 (m/s^2)^2 for more than 250 ms |
| FlightResults.BoostExactly | app/backplane/sensor_module/src/c_detection_handler.cpp:107-129 | within 2^32 ms of start-up: if and only if the run neither starts nor ends at the reserved time |
| FlightResults.EarlyAccelerationSeen | app/backplane/sensor_module/src/c_detection_handler.cpp:116-124 | up to 2^32 - 2 ms after start-up that is every such run |
| FlightResults.BoostTimeRecorded | app/backplane/sensor_module/src/c_detection_handler.cpp:126-128 | after every run boost_detected_time is the time stamp of the readings that brought boost about, or still unset |
| FlightExample.LandingReached | app/backplane/sensor_module/src/c_detection_handler.cpp:31-129 | a run of five steps that goes through all phases and lands: the results above are not about nothing |
| FlightExample.DescentIsNoLanding | app/backplane/sensor_module/src/c_detection_handler.cpp:59-105 | a run that descends at 80 ft/s reaches noseover, and after 10 s of it there is no landing |
| FlightExample.Lands | app/backplane/sensor_module/src/c_detection_handler.cpp:31-129 | runs at any constant rate below 10 ft/s: noseover, and a landing if and only if the rate is above -10 ft/s |
| FlightExample.LagMatters | app/backplane/sensor_module/src/c_detection_handler.cpp:31-129 | a run with readings that are under way for 14.7 s: it lands less than 25 s after boost |
| FlightResults.WindowsSlide | app/backplane/sensor_module/src/c_detection_handler.cpp:33-39 | after every run the windows hold the altitudes handled last |
| FlightResults.VelocityIsLeastSquares | app/backplane/sensor_module/src/c_detection_handler.cpp:33-71 | after every run a barometer's velocity is the best fit to its last ten altitudes, and there is none if and only if they share one time |
| OpenRocket.FindBoundingPackets | drivers/sensor/openrocket/openrocket_sensors.c:70-97 | from every start inside the recording the scan ends and stays inside it; from an admissible one it returns neighbours around the time with their mix |
| OpenRocket.LocatedExactly | drivers/sensor/openrocket/openrocket_sensors.c:70-97 | a start is admissible if and only if the scan from it neither reads behind the last packet nor returns packets that are not around the time |
| OpenRocket.LerpIsLine | drivers/sensor/openrocket/openrocket_sensors.c:42-45 | the mix is in [0, 1] and interpolating with it gives the point on the line through both packets |
| OpenRocket.Fetch | drivers/sensor/openrocket/barometer/openrocket_barom.c:25-43 | the value fetched is that of the piecewise linear flight, whatever the hint |
| OpenRocket.BoundingIsFlight | drivers/sensor/openrocket/openrocket_sensors.c:70-97 | all admissible results for one time yield that value |
| OpenRocket.BoundingUnique | drivers/sensor/openrocket/openrocket_sensors.c:83-96 | the indices can differ only at the time of a packet, and then are next to each other |
| OpenRocket.FlightBetweenNeighbours | drivers/sensor/openrocket/openrocket_sensors.c:42-45 | a value lies between those of the two packets |
| OpenRocket.FlightAtPacket | drivers/sensor/openrocket/openrocket_sensors.c:42-97 | at a packet's time the value is the packet's |
| OpenRocket.ZeroAdmissible | drivers/sensor/openrocket/openrocket_sensors.c:70-80 | the hint 0 that all drivers pass is admissible |
| OpenRocket.EarlierLowerAdmissible | drivers/sensor/openrocket/openrocket_sensors.h:55-68 | the lower index of an earlier call is an admissible hint if and only if that call did not look past the end |

## Left out

- Horus.PacketCorruptedBeyond: full codewords only, because of a short last group it is not true
  (`GroupRecovery.FourErrorsHarmless`); the exact condition is `GroupRecovery.DecodedBodyExactly`.
- Horus.DamageDetected: bursts in the 30 bytes in front of the checksum, because across the border of the field it is not true
  (`PacketDamage.BurstIntoFieldMissed`); the exact condition is `PacketDamage.DamageExactly`.
- FlightResults.LandingAfterBoost: with a bound on how long after their time stamp readings are handled, which the
  source does not give; with readings handled at once it is the plain 25 s, and without a bound it does not hold
  (`FlightExample.LagMatters`).
- FlightRuns.RunKeeps: handling one set of readings, and each expiry, is one step. The source does not protect
  SubmitEvent against preemption, and its check-then-set could then post an event twice.
- The sensing tenant stops handling readings after ground hit; the runs here include those in which it does not.
- Golay.GetSyndrome: words of 23 bits, as all callers pass; negative `int32_t` arguments are not modelled.
- Interleaver.Interleave: at most 773 bits; past that the source reads beyond its prime table, and past 65535 it truncates the bit count to 16 bits.
- The zero-length payload needs a buffer from which the decoder may fetch one byte; it is covered on that condition.
- DetectionHandlers.DetectionHandler.HandleData: slopes, squares and thresholds over exact reals; floating-point rounding is not modelled, so neither is
  the drift of rolling sums.
- Inner loops that the source repeats (writing eleven or twelve bits, reading eleven bits, storing a pattern, a conditional
  report) are one helper method each; the conditional calls in HandleData are the methods WatchBoost, WatchNoseover and WatchGround.
- `asl_from_pressure` is an arbitrary function; its formula plays no part in the results.
- Zephyr: timers are reduced to "expires once, no earlier than due"; `WaitUntilEvent`, flight-log and LOG_ output are not modelled.
- `golay23_count_errors` names a variable that does not exist and has no caller.
- `or_get_time`, `or_random`, the event-log thread and the channel plumbing of the simulated sensors.
- Sensor, bus and socket drivers, TFTP, data logging, GNSS, tasks and tenants, the pad/flight/landed radio machine, CHashMap, MS5611
  compensation, Python tools and samples: plumbing, or code without an invariant worth stating.
