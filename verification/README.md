# Verified models of the SDR libraries' data paths

This project models the parts of the SDR driver bundle in which a fast or stateful routine stands
for something simple, and proves that it does: the streaming IQ converters of libairspy and
libhydrasdr, the FFT of libairspyhf's IQ balancer, the sample ring between libusb and the consumer
thread, the sample pipeline of libiio (channel order, scan layout, sample conversion, mux and demux,
attribute blocks, format text, transfer cancellation) and the clock-chain search of libad9361-iio.
`dafny verify dfyconfig.toml` checks all of it.

| file | what it models |
|---|---|
| `ComplexNumbers.dfy`, `Fft.dfy` | the in-place FFT over exact complex numbers |
| `Queues.dfy` | the descending FIR queue and the delay line, shared by both converters |
| `ConverterFloat.dfy` | the floating-point converter over exact reals |
| `ConverterInt16.dfy`, `WrapFree.dfy` | the 16-bit converter with every truncation, and when none truncates |
| `SampleRing.dfy` | the ring fields and the protocol of callback, consumer and stopping thread |
| `Bytes.dfy`, `SampleBytes.dfy`, `SampleConversion.dfy` | byte swap, shift, mask and sign extension of samples |
| `ScanLayout.dfy`, `ScanWalk.dfy` | where samples lie in a buffer; the walk over them |
| `Mux.dfy` | reading and writing one channel of an interleaved buffer |
| `Reorder.dfy` | sorting the channels of a device |
| `AttrFraming.dfy` | blocks of attributes |
| `ScanFormat.dfy` | the text of a data format, printed and parsed |
| `UsbCancel.dfy` | cancelling a transfer from another thread |
| `ClockChain.dfy` | the AD9361 clock chain |
| `Powers.dfy`, `Callbacks.dfy`, `Errors.dfy` | powers of two, loops that call back, errno values |

A loop that works in place on an array is a method on an array, proved equal to a function of the old
contents; what is promised is then proved about that function. An object whose fields are updated is a
class. Threads are state machines whose steps are the stretches between two lock operations; what is
proved of them holds in every reachable state.

## What the proofs turned up

- The default 16-bit kernel is safe for raw samples up to 16383, not only up to the 13944 that bounding
  every tap on its own would give: the oscillator gives the two samples under a folded tap opposite
  signs, so the slowly moving DC estimate cancels (`WrapFree.NoWrapThreshold`, sharp in both directions).
- `iqconverter_int16_reset` clears half of the FIR queue. The rest is never read before it is written
  (`ConverterInt16.IqConverterInt16.Reset` establishes the invariant of a fresh converter). The same
  function in libairspy clears half of the delay line, too: it leaves a fresh converter if and only if the
  other half was clear already (`ConverterInt16.IqConverterInt16.ResetInLibairspy`).
- The folded branches of the float converter compute the dot product on every window if and only if the
  kernel is symmetric, and the generic one if and only if an odd last tap is zero
  (`ConverterFloat.FoldedExactly`, `ConverterFloat.ServedExactly`). `airspy_set_conversion_filter_float32`
  (libairspy/airspy.c:1705) lets any kernel through; one with the taps 1, 0, 0, 0 is an example
  (`ConverterFloat.UnservedKernel`).
- `iio_buffer_foreach_sample` agrees with `iio_buffer_first` and `iio_buffer_step` from the second sample
  on if and only if the sample size is a multiple of every enabled channel's sample length
  (`ScanWalk.SecondPassAgrees`). Whether the walk then also leaves the data is another question. It stays
  inside, whatever the data's length, if and only if no pass takes more than one sample size
  (`ScanWalk.InsideWhenSmall`, for any channel list); where every length divides the longest the second
  pass alone decides it (`ScanWalk.SecondPassDecides`). A 32-bit channel before a 16-bit one passes
  the end, where the unsigned distance no longer stops the loop (`ScanWalk.WalksPastTheEnd`); a 32-bit one
  between two of 16 bits disagrees and stays inside (`ScanWalk.DisagreesInside`).
- The same loop ends at all if and only if the walk reaches an enabled channel that is the last of its
  index: then every pass gets on, and otherwise none does and the first sample is called back for ever
  (`ScanWalk.MovesExactly`, `ScanWalk.RestsForEver`). A 16-bit word shared by two channels, of which only
  the first is enabled, is such a list, with a sample size of two (`ScanWalk.SharedWordRests`).
- Where channels share an index and the first of them is not enabled, `iio_buffer_first` leaves out the
  room that `iio_device_get_sample_size_mask` counts; in all other cases they agree
  (`ScanLayout.RulesAgree`, `ScanLayout.SharedSecond`).
- Sample conversion touches no byte outside the sample under a condition on the shift and one on the
  bits, not on their sum: bits + shift may exceed the sample
  (`SampleConversion.InsideExactly`); twelve bits in one byte reach outside
  (`SampleConversion.TwelveBitsInOneByte`).
- `local_buffer_analyze` reads beyond its input exactly when the padding of a frame other than the last
  sticks out at the end; that takes a block that is not made of whole words (`AttrFraming.Analyze`,
  `AttrFraming.RunsOverUnaligned`, `AttrFraming.FiveBytesRunOver`).
- `local_read_all_dev_attrs` puts a header outside its buffer exactly when some frame but the last ends,
  with its padding, behind the end (`AttrFraming.ReadAll`). Buffers of whole words, or too short for a
  header, are safe whatever the attributes are, and no others (`AttrFraming.OverrunExactly`).
- The drop counter accounts for every buffer exactly while no 2^32 buffers in a row are dropped, however
  long the session is (`SampleRing.DropsAccounted`).
- Format text loses nothing exactly for formats with a repeat count of at least one that are fully
  defined whenever bits equal length (`ScanFormat.RestoredExactly`).
- `usb_open` clears the cancelled flag before it finds the device open already, so even a failing second
  open undoes a cancellation: from every reachable cancelled state a later submission is possible if an
  open is, and only then (`UsbCancel.OpenDecides`).
- The clock chain's lower bound test lets 520833 through, for which the search then finds nothing
  (`ClockChain.Search.CalculateRfClockChain`).

## Model

| member | source | states |
|---|---|---|
| Fft.Fft | libairspyhf/iqbalancer.c:114-195 | for every power-of-two length and input, position k holds bin k + n/2 (mod n) of the discrete Fourier transform defined as a plain sum |
| Fft.StageCount | libairspyhf/iqbalancer.c:121-127 | the shift loop counts the stages |
| Fft.BitReversal | libairspyhf/iqbalancer.c:129-149 | the swap loop leaves the bit-reversed permutation of the buffer |
| Fft.NextReversed | libairspyhf/iqbalancer.c:140-148 | the carry loop terminates and takes reverse(i) to reverse(i+1) for every i below n-1 |
| Fft.RevInvolutive | libairspyhf/iqbalancer.c:131-149 | bit reversal undoes itself, so swapping each pair once is enough |
| Fft.RevEnds | libairspyhf/iqbalancer.c:129-131 | 0 and n-1 reverse to themselves (the loop may skip them) and 1 to n/2 (where the counter starts) |
| Fft.ButterflyStage | libairspyhf/iqbalancer.c:153-185 | one stage with the running twiddle u applies every butterfly of the stage once, with the power of r that belongs to it |
| Fft.HalfTurn | libairspyhf/iqbalancer.c:159-160 | r_1 = -1 and r_l squared = r_(l-1) make the l-th root's 2^(l-1)-th power -1 |
| Fft.DftSplit | libairspyhf/iqbalancer.c:162-185 | a transform of length 2h is the sum and difference of the transforms of the even and odd samples, with a twiddle |
| Fft.StagesComputeDft | libairspyhf/iqbalancer.c:151-186 | all stages applied to the bit-reversed input give the transform, for every length |
| Fft.SwapHalves | libairspyhf/iqbalancer.c:188-194 | the last loop exchanges the halves of the buffer |
| Queues.Advance | libairspy/iqconverter_float.c:388-392 | stepping down, or copying to the top on wrap, keeps the window of the newest n-1 samples and stays in bounds |
| Queues.DelayInterleaved | libairspy/iqconverter_float.c:420-443 | the odd samples come out delayed by the line's length; the line ends with the newest ones |
| Queues.StateCarries | libairspy/iqconverter_float.c:371-443 | queue window and delay ring that stand for the stream before a block stand for it after the block |
| Queues.BlockDelivered | libairspy/iqconverter_float.c:371-443 | from such a state a block becomes the filter's outputs at its place in the stream |
| Queues.SplitIndependent | libairspy/iqconverter_float.c:498-502 | a stream processed as two blocks or as one gives the same output |
| ConverterFloat.ProcessFirTaps | libairspy/iqconverter_float.c:117-229 | the unrolled loops are the plain dot product; an odd last tap is not used |
| ConverterFloat.AverageIsSum | libairspy/iqconverter_float.c:447-459 | a hundred times the running average is the sum of everything passed on so far, on every stream |
| ConverterFloat.ConstantDecays | libairspy/iqconverter_float.c:447-459 | of a constant input v, sample n is passed on as v times (99/100)^n |
| ConverterFloat.DecayBelow | libairspy/iqconverter_float.c:447-459 | that share is positive and at most 100/(100+n): the DC goes away |
| ConverterFloat.OscillatorIsPower | libairspy/iqconverter_float.c:483-490 | the oscillator is i to the power of n + 2 |
| ConverterFloat.FirOutput | libairspy/iqconverter_float.c:398-418 | for any kernel, the folded sum for 4, 8, 12 and 24 taps, else the dot product without an odd last tap; for the kernels of ServedExactly the dot product of all taps with the window |
| ConverterFloat.FirOutput4 | libairspy/iqconverter_float.c:231-260 | two pairs folded once, for any 4 taps; the dot product if they are symmetric |
| ConverterFloat.FirOutput8 | libairspy/iqconverter_float.c:262-293 | four pairs folded once, for any 8 taps; the dot product if they are symmetric |
| ConverterFloat.FirOutput12 | libairspy/iqconverter_float.c:295-328 | six pairs folded once, for any 12 taps; the dot product if they are symmetric |
| ConverterFloat.FirOutput24 | libairspy/iqconverter_float.c:330-369 | twelve pairs folded once, for any 24 taps; the dot product if they are symmetric |
| ConverterFloat.FoldedIsDot | libairspy/iqconverter_float.c:231-369 | for a symmetric kernel adding samples in pairs before multiplying changes nothing, at every depth of folding |
| ConverterFloat.FoldedExactly | libairspy/iqconverter_float.c:231-369 | for an even number of taps the folded sum is the dot product on every window if and only if the kernel is symmetric |
| ConverterFloat.ServedExactly | libairspy/iqconverter_float.c:398-418 | an output is the dot product on every window if and only if the kernel is symmetric, for the lengths that are folded, or has no odd last tap other than zero, for all others |
| ConverterFloat.UnservedKernel | libairspy/iqconverter_float.c:231-260 | the taps 1, 0, 0, 0 give 1 on a window where their dot product is 0 |
| ConverterFloat.RotatedIsProduct | libairspy/iqconverter_float.c:483-490 | negating and scaling by the centre tap is multiplication by -1, -j, 1, j in turn |
| ConverterFloat.RotatedEntry | libairspy/iqconverter_float.c:481-490 | in a block, every entry of a whole group of four is the product with the oscillator, and the centre tap on odd places; the entries behind stay |
| ConverterFloat.LanesAreConvolution | libairspy/iqconverter_float.c:461-496 | filtering the even lane and delaying the odd one is the complex half-band convolution, decimated by two |
| ConverterFloat.DefaultKernel | libairspy/filters.h:30-79 | the 47 default taps are symmetric and half-band with a centre of one half, and Process delivers their convolution |
| ConverterFloat.IqConverterFloat.constructor | libairspy/iqconverter_float.c:75-98 | for any kernel of odd length from 3 on, a new converter holds every other tap and stands for the empty stream |
| ConverterFloat.IqConverterFloat.Reset | libairspy/iqconverter_float.c:108-115 | the converter stands for the empty stream again |
| ConverterFloat.IqConverterFloat.RemoveDc | libairspy/iqconverter_float.c:447-459 | the block becomes the stream less its running average, across block borders |
| ConverterFloat.IqConverterFloat.Rotate | libairspy/iqconverter_float.c:481-490 | every sample is rotated by its place modulo four; the last samples of a block that is not whole groups of four stay as they are |
| ConverterFloat.IqConverterFloat.FirInterleaved | libairspy/iqconverter_float.c:371-418 | the even samples become the filter outputs, the queue window moves on by the block |
| ConverterFloat.IqConverterFloat.TranslateFs4 | libairspy/iqconverter_float.c:461-496 | rotation, filter and delay of one block of any even length, and the state they leave |
| ConverterFloat.IqConverterFloat.Process | libairspy/iqconverter_float.c:498-502 | blocks of any even lengths deliver the filter outputs and delayed samples of one signal, at their place in it; with whole groups of four and a kernel that allows it, output m of the stream is sum h[k] c[2m-k], with c the DC-free stream times the oscillator |
| ConverterInt16.DcStepExact | libhydrasdr/iqconverter_int16.c:171-179 | a step whose intermediate values fit their widths is the exact step |
| ConverterInt16.WrapsAround | libhydrasdr/iqconverter_int16.c:171-197 | values are cut to 16 and 32 bits modulo 2^16 and 2^32 |
| ConverterInt16.Conservation | libhydrasdr/iqconverter_int16.c:159-185 | 668 times the sum of outputs equals 32768 (x_N - x_0) + 32100 (y_0 - y_N) + e_0 - e_N over any run |
| ConverterInt16.DcInvariantKept | libhydrasdr/iqconverter_int16.c:171-179 | y - x stays within the amplitude and 0 <= e < 32768, so abs(y) is at most twice the amplitude; no value wraps up to 16383 |
| ConverterInt16.IqConverterInt16.constructor | libhydrasdr/iqconverter_int16.c:53-75 | a new converter holds every other tap and stands for the empty stream |
| ConverterInt16.IqConverterInt16.Reset | libhydrasdr/iqconverter_int16.c:85-94 | clearing half the queue is enough to stand for the empty stream |
| ConverterInt16.IqConverterInt16.ResetInLibairspy | libairspy/iqconverter_int16.c:83-92 | half of the delay line, in bytes, and half of the queue are cleared; the converter then stands for the empty stream if and only if the rest of the delay line was clear |
| ConverterInt16.IqConverterInt16.RemoveDcOnce | libhydrasdr/iqconverter_int16.c:171-179 | if nothing wraps, 2^15 y + e is 2^15 (x - old x) + old e + 32100 old y with 0 <= e < 2^15: what the shift cuts off is carried on, not lost |
| ConverterInt16.IqConverterInt16.RemoveDc | libhydrasdr/iqconverter_int16.c:159-185 | the block becomes the filter's outputs and the fields its last state |
| ConverterInt16.IqConverterInt16.Rotate | libhydrasdr/iqconverter_int16.c:191-197 | every sample of the block is negated or halved by its place modulo four, with 16-bit wrap-around |
| ConverterInt16.IqConverterInt16.Accumulate | libhydrasdr/iqconverter_int16.c:96-132 | the inner loop is the wrapping 32-bit dot product |
| ConverterInt16.IqConverterInt16.FirInterleaved | libhydrasdr/iqconverter_int16.c:96-132 | the even samples become filter outputs, the window moves on |
| ConverterInt16.IqConverterInt16.TranslateFs4 | libhydrasdr/iqconverter_int16.c:187-201 | rotation, filter and delay of one block |
| ConverterInt16.IqConverterInt16.Process | libhydrasdr/iqconverter_int16.c:203-207 | any stream in any split gives the filter outputs and delayed samples of the stream's two lanes |
| WrapFree.EvenTapsOfKernel | libhydrasdr/filters.h:85-134 | the taps the filter keeps of the default kernel |
| WrapFree.NoWrapIsExact | libhydrasdr/iqconverter_int16.c:96-207 | without wrap every output is the exact convolution, rounded down |
| WrapFree.SumModulo | libhydrasdr/iqconverter_int16.c:96-132 | with wrap-around the accumulator still has the low 32 bits of the exact sum |
| WrapFree.LanesAreConvolution | libhydrasdr/iqconverter_int16.c:96-201 | for a half-band kernel and without wrap, filter output and delayed sample are the real and imaginary part of the complex convolution of the DC-free stream times the oscillator with all taps, in units of 2^15, rounded down |
| WrapFree.ConvolutionDelivered | libhydrasdr/iqconverter_int16.c:203-207 | so every pair in a block that Process delivers is the value of that convolution at its place in the stream |
| WrapFree.DefaultHalfBand | libhydrasdr/filters.h:85-134 | the default kernel is such a kernel |
| WrapFree.PairBound | libhydrasdr/iqconverter_int16.c:96-207 | two even samples under one folded tap add up to no more than the raw difference and the drift between them |
| WrapFree.FoldedBound | libhydrasdr/iqconverter_int16.c:96-132 | so the inner part of the dot product stays within a sum over the pairs |
| WrapFree.FiltersFit | libhydrasdr/iqconverter_int16.c:96-132 | no partial sum of the accumulator leaves 32 bits and no output 16 bits, for amplitudes up to 16383 |
| WrapFree.NoWrapThreshold | libhydrasdr/iqconverter_int16.c:96-207 | with the default kernel no int16 or int32 value wraps on any stream bounded by B if and only if B is at most 16383 |
| WrapFree.FullSwingWraps | libhydrasdr/iqconverter_int16.c:172 | a step from -16384 to 16384 wraps |
| WrapFree.AccumulatedOutput | libhydrasdr/iqconverter_int16.c:159-185 | the sum of the blocker's outputs is bounded by the amplitude, whatever the length |
| WrapFree.SlowDrift | libhydrasdr/iqconverter_int16.c:159-185 | what the blocker adds to its input changes by at most 669 a sample |
| WrapFree.DefaultAbsSum | libhydrasdr/filters.h:85-134 | the even taps have absolute sum 38500 |
| SampleRing.Device.TransferCallback | libairspy/airspy.c:456-473 | the fields become the ring of the state after the protocol step, and the transfer goes on with the buffer that step gives it |
| SampleRing.Device.TakeOldest | libairspy/airspy.c:362-364 | the fields become the ring after the protocol step that takes a buffer; what it returns is what the consumer then holds |
| SampleRing.Device.FinishDelivery | libairspy/airspy.c:431-432 | the fields become the ring after the step that comes back for the lock: only now the count drops |
| SampleRing.AlwaysInv | libairspy/airspy.c:335-582 | the ring, mutex, buffer, reader, stop and history invariants hold in every reachable state |
| SampleRing.InvKept | libairspy/airspy.c:335-582 | every step of every thread keeps them |
| SampleRing.RingConsistent | libairspy/airspy.c:349-475 | head - tail is the count less one while the consumer is busy (mod 8), and slots and transfers are a permutation of the allocated buffers |
| SampleRing.ReaderUndisturbed | libairspy/airspy.c:362-432 | while the consumer reads outside the lock no step changes the buffer or takes it from its slot |
| SampleRing.DeliveredInOrder | libairspy/airspy.c:349-475 | the consumer has seen a prefix of the stored buffers, in order, each once, with their data and drop counts |
| SampleRing.Accounting | libairspy/airspy.c:456-473 | any history counts no buffer twice, and counts each if and only if no run of rejections takes the counter around |
| SampleRing.DropsAccounted | libairspy/airspy.c:442-475 | stored + reported drops + pending drops never exceed the completed buffers, and equal them if and only if no 2^32 in a row were dropped |
| SampleRing.SignalledConsumerStops | libairspy/airspy.c:515-538 | after the signal the consumer is not waiting, starts no delivery, and each of its steps nears its exit |
| SampleRing.SignalledConsumerNotStuck | libairspy/airspy.c:515-538 | and such a step is always possible, at most behind the callback's locked section |
| SampleRing.ConsumerServes | libairspy/airspy.c:347-360 | while the stream runs the consumer thread neither leaves nor has left; it waits only while the ring is empty |
| SampleRing.StoredIsDelivered | libairspy/airspy.c:347-433 | from every reachable state of a running stream, the consumer's own steps, behind at most the callback's locked section, lead to its callback having seen the oldest stored buffer |
| SampleRing.CompletionStored | libairspy/airspy.c:442-481 | a transfer that completes full while the stream runs becomes the newest entry with the pending drops, or the drop counter goes up when all eight places are taken; then it is in flight again |
| SampleRing.EntryDecides | libairspy/airspy.c:449-486 | while the stream runs exactly the full completions go on to the lock, the others stop the stream; afterwards all are ignored |
| SampleRing.StopRequested | libairspy/airspy.c:426-481 | a client that asks for it, and a transfer that cannot be submitted again, stop the stream; otherwise it goes on |
| SampleRing.StreamCanEnd | libairspy/airspy.c:515-538 | from every reachable state of a stream some run brings it to its end, with the threads gone and both flags down |
| SampleRing.StreamBegins | libairspy/airspy.c:540-582 | a stream starts with an empty ring, no drops and all transfers in flight |
| SampleRing.FirstDelivery | libairspy/airspy.c:347-582 | a session from the start: one buffer filled by the device, completed, stored, taken and seen by the client |
| SampleBytes.ShiftRightValue | libiio/channel.c:443-461 | the byte loop divides the little-endian value by 2^shift, rounding down |
| SampleBytes.ShiftLeftValue | libiio/channel.c:462-480 | the byte loop multiplies by 2^shift, modulo the width |
| SampleBytes.MaskedValue | libiio/channel.c:506-517 | masking is the remainder by 2^bits |
| SampleBytes.ExtendedValue | libiio/channel.c:483-495 | sign extension gives the two's complement value of the low bits |
| SampleBytes.ReversedValue | libiio/channel.c:431-436 | reversed bytes have the value of the other byte order |
| SampleConversion.ByteSwap | libiio/channel.c:431-436 | the destination gets the source bytes reversed, nothing else changes |
| SampleConversion.ShiftBits | libiio/channel.c:438-481 | in place, whole bytes then bits, in both directions |
| SampleConversion.SignExtend | libiio/channel.c:483-495 | in place, the sample and nothing else |
| SampleConversion.MaskUpperBits | libiio/channel.c:506-517 | in place, the sample is masked; nothing else changes unless the bits end inside a byte behind the sample |
| SampleConversion.ConvertSample | libiio/channel.c:531-548 | one sample of any format that stays inside it: swap, shift down, then extend or mask, in place in the destination |
| SampleConversion.InvertSample | libiio/channel.c:567-577 | one sample of any format whose shift stays inside it: mask, shift up, then swap, through the scratch buffer |
| SampleConversion.Convert | libiio/channel.c:520-550 | for every format no turn of which leaves the sample, each of the repeated samples becomes what it stands for in its byte order; the rest of the destination keeps its bytes, all of it where the loop has no turns |
| SampleConversion.ConvertInverse | libiio/channel.c:552-579 | the same for the inverse, sample by sample in the byte order of the format; nothing happens for samples above 1024 bytes |
| SampleConversion.ConvertedValue | libiio/channel.c:520-550 | converting is division by 2^shift, then masking or sign extension, of the value in the byte order of the format |
| SampleConversion.ConvertedMeaning | libiio/channel.c:520-550 | in full: the shifted value itself if fully defined, its low bits if unsigned, and if signed the signed number those bits are, in the width of the sample |
| SampleConversion.InvertedValue | libiio/channel.c:552-579 | in the byte order of the format, the inverse is the low bits times 2^shift modulo the width; nothing is cut off when bits + shift fit |
| SampleConversion.InsideExactly | libiio/channel.c:438-517 | one turn of the conversion loop touches only bytes of the sample if and only if the shift has no more whole bytes than the sample and, unless fully defined, the bits are from one to the sample's if signed, and do not end inside a byte behind it if not |
| SampleConversion.InsideInverseExactly | libiio/channel.c:552-579 | one turn of the inverse touches only the sample and its scratch buffer if and only if the shift has no more whole bytes than the sample and the bits do not end inside a byte behind the scratch buffer |
| SampleConversion.TwelveBitsInOneByte | libiio/channel.c:506-517 | twelve bits in an eight-bit sample mask the byte behind it |
| SampleConversion.HostRoundTrip | libiio/channel.c:520-579 | host to hardware and back gives the masked or sign-extended value |
| SampleConversion.HostRoundTripExact | libiio/channel.c:520-579 | byte for byte the same sample if and only if its value was normalised already |
| SampleConversion.RawRoundTrip | libiio/channel.c:520-579 | hardware to host and back keeps bits [shift, shift+bits) of the value in the byte order of the format and clears the others |
| SampleConversion.WriteThenRead | libiio/channel.c:520-579 | for any repeat count the group round trip is the round trip of each sample |
| SampleConversion.ReadThenWrite | libiio/channel.c:520-579 | and the raw group round trip is the raw round trip of each sample |
| SampleConversion.SampleOf | libiio/channel.c:520-579 | sample i of a converted group is sample i of the group, converted |
| ScanLayout.SampleSize | libiio/device.c:441-474 | for any list the sum with its alignment, a repeated index counted once as the code compares it; on an ordered list the end of the last enabled slot; a wrong number of mask words is -EINVAL |
| ScanLayout.BufferFirst | libiio/buffer.c:250-286 | for any list the offset the loop reaches, by its own rule for shared indices; on an ordered list the slot behind the channels before it, aligned; the end of the data for a channel that is not enabled |
| ScanLayout.SlotsApart | libiio/buffer.c:250-286 | slots are aligned and do not overlap, for every mask and repeat count |
| ScanLayout.SlotsInside | libiio/device.c:441-474 | every slot from iio_buffer_first lies inside the size from iio_device_get_sample_size_mask |
| ScanLayout.LayoutTight | libiio/device.c:441-474 | no room is lost: slot and group begin at the first multiple of their lengths behind what is used |
| ScanLayout.SharedOnce | libiio/device.c:461-464 | of two enabled neighbours that share an index only the first takes room |
| ScanLayout.RulesAgree | libiio/buffer.c:250-286 | with indices in order, size and first sample count shared channels alike if and only if each run of them begins with an enabled one |
| ScanLayout.SharedSecond | libiio/buffer.c:265-283 | if only the second of two such channels is enabled, the size has its room and the first sample of a later channel does not |
| ScanWalk.Pass | libiio/buffer.c:213-240 | for any list one pass calls back in order, stops at the first failing callback, and ends where the loop's own rule for repeated indices leaves it |
| ScanWalk.WalkTight | libiio/buffer.c:213-240 | a channel is called back at the first multiple of its length, and the walk goes on behind all its repeated samples, unless the next channel shares its index |
| ScanWalk.Foreach | libiio/buffer.c:194-243 | for any list and size: either it returns what the planned visits sum up to or the first failure, or it ends beyond the data, or it never ends, the last exactly for lists on which no pass gets on; on a regular layout always the first, with every whole sample visited; -EINVAL and 0 for the early exits |
| ScanWalk.MovesExactly | libiio/buffer.c:213-240 | every pass ends behind its start if and only if an enabled channel that the loop reaches is the last of its index; otherwise the pass from the first sample ends there |
| ScanWalk.RestsForEver | libiio/buffer.c:210-241 | on the other lists every pass begins at the first sample and makes the same calls |
| ScanWalk.SharedWordRests | libiio/buffer.c:210-241 | two channels on one index with the first enabled: the sample size is two, and each pass calls back for the sample at 0 and stays there |
| ScanWalk.VisitedExactly | libiio/buffer.c:194-243 | the plan of a regular walk holds first + t*step for every wanted channel and every whole sample t, and nothing else |
| ScanWalk.RegularPasses | libiio/buffer.c:210-241 | if the size is a multiple of every length each pass takes exactly one sample, and the walk's plan is that one |
| ScanWalk.PassAgrees | libiio/buffer.c:213-240 | a pass visits what first and step promise if and only if its start is a multiple of every enabled length |
| ScanWalk.SecondPassAgrees | libiio/buffer.c:194-291 | the first pass always agrees, the second if and only if the size is a multiple of every enabled length |
| ScanWalk.InsideWhenSmall | libiio/buffer.c:210-241 | for any list the walk stays inside data of every length if and only if no pass takes more than the size |
| ScanWalk.PassesAlike | libiio/buffer.c:213-240 | where every length divides the longest, all passes from the second on take the same number of bytes |
| ScanWalk.SecondPassDecides | libiio/buffer.c:210-241 | so there the walk stays inside if and only if the second pass does |
| ScanWalk.WalksPastTheEnd | libiio/buffer.c:210-241 | lengths 4 and 2: the second pass visits 8 and 12 and ends beyond the data, with the loop guard still true |
| ScanWalk.DisagreesInside | libiio/buffer.c:210-241 | lengths 2, 4 and 2: the second pass disagrees and ends at 18, and the walk stays inside |
| Mux.Write | libiio/channel.c:627-641 | the channel's slots get the converted groups, as many as both the buffer and the source have |
| Mux.Read | libiio/channel.c:596-610 | the converted groups of the slots, one behind the other; the rest of the destination keeps its bytes |
| Mux.CountMost | libiio/channel.c:596-641 | they stop after as many groups as both the buffer and the transfer have |
| Mux.WrittenValues | libiio/channel.c:627-641 | sample i of group k lies in the k-th step of the buffer, in the byte order, with the bits and at the shift of the format |
| Mux.ReadValues | libiio/channel.c:596-610 | sample i of group k read is what the k-th step of the buffer stands for |
| Mux.SlotRow | libiio/channel.c:596-641 | a channel's slots lie one sample size apart |
| Mux.OutsideKept | libiio/channel.c:627-641 | a byte in none of the channel's slots keeps its value |
| Mux.ReadBack | libiio/channel.c:596-641 | reading what was written gives every sample as the format carries it, for any number of samples |
| Mux.GroupsCarried | libiio/channel.c:596-641 | sample i of group k read back has the masked or sign-extended value of sample i of group k written, for any number of groups and repeats |
| Mux.OtherChannelKept | libiio/channel.c:596-641 | reading another channel gives what it gave before |
| Mux.ChannelsApart | libiio/buffer.c:250-286 | the layout keeps the slots of any two channels apart |
| Mux.MuxRoundTrip | libiio/channel.c:596-641 | a channel's samples come back whatever is written to the other channels afterwards; where the significant bits fit the sample each has the masked or sign-extended value of what was written |
| Mux.WriteAndRead | libiio/channel.c:596-641 | size, first sample, write and read, one routine after the other: the destination gets every whole group as the format carries it, value by value, the rest of it is kept, and every other channel reads as before |
| Reorder.ReorderChannels | libiio/context.c:308-337 | terminates with a sorted, stable permutation and number[i] = i |
| Reorder.Sweep | libiio/context.c:315-332 | a sweep either finds the list sorted or lowers the number of inversions |
| Reorder.OneInversionLess | libiio/context.c:321-331 | exchanging neighbours in the wrong order takes away exactly one inversion |
| Reorder.ExchangeRearranges | libiio/context.c:326-331 | and keeps the channels and the order of equal ones |
| Reorder.NeighboursSorted | libiio/context.c:315-333 | a sweep without an exchange has found the whole list sorted |
| Reorder.SortedMeans | libiio/context.c:321-331 | sorted means by index, and by rising shift on a shared index, with the channels without an index behind |
| Reorder.ReorderUnique | libiio/context.c:308-337 | there is only one sorted list that keeps equal channels in order |
| Reorder.UnindexedLast | libiio/context.c:321-326 | channels without an index come last, in their old order |
| Reorder.ReadyForLayout | libiio/device.c:456-457 | the result is in the order the layout loops rely on |
| AttrFraming.WriteEach | libiio/device.c:916-1003 | the block holds the frames of all values, padded to words; or the first error is returned, or a header is put where there is no room, whichever comes first |
| AttrFraming.SendFits | libiio/device.c:916-1003 | without errors the block is passed on if and only if the padded frames fit it |
| AttrFraming.SendDecided | libiio/device.c:916-1003 | the header without room comes first if and only if the values before the first error do not fit; otherwise the error is returned, or the block passed on |
| AttrFraming.FullThenEmpty | libiio/device.c:971-985 | a value as long as its room and an empty one behind it leave no room |
| AttrFraming.Analyze | libiio/local.c:565-591 | accepts exactly the well-formed blocks, and runs past the end exactly when padding sticks out before the last frame |
| AttrFraming.WellFormedFramed | libiio/local.c:565-591 | a well-formed block is the frames of its items |
| AttrFraming.FramedWellFormed | libiio/local.c:565-591 | the frames of some items are a well-formed block that decodes to them |
| AttrFraming.RunsOverUnaligned | libiio/local.c:580-587 | running past the end takes a length that is not a multiple of four |
| AttrFraming.FiveBytesRunOver | libiio/local.c:580-587 | and happens on five bytes |
| AttrFraming.WriteAll | libiio/local.c:593-638 | a well-formed block is consumed whole and every value written to its attribute; any other block writes nothing |
| AttrFraming.ReadAll | libiio/local.c:502-541 | for any length the block holds the frames of as many values as fit, but for padding behind its end; a header is put outside if and only if some frame but the last ends behind the end |
| AttrFraming.OverrunExactly | libiio/local.c:502-541 | no list of attributes puts a header outside if and only if the length is a multiple of four or below four |
| AttrFraming.ReadEach | libiio/device.c:860-914 | the callback sees every value of positive length in order, up to its first failure; a short block is -EPROTO |
| AttrFraming.SendAll | libiio/device.c:916-1003 | what write_each_attr sends is accepted by the local backend and decoded to the same values if all of them fit and none is an error; otherwise the first error is returned, unless the values before it do not fit |
| AttrFraming.FetchAll | libiio/device.c:821-914 | what the local backend sends is decoded by read_each_attr to the same values, or is -EPROTO if not all fitted |
| AttrFraming.HeaderRoundTrip | libiio/local.c:571-574 | big-endian headers carry every 32-bit length and error |
| AttrFraming.HeaderIsBigEndian | libiio/local.c:571-574 | a header has the highest byte first |
| AttrFraming.TwoFrames | libiio/local.c:565-591 | a value of two bytes and an error, byte by byte |
| AttrFraming.DeliveriesExactly | libiio/device.c:860-914 | what is handed on are the values of positive length, each with its attribute |
| AttrFraming.DeliveriesInOrder | libiio/device.c:860-914 | in the order of the attributes |
| AttrFraming.LastPaddingMissing | libiio/local.c:580-587 | missing padding behind the last value does no harm |
| ScanFormat.ScanElement.SetupFormat | libiio/xml.c:114-148 | the format fields after a scan, complete or not |
| ScanFormat.DecodedPrint | libiio/channel.c:242-248 | the printed text with its entities replaced, as section 4.6 of XML 1.0 has them |
| ScanFormat.ScanPlain | libiio/xml.c:114-143 | scanning that text yields both letters and all numbers |
| ScanFormat.FormatRoundTrip | libiio/channel.c:231-249 | printing, decoding and parsing restore the format for all values of 32 bits, up to repeat 0 and definedness |
| ScanFormat.RestoredExactly | libiio/xml.c:144-147 | nothing is lost if and only if repeat >= 1 and bits = length implies fully defined |
| ScanFormat.LettersMean | libiio/xml.c:138-147 | b is big-endian, s and S are signed, S and U fully defined |
| ScanFormat.StoredInOrder | libiio/xml.c:114-137 | bits, length, repeat and shift in this order; a scan that stops leaves the others |
| ScanFormat.PrintedLittle | libiio/channel.c:231-249 | twelve signed bits of sixteen, in full |
| ScanFormat.PrintedBig | libiio/channel.c:231-249 | three times twenty-four unsigned bits of thirty-two, big-endian, in full |
| ScanFormat.BlankBefore | libiio/xml.c:114-137 | a number may follow blanks |
| ScanFormat.SignBefore | libiio/xml.c:114-137 | and a sign, modulo 2^32 |
| ScanFormat.NoNumber | libiio/xml.c:114-137 | a text that does not go on as expected ends the scan |
| UsbCancel.IoContext.Cancel | libiio/usb.c:544-553 | the locked section as one protocol path: the recorded transfer is requested unless cancelled before, and whatever the I/O thread waits for is then requested |
| UsbCancel.IoContext.Begin | libiio/usb.c:611-643 | the locked section as one protocol path: -EBADF and no transfer on a cancelled context, else the transfer is on record exactly if libusb took it |
| UsbCancel.IoContext.End | libiio/usb.c:681-684 | the locked section as one protocol path, behind which the only step that still touches the transfer is its own release |
| UsbCancel.InvKept | libiio/usb.c:544-689 | lock, record and cancel invariants are kept by every step of every thread |
| UsbCancel.CancelSection | libiio/usb.c:544-553 | the canceller's three steps, uninterrupted, set the flag and request the recorded transfer |
| UsbCancel.BeginSection | libiio/usb.c:611-643 | the I/O thread's first locked section, uninterrupted, ends with the transfer on record or refused and freed |
| UsbCancel.EndSection | libiio/usb.c:681-684 | the second section, uninterrupted, takes the transfer off the record; behind it nobody else reaches the transfer |
| UsbCancel.NoMissedCancellation | libiio/usb.c:544-689 | in every interleaving a cancelled context has requested the transfer it waits for |
| UsbCancel.NoUseAfterFree | libiio/usb.c:544-689 | no thread hands libusb a freed transfer, and none is freed before it has completed |
| UsbCancel.FreedExactly | libiio/usb.c:611-686 | no transfer leaks: in every reachable state exactly the one in the call is not freed |
| UsbCancel.CallsEnd | libiio/usb.c:544-689 | from every state some run ends both calls, with the lock free and every transfer freed |
| UsbCancel.FailureCancels | libiio/usb.c:646-656 | when waiting for events fails the transfer is cancelled and waited for |
| UsbCancel.NoSubmitAfterCancel | libiio/usb.c:611-628 | after a cancel nothing is submitted until the next usb_open |
| UsbCancel.OpenDecides | libiio/usb.c:262-628 | from every cancelled state that keeps the invariants some run submits a transfer if it may open, and none does if it may not |
| UsbCancel.OpenUndoesCancel | libiio/usb.c:262-265 | from every cancelled state between calls, an open and two steps lead to submitting |
| ClockChain.CheckRates | libad9361-iio/ad9361_calculate_rf_clock_chain.c:44-59 | the rates of all stages, and whether they are within 320000000, 245760000 and 122880000 |
| ClockChain.DeterminePllDiv | libad9361-iio/ad9361_calculate_rf_clock_chain.c:61-75 | the largest power of two that puts the PLL in range, or -1 if there is none |
| ClockChain.PllReaches | libad9361-iio/ad9361_calculate_rf_clock_chain.c:61-75 | there is one for every converter clock |
| ClockChain.CheckDacAdcConfig | libad9361-iio/ad9361_calculate_rf_clock_chain.c:77-98 | the divider is 1 within the DAC's range, 2 above it in the first five rows |
| ClockChain.DividerRows | libad9361-iio/ad9361_calculate_rf_clock_chain.c:94 | divider 2 is never reached from row 4 on |
| ClockChain.RatesFit | libad9361-iio/ad9361_calculate_rf_clock_chain.c:44-59 | no rate exceeds 32 bits |
| ClockChain.ValidInterval | libad9361-iio/ad9361_calculate_rf_clock_chain.c:137-168 | for each row the data rates that pass all tests are one interval |
| ClockChain.FilterByFour | libad9361-iio/ad9361_calculate_rf_clock_chain.c:194-199 | some row is valid with FIR 4 exactly from the lowest rate to 30720000 |
| ClockChain.FilterByTwo | libad9361-iio/ad9361_calculate_rf_clock_chain.c:194-199 | where that fails some row is valid with FIR 2 exactly above 30720000 up to the highest rate |
| ClockChain.FilterChoice | libad9361-iio/ad9361_calculate_rf_clock_chain.c:183-200 | which of the three filter settings the search ends with, for every data rate |
| ClockChain.TransmitStages | libad9361-iio/ad9361_calculate_rf_clock_chain.c:100-123 | behind the DAC divider the last half-band stage that doubles has no effect on the transmit side, and every other stage multiplies as on the receive side |
| ClockChain.BestRatio | libad9361-iio/ad9361_calculate_rf_clock_chain.c:126-175 | which row is the fastest: the converter runs at 12, 8, 6 or 4 times the filter's input rate, the first of them that stays within 640000000; without 12 and 6 under the governor |
| ClockChain.Search.SetRates | libad9361-iio/ad9361_calculate_rf_clock_chain.c:100-123 | a faster configuration replaces the clocks, any other leaves them alone |
| ClockChain.Search.TryRow | libad9361-iio/ad9361_calculate_rf_clock_chain.c:154-168 | a row is installed exactly if it is valid and faster than what was found |
| ClockChain.Search.DeterminePathRates | libad9361-iio/ad9361_calculate_rf_clock_chain.c:126-175 | succeeds exactly if some row is valid, and then holds the fastest one |
| ClockChain.Search.CalculateRfClockChain | libad9361-iio/ad9361_calculate_rf_clock_chain.c:177-202 | succeeds exactly from 520834 (781250 with the governor) to 61440000, with FIR 4 up to 30720000 and 2 above; then all twelve clocks are given from the data rate alone, the PLL is at its fastest and the DAC within 25..320 MHz; a failure leaves the clocks alone |

## Left out

- IEEE rounding and the SSE branches of the float converter and the FFT: the models compute over exact reals.
- `cos` and `sin` in the FFT: the stage roots are a parameter with r_1 = -1 and r_l squared = r_(l-1).
- The five loops `fir_interleaved_4` to `fir_interleaved_generic` differ only in the expression for one output; the model has those five expressions and one loop that dispatches for each sample.
- ConverterFloat.IqConverterFloat.constructor: requires a kernel of odd length from 3 on (in the 16-bit converter, too), because of an even one the constructor reads a tap behind the end, and with a single tap the delay line is empty.
- ConverterInt16.IqConverterInt16.Process: requires blocks of whole groups of four samples, because the rotation loop of the 16-bit converter runs over the end of any other block. The float converter takes blocks of any even length; for an odd one its delay line runs over the end.
- The IQ balancer's window, power estimation and parameter search, which are heuristics over floating point.
- Start-up failures in `create_io_threads`, transfers submitted before the ring is reset there, completions of transfers libusb still holds after a stop, and the rings in hydrasdr.c and airspyhf.c, which repeat the one modelled. `kill_io_threads` clears its two flags in one step.
- Sample unpacking and conversion of raw samples in the consumer thread.
- SampleConversion.Convert: does not cover formats for which the code touches bytes outside the sample (`SampleConversion.InsideExactly` says which); nor does `SampleConversion.ConvertInverse` those whose shift has more whole bytes than the sample or whose bits end behind its scratch buffer. The two value round trips need bits + shift to fit the sample.
- Mux.WriteAndRead: leaves out formats that conversion takes outside the sample, and samples above 1024 bytes, of which a write stores nothing.
- Big-endian hosts in the sample conversion (marked untested at libiio/channel.c:497), and `iio_channel_read_raw` and `iio_channel_write_raw`, which copy.
- Callbacks that answer differently for the same sample: a callback is a function of what it is called with.
- How the three layout routines differ on channels that share an index or are out of order, beyond what each of them computes there; for repeat counts above one, which `iio_buffer_foreach_sample` aligns differently, the agreement results do not hold and are for repeat one.
- ScanWalk.Foreach: does not say what the loop does behind the end of the data, because that is outside the buffer.
- Overflow of 32-bit offsets and lengths in the layout and mux routines; buffer addresses are offsets below 2^64.
- AttrFraming.WriteEach: requires that each callback heeds the room it is told; what follows a header without room is outside the block and not modelled.
- AttrFraming.Analyze: does not cover blocks of 2 GiB and more, where rounding a length up leaves the signed 32-bit range.
- Numbers of more than 32 bits in the format text: `sscanf` leaves them undefined; the model takes them modulo 2^32. The `index` and `scale` attributes of a scan element, and locale handling.
- Failure of `libusb_alloc_transfer`, several I/O threads on one context (a lock of the layer above excludes them), and whether libusb acts on a cancel request.
- Device discovery, XML documents, the network backend and the iiod protocol, vendor control requests, and FIR design in libad9361-iio.
