# Verification of TVTest DTV Video Decoder components

A Dafny 4.11 model of the parts of the TVTest MPEG-2 decoder filter (and of the DirectShow base
classes it ships with) whose correctness is not visible from one body: limb arithmetic, concurrent
protocols, surface and frame bookkeeping, pixel kernels with a fast and a simple form, and state
machines that run over whole streams. `dafny verify dfyconfig.toml` checks the whole project.

## How it is built

Code that updates objects or buffers in place is modelled as classes and array methods. Each such
method is proved equal to a function on the abstract state (`View() == F(old(View()))`, or the picture in
a plane equal to a function of the source picture), and the properties are then proved about those
functions, over every input and every run.

| file | component |
|---|---|
| `Words`, `Options`, `Counting`, `Planes` | machine words, missing values, cardinalities, byte planes and the pictures they hold |
| `MulDiv` | `llMulDiv` and `Int64x32Div32` on 128-bit and 96-bit limbs |
| `SampleList`, `Allocator`, `AllocatorProtocol` | the allocator's linked free list, its critical sections, and all their interleavings |
| `StrandedSleeper` | a run in which a semaphore unit is lost and a thread sleeps beside a free sample |
| `DynamicPin` | blocking of a dynamic output pin: the sections and all their interleavings |
| `SurfaceAcquisition` | decode-surface acquisition, composed with the allocator protocol |
| `FrameQueue` | the D3D11 frame ring |
| `SliceHeader`, `SliceBuffer` | what the decoders read of a slice header, through the 32-bit bit reader, and the slice buffer |
| `YadifPixel`, `YadifPlane`, `YadifWindow` | the Yadif pixel in scalar and SIMD form, its rows and planes, the three-frame window |
| `YadifLaws`, `YadifRuns` | what Yadif makes of three frames, in the bytes of the planes, and of three sources, in their pictures |
| `Blend`, `PixelCopy` | vertical blending, and planar and interleaved 4:2:0, each in scalar and in SSE2 form |
| `PopCount`, `Telecine` | the branch-free bit count; film and telecine detection |
| `CommandQueue` | the deferred-command queue |
| `DeinterlaceDXVA` | the DXVA deinterlacer's processor, opened anew for each size, its window of reference samples and surface pool |

Modelling decisions:

- Concurrency is a step relation over the shared state and one program counter per thread, with one
  step per critical section, wait or interlocked count. `CMediaSample::Release` is one step up to the
  call of `ReleaseBuffer`. A thread that asks for a block or uses the pin twice counts as two threads.
- Machine words are ranges of integers with every wrap-around written out, except in `PopCount`
  and `Telecine`, which use bit vectors. `Blend` defines the bitwise operations by binary digits, and
  `SliceHeader` takes a word as the sequence of its digits.
- SIMD code is modelled one lane at a time; mask operations are defined for all-ones and all-zeros masks.
  Whether SSE2 is enabled and a plane's pointers are aligned are inputs; the pitches are tested as the code does.
- `restrict` source buffers are read-only values where that loses nothing (`Blend`, `PixelCopy`, `Yadif*`).
- Device calls, clocks, allocation and the parser are inputs: whether a call succeeded, what time it is,
  which picture comes next.

Where the code and its documentation differ the code is followed:

- A quotient of `llMulDiv` whose magnitude lies in [2^63, 2^64) is not saturated but wraps
  (`ExactIffQuotientFits`, `QuotientGapWraps`); the comment at src/BaseClasses/arithutil.cpp:168 promises
  that overflow is caught.
- The allocator's header comment promises that waiting plus semaphore units equals the threads about to
  wait or waiting. Calls with `AM_GBF_NOWAIT` are counted as waiting and never wait, so they belong on the
  right-hand side. And `ReleaseSemaphore` fails without effect when the count would pass its maximum, while
  the waiters are forgotten all the same: the equation, with those calls added, holds in every state of a run
  if and only if no step of it loses units that way (`BalancedIffNothingLost`). `SleeperStranded` is a
  reachable state that the comment calls impossible: a thread asleep, no unit, and a free sample.
- After its undelivered frames are drained, the D3D11 ring delivers an old frame again exactly when more
  frames were shown than it holds (`DrainedRingRepeatsOldFrame`).
- `Yadif_Plane` reads outside a plane of one or two lines, and of no other (`LinesInside`); so a picture of
  two or four lines, whose chroma planes are that small, is outside `GetFrame`'s precondition.
- `BlendPlane` touches lines outside a plane of none or one line, and of no other (`BlendedLinesInside`): its
  loop bound wraps below zero. The chroma of a picture of two lines is such a plane.
- `GetCommandDueFor` reports VFW_E_NOT_FOUND when nothing is due, where the comment before it says E_ABORT.
- `GetFrame` of the Yadif deinterlacer shifts its window on every call, also on the second call that bob
  mode makes for the same source frame; results are therefore stated per call.

## Model

| member | source | states |
|---|---|---|
| `MulDiv.LlMulDiv` | src/BaseClasses/arithutil.cpp:77-241 | for all 64-bit a, b, c, d the 128-bit limb routine returns exactly `MulDivResult`: the signed quotient of abs(a*b+d) by abs(c) as a 64-bit word, or the signed extreme from 2^64 up and for c = 0 |
| `MulDiv.Int64x32Div32` | src/BaseClasses/arithutil.cpp:243-360 | the 96-bit limb routine returns the same `MulDivResult`, hence the same as `llMulDiv`, for every 64-bit a and 32-bit b, c, d |
| `MulDiv.ExactIffQuotientFits` | src/BaseClasses/arithutil.cpp:76-241 | the result is the truncated quotient if and only if that fits in 64 bits; it wraps in the gap up to 2^64 and saturates beyond |
| `MulDiv.QuotientGapWraps` | src/BaseClasses/arithutil.cpp:168-180 | 2^62 * 2 / 1 comes back as the most negative value |
| `MulDiv.DivisorZero` | src/BaseClasses/arithutil.cpp:168-180 | a zero divisor gives the signed extreme on the side of a*b+d, and for a zero dividend on the side of the product's signs |
| `MulDiv.LongMultiply` | src/BaseClasses/arithutil.cpp:88-108 | the four partial products, with their carries, are the exact 128-bit product |
| `MulDiv.AddLowLimbs` | src/BaseClasses/arithutil.cpp:131-145 | the two 32-bit additions with carry are one 64-bit addition and its carry |
| `MulDiv.ExtendAddend` | src/BaseClasses/arithutil.cpp:111-127 | the addend, negated for a negative product, as a 128-bit two's complement value |
| `MulDiv.NegateLimbs` | src/BaseClasses/arithutil.cpp:154-158 | complement and increment negate modulo 2^128 |
| `MulDiv.Dividend` | src/BaseClasses/arithutil.cpp:79-160 | after the signed addition the limbs hold abs(a*b+d) and the sign flag the sign of the result |
| `MulDiv.DivisionStep` | src/BaseClasses/arithutil.cpp:224-237 | one turn keeps "dividend times 2^i = quotient so far times divisor plus shifted limbs" and the top limb below the divisor |
| `MulDiv.LongDivision` | src/BaseClasses/arithutil.cpp:220-240 | 64 turns give the exact quotient whenever the top limb is below a divisor of at most 2^63 |
| `MulDiv.ShortDivision` | src/BaseClasses/arithutil.cpp:183-216 | two-digit division by a 32-bit divisor gives the exact quotient |
| `MulDiv.EnlargedUnsignedDivide` | src/BaseClasses/arithutil.cpp:24-37 | for every dividend and non-zero divisor the exact remainder and the quotient modulo 2^32, which is the whole quotient if and only if the dividend's high half is below the divisor |
| `MulDiv.TwoDigitDivide` | src/BaseClasses/arithutil.cpp:337-357 | the 96-bit dividend divided digit by digit |
| `SampleList.SampleList.Add` | src/BaseClasses/amfilter.h:1366-1372 | the linked list's contents gain the sample in front |
| `SampleList.SampleList.RemoveHead` | src/BaseClasses/amfilter.h:1373-1380 | the first sample is taken off; null exactly on an empty list |
| `SampleList.SampleList.Remove` | src/BaseClasses/amfilter.cpp:4991-5014 | a listed sample is unlinked wherever it stands and the others keep their order; an unlisted one changes nothing |
| `Allocator.BaseAllocator.GetBufferSection` | src/BaseClasses/amfilter.cpp:4731-4788 | refused, served from the list's head, or counted as waiting: one pass of the loop under the lock |
| `Allocator.BaseAllocator.ReleaseBufferSection` | src/BaseClasses/amfilter.cpp:4790-4841 | the sample goes to the list, waiters are notified, and the last return completes a deferred decommit |
| `Allocator.BaseAllocator.NotifySample` | src/BaseClasses/amfilter.cpp:4871-4878 | one semaphore unit per waiter, and none is counted as waiting afterwards |
| `Allocator.BaseAllocator.CommitSection` | src/BaseClasses/amfilter.cpp:4881-4917 | idempotent; cancels a pending decommit without allocating; otherwise allocates and takes its own reference |
| `Allocator.BaseAllocator.DecommitSection` | src/BaseClasses/amfilter.cpp:4920-4966 | frees at once when every sample is back, otherwise defers; wakes all waiters |
| `Allocator.BaseAllocator.AllocMemory` | src/BaseClasses/amfilter.cpp:5121-5230 | keeps the samples when nothing changed, otherwise replaces all of them |
| `Allocator.BaseAllocator.AllocHardware` | src/D3D11Allocator.cpp:39-159 | the same for surface samples, with every way creation can fail |
| `Allocator.BaseAllocator.Free` | src/D3D11Allocator.cpp:161-178 | the free list is emptied and no sample is left |
| `Allocator.BaseAllocator.SetPropertiesSection` | src/BaseClasses/amfilter.cpp:4662-4709 | the agreed properties, or the reason for refusing them, as `SetProperties` says; what those are is in the next two rows |
| `Allocator.AgreedAsRequested` | src/BaseClasses/amfilter.cpp:5097-5113 | of accepted properties count, alignment and prefix are the request's, and for surfaces the size too; a memory size is the least one, not below the request's, that makes a multiple of the alignment together with the prefix; nothing else changes but the mark that they did |
| `Allocator.RefusedProperties` | src/BaseClasses/amfilter.cpp:4675-4697 | a wrong alignment is told first, then a committed allocator, then outstanding buffers; a refusal changes nothing |
| `Allocator.FreshCommit` | src/BaseClasses/amfilter.cpp:4881-4917 | a fresh commit succeeds if and only if count, size and alignment are positive and the samples could be made; memory is kept when its properties are unchanged, surfaces are always made anew |
| `AllocatorProtocol.BalancedIffNothingLost` | src/BaseClasses/amfilter.h:1392-1426 | over every run from the start: waiting + semaphore + units lost = sleepers + timed-out calls; so the equation without losses holds at the end, and in every state on the way, if and only if no step of the run lost units |
| `AllocatorProtocol.StepBalance` | src/BaseClasses/amfilter.cpp:4871-4878 | one step of any thread changes that balance by exactly the units that did not fit into the semaphore |
| `AllocatorProtocol.LossNeedsManyWaiters` | src/BaseClasses/amfilter.cpp:4871-4878 | as long as nothing has been lost, a notification loses units if and only if sleepers and timed-out calls together exceed the semaphore's maximum |
| `AllocatorProtocol.NothingLostWithinMaximum` | src/BaseClasses/amfilter.cpp:4871-4878 | a run whose timed-out calls and threads stay within the maximum loses nothing |
| `AllocatorProtocol.NoLostWakeup` | src/BaseClasses/amfilter.h:1392-1426 | after every run: a non-empty list means nobody is counted as waiting; beside a free sample or after a decommit there are units for all sleepers if and only if no more units were lost than calls timed out; and then one that cannot wake is on a committed allocator with nothing free |
| `StrandedSleeper.SleeperStranded` | src/BaseClasses/amfilter.cpp:4871-4878 | a reachable state of a committed allocator with a free sample in which a thread sleeps and has no unit to take |
| `AllocatorProtocol.SamplesConserved` | src/BaseClasses/amfilter.cpp:4731-4841 | each live sample is on the list with count 0 or outstanding, never both; no two threads carry the same one; the count of samples is the allocator's |
| `AllocatorProtocol.FreedOnlyWhenAllBack` | src/BaseClasses/amfilter.cpp:4790-4966 | a step frees or replaces the samples only with every one back, and no other step takes one away or brings one |
| `AllocatorProtocol.DecommitCompletesOnLastReturn` | src/BaseClasses/amfilter.cpp:4800-4841 | a deferred decommit completes in exactly the step that returns the last sample |
| `AllocatorProtocol.SelfReference` | src/BaseClasses/amfilter.cpp:4790-4966 | committed and decommitting are never both set; the self-reference is 1 while either is, plus the releases still to be made outside the lock |
| `AllocatorProtocol.CommitCancelsDecommit` | src/BaseClasses/amfilter.cpp:4881-4917 | cancelling a decommit without `Alloc` leaves every sample where it is, and the samples are those agreed |
| `AllocatorProtocol.CommittedAsAgreed` | src/BaseClasses/amfilter.cpp:4662-4709 | while committed or decommitting `m_bChanged` is false and the samples have the agreed number and size |
| `AllocatorProtocol.SetPropertiesRefused` | src/BaseClasses/amfilter.cpp:4662-4709 | apart from a bad alignment, accepted if and only if not committed and every sample is back |
| `AllocatorProtocol.RunKeepsInvariant` | src/BaseClasses/amfilter.cpp:4731-4966 | every step of every thread keeps the protocol's invariant, over runs of any length |
| `AllocatorProtocol.ServedIffFree` | src/BaseClasses/amfilter.cpp:4731-4768 | a sample is handed out exactly while committed and beside a free one; a caller waits exactly while committed beside none; otherwise it is sent away |
| `AllocatorProtocol.LastReturnedFirstServed` | src/BaseClasses/amfilter.h:1366-1380 | the sample returned last is handed out next, by whichever thread, and the list is then as before |
| `AllocatorProtocol.LeftAfterDecommit` | src/BaseClasses/amfilter.cpp:4790-4966 | a completed decommit leaves a memory allocator all its samples and a surface allocator none |
| `DynamicPin.DynamicOutputPin.AsynchronousBlockOutputPin` | src/BaseClasses/amfilter.cpp:4071-4112 | refused while blocking or blocked, with the two reasons told apart; otherwise blocks at once or waits for the users |
| `DynamicPin.DynamicOutputPin.BlockOutputPin` | src/BaseClasses/amfilter.cpp:4114-4135 | blocked, event reset, handle signalled and closed |
| `DynamicPin.DynamicOutputPin.UnblockOutputPin` | src/BaseClasses/amfilter.cpp:4137-4165 | a pending request is cancelled and its handle signalled and closed; the event is set |
| `DynamicPin.DynamicOutputPin.StartUsingSection` | src/BaseClasses/amfilter.cpp:4167-4228 | one test of the loop under the lock: entered exactly when not blocked |
| `DynamicPin.DynamicOutputPin.StopUsingOutputPin` | src/BaseClasses/amfilter.cpp:4230-4247 | the last user completes a pending block |
| `DynamicPinProtocol.NeverBlockedWhileUsing` | src/BaseClasses/amfilter.cpp:4071-4254 | in every interleaving no thread uses a blocked pin, a pending block has a user to wait for, the event is set exactly when not blocked, and `AssertValid` holds |
| `DynamicPinProtocol.NotifiedExactlyOnce` | src/BaseClasses/amfilter.cpp:4114-4165 | each accepted request's handle is signalled and closed exactly once, unless its request is still pending |
| `DynamicPinProtocol.NotifiedWhenBlockedOrCancelled` | src/BaseClasses/amfilter.cpp:4114-4165 | and that in the very step that blocks the pin or cancels the request |
| `DynamicPinProtocol.NoForgottenWaiter` | src/BaseClasses/amfilter.cpp:4037-4228 | a thread that cannot go on waits for a pin that is blocked, or for a request still pending behind a user |
| `DynamicPinProtocol.EntersUnlessBlocked` | src/BaseClasses/amfilter.cpp:4167-4228 | a thread gets in unless the pin is blocked, also while a request is pending |
| `DynamicPinProtocol.UnblockLetsIn` | src/BaseClasses/amfilter.cpp:4137-4228 | after unblocking nothing is pending, and each waiting thread wakes and gets in |
| `DynamicPinProtocol.StopTurnsAway` | src/BaseClasses/amfilter.cpp:4167-4228 | the stop event turns a thread waiting for a blocked pin away |
| `DynamicPinProtocol.BlocksWhenUnused` | src/BaseClasses/amfilter.cpp:4071-4135 | an accepted request blocks an unused pin at once and a used one when its last user leaves; a refused one changes nothing |
| `DynamicPinProtocol.RefusalTellsWho` | src/BaseClasses/amfilter.cpp:4071-4090 | over any run without an unblocking every further request is refused, with the one reason for the thread whose request was accepted and the other for all others |
| `SurfaceAcquisition.TwoExtraRequestsSuffice` | src/Mpeg2DecoderDXVA2.cpp:474-503 | whatever surfaces come, as long as none is one the decoder holds, the third request succeeds and the surface taken differs from both references |
| `SurfaceAcquisition.BufferedByProtocol` | src/BaseClasses/amfilter.cpp:4731-4788 | the decoder's `GetBuffer` beside a free sample is the run begin, section, deliver of the allocator protocol: possible in every reachable quiet state, and its end is the head of the list taken with one reference |
| `SurfaceAcquisition.ReferencedByProtocol` | src/Mpeg2DecoderD3D11.cpp:449-508 | so is `AddRef`, as one step |
| `SurfaceAcquisition.ReleasedByProtocol` | src/BaseClasses/amfilter.cpp:4790-4841 | and `Release`, with the locked section when the count was 1 |
| `SurfaceAcquisition.NeverHeldByProtocol` | src/BaseClasses/amfilter.cpp:4731-4788 | however the requests of one acquisition fall between the steps of other threads, the allocator offers no surface that the decoder holds |
| `SurfaceAcquisition.AcquisitionByProtocol` | src/Mpeg2DecoderDXVA2.cpp:474-503 | so on an allocator with other users, too, the third request succeeds with a surface that is neither reference |
| `SurfaceAcquisition.OutstandingBound` | src/Mpeg2DecoderD3D11.cpp:449-508 | at each request at most 4 of the 8 samples are away, so a free one is there |
| `SurfaceAcquisition.D3D11Surfaces.AcquireSample` | src/Mpeg2DecoderD3D11.cpp:449-508 | the loop ends after at most three requests with a surface that is neither reference |
| `SurfaceAcquisition.D3D11Surfaces.RotateReferences` | src/Mpeg2DecoderD3D11.cpp:575-580 | the first reference becomes the second, and the reference counts stay exact |
| `SurfaceAcquisition.D3D11Surfaces.ReleaseSample` | src/Mpeg2DecoderD3D11.cpp:857-908 | releasing a shown picture's sample keeps the counts exact |
| `SurfaceAcquisition.D3D11Surfaces.DecodeFrame` | src/Mpeg2DecoderD3D11.cpp:449-580 | every call keeps the pointers' ownership; a fresh surface is neither reference nor held by another buffer; the shown buffer's sample is given back, the decoded buffer's stays unless it is the one shown, and the others are as before; references rotate exactly when the output view was to be had, for an I or P picture with output, also when the accelerator refused the picture |
| `SurfaceAcquisition.D3D11Surfaces.DecodeRun` | src/Mpeg2DecoderD3D11.cpp:449-580 | over any run of pictures: one gets a new surface if and only if its buffer was not decoded into since it was last shown; a new surface is that of neither of the last two I or P pictures and of no other buffer; otherwise the buffer's own surface is decoded into again |
| `SurfaceAcquisition.ShownBufferRefilled` | src/Mpeg2DecoderD3D11.cpp:857-908 | so the picture after one that shows its buffer gets a surface which is no reference |
| `FrameQueue.DecoderFrameQueue.GetDisplayFrame` | src/Mpeg2DecoderD3D11.cpp:857-911 | the frame goes to the current slot and the oldest slot comes back |
| `FrameQueue.DecoderFrameQueue.GetQueuedFrame` | src/Mpeg2DecoderD3D11.cpp:597-614 | the next filled slot is handed over and emptied |
| `FrameQueue.DecoderFrameQueue.SetFrameQueueSize` | src/Mpeg2DecoderD3D11.cpp:625-636 | a size above the maximum is refused; a new size clears the ring |
| `FrameQueue.DelayLine` | src/Mpeg2DecoderD3D11.cpp:857-911 | the ring of size N is an N-frame delay line: the k-th frame shown since a clear returns frame k - N, or nothing |
| `FrameQueue.ResizedStartsAfresh` | src/Mpeg2DecoderD3D11.cpp:625-636 | sizes above four are refused; a new size starts a delay line of that many frames that has seen none; the same size changes nothing |
| `FrameQueue.DrainOldestFirst` | src/Mpeg2DecoderD3D11.cpp:597-614 | after k frames the next min(k, N) calls deliver exactly the undelivered frames, oldest first |
| `FrameQueue.DrainedRingRepeatsOldFrame` | src/Mpeg2DecoderD3D11.cpp:597-614 | the call after that gives nothing if and only if k <= N, and otherwise the frame last shown |
| `SliceHeader.ReadHeader` | src/Mpeg2DecoderD3D11.cpp:793-816 | through the 32-bit bit reader, for every payload: the scale code is the five bits behind the optional extension, and the offset is that of the first bit after the terminating zero of the extra information, read as zeros past the end |
| `SliceHeader.BitReader.NeedBits` | src/libmpeg2/libmpeg2/mpeg2_internal.h:70-131 | the working word goes on holding the next unread bits of the stream, and zeros behind them |
| `SliceHeader.QuantizerScaleCode` | src/Mpeg2DecoderD3D11.cpp:793-805 | that code is the first byte's upper five bits, or its lower five behind the extension |
| `SliceHeader.OffsetBehindExtra` | src/Mpeg2DecoderD3D11.cpp:806-816 | in bits of the payload: the offset is the place behind the first clear bit in steps of nine |
| `SliceBuffer.SliceBuffer.AddSlice` | src/Mpeg2DecoderD3D11.cpp:773-832 | the buffer stays the concatenation of the accepted slices with their start codes and the table that of their descriptors, every field included; a refused slice changes nothing; growth keeps the earlier data |
| `SliceBuffer.DescriptorAt` | src/Mpeg2DecoderD3D11.cpp:773-832 | each descriptor locates exactly its slice's bytes in the stream |
| `SliceBuffer.DescriptorReads` | src/Mpeg2DecoderD3D11.cpp:786-832 | at each descriptor's location the data holds 0, 0, 1, the slice's code and its bytes, in as many bits as told; the vertical position is the code less one; sixteen times the macroblocks is the width; the scale code is the first byte's |
| `SliceBuffer.MacroblocksBegin` | src/Mpeg2DecoderD3D11.cpp:806-826 | the macroblock offset, counted from the location, is the bit behind the first clear extra-information bit, which is clear in the data there |
| `SliceBuffer.DescriptorsTile` | src/Mpeg2DecoderDXVA2.cpp:699-758 | the descriptors tile the data from 0 to its size without gap or overlap, in order |
| `PopCounting.PopCountExact` | src/Util.h:38-44 | for every 32-bit word the branch-free count is the number of set bits |
| `Telecine.FrameClassifier.SetFrameStatus` | src/TVTestVideoDecoder.cpp:350-385 | the frame's film status, history word, latest film frame, counter and mode follow the step function; nothing changes without flags |
| `Telecine.FrameClassifier.Reset` | src/TVTestVideoDecoder.cpp:301-312 | all history is forgotten |
| `Telecine.FilmStatus` | src/TVTestVideoDecoder.cpp:350-368 | a frame is film if and only if some frame started film and none since has ended it |
| `Telecine.FlagBits` | src/FrameBuffer.h:28-30 | the three flags are the bits 1, 2 and 3 of the frame's flags |
| `Telecine.HistoryCount` | src/TVTestVideoDecoder.cpp:370-374 | the population count of the history word is the number of film frames among the last 31 |
| `Telecine.TelecineCharacterised` | src/TVTestVideoDecoder.cpp:369-385 | the mode is on if and only if some frame was film with at least 10 film frames among its last 31 and no later frame came 180 frames after the latest film frame |
| `CommandQueue.CmdQueue.Insert` | src/BaseClasses/ctlutil.cpp:2225-2256 | the command goes behind everything not later and in front of everything later |
| `CommandQueue.CmdQueue.Remove` | src/BaseClasses/ctlutil.cpp:2259-2294 | the command is taken off its list, or not found |
| `CommandQueue.CmdQueue.PostponeCommand` | src/BaseClasses/ctlutil.cpp:2050-2076 | refused, not found, or requeued with the new time |
| `CommandQueue.CmdQueue.GetDueCommandTurn` | src/BaseClasses/ctlutil.cpp:2427-2478 | one turn of the loop returns the due command, or null where it waits |
| `CommandQueue.CmdQueue.GetCommandDueFor` | src/BaseClasses/ctlutil.cpp:2490-2541 | the first command due for a stream time, or null |
| `CommandQueue.AlwaysOrdered` | src/BaseClasses/ctlutil.cpp:2225-2294 | after any sequence of requests both lists stand in time order, first-in first among equals, each command once |
| `CommandQueue.PostponeExact` | src/BaseClasses/ctlutil.cpp:2050-2076 | the three outcomes with their exact conditions; on success only that command's entry changes, last in among its equals |
| `CommandQueue.DueCommandIsFirst` | src/BaseClasses/ctlutil.cpp:2427-2478 | returns at once if and only if some eligible command is due, and then a due one that no eligible command precedes in effective time |
| `CommandQueue.CommandDueForExact` | src/BaseClasses/ctlutil.cpp:2490-2541 | finds a command if and only if one of the three documented kinds is due, and the first of its list |
| `DeinterlaceDXVA.VideoDeinterlacer.GetFreeSurface` | src/Deinterlace_DXVA.cpp:614-630 | the first input surface that no reference sample uses |
| `DeinterlaceDXVA.VideoDeinterlacer.GetNextFrame` | src/Deinterlace_DXVA.cpp:423-612 | the processor, opened anew for another size and never again after a failure, the window, the frame numbers and the result of one call |
| `DeinterlaceDXVA.FreeSurfaceFound` | src/Deinterlace_DXVA.cpp:614-630 | with at most B + F samples held one of the B + F + 1 input surfaces is free |
| `DeinterlaceDXVA.EveryCallDelayed` | src/Deinterlace_DXVA.cpp:386-612 | over any calls, sizes changing at will: where there is a processor a free surface is always found; a frame comes out if and only if its input was stored, the look-ahead is filled and the blit worked; it carries the times stored F samples before and is aimed at that sample, shows the last B + F + 1 samples stored since the processor was opened, each with one frame number through all calls; the surfaces shown are distinct and none is the one drawn on |
| `DeinterlaceDXVA.StoredFromCalls` | src/Deinterlace_DXVA.cpp:423-480 | what is stored are, in order, the start, end and field order of the last calls of one size whose surface could be locked, in a processor made by the first of them |
| `DeinterlaceDXVA.FrameOfItsCall` | src/Deinterlace_DXVA.cpp:438-612 | read off those calls: a frame comes out exactly when the last one was stored, more than F were, and the blit worked; it carries the times of the call F back, and shows the last B + F + 1 with their times, field order and numbers |
| `DeinterlaceDXVA.ClosedIffFailed` | src/Deinterlace_DXVA.cpp:240-275 | after a call there is no processor if and only if some call that needed one could not open it |
| `YadifPixel.ScalarPixel` | src/Deinterlace_Yadif.cpp:53-98 | the nested ifs compute `Deinterlaced`: the best direction's prediction clamped around the temporal one |
| `YadifPixel.SimdPixel` | src/Deinterlace_Yadif.cpp:110-284 | one lane of the branch-free row computes the same value for every input, and the pack saturates nothing |
| `YadifPixel.StaysBetween` | src/Deinterlace_Yadif.cpp:91-98 | the tolerance is never negative and the result lies between the temporal and the spatial prediction, so it is a byte |
| `YadifPixel.DirectionImproves` | src/Deinterlace_Yadif.cpp:64-78 | the chosen direction ranks no worse than straight and both first neighbours |
| `YadifPixel.Check2` | src/Deinterlace_Yadif.cpp:149-159 | the mask and shift push a score out of reach exactly where the outer if was not taken |
| `YadifPixel.AverageDownIsFloor` | src/Deinterlace_Yadif.cpp:119-122 | the corrected rounding average of two bytes is the floor average |
| `YadifPlane.YadifRow` | src/Deinterlace_Yadif.cpp:41-106 | a row of deinterlaced pixels and nothing else written |
| `YadifPlane.YadifRowSimd` | src/Deinterlace_Yadif.cpp:161-284 | the same row, up to the next multiple of eight |
| `YadifPlane.YadifPlane` | src/Deinterlace_Yadif.cpp:301-352 | for every plane of at least three lines and both paths, every line of the result, the kept ones unchanged, and no byte changed outside the rows |
| `YadifPlane.KeptLinesUnchanged` | src/Deinterlace_Yadif.cpp:319-351 | lines of the kept parity are copied unchanged |
| `YadifPlane.PathsAgree` | src/Deinterlace_Yadif.cpp:301-352 | the scalar and SIMD paths give the same plane, except that in the two averaged lines the SIMD path may be larger by one |
| `YadifPlane.LinesInside` | src/Deinterlace_Yadif.cpp:319-351 | only lines inside the plane are read if and only if it has at least three |
| `YadifLaws.OuterLines` | src/Deinterlace_Yadif.cpp:319-351 | byte by byte: lines of the kept parity are the source's, outermost made lines copies of their neighbours, the next ones the means of theirs |
| `YadifLaws.MadePixel` | src/Deinterlace_Yadif.cpp:41-106 | byte by byte, for all other made lines: the mean along the direction that leads, as near as the leeway around the mean of the two nearest fields allows |
| `YadifLaws.OtherFieldUnused` | src/Deinterlace_Yadif.cpp:47-53 | of the frame before or after, whichever has not the nearest field, only kept lines count |
| `YadifLaws.ExtremumKept` | src/Deinterlace_Yadif.cpp:56-98 | a pixel that sticks out from its lines, with nothing beyond them, is moved by no more than the motion, and not at all without any |
| `YadifLaws.StillExtremum` | src/Deinterlace_Yadif.cpp:56-98 | a still vertical maximum comes through unchanged |
| `YadifWindow.CopyFrameBuffer` | src/Deinterlace_Yadif.cpp:354-363 | picture and attributes are copied whatever the two pitches |
| `YadifWindow.YadifDeinterlacer.TakeFrame` | src/Deinterlace_Yadif.cpp:393-428 | the window holds the latest three sources of one size, oldest first; a new size starts afresh; skip, pending and ok tell how many there are |
| `YadifWindow.YadifDeinterlacer.GetFrame` | src/Deinterlace_Yadif.cpp:393-449 | from the third source on the output is `Yadif_Plane` of the window's three frames on all three planes, and its kept lines and attributes are those of the last source but one |
| `YadifWindow.YadifDeinterlacer.DeinterlaceRun` | src/Deinterlace_Yadif.cpp:393-449 | over any run of sources of any sizes, all stored: the first of a size is skipped, the second pending, and from the third on a call shows the kept lines and the attributes of the source before, the other lines made from frames that show the last three in order |
| `YadifWindow.LastOfOneSizeRemembered` | src/Deinterlace_Yadif.cpp:397-428 | what is remembered of any run are the last sources of one size |
| `YadifWindow.FieldShown` | src/Deinterlace_Yadif.cpp:430-431 | of a frame with the top field first the even lines are shown, of another the odd ones, and in the second picture of a doubled frame the others, in all three planes |
| `YadifRuns.StillMaximumShown` | src/Deinterlace_Yadif.cpp:393-449 | told from the sources alone: between those lines a still maximum of the middle source comes through, compared with the source before, or after for the second picture of a doubled frame |
| `YadifWindow.OneSizeRemembered` | src/Deinterlace_Yadif.cpp:397-428 | over a run of one size no source is forgotten: what is remembered is every source in turn |
| `Blend.Average32Exact` | src/Blend.h:29-43 | the packed average of two words is the floor average of each of their bytes, with no carry between them |
| `Blend.WordAverage` | src/Blend.h:29-43 | the same for words of any number of bytes |
| `Blend.QuarterByHalves` | src/Blend.h:45-67 | averaging the outer rows and then the middle one is the 1-2-1 weighting, rounded down or up alike |
| `Blend.BlendRow2` | src/Blend.h:29-43 | floor averages over the width rounded up to four bytes |
| `Blend.BlendRow3` | src/Blend.h:45-67 | floor((above + 2 self + below) / 4) over the same span |
| `Blend.BlendRowSSE2` | src/Blend.h:71-227 | the rounded-up forms, over the width rounded up to sixteen bytes |
| `Blend.BlendPlane` | src/Deinterlace.cpp:34-83 | on either path the plane becomes the vertically blended picture and nothing else is written |
| `Blend.BlendedLinesInside` | src/Deinterlace.cpp:34-83 | only lines of the plane are touched if and only if it has two or more |
| `Blend.BlendedPixel` | src/Deinterlace.cpp:34-83 | every pixel of every width: 1-2-1 inside, the mean of the two outermost rows at the edges |
| `Blend.PathsDifferByOne` | src/Blend.h:29-227 | the SSE2 result is the scalar one or one more |
| `PixelCopy.CopyPlane` | src/PixelFormatConvert.cpp:26-53 | on the scalar path, on the SSE2 path row by row and in one go, the picture is copied and every byte outside the copied rows stays |
| `PixelCopy.UnpackedPairs` | src/PixelFormatConvert.cpp:106-150 | the two unpacked registers are the sixteen pairs interleaved |
| `PixelCopy.PackedHalves` | src/PixelFormatConvert.cpp:212-226 | masked and packed, two registers give their even bytes, and shifted first their odd ones; nothing saturates |
| `PixelCopy.InterleavedAt` | src/PixelFormatConvert.cpp:156-174 | the even bytes of an interleaved row are the first row's and the odd ones the second's |
| `PixelCopy.InterleaveRow` | src/PixelFormatConvert.cpp:96-174 | by 64 and 32 pairs and one by one, the row is interleaved and nothing else is written |
| `PixelCopy.SplitRow` | src/PixelFormatConvert.cpp:207-257 | by sixteen pairs and one by one, both rows are split off and nothing else is written |
| `PixelCopy.PixelCopyI420ToNV12` | src/PixelFormatConvert.cpp:77-184 | on every path: luma copied, chroma interleaved, bytes outside the rows unchanged; a bad size or missing plane is refused and writes nothing |
| `PixelCopy.PixelCopyNV12ToI420` | src/PixelFormatConvert.cpp:186-260 | luma copied, chroma split, with the same guarantees |
| `PixelCopy.RowRoundTrip` | src/PixelFormatConvert.cpp:162-174 | splitting an interleaved row gives back both rows |
| `PixelCopy.ChromaRoundTrip` | src/PixelFormatConvert.cpp:162-257 | splitting an interleaved plane gives back both planes, whatever the pitches |
| `PixelCopy.ThereAndBack` | src/PixelFormatConvert.cpp:77-260 | I420 to NV12 and back is the identity on all three pictures for every even size, all pitches and whichever path each copy takes |

## Left out

- `YadifPlane.YadifPlane`: planes of fewer than three lines, because lines outside the plane are read (`LinesInside`), and destination pitches below the width, whose rows overlap.
- `YadifWindow.YadifDeinterlacer.GetFrame`: pictures of two or four lines, once three sources are there, for the same reason.
- `Blend.BlendPlane`: planes of fewer than two lines, because lines outside the plane are touched (`BlendedLinesInside`), widths of zero, whose scalar rows run past the plane, and destination pitches below the width.
- `PixelCopy.CopyPlane`: negative pitches and destination pitches below the width, as everywhere: rows follow one another upwards and do not overlap.
- `PixelCopy.PixelCopyI420ToNV12`: planes that share one allocation, as everywhere: each plane is a buffer of its own.
- COM negotiation, registration, property pages, device creation and loss, and reconnection: they depend on foreign objects.
- The MPEG-2 parser and the accelerators: picture types, flags and decode results are inputs.
- Overflow of requested buffer sizes in 32 bits.
- Concurrency inside `CMediaSample::Release` between its interlocked decrement and the test of the result, and overflow of the 32-bit count of waiters.
- `CDynamicOutputPin` reconnection and format changes: only its blocking protocol is modelled.
- Failing texture copies in the D3D11 frame ring; the ring is modelled with texture operations succeeding.
- `FlushFrameQueue` (src/TVTestVideoDecoder.cpp:320-340), whose loop has no exit on an empty queue.
- The choice of a deinterlacing method per frame (src/TVTestVideoDecoder.cpp:387-413) and overflow of the 32-bit frame counter.
- `CCmdQueue::SetTimeAdvise`, the wait between the turns of `GetDueCommand`, reference counts of commands, invocation, and 64-bit overflow of times.
- The inline-assembly variant of `EnlargedUnsignedDivide` (src/BaseClasses/arithutil.cpp:39-63).
- The AVX2 blend rows, the ELA row, `BobPlane`, chroma upsampling and RGB conversion.
- The Yadif deinterlacer's internal frames are values, whose recycling is modelled as building the new contents from the old.
- The DXVA deinterlacer's choice of a video processor, and its fixed array of samples: the number of reference samples and the surfaces are what opening delivers.
- The UV colour table and the colour-adjustment setters (floating point).
