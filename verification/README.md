# Verified models of the renderer's hard parts

This project models five independent parts of the repository and proves what they are for. Each module follows one
source file or one protocol. Code that updates objects and buffers in place is modelled by classes, arrays and loops
whose contracts tie them to functions on values; code made of expressions is modelled by functions; protocols between
threads are modelled as state machines whose steps are the single actions of the threads. The theorems are lemmas
about those functions and machines, over all inputs, all runs and all reachable states. `Options` and `Sets` hold a datatype
and a lemma that several modules share.

* **The image convolver** (`PixelArithmetic`, `ConvolutionFilter`, `ConvolutionSpec`, `Convolver`, `SSE2`,
  `ConvolverSSE2`, `ConvolverSSE2Vertical`, `CircularRowBuffer`, `ImageConvolver`, `SingleChannelConvolver`).
  The streaming two-dimensional convolution writes exactly the bytes of a naive two-pass convolution, however scalar,
  SSE2 and four-row kernels are interleaved, and only those bytes. The reference knows neither the circular buffer, nor
  the flat store of trimmed taps, nor lanes.
* **Compositor and damage** (`Rects`, `DirtyRects`, `PartialRepaint`, `Compositor`, `CommitProtocol`).
  A partial repaint leaves the whole scene on the screen. As written, the code overwrites its newest history entry
  through a reference when a buffer is three or more frames old: an example run with three buffers shows a stale pixel,
  and two lemmas give the exact conditions under which no harm is done. The commit protocol is proved safe and free of
  deadlock for any number of threads.
* **Spatial navigation** (`FocusOrder`, `FocusSearch`, `ComponentTree`, `Mounting`, `Navigation`).
  The candidate search returns the unique best candidate; mounting keeps the candidate lists right, exactly under a
  condition on the parent; key presses only ever move the focus forward, and settle.
* **Step protocols** (`MountingProtocol`, `FollyTimer`, `TimingModule`, `ExpiringCache`).
  No posted transaction is lost. As long as the one-shot timer compares the time that remains in its own unit, no
  JavaScript timer is overslept and no cache entry outlives its timer; otherwise each step keeps them in time exactly
  under a stated condition.
* **DEPS rules** (`DepsRules`, `DepsBuilder`).
  Pruned rule lists answer like the whole log, and the memoised walk over directories answers like its recursive
  specification, whatever was asked before.

Where code and documentation disagree, or the code does less than it is meant to, the model follows the code:

* `Compositor.cpp:145-147` copies older history entries over the newest one (see above).
* `FollyTimer.cpp:169` divides the remaining time by 1000. The wheel timer's unit is not part of this model, so both
  readings are modelled. If it counts microseconds, the timers are always armed in time; if it counts milliseconds, a
  timer is often not brought forward. One condition on the state before rescheduling tells both apart, and every step of
  the JavaScript timers and of the cache that reschedules is in time exactly under it; examples show it fail when a timer
  is created, when timers are fired, and when an entry is stored.
* `convolver.cc:541-546` finds the middle of a trimmed kernel by a shortcut that is wrong for kernels such as
  0, 1/2, 1/2, whose output at one pixel is 0 where 100 is right. The two functions are proved to convolve with the
  kernel where the code places it; the kernel's zeros decide whether that is where it belongs, and the exact condition
  is a lemma about the kernel and one about the sums on all lines. Symmetric kernels of odd length always meet it.
* `MountingManager.cpp:35-36` reads and then writes two flags. With both halves in one step nothing is lost; with the
  halves apart a wake-up can be lost; the exact condition is a lemma about one step and one about whole runs.
* `RSkComponent.cpp:301-302` lists candidates in the direct parent when there is no ancestor container; a non-root
  parent in a detached fragment makes the fragment's root miss them; an example and the exact condition are lemmas.
* `builddeps.py:151` calls the source of the base directory's implicit rule "top level" only if its relative path is
  empty, which it never is: it is `.`.

## Model

| member | source | states |
|---|---|---|
| PixelArithmetic.ClampIsNearest | skia/ext/convolver.cc:20-28 | clamping gives the byte nearest to the sum |
| PixelArithmetic.ShiftedAndClamped | skia/ext/convolver.cc:34-39 | shifting a sum down and clamping gives its whole part: 0 for a negative sum, 255 from 256 on, and else the byte b with 16384 b <= sum < 16384 (b + 1) |
| ConvolutionFilter.TrimKeepsResponse | skia/ext/convolver.cc:282-322 | cutting zeros off a kernel, with the shifted offset, changes its dot product with no row |
| ConvolutionFilter.TrimIsTight | skia/ext/convolver.cc:285-311 | a trimmed kernel starts and ends with a non-zero tap, is empty only for all zeros, and trimming again changes nothing |
| ConvolutionFilter.AppendedKernel | skia/ext/convolver.cc:305-321 | appending a filter keeps all earlier kernels, the slices ordered, disjoint and contiguous, and `max_filter_` the longest trimmed length |
| ConvolutionFilter.ConvolutionFilter1D.NonZeroRange | skia/ext/convolver.cc:285-296 | the two scans find the first and the last non-zero tap |
| ConvolutionFilter.ConvolutionFilter1D.AddFilter | skia/ext/convolver.cc:282-322 | the object stands for one more kernel, the trimmed one, and all earlier ones are as they were |
| ConvolutionFilter.ConvolutionFilter1D.FilterForValue | skia/ext/convolver.h:110-120 | the slice handed out lies in the store and is the kernel of that output position |
| ConvolutionFilter.ConvolutionFilter1D.PaddingForSIMD | skia/ext/convolver.h:134-144 | eight zeros are appended, no kernel changes, and four taps can be loaded from anywhere in a slice |
| ConvolutionSpec.RowByteIsWholePart | skia/ext/convolver.cc:158-171 | a byte of the horizontal pass is the whole part, cut to a byte, of the fixed-point dot product of its kernel with its channel |
| ConvolutionSpec.ColumnByteIsWholePart | skia/ext/convolver.cc:204-217 | and a byte of the vertical pass that of the dot product down the column of such bytes |
| ConvolutionSpec.NaiveByteIs | skia/ext/convolver.cc:212-236 | of an output pixel the colours stay as they are, and alpha is the largest of its four bytes, or 255 without alpha |
| Convolver.AccumulatePixel | skia/ext/convolver.cc:146-159 | the channel sums of a pixel are the kernel's dot products with the four channels of the row |
| Convolver.ConvolveHorizontally | skia/ext/convolver.cc:131-172 | every computed byte of the row is the clamped fixed-point convolution, and no byte outside the row changes |
| Convolver.ConvolveVertically | skia/ext/convolver.cc:181-237 | every byte of the output row is the convolution down the stored rows, alpha raised to the largest colour or full |
| SSE2.ProductRebuilt | skia/ext/convolver_SSE2.cc:64-71 | high and low multiplication and unpacking rebuild the signed 32-bit product |
| SSE2.PackClamps | skia/ext/convolver_SSE2.cc:133-136 | signed and unsigned saturating packs together clamp to a byte |
| ConvolverSSE2.FourChannelSum | skia/ext/convolver_SSE2.cc:47-94 | one round adds the products of four taps to every channel's lane, modulo 2 to the 32 |
| ConvolverSSE2.ThreeChannelSum | skia/ext/convolver_SSE2.cc:100-128 | the masked last round completes the sum: taps behind the kernel's end contribute nothing |
| ConvolverSSE2.AccumulatePixel_SSE2 | skia/ext/convolver_SSE2.cc:35-128 | for every filter length the lanes hold the scalar kernel's four sums, modulo 2 to the 32 |
| ConvolverSSE2.ConvolveHorizontally_SSE2 | skia/ext/convolver_SSE2.cc:18-142 | writes the row that the scalar kernel writes, if the sums fit 32 bits |
| ConvolverSSE2.Convolve4RowsHorizontally_SSE2 | skia/ext/convolver_SSE2.cc:148-261 | writes four such rows at once and no byte outside them |
| ConvolverSSE2Vertical.AccumulateColumns_SSE2 | skia/ext/convolver_SSE2.cc:283-328 | sixteen lanes hold the column sums of four pixels for every filter length |
| ConvolverSSE2Vertical.AlphaTrick | skia/ext/convolver_SSE2.cc:345-365 | shifting and maximising gives max(alpha, b, g, r) as alpha and leaves the colours alone |
| ConvolverSSE2Vertical.ConvolveFourPixels | skia/ext/convolver_SSE2.cc:280-370 | four pixels of the output row are those of the scalar kernel |
| ConvolverSSE2Vertical.ConvolveRest | skia/ext/convolver_SSE2.cc:372-434 | the last one to three pixels are those of the scalar kernel |
| ConvolverSSE2Vertical.ConvolveVertically_SSE2 | skia/ext/convolver_SSE2.cc:270-435 | writes the output row that the scalar kernel writes, for every width, if the sums fit 32 bits |
| CircularBuffer.SlotsApart | skia/ext/convolver.cc:64-73 | rows at most a buffer's length apart never share bytes |
| CircularBuffer.CircularRowBuffer.AdvanceRow | skia/ext/convolver.cc:64-73 | hands out the slot of the next coordinate |
| CircularBuffer.CircularRowBuffer.GetRowAddresses | skia/ext/convolver.cc:81-104 | the unrolled list holds the rows in coordinate order |
| ImageConvolver.AvoidedRowsLeaveRoom | skia/ext/convolver.cc:437-447 | keeping back 1 + e / W rows leaves at least e pixels behind any earlier row |
| ImageConvolver.SimdRowInside | skia/ext/convolver.cc:437-447 | so no SIMD load of such a row leaves the source |
| ImageConvolver.FourRowsAdded | skia/ext/convolver.cc:461-468 | a batch of four overwrites no row that is still needed |
| ImageConvolver.GenerateRows | skia/ext/convolver.cc:456-490 | afterwards the buffer holds every row up to the window's end, batched or not, and none behind the last window was read |
| ImageConvolver.WindowIsStored | skia/ext/convolver.cc:495-503 | the addresses given to the vertical kernel are those of the window's rows, all still in the buffer |
| ImageConvolver.OutputIsReference | skia/ext/convolver.cc:505-515 | convolving buffered rows vertically gives the two-pass reference |
| ImageConvolver.ConvolveRows | skia/ext/convolver.cc:452-516 | the main loop writes all output rows and nothing else |
| ImageConvolver.BGRAConvolve2D | skia/ext/convolver.cc:382-517 | every output byte equals the naive two-pass clamped fixed-point convolution, for every choice of SIMD kernels; other bytes are untouched |
| ImageConvolver.TrimmedFiltersConvolveAlike | skia/ext/convolver.cc:282-322 | the reference image is the same for the kernels as given and as trimmed |
| SingleChannelConvolver.StaysInsideExactly | skia/ext/convolver.cc:553-596 | the three loops stay inside row and kernel if and only if the kernel has as many taps on both sides of its centre, up to the last one |
| SingleChannelConvolver.SymmetricKernelIsCentred | skia/ext/convolver.cc:541-546 | symmetric kernels of odd length are placed on their middle tap, whatever zeros were trimmed, and the loops stay inside every long enough line |
| SingleChannelConvolver.PlacedExactly | skia/ext/convolver.cc:541-546 | the code takes the middle tap for the centre if and only if a condition on the zeros at both ends holds |
| SingleChannelConvolver.FindsMiddleAtZero | skia/ext/convolver.cc:541-546 | for kernels at offset 0: the leading zeros are no third of the length, or halving leading and trailing zeros and rounding up gives the same |
| SingleChannelConvolver.SumsRightExactly | skia/ext/convolver.cc:541-596 | with loops that stay inside, the channel sums are those of clamp-to-edge convolution on every long enough line if and only if this condition holds |
| SingleChannelConvolver.MisplacedIsWrong | skia/ext/convolver.cc:541-596 | a misplaced kernel gets the sum of some line with a single pixel wrong |
| SingleChannelConvolver.OffCentreExample | skia/ext/convolver.cc:541-581 | the kernel 0, 1/2, 1/2 gives 0 at the middle pixel of the line 0, 0, 200, where 100 is right |
| SingleChannelConvolver.BroughtBack | skia/ext/convolver.cc:34-39 | without the switch for absolute values a negative sum becomes 0; with it, its magnitude, rounded up and cut to a byte; other sums become their whole part either way |
| SingleChannelConvolver.NegatedKernel | skia/ext/convolver.cc:34-39 | with the switch a kernel and its negative give bytes that differ by at most one at every pixel of every line; without it one of the two is 0 |
| SingleChannelConvolver.ConvolveLine | skia/ext/convolver.cc:553-596 | lead, main and tail loop together compute every pixel of a line, whenever they stay inside it |
| SingleChannelConvolver.LineSoFarIsClamped | skia/ext/convolver.cc:553-596 | what they compute is clamp-to-edge convolution with the kernel where the code places it |
| SingleChannelConvolver.SingleChannelConvolveX1D | skia/ext/convolver.cc:519-601 | every pixel of the channel is the clamp-to-edge convolution of its row with the kernel where the code places it; nothing is done for empty or too long kernels |
| SingleChannelConvolver.SingleChannelConvolveY1D | skia/ext/convolver.cc:603-682 | the same down the columns |
| SingleChannelConvolver.ColumnsAreTransposedRows | skia/ext/convolver.cc:603-682 | convolving columns is convolving the rows of the transposed image |
| DirtyRects.WindowDelegator.AddDirtyRect | ReactSkia/sdk/WindowDelegator.cpp:260-280 | one rectangle: the covered area grows by it, and no kept rectangle contains another |
| DirtyRects.WindowDelegator.GenerateDirtyRect | ReactSkia/sdk/WindowDelegator.cpp:259-281 | the covered area becomes the union with all given rectangles, and no kept rectangle contains another |
| DirtyRects.AddDamageRect | rns_shell/compositor/layers/Layer.cpp:23-43 | the list covers the union, and stays free of contained rectangles |
| Rects.ContainsExactly | ReactSkia/sdk/WindowDelegator.cpp:266-271 | a rectangle that is not empty contains another one exactly if it covers all of its pixels |
| PartialRepaint.UntouchedIsRight | rns_shell/compositor/Compositor.cpp:124-160 | a pixel outside the clip already has its colour in the back buffer |
| PartialRepaint.RepaintedExactly | rns_shell/compositor/Compositor.cpp:131-155 | what is repainted at each buffer age: the frame's damage and nothing else at age 1, the damage of the missed frames as well from 2 on, and everything for a new buffer or one older than the history |
| PartialRepaint.RememberedExactly | rns_shell/compositor/Compositor.cpp:242-249 | the history holds the last five damages in order |
| PartialRepaint.SoundFramesShowTheScene | rns_shell/compositor/Compositor.cpp:117-161 | with a sound history a partial repaint shows the whole scene, for every buffer age |
| PartialRepaint.ByValueStaysSound | rns_shell/compositor/Compositor.cpp:242-249 | the history stays sound if its entries are read by value |
| PartialRepaint.HarmlessStaysSound | rns_shell/compositor/Compositor.cpp:143-154 | and with the code as it is, if the overwritten damage is covered otherwise; ages up to 2 overwrite nothing |
| PartialRepaint.HarmlessExactly | rns_shell/compositor/Compositor.cpp:143-154 | this condition is exact: without it some images that fit the history make it unsound |
| PartialRepaint.SoundExactly | rns_shell/compositor/Compositor.cpp:117-161 | all legal next frames show their scene if and only if the history is sound |
| PartialRepaint.RunsShowTheirScenes | rns_shell/compositor/Compositor.cpp:117-249 | in every run of frames and buffer ages each frame shows exactly its scene |
| PartialRepaint.YoungBuffersShowTheirScenes | rns_shell/compositor/Compositor.cpp:117-249 | the code as it is does so from the start, whenever buffer ages are at most 2 |
| PartialRepaint.StalePixelExample | rns_shell/compositor/Compositor.cpp:143-154 | a run with three buffers in turn, of ages 0, 0, 0, 3, 3, leaves a stale pixel on the screen |
| Compositor.Compositor.Begin | rns_shell/compositor/Compositor.cpp:254-258 | drops the damage of the previous frame |
| Compositor.Compositor.BeginClip | rns_shell/compositor/Compositor.cpp:117-161 | the clip covers exactly the frame's damage and the missed frames', or everything; the swapped damage is the clip; the history is overwritten as described |
| Compositor.Compositor.AddMissedFrames | rns_shell/compositor/Compositor.cpp:143-155 | the aliasing loop adds the right entries and leaves the newest one overwritten |
| Compositor.Compositor.RenderLayerTree | rns_shell/compositor/Compositor.cpp:199-250 | is one step of the runs above |
| CommitProtocol.StepKeepsInv | rns_shell/compositor/Compositor.cpp:254-303 | every action of every thread and of the main loop keeps the protocol's invariant |
| CommitProtocol.EveryRunIsSafe | rns_shell/compositor/Compositor.cpp:254-303 | `Scheduled` holds exactly while one task is queued, running or about to be dispatched; changing and rendering the tree never overlap; idle and unlocked means all is rendered |
| CommitProtocol.StepShrinksWork | rns_shell/compositor/Compositor.cpp:260-303 | every step other than beginning and changing gets closer to the end |
| CommitProtocol.SomeStepIsEnabled | rns_shell/compositor/Compositor.cpp:260-303 | there is no deadlock |
| CommitProtocol.EverythingCanBeRendered | rns_shell/compositor/Compositor.cpp:260-303 | from every reachable state all changes get rendered if everybody finishes |
| MountingProtocol.StepKeepsInv | ReactSkia/MountingManager.cpp:30-46 | a transaction that is announced and not pulled always has somebody who will pull it |
| MountingProtocol.LateFollowUpExactly | ReactSkia/MountingManager.cpp:35-36 | with reading and writing apart, a follow-up is lost if and only if the loop has ended, no task is queued and something is left to pull |
| MountingProtocol.StepKeepsInvExactly | ReactSkia/MountingManager.cpp:30-46 | every other single step keeps the invariant |
| MountingProtocol.LateFollowUpRests | ReactSkia/MountingManager.cpp:35-36 | a follow-up that is too late leaves everything at rest with a transaction announced and not pulled |
| MountingProtocol.RunLosesNothingExactly | ReactSkia/MountingManager.cpp:30-46 | a run of single steps never loses a transaction if and only if every late follow-up is in time |
| MountingProtocol.NoTransactionIsLost | ReactSkia/MountingManager.cpp:83-105 | in every run with announcements in one step, a main loop at rest has pulled every announced transaction |
| MountingProtocol.AllArePulledInTheEnd | ReactSkia/MountingManager.cpp:83-105 | and from every reachable state it comes to rest |
| MountingProtocol.LostWakeUpExample | ReactSkia/MountingManager.cpp:102-103 | a run of single steps that loses a wake-up |
| FollyTimer.RescheduledNeverPostpones | ReactSkia/sdk/FollyTimer.cpp:80-117 | rescheduling never postpones what the timer was armed for |
| FollyTimer.TruncatedExactly | ReactSkia/sdk/FollyTimer.cpp:109 | a duration is armed in whole milliseconds, rounded down |
| FollyTimer.RescheduledIdle | ReactSkia/sdk/FollyTimer.cpp:80-117 | a timer that is not armed gets armed for the end of the duration, within a millisecond, or at once for durations below 1 |
| FollyTimer.RemainingExactly | ReactSkia/sdk/FollyTimer.cpp:168-172 | the code takes for the time that remains all of it if the wheel timer counts microseconds, and its thousandth part if it counts milliseconds |
| FollyTimer.RescheduledArmsExactly | ReactSkia/sdk/FollyTimer.cpp:80-117 | it arms the timer by the new time exactly if the duration is short, nothing is armed, it was armed by then, or the duration is less than what is taken for the time that remains |
| FollyTimer.MicrosecondsAlwaysArm | ReactSkia/sdk/FollyTimer.cpp:168-172 | if the wheel timer counts microseconds, this condition always holds |
| FollyTimer.RescheduledArmsNothingElse | ReactSkia/sdk/FollyTimer.cpp:103-114 | before the new time, the timer is armed exactly if it was |
| FollyTimer.CoarseRemainderExample | ReactSkia/sdk/FollyTimer.cpp:168-172 | a timer that is then armed too late |
| FollyTimer.Timer.Start | ReactSkia/sdk/FollyTimer.cpp:46-78 | schedules unless scheduled, at once for durations below 1 |
| FollyTimer.Timer.Reschedule | ReactSkia/sdk/FollyTimer.cpp:80-117 | the new state is that of the function the lemmas are about |
| FollyTimer.Timer.Abort | ReactSkia/sdk/FollyTimer.cpp:148-166 | only the scheduled time-out is gone |
| TimingModule.InsertCollects | ReactSkia/core_modules/RSkTimingModule.cpp:94-99 | inserting an expired timer at the lower bound keeps the report right: each once, in order of targets |
| TimingModule.FiredExactly | ReactSkia/core_modules/RSkTimingModule.cpp:119-130 | a firing leaves timers before their target alone, removes expired one-shots, and gives an expired repeating timer a target one duration from now, within a millisecond, and nothing else new |
| TimingModule.TargetDurationExactly | ReactSkia/core_modules/RSkTimingModule.cpp:75-77 | a request that took m milliseconds gets a target m earlier, but not before now |
| TimingModule.ArmedForEarliest | ReactSkia/core_modules/RSkTimingModule.cpp:139-145 | arming for the earliest target, at most a year ahead, arms in time for all timers, if the wheel timer counts microseconds |
| TimingModule.FiredInTimeExactly | ReactSkia/core_modules/RSkTimingModule.cpp:139-145 | in either unit, all timers are in time after a firing exactly under the condition of rescheduling, for the earliest target |
| TimingModule.ArmedExactly | ReactSkia/core_modules/RSkTimingModule.cpp:139-145 | an expired one-shot timer is armed for exactly that target, or at once |
| TimingModule.CreatedInTimeExactly | ReactSkia/core_modules/RSkTimingModule.cpp:68-85 | in either unit, all timers are in time after one is created exactly under the condition of rescheduling, for its target |
| TimingModule.OversleptExample | ReactSkia/core_modules/RSkTimingModule.cpp:68-85 | a timer of ten seconds and then one of five, which is then overslept |
| TimingModule.OversleptByFiringExample | ReactSkia/core_modules/RSkTimingModule.cpp:139-145 | timers all in time when they were created, one of which is overslept after a firing |
| TimingModule.HalfIsFired | ReactSkia/core_modules/RSkTimingModule.cpp:119-130 | restarting and erasing the reported timers one by one gives the timers after the firing |
| TimingModule.RSkTimingModule.CreateTimer | ReactSkia/core_modules/RSkTimingModule.cpp:47-66 | the timer map gains exactly the new timer, or the call is queued; the one-shot timer stays armed in time exactly under the stated condition |
| TimingModule.RSkTimingModule.CreateTimerForNextFrame | ReactSkia/core_modules/RSkTimingModule.cpp:68-85 | the target is corrected for the scheduling overhead |
| TimingModule.RSkTimingModule.ListExpired | ReactSkia/core_modules/RSkTimingModule.cpp:88-107 | finds exactly the timers due, in order, and the earliest of the others |
| TimingModule.RSkTimingModule.RestartOrErase | ReactSkia/core_modules/RSkTimingModule.cpp:119-130 | removes exactly the fired one-shots and moves repeating ones to now plus duration |
| TimingModule.RSkTimingModule.TimerDidFire | ReactSkia/core_modules/RSkTimingModule.cpp:87-146 | reports exactly the timers due, once each, in order of targets, and re-arms for the earliest remaining target, in either unit of the wheel timer |
| TimingModule.RSkTimingModule.TimeoutExpired | ReactSkia/sdk/FollyTimer.h:32-35 | a firing by the wheel timer re-arms it for exactly that target, in time for all timers in either unit |
| TimingModule.RSkTimingModule.RunTask | ReactSkia/core_modules/RSkTimingModule.cpp:148-153 | queued time-outs fire, queued immediate timers are reported |
| TimingModule.RSkTimingModule.DeleteTimer | ReactSkia/core_modules/RSkTimingModule.cpp:170-181 | only this timer is gone, and with the last one the one-shot timer |
| ExpiringCache.NotDueMeansFresh | ReactSkia/sdk/ThreadSafeCache.h:51-95 | while the timer is not due, nothing in the cache has expired |
| ExpiringCache.UnexpiredExactly | ReactSkia/sdk/ThreadSafeCache.h:56-66 | a sweep keeps exactly what expires later than now, as it is |
| ExpiringCache.StoredInTimeExactly | ReactSkia/sdk/ThreadSafeCache.h:81-94 | in either unit, the timer is armed in time for all entries after rescheduling for one exactly under the condition of rescheduling, for its expiry |
| ExpiringCache.SweptInTimeExactly | ReactSkia/sdk/ThreadSafeCache.h:67-69 | and after removing the expired ones exactly under it for the earliest expiry |
| ExpiringCache.LateExpiryExample | ReactSkia/sdk/ThreadSafeCache.h:90-94 | an entry of ten seconds and then one of five, for which the timer is then armed too late |
| ExpiringCache.ThreadSafeCache.GetCacheData | ReactSkia/sdk/ThreadSafeCache.h:42-49 | finds what is stored, which has not expired unless the timer is due, while the timer is armed in time |
| ExpiringCache.ThreadSafeCache.SetCache | ReactSkia/sdk/ThreadSafeCache.h:75-95 | stores or overwrites one entry; the deadline stays a lower bound of all expiries, and the armed time exactly under the stated condition, always if the wheel timer counts microseconds |
| ExpiringCache.ThreadSafeCache.EraseExpired | ReactSkia/sdk/ThreadSafeCache.h:52-66 | keeps exactly the unexpired entries and finds their earliest expiry |
| ExpiringCache.ThreadSafeCache.ExpiryTimerCallback | ReactSkia/sdk/ThreadSafeCache.h:51-73 | keeps exactly the unexpired entries and re-arms for their earliest expiry, but no later than the horizon |
| FocusOrder.BeforeIsStrictTotal | ReactSkia/core_modules/RSkSpatialNavigator.cpp:102-175 | the comparator is a strict total order on candidates with different tags, for each of the four keys |
| FocusOrder.ValidIsAhead | ReactSkia/core_modules/RSkSpatialNavigator.cpp:228-269 | a candidate is valid if and only if its edge is strictly ahead |
| FocusOrder.BestIsUnique | ReactSkia/core_modules/RSkSpatialNavigator.cpp:289-366 | there is at most one best candidate |
| FocusOrder.EligibleExactly | ReactSkia/core_modules/RSkSpatialNavigator.cpp:304-361 | which candidates count, edge by edge: others, visible, strictly ahead, and in the same rows or columns; for up and down also those wholly above or below |
| FocusOrder.BestIsNearest | ReactSkia/core_modules/RSkSpatialNavigator.cpp:128-156 | the best candidate is a nearest one: no candidate ahead has its edge closer |
| FocusOrder.BestIsOnTop | ReactSkia/core_modules/RSkSpatialNavigator.cpp:111-119 | of candidates with the same frame the best has the highest z-index, then the highest tag |
| FocusOrder.BestSideways | ReactSkia/core_modules/RSkSpatialNavigator.cpp:136-144 | left and right: of equally near candidates the best is the topmost, then the narrowest, then the lowest in height |
| FocusOrder.BestUpright | ReactSkia/core_modules/RSkSpatialNavigator.cpp:147-220 | up and down: of equally near candidates one that overlaps wins, then the leftmost, then the lowest in height, then the narrowest |
| FocusOrder.BestOfIsBest | ReactSkia/core_modules/RSkSpatialNavigator.cpp:289-366 | the one-pass reference finds a candidate better than all others, or there is none that is eligible |
| FocusOrder.OrderDoesNotMatter | ReactSkia/core_modules/RSkSpatialNavigator.cpp:309-361 | permuting the candidate list does not change the answer |
| FocusSearch.InsertKeepsSorted | ReactSkia/core_modules/RSkSpatialNavigator.cpp:304-305 | the sorted sets stay sorted |
| FocusSearch.PickIsBest | ReactSkia/core_modules/RSkSpatialNavigator.cpp:177-226 | the first of the two sorted sets that the rules choose is the best of all candidates |
| FocusSearch.FoundExactly | ReactSkia/core_modules/RSkSpatialNavigator.cpp:221-226 | a search finds the best candidate, and it finds none if that one's tag is -1 |
| FocusSearch.PickCandidateInDirection | ReactSkia/core_modules/RSkSpatialNavigator.cpp:177-226 | picks that one, unless its tag is -1 |
| FocusSearch.FindFocusCandidateInContainer | ReactSkia/core_modules/RSkSpatialNavigator.cpp:296-366 | returns the best eligible candidate of the list |
| ComponentTree.MountedStop | ReactSkia/components/RSkComponent.cpp:290-352 | mounting changes who keeps a component only for what the child kept and no longer keeps |
| ComponentTree.StopIsInnermost | ReactSkia/components/RSkComponent.cpp:345-352 | climbing ends at the innermost container at or above a component |
| ComponentTree.BroughtOnce | ReactSkia/components/RSkComponent.cpp:304-310 | a child brings itself and what it kept, each once |
| ComponentTree.MountKeepsLists | ReactSkia/components/RSkComponent.cpp:290-312 | under a good parent, containers and roots still list exactly once each focusable component they have to |
| ComponentTree.MountKeepsListsExactly | ReactSkia/components/RSkComponent.cpp:300-302 | the lists stay right if and only if the parent is a container, detached or below a container, or the child brings nothing |
| ComponentTree.BadParentExample | ReactSkia/components/RSkComponent.cpp:300-302 | three components mounted one under the other, the deepest last: the root misses it |
| ComponentTree.DepthsDoNotMatter | ReactSkia/components/RSkComponent.cpp:345-352 | who keeps a component depends on the parents alone |
| ComponentTree.EveryRunListsRight | ReactSkia/components/RSkComponent.cpp:290-312 | after every run of such mounts all lists of containers and roots are right |
| Mounting.RSkComponent.NearestAncestorContainer | ReactSkia/components/RSkComponent.cpp:345-352 | climbs to the first container above, or to null |
| Mounting.RSkComponent.MergeComponent | ReactSkia/core_modules/RSkSpatialNavigatorContainer.cpp:23-27 | appends the candidates and leaves the list they came from as it was |
| Mounting.RSkComponent.MountChildComponent | ReactSkia/components/RSkComponent.cpp:290-312 | is one mount of the runs above |
| Navigation.ListedIsBelow | ReactSkia/core_modules/RSkSpatialNavigator.cpp:408-412 | a container's candidates lie below it, so the descent ends |
| Navigation.BestInExactly | ReactSkia/core_modules/RSkSpatialNavigator.cpp:289-366 | a container's answer is a candidate it lists, visible in it, and better than all its other visible eligible ones |
| Navigation.TargetIsInnermost | ReactSkia/core_modules/RSkSpatialNavigator.cpp:408-414 | the descent goes from best candidate to best candidate and ends at one that is no container, or a container without a candidate |
| Navigation.DestinationIsInFirst | ReactSkia/core_modules/RSkSpatialNavigator.cpp:443-449 | the focus goes to the target in the first container on the way up that has a candidate |
| Navigation.HomeIsInnermost | ReactSkia/core_modules/RSkSpatialNavigator.cpp:430 | the focused component belongs to itself if it is a container, and else to the innermost container above it |
| Navigation.TargetIsAhead | ReactSkia/core_modules/RSkSpatialNavigator.cpp:368-416 | wherever the descent ends, the edge is strictly ahead of the focus |
| Navigation.PressMovesForward | ReactSkia/core_modules/RSkSpatialNavigator.cpp:438-451 | a key press that changes the focus moves left, right, bottom or top strictly in the key's direction |
| Navigation.PressStaysExactly | ReactSkia/core_modules/RSkSpatialNavigator.cpp:438-451 | the focus stays if and only if no container around it has a visible eligible candidate |
| Navigation.NeverComesBack | ReactSkia/core_modules/RSkSpatialNavigator.cpp:438-451 | presses of one key visit no component twice |
| Navigation.FocusSettles | ReactSkia/core_modules/RSkSpatialNavigator.cpp:438-451 | after at most as many presses as there are components the focus stays |
| Navigation.RSkSpatialNavigator.UpdateFocusCandidate | ReactSkia/core_modules/RSkSpatialNavigator.cpp:418-436 | focuses the candidate and the container it belongs to |
| Navigation.RSkSpatialNavigator.AdvanceFocusInDirection | ReactSkia/core_modules/RSkSpatialNavigator.cpp:368-416 | focuses the target of the descent, or changes nothing and says so |
| Navigation.RSkSpatialNavigator.NavigateInDirection | ReactSkia/core_modules/RSkSpatialNavigator.cpp:438-451 | is one key press of the lemmas above, and ends |
| DepsRules.UnderIsTransitive | buildtools/checkdeps/rules.py:40-48 | a directory covers what its subdirectories cover |
| DepsRules.MostRecentExactly | buildtools/checkdeps/rules.py:173-186 | the answer of a log, by position: the last addition for the regular expression that is about the path or a directory above it |
| DepsRules.ParseRuleString | buildtools/checkdeps/rules.py:64-85 | splits the kind off, and fails exactly for empty strings, unknown kinds and trailing slashes |
| DepsRules.FilterKeepsAnswers | buildtools/checkdeps/rules.py:162-165 | dropping the rules that a directory covers changes no answer outside it |
| DepsRules.PrunedAnswersLikeLog | buildtools/checkdeps/rules.py:139-186 | after any additions every list answers with the most recent covering addition of the unpruned log |
| DepsRules.EveryRuleAnswers | buildtools/checkdeps/rules.py:162-166 | and holds no rule that could not answer: each answers for its own directory |
| DepsRules.Rules.AddRule | buildtools/checkdeps/rules.py:139-171 | one addition to one list; a bad rule string changes nothing |
| DepsRules.Rules.RuleApplyingTo | buildtools/checkdeps/rules.py:173-186 | a matching specific rule beats any general one, and without either the answer is a message |
| DepsBuilder.UnderIsBelow | buildtools/checkdeps/rules.py:40-48 | a directory covers exactly itself and what lies below it, name by name |
| DepsBuilder.OwnLogSays | buildtools/checkdeps/builddeps.py:141-187 | a directory adds its implicit rule and then, in order, exactly what the strings of its DEPS file say, each for its own regular expression; temporary and specific ones are left out if they are ignored; an error exactly if a string is bad |
| DepsBuilder.RulesNeedAllAbove | buildtools/checkdeps/builddeps.py:338-379 | a directory has rules only if none on the way to it has an error or is skipped by its parent |
| DepsBuilder.FullLogStartsAt | buildtools/checkdeps/builddeps.py:259-268 | the additions that count are those from the last directory on the way that says `noparent` on, or from the base directory on |
| DepsBuilder.DirectoryAnswersLikeFullLog | buildtools/checkdeps/builddeps.py:124-268 | the general rules of a directory answer with the most recent covering one of these additions that has no regular expression, and each specific list with that for its own |
| DepsBuilder.SkippedExactly | buildtools/checkdeps/builddeps.py:270-283 | a directory is skipped if and only if one on the way to it is listed by its parent |
| DepsBuilder.PlainDirectoryInherits | buildtools/checkdeps/builddeps.py:254-268 | without a DEPS file a directory may include from itself and otherwise answers like its parent |
| DepsBuilder.AddedIsValid | buildtools/checkdeps/builddeps.py:277-283 | caching a directory and what it skips replaces no entry and keeps the cache right |
| DepsBuilder.DepsBuilder.ApplyRules | buildtools/checkdeps/builddeps.py:124-187 | a new object with the existing rules and the directory's own additions, or the first error; the existing rules are untouched |
| DepsBuilder.DepsBuilder.ApplyDirectoryRules | buildtools/checkdeps/builddeps.py:189-268 | the rules of the directory on top of its parent's, or of none |
| DepsBuilder.DepsBuilder.ApplyDirectoryRulesAndSkipSubdirs | buildtools/checkdeps/builddeps.py:270-283 | the cache gains exactly the directory and the subdirectories it skips, or nothing on an error |
| DepsBuilder.DepsBuilder.ApplyBaseDirectory | buildtools/checkdeps/builddeps.py:118-122 | the construction ends with a right cache, or with the error of the base directory |
| DepsBuilder.DepsBuilder.GetDirectoryRules | buildtools/checkdeps/builddeps.py:338-379 | equals the recursive specification whatever was asked before, replaces no cached entry, changes no cached rules, and the climb ends |

## Left out

- Convolver.AccumulatePixel: scalar sums are unbounded integers, because their overflow is undefined in the source; the SSE2 kernels wrap at 32 bits.
- ConvolverSSE2Vertical.ConvolveRest: the rest of one to three pixels sums a fourth, unused accumulator that the source does not have.
- ImageConvolver.BGRAConvolve2D: the MIPS and NEON kernels are not modelled, only that a platform may lack the four-row kernel; their results are taken to be those of the SSE2 kernels.
- SingleChannelConvolver.SingleChannelConvolveX1D: demands that the loops stay inside lines and kernel, because reading beyond them is undefined in the source; exactly when they do is a lemma.
- SingleChannelConvolver.SingleChannelConvolveY1D: the same.
- SingleChannelConvolver.SumsRightExactly: is about the sums before they are shifted; a misplaced kernel of small taps can still give the right bytes.
- DirtyRects.AddDamageRect: the source steps its iterator back when it erases, also at the beginning of the list, where that is undefined; the model steps back.
- Compositor.Compositor.RenderLayerTree: whether painting is needed is taken to be whether there is damage; the damage of pre-painting, the scene and the back buffer with its age are inputs.
- Compositor.Compositor.Begin: taking the lock is modelled by the commit protocol only.
- CommitProtocol.EveryRunIsSafe: changing the viewport's size, which commits without beginning, is not a step; without a window context nothing is rendered.
- MountingProtocol.NoTransactionIsLost: one coordinator; several surfaces are not modelled.
- FollyTimer.Timer.Start: the callback field, the repeat flag, the stored duration and repeating are not modelled; every timer here has a callback and none repeats.
- FollyTimer.Timer.Reschedule: the same.
- FollyTimer.Timer.Abort: the same.
- TimingModule.RSkTimingModule.CreateTimer: demands that the duration of a repeating timer is not negative, because its conversion to a whole number when it starts over is undefined in the source.
- TimingModule.RSkTimingModule.CreateTimerForNextFrame: the same.
- TimingModule.RSkTimingModule.TimerDidFire: one clock reading of whole milliseconds for a whole step, where the source reads the clock several times; JavaScript, the idle events and the missing bridge are not modelled.
- TimingModule.RSkTimingModule.DeleteTimer: demands that the one-shot timer exists when no timer is left, as the source does; calls still queued in a deleted timer are dropped.
- ExpiringCache.ThreadSafeCache.ExpiryTimerCallback: the source takes the current time and the horizon of one year from different clocks, so the horizon is any time.
- ExpiringCache.ThreadSafeCache.SetCache: whole steps under the lock; eviction by size is not modelled, because the size is never counted.
- FocusSearch.FindFocusCandidateInContainer: the first focus, when there is none, is not modelled.
- ComponentTree.EveryRunListsRight: unmounting and changes of focusability are not steps, because lists of other components are stale by design of the merge.
- Navigation.RSkSpatialNavigator.UpdateFocusCandidate: demands a candidate with a container around it, which all candidates of a container have.
- Navigation.RSkSpatialNavigator.NavigateInDirection: starts from a focus and its container; the first focus, when there is none, is not modelled.
- Navigation.RSkSpatialNavigator.AdvanceFocusInDirection: no container scrolls, so only visible candidates count; frames and visibility are inputs; focus and blur events are not modelled.
- DepsBuilder.DepsBuilder.GetDirectoryRules: paths are lists of names below the base directory, so relative and unnormalised paths and paths outside of it are not modelled; skipped subdirectories are single names.
- DepsBuilder.DepsBuilder.ApplyRules: contents of DEPS files are inputs; executing them, the file system and git are not modelled.
- Building kernels from floating-point numbers and Gaussian kernels.
- Drawing, fonts, GL, windows, networking, bridges and plugins.
- Walking a whole repository and printing rule tables in `buildtools/checkdeps`.
