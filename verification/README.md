# Verification model of the Kourier server library

Kourier is a C++ server library: an event loop with timers, signals and slots, buffered channels and an HTTP/1.1
layer. This project models its hardest parts in Dafny and proves what they are for.

- **Timers** (`Timer*.dfy`, `Sequences.dfy`). `TimerModel` holds the arithmetic of the seven hierarchical wheels as
  functions of one timer and of the clock. `TimerExactness` and `TimerRuns` prove that a timer neither gains nor loses
  time through any cascade in any run of the whole notifier, with the exact condition under which it does.
  `TimerNotifiers` and `TimerWheels` are the classes with their fields; every public operation refines one step of the
  run model and keeps the partition of the timers into slots and notify list (`TimerPlaces`). `TimerDrains` is the loop
  that notifies the listed timers while their slots start and stop timers, `TimerRepeats` follows repeating timers
  over any number of timeouts, and `TimerInstants` joins what a call of `start` leaves to the clocks. `TimerLists` is
  the intrusive list on the heap.
- **Bytes, ring buffer, channel** (`Bytes.dfy`, `RingBuffers.dfy`, `SimdIterators.dfy`, `IOChannels.dfy`). The ring
  buffer is a plain byte sequence through wrap-around, growth, shrinking and short reads and writes; 32-byte loads read
  it as if it were contiguous; a channel loses, repeats and reorders nothing.
- **Chunked messages** (`ChunkMetadata.dfy`, `ChunkParsers.dfy`, `ChunkStreams.dfy`). The vectorised chunk-header
  parser agrees with a byte-at-a-time reading on every input; the reading accepts exactly the headers; a decided
  outcome is final; a body is read to its end exactly if it has the form of one; and a printed message is recovered
  from any pieces it arrives in.
- **Responses and headers** (`HttpFields.dfy`, `HttpBrokers.dfy`, `HttpResponses.dfy`, `HttpExchanges.dfy`,
  `HttpFieldBlocks.dfy`). What is written over any calls is a sequence of responses, and a receiver reads exactly these
  back, with the exact condition on the texts; what it reads says what the calls were given; header lookups agree with
  the text although only sizes are kept.
- **Re-entrant dispatch** (`Objects.dfy`, `ReadyEvents.dfy`). Emission of signals and delivery of posted events, where
  slots and callbacks may do anything: what they do is a script, and the theorems hold for every script.
  `Objects.World` is what scripts change, and every emission on the heap is one of the emissions on these values.

What the surroundings decide is a parameter: clock readings, the bytes a source yields and a sink accepts on each
call (`limits`), the status line and date of a response, and whether the thread-local scratch buffer of
`RingBuffer::slice` exists (`hasScratch`).

Where the code departs from its own comments or documentation the model follows the code:

- The clamps at `Src/Core/TimerNotifier.cpp:87` and `:163` assign to a copy and change nothing. Intervals outside
  0..2^42 ms leave a timer active but in no list, except where the call keeps the timer in the slot it is in
  (`TimerRuns.LostExactlyOutsideTheRange`, `TimerRuns.KeptSlotOutsideTheRange`), and a sum above 2^42 ms drops the extra
  timeout, with the same exception (`TimerRuns.ClampedTimerLosesItsExtra`).
- A timer above 64 ms can fire up to a wheel period early when it is added long after the last tick.
  `TimerRuns.LossOf` is the time lost, computable before the call; it is zero up to 4033 ms and 64 ms in the witness at
  4034 ms. What a timer of at most 64 ms loses depends on when it first drops out of its slot
  (`TimerRuns.ShortTimerFiresOnTime`); it loses nothing in every run if and only if the time since the last
  high-resolution tick is at most 4096 ms (`TimerRuns.ShortTimerIsExactExactlyUpTo4096`).
- The chunk-header parser does not enforce the grammar of chunk extensions in its comment; it accepts any bytes but
  control characters. A malformed header can be answered with "needs more data" (`ChunkMetadata.DeadButNotRejected` says
  exactly when, `ChunkMetadata.DeadButNotRejectedExample` is one) and is rejected once two more bytes are there
  (`ChunkMetadata.DeadInputIsNeverAccepted`).
- An object that is destroyed while it emits tells the receivers of its dead connections, too, that it goes. Once an
  object is destroyed, exactly those emitting senders that it received from can no longer be destroyed without their
  destructor accessing it (`Objects.DestroyedReceiverIsStillTold`); `Objects.DestroyedReceiverExample` reaches such a
  sender by an emission whose slot destroys the receiver.
- The broker writes texts unchecked. `HttpResponses.ResponseIsReadBackExactly` is the exact condition under which the
  reader of `HttpResponses` reads a response back (it takes the first `Content-Length` and the first
  `Transfer-Encoding` there is, and compares the coding's name ignoring case; another reader may refuse a second one).
  `HttpResponses.SplitFieldExample` is a value that is read as two fields, and
  `HttpResponses.BodyAfterNoContentIsLeft` says that a body after such a status code is left as the start of the next
  message.
- `IOChannel::setReadBufferCapacity` leaves the read notification as it was
  (`IOChannels.IOChannel.SetReadBufferCapacity` says exactly when that is wrong until the next read,
  `IOChannels.StaleNotificationExample` shows both ways).
- A chunk of 2^48 bytes or more is printed but cannot be read back (`ChunkMetadata.PrintedHeaderIsReadBack`,
  `ChunkStreams.ChunkedMessageArrives`).

## Model

| member | source | states |
|---|---|---|
| TimerModel.WheelIdxMapEntries | Src/Core/TimerNotifier.cpp:111-117 | the 64-entry table maps a bit position to its sixth, at most 6 |
| TimerArithmetic.CountrZeroOfBitFloor | Src/Core/TimerNotifier.cpp:118 | trailing zeros of the bit floor are the binary logarithm, for every positive number |
| TimerArithmetic.PlacementIsTotal | Src/Core/TimerNotifier.cpp:148-167 | for every timeout from 1 to 2^42 the table picks a wheel that can take it, and wheel 0 exactly up to 64 ms |
| TimerArithmetic.WheelForIsLeast | Src/Core/TimerNotifier.cpp:166 | a timeout within a wheel's span is never put into a higher wheel |
| TimerArithmetic.TicksExactlyAtMultiples | Src/Core/TimerNotifier.cpp:173-188 | the trailing-zero table lets wheel i tick exactly when the counter is a multiple of 64^(i-1) |
| TimerArithmetic.ShiftsAndMaskRecompose | Src/Core/TimerWheel.h:42 | shift down, shift up and mask split a timeout without loss |
| TimerExactness.LinkingLosesOnlyTheOffset | Src/Core/TimerNotifier.cpp:145-168 | linking a timer in range always succeeds, and the time left differs from its timeouts only by the wheel's offset inside its period |
| TimerExactness.LowTickConserves | Src/Core/TimerNotifier.cpp:170-191 | a low-resolution tick lowers the time left of every timer in wheels 1 to 6 by exactly 64 plus its slip, whichever wheels tick and wherever the timer moves |
| TimerExactness.HighTickConserves | Src/Core/TimerNotifier.cpp:193-200 | a high-resolution tick lowers the time left of every timer in wheel 0 by exactly 1 plus its slip |
| TimerExactness.ReinsertionLosesOnlyTheSlip | Src/Core/TimerNotifier.h:55-64 | an expired timer is linked again with its remainder and extra timeout, less the offset of the new wheel |
| TimerExactness.FittingTimerNeverSlips | Src/Core/TimerNotifier.h:55-64 | a timer whose remainder fits its wheel slips nothing and fits again after every move |
| TimerRuns.TimersAreIndependent | Src/Core/TimerNotifier.cpp:79-200 | adding, stopping and delivering other timers never changes what happens to a timer |
| TimerRuns.RunConserves | Src/Core/TimerNotifier.cpp:170-200 | over every run, time counted by ticks plus time slipped plus time left is constant |
| TimerRuns.TicksComeInTwoPhases | Src/Core/TimerNotifier.cpp:170-200 | a run first counts every low-resolution tick only, then only high-resolution ticks, at most 64 of them |
| TimerRuns.AddedTimerHasItsIntervalLeft | Src/Core/TimerNotifier.cpp:84-127 | right after addTimer the time left is the interval plus the elapsed correction |
| TimerRuns.TimeLeftByClocks | Src/Core/TimerNotifier.cpp:89-110 | the time left after addTimer in terms of timer type, clock and the times of the last ticks: above 64 ms from the low-resolution tick, up to 64 ms from the high-resolution one while the ticker is on, none for coarse timers from 4096 ms on |
| TimerRuns.KeepingTheSlotIsReinserting | Src/Core/TimerNotifier.cpp:121-124 | the early return leaves the timer as removing and inserting it again would, if and only if the sum is not cut |
| TimerRuns.OnlyTheFirstDropSlips | Src/Core/TimerNotifier.h:55-64 | whatever a run of a timer in wheels 1 to 6 loses, it loses when the timer drops out of its first slot, by an amount known at that point, and before that it loses nothing |
| TimerRuns.NoLossWhenItFits | Src/Core/TimerNotifier.cpp:118-120 | an addTimer call loses nothing while the remainder and correction fit the wheel first chosen |
| TimerRuns.NoLossUpTo4033 | Src/Core/TimerNotifier.cpp:97-102 | a correction of at most 4033 ms never loses anything |
| TimerRuns.LossAt4034 | Src/Core/TimerNotifier.cpp:97-102 | a concrete call that loses 64 ms |
| TimerRuns.LongTimerFiresOnTime | Src/Core/TimerNotifier.cpp:79-200 | main result: in every run that leaves it alone, a timer above 64 ms is on the notify list if and only if N low-resolution and then M high-resolution ticks have been counted with 64N + M equal to interval plus correction less the loss; before that the count is below |
| TimerRuns.LongTimerDoesFire | Src/Core/TimerNotifier.cpp:170-200 | it is on the notify list once enough ticks of each kind have come |
| TimerRuns.ShortTimerFiresOnTime | Src/Core/TimerNotifier.cpp:79-200 | a timer of at most 64 ms is on the notify list if and only if the ticks counted are interval plus correction less the loss at its first drop in this run; there is none up to a correction of 4096 ms |
| TimerRuns.WheelZeroSlipsAtItsFirstDrop | Src/Core/TimerNotifier.h:55-64 | in every run a timer in wheel 0 loses what its first drop slips at the tick counter of that moment, and nothing before or after |
| TimerRuns.ShortTimerIsExactExactlyUpTo4096 | Src/Core/TimerNotifier.cpp:103-108 | a timer of at most 64 ms loses nothing in every run if and only if the correction is at most 4096 ms |
| TimerRuns.NominalFiringInstant | Src/Core/TimerNotifier.cpp:97-102 | in clock time, the nominal notification of a timer above 64 ms comes the interval after the call, less the loss and less under a millisecond |
| TimerRuns.AtMostSevenReinsertions | Src/Core/TimerNotifier.h:55-64 | after the first re-insertion the wheel index falls strictly, so a timer is inserted at most eight times |
| TimerRuns.LostExactlyOutsideTheRange | Src/Core/TimerNotifier.cpp:121-166 | a timer becomes active without being in any list if and only if its interval is negative or above 2^42 ms and it does not keep the slot it is in |
| TimerRuns.KeptSlotOutsideTheRange | Src/Core/TimerNotifier.cpp:121-124 | a concrete restart with an interval above 2^42 ms that keeps its slot |
| TimerRuns.ClampedTimerLosesItsExtra | Src/Core/TimerNotifier.cpp:121-165 | a sum above 2^42 ms costs the timer its whole extra timeout, unless it keeps its slot; then it keeps the correction, or is in no list after its first drop if more than 2^42 ms are left there |
| TimerPlaces.LinkInSlot | Src/Core/TimerWheel.cpp:32-44 | pushing a timer into a slot keeps every timer in exactly the list its place names |
| TimerPlaces.UnlinkFromSlot | Src/Core/TimerWheel.cpp:46-58 | removing it keeps the partition, and it is in no list |
| TimerPlaces.InOneListOnly | Src/Core/TimerNotifier.cpp:130-143 | under the partition a timer is in no two lists |
| TimerLists.TimerList.PushFront | Src/Core/TimerList.cpp:40-56 | the linked list becomes the timer followed by the old sequence |
| TimerLists.TimerList.PushFrontAll | Src/Core/TimerList.cpp:58-77 | splicing puts the other list's timers, in order, in front, and empties the other list; nothing happens for the list itself |
| TimerLists.TimerList.Remove | Src/Core/TimerList.cpp:79-105 | the list is the old sequence without the timer, well linked, in all three branches |
| TimerLists.TimerList.PopFirst | Src/Core/TimerList.cpp:107-125 | the first timer leaves with cleared links; an empty list gives none |
| TimerLists.TimerList.Swap | Src/Core/TimerList.cpp:24-38 | two lists exchange their sequences |
| TimerLists.TimerList.Clear | Src/Core/TimerList.h:40 | popping ends with an empty list |
| TimerLists.PushFrontInFamily | Src/Core/TimerList.cpp:40-56 | in any set of lists that share no timer, pushing one that is in none leaves all lists well linked and apart, and every other list as it was |
| TimerLists.RemoveInFamily | Src/Core/TimerList.cpp:79-105 | removing a timer from its list leaves all lists of the set well linked and apart, the others as they were, and the timer in none |
| TimerLists.PushFrontAllInFamily | Src/Core/TimerList.cpp:58-77 | splicing one list of the set into another does the same |
| TimerWheels.TimerWheel.AddTimer | Src/Core/TimerWheel.cpp:32-44 | the timer goes to the slot its timeout names, the count follows, or nothing changes if it cannot be added |
| TimerWheels.TimerWheel.RemoveTimer | Src/Core/TimerWheel.cpp:46-58 | the timer leaves its slot and forgets wheel and slot, or nothing changes |
| TimerWheels.TimerWheel.Tick | Src/Core/TimerWheel.cpp:60-74 | exactly the timers of the due slot come out, masked to their remainder, and the count follows |
| TimerNotifiers.TimerNotifier.constructor | Src/Core/TimerNotifier.cpp:52-72 | a new notifier has seven empty wheels and no timer |
| TimerNotifiers.TimerNotifier.AddTimer | Src/Core/TimerNotifier.cpp:79-128 | for any interval and clock readings the timer's new value is that of the arithmetic model and every invariant holds; in range it then is in the wheel for its interval with the interval and what the clock is ahead of the tick of that wheel left, read off the clocks alone |
| TimerNotifiers.TimerNotifier.RemoveTimer | Src/Core/TimerNotifier.cpp:130-143 | the timer is stopped and in no list, and the ticker runs exactly while wheel 0 holds a timer |
| TimerNotifiers.TimerNotifier.AddAdjustedTimer | Src/Core/TimerNotifier.cpp:145-168 | the timer's new value is that of the arithmetic model, also where the insertion fails and its result is ignored |
| TimerNotifiers.TimerNotifier.ProcessExpiredTimers | Src/Core/TimerNotifier.h:55-64 | every expired timer is re-inserted as in the arithmetic model, no other timer changes |
| TimerNotifiers.TimerNotifier.OnLowResolutionTick | Src/Core/TimerNotifier.cpp:170-191 | refines the low-resolution step of the run model for all timers at once; partition, counts, ticker and wakeup invariants hold |
| TimerNotifiers.TimerNotifier.OnHighResolutionTick | Src/Core/TimerNotifier.cpp:193-200 | refines the high-resolution step of the run model; the ticker's time goes on by a millisecond, unless the ticker was switched on again during the tick |
| TimerNotifiers.TimerNotifier.Start | Src/Core/TimerPrivate_epoll.cpp:67-71 | refines the start step of the run model, for any interval, and leaves that time |
| TimerNotifiers.TimerNotifier.Stop | Src/Core/TimerPrivate_epoll.cpp:73-76 | refines the stop step: a stopped timer is in no list, so it is not notified |
| TimerNotifiers.TimerNotifier.SetInterval | Src/Core/TimerPrivate_epoll.cpp:54-65 | restarts an active timer and only stores the interval of an inactive one |
| TimerNotifiers.TimerNotifier.BeginNotifyTimers | Src/Core/TimerNotifier.cpp:227-241 | a drain that is running is not entered again |
| TimerNotifiers.TimerNotifier.NotifyNextTimer | Src/Core/TimerNotifier.cpp:242-246 | refines the delivery step: the first timer of the notify list stops and starts again unless it is single shot or of 0 ms; the list is then exactly the rest of it, so one shorter; a timer that starts again has its whole interval left, any other is in no list |
| TimerDrains.NotifyTimers | Src/Core/TimerNotifier.cpp:236-248 | main result: whatever finite scripts of starts and stops the slots follow, the drain ends with nothing listed; each turn takes the timer that is first when it comes; timers no call is about all time out, without calls exactly the listed ones do, in order, and if no slot starts a timer of 0 ms then no others do |
| TimerDrains.TakeTurn | Src/Core/TimerNotifier.cpp:242-246 | one turn is the timeout of the first timer followed by its slot's calls; without calls the list is one timer shorter |
| TimerDrains.MakeCall | Src/Core/TimerPrivate_epoll.cpp:67-76 | what a slot's start or stop does to the system and to the order of the notify list |
| TimerDrains.LeftAlongDrain | Src/Core/TimerNotifier.cpp:242-246 | at every turn, the timers that have timed out followed by those still listed are the ones listed at first, but for what the slots have done |
| TimerDrains.HeededIsRun | Src/Core/TimerNotifier.cpp:242-246 | a drain is a run of the whole system, so the theorems on runs hold through it |
| TimerRepeats.DeliveredTimer | Src/Core/TimerPrivate_epoll.cpp:78-85 | after a timeout a timer is active if and only if it is neither single shot nor of 0 ms, and then has its whole interval left; no other timer changes |
| TimerRepeats.RoundIsOnTime | Src/Core/TimerPrivate_epoll.cpp:78-85 | after each timeout a repeating timer stays active, and is listed again if and only if the ticks counted since are its interval plus correction less the loss |
| TimerRepeats.RepeatingTimerRepeats | Src/Core/TimerPrivate_epoll.cpp:78-85 | main result: notified each time it is listed and left alone otherwise, a repeating timer comes back for any number of rounds |
| TimerInstants.StartTimer | Src/Core/TimerNotifier.cpp:79-128 | what Start leaves is what the instants below are about |
| TimerInstants.LongTimerInstant | Src/Core/TimerNotifier.cpp:97-102 | from that state of the notifier, in its clock's time: a timer above 64 ms is nominally notified the interval after the call, less the loss and less under a millisecond |
| TimerInstants.CoarseTimerInstant | Src/Core/TimerNotifier.cpp:91-95 | a coarse timer from 4096 ms on counts from the last low-resolution tick before the call and loses nothing |
| TimerInstants.ShortTimerInstant | Src/Core/TimerNotifier.cpp:103-108 | a timer of at most 64 ms is notified the interval after the call, less under a millisecond, if the last high-resolution tick is at most 4096 ms ago, and exactly with the ticker off |
| RingBuffers.BitCeil | Src/Core/RingBuffer.cpp:281 | the rounded-up size is a power of two and at least the size asked for |
| RingBuffers.BitCeilIsLeast | Src/Core/RingBuffer.cpp:281 | no smaller power of two is |
| RingBuffers.RingBuffer.constructor | Src/Core/RingBuffer.cpp:33-40 | a new buffer is empty with the capacity given |
| RingBuffers.RingBuffer.Read | Src/Core/RingBuffer.cpp:48-75 | takes the prefix asked for, across the wrap-around |
| RingBuffers.RingBuffer.ReadToSink | Src/Core/RingBuffer.cpp:77-102 | exactly what the sink accepts leaves the front; a sink without limits gets everything |
| RingBuffers.RingBuffer.Write | Src/Core/RingBuffer.cpp:104-126 | appends exactly min(n, capacity - size) bytes, all of them without a limit |
| RingBuffers.RingBuffer.WriteFromSource | Src/Core/RingBuffer.cpp:128-149 | what the source yields is appended in order; everything that fits if the source announces and yields what it has |
| RingBuffers.RingBuffer.Slice | Src/Core/RingBuffer.cpp:158-194 | gives the bytes asked for and keeps the content, also when it relocates it |
| RingBuffers.RingBuffer.PopFront | Src/Core/RingBuffer.cpp:196-220 | drops the prefix asked for |
| RingBuffers.RingBuffer.SetCapacity | Src/Core/RingBuffer.cpp:222-250 | fails exactly when 0 < capacity < size, and keeps the content |
| RingBuffers.RingBuffer.Clear | Src/Core/RingBuffer.cpp:252-264 | leaves no content |
| RingBuffers.RingBuffer.Reset | Src/Core/RingBuffer.cpp:266-275 | succeeds exactly on an empty buffer |
| RingBuffers.RingBuffer.TryToEnlargeBuffer | Src/Core/RingBuffer.cpp:277-295 | keeps the content; succeeds exactly below the capacity and then makes the room asked for as far as the capacity allows |
| RingBuffers.RingBuffer.PeekChar | Src/Core/RingBuffer.h:62 | is the byte of the content at the index |
| RingBuffers.RingBuffer.ReadAll | Src/Core/RingBuffer.h:64-73 | gives the whole content and leaves none |
| RingBuffers.AppendedToRight | Src/Core/RingBuffer.cpp:111-113 | copying behind the right block appends to the content |
| RingBuffers.AppendedToLeft | Src/Core/RingBuffer.cpp:121-123 | copying behind the left block appends to the content |
| SimdIterators.SimdIterator.constructor | Src/Core/SimdIterator.cpp:25-29 | mirroring the first 32 bytes keeps the content and establishes what loads need |
| SimdIterators.SimdIterator.NextAt | Src/Core/SimdIterator.h:35-41 | byte k of the load is byte index + k of the content wherever there is one, and the load stays inside the buffer |
| IOChannels.IOChannel.Write | Src/Core/IOChannel.h:62-72 | bytes the sink accepted followed by the write buffer are all bytes written, in order; write notifications are on exactly while something waits |
| IOChannels.IOChannel.WriteDataToChannel | Src/Core/IOChannel.cpp:152-157 | keeps that conservation; the sink gets the prefix it accepts |
| IOChannels.IOChannel.ReadDataFromChannel | Src/Core/IOChannel.cpp:145-150 | bytes read, read buffer and source together are the incoming bytes, in order; read notifications are off exactly while the buffer is full |
| IOChannels.IOChannel.Read | Src/Core/IOChannel.h:54-61 | gives the prefix and turns the notification on exactly if the buffer is not full |
| IOChannels.IOChannel.Skip | Src/Core/IOChannel.h:47-53 | drops the prefix and turns the notification on exactly if the buffer is not full |
| IOChannels.IOChannel.ReadAll | Src/Core/IOChannel.h:39-46 | gives everything; a full buffer's notification comes back |
| IOChannels.IOChannel.SetReadBufferCapacity | Src/Core/IOChannel.h:75 | keeps the bytes; the notification agrees with the buffer afterwards if and only if being full did not change |
| IOChannels.StaleNotificationExample | Src/Core/IOChannel.h:75 | a full buffer that is still asked for, and one with room that is not, after a change of capacity |
| ChunkMetadata.AcceptedExactlyAfterAHeader | Src/Http/HttpChunkMetadataParser.cpp:50-79 | each accepting outcome, with its sizes, is given if and only if the input starts with a header: one to twelve hexadecimal digits, no control characters, CR LF |
| ChunkMetadata.DecidedOutcomeIsFinal | Src/Http/HttpChunkMetadataParser.cpp:39-99 | segmentation independence: any outcome but NeedsMoreData is the same on every extension |
| ChunkMetadata.CompletableExactlyWhenLive | Src/Http/HttpChunkMetadataParser.cpp:59-88 | an input has an accepted extension if and only if no byte of it rules that out |
| ChunkMetadata.DeadInputIsNeverAccepted | Src/Http/HttpChunkMetadataParser.cpp:80-98 | an input ruled out is never accepted, and is rejected once two more bytes are there |
| ChunkMetadata.FailedExactly | Src/Http/HttpChunkMetadataParser.cpp:39-99 | the inputs that are rejected, by their leading digits and the first control character after them, if and only if |
| ChunkMetadata.DeadButNotRejected | Src/Http/HttpChunkMetadataParser.cpp:39-99 | exactly which inputs that are ruled out are still answered with NeedsMoreData |
| ChunkMetadata.DeadButNotRejectedExample | Src/Http/HttpChunkMetadataParser.cpp:80-98 | such an input: a digit, a semicolon and a control character |
| ChunkMetadata.HexNumberIsBelow | Src/Http/HttpChunkMetadataParser.cpp:52-54 | twelve digits stay below 2^48, so reading the size never overflows |
| ChunkMetadata.HexDigitsReadBack | Src/Http/HttpBrokerPrivate.cpp:163-171 | the printed size is read back as the number printed |
| ChunkMetadata.HexNumberExample | Src/Http/HttpChunkMetadataParser.cpp:52-54 | digits count in either case, the first one most |
| ChunkMetadata.HexDigitsLength | Src/Http/HttpBrokerPrivate.cpp:165-168 | a number has at most k digits if and only if it is below 16^k |
| ChunkMetadata.PrintedHeaderIsReadBack | Src/Http/HttpBrokerPrivate.cpp:163-171 | a printed header followed by anything is read back exactly if its size is below 2^48, and rejected otherwise |
| ChunkParsers.FirstNonHexLane | Src/Http/HttpChunkMetadataParser.cpp:43-47 | the signed compares, the case mask and the lane mask find the first byte that is no hexadecimal digit |
| ChunkParsers.FirstControlLane | Src/Http/HttpChunkMetadataParser.cpp:60-62 | the compares for control characters find the first one |
| ChunkParsers.HexDigitsInWindow | Src/Http/HttpChunkMetadataParser.cpp:47-48 | stale bytes past the end of the content do not change the digit count used |
| ChunkParsers.StepOverWindow | Src/Http/HttpChunkMetadataParser.cpp:58-65 | a 32-byte step skips no control character and stops early only at one or at the last but one byte |
| ChunkParsers.SkipToLineEnd | Src/Http/HttpChunkMetadataParser.cpp:58-65 | the loop ends at the first control character or the last but one byte |
| ChunkParsers.Parse | Src/Http/HttpChunkMetadataParser.cpp:27-100 | main result: status and both sizes equal those of reading byte by byte, wherever the content lies in the ring; the content is kept |
| ChunkStreams.DrainingFirstDoesNotMatter | Src/Http/HttpRequestParser.cpp:789-893 | stopping to consume before more bytes arrive changes nothing in the state or the body, on any input |
| ChunkStreams.PiecesDoNotMatter | Src/Http/HttpRequestParser.cpp:789-893 | the same bytes give the same reading in one piece and in many |
| ChunkStreams.DecodeStepIsLawful | Src/Http/HttpRequestParser.cpp:864-893 | the receiver's step, with the two bytes it keeps back, has the laws the above needs |
| ChunkStreams.PrintedMessageIsReadBack | Src/Http/HttpBrokerPrivate.cpp:47-55 | the output of any sequence of chunks is decoded to their data if and only if all are below 2^48 |
| ChunkStreams.BodyIsReadExactly | Src/Http/HttpRequestParser.cpp:789-893 | main result: on any bytes the receiver comes to the end of a body if and only if they start with headers, each followed by as many bytes as it says and CR LF, and a header of size zero; it then has exactly these bytes, and what is behind is left |
| ChunkStreams.ChunkedMessageArrives | Src/Http/HttpBrokerPrivate.cpp:232-236 | main result: however the printed message is cut into pieces, the receiver ends with exactly the data and leaves the bytes after the message alone |
| ChunkStreams.DeliveredIsAPrefix | Src/Http/HttpRequestParser.cpp:864-893 | at any time what has been delivered is the beginning of what was sent |
| HttpBrokers.DecimalReadBack | Src/Http/HttpBrokerPrivate.cpp:152-161 | the announced length is read back as the body's length |
| HttpBrokers.PrintedFieldsConcat | Src/Http/HttpBrokerPrivate.h:153-160 | fields written one after the other are the printed fields |
| HttpBrokers.StepKeepsInStep | Src/Http/HttpBrokerPrivate.h:91-101 | the flags follow the responses through every call: open exactly while a chunked response is, closing exactly after its header, at most one response per reset |
| HttpBrokers.OutputIsResponses | Src/Http/HttpBrokerPrivate.h:126-231 | over any calls the output is complete responses and at most one open chunked response at the end, at most one response per reset and one more, and only the last closes the connection |
| HttpBrokers.OutputOnlyGrows | Src/Http/HttpBrokerPrivate.h:126-231 | bytes that have gone out stay as they are |
| HttpBrokers.SilentForever | Src/Http/HttpBrokerPrivate.h:91-101 | once a response with Connection: close is complete, no calls write another byte |
| HttpBrokers.ChunkedBodyArrives | Src/Http/HttpBrokerPrivate.h:215-231 | the body of a closed chunked response without trailers is what a receiver gets, in whatever pieces |
| HttpResponses.WrittenResponsesAreRead | Src/Http/HttpBrokerPrivate.h:126-231 | main result: over any calls with texts that can be told apart, a receiver that reads heads by lines and bodies by status code, announced length or chunks gets exactly the complete responses, in order, each with status line, fields, body and trailers; from any part of the bytes that has arrived it gets the first of them |
| HttpResponses.ResponseIsReadBackExactly | Src/Http/HttpBrokerPrivate.h:139-163 | a complete response followed by anything is read as what it says with exactly what follows it left, if and only if its texts can be told apart, its status code allows its body, no header of a plain one says chunked, and its chunks are below 2^48 bytes |
| HttpResponses.BodyAfterNoContentIsLeft | Src/Http/HttpBrokerPrivate.cpp:97-150 | with a status code without a body, a body written is left to be read as the next message |
| HttpResponses.FieldsAreReadBackExactly | Src/Http/HttpBrokerPrivate.h:205-212 | field lines and the empty line are read back, whatever follows, if and only if no name has a colon, no name or value has CR LF, and no value has whitespace around it |
| HttpResponses.SplitFieldExample | Src/Http/HttpBrokerPrivate.h:205-212 | a value with CR LF in it is read as two fields |
| HttpResponses.ChunkedBodyIsReadBack | Src/Http/HttpBrokerPrivate.h:215-231 | chunks, last chunk and trailers are read back if and only if the chunks are below 2^48 bytes and the trailers can be told apart |
| HttpResponses.MessagesOfMore | Src/Http/HttpBrokerPrivate.h:126-231 | on any bytes, messages that have been read stay the same when more bytes arrive |
| HttpExchanges.PlainResponseIsRead | Src/Http/HttpBrokerPrivate.h:126-164 | main result: what writing a response adds when none is open or complete is read as the status line, server, date, close if asked for, the length of the body, its type, the headers and the body that the call was given |
| HttpExchanges.ChunkedResponseIsRead | Src/Http/HttpBrokerPrivate.h:166-231 | main result: over any calls from the one that opens a chunked response to the one that ends it, the head is what the first was given, the body all data of the chunks in between, the trailers what the last was given |
| HttpExchanges.Respond | Src/Http/HttpBrokerPrivate.h:126-164 | the bytes on the channel are read so |
| HttpExchanges.RespondInChunks | Src/Http/HttpBrokerPrivate.h:166-231 | the bytes on the channel are read so, for any chunks and trailers |
| HttpExchanges.JoinedNames | Src/Http/HttpBrokerPrivate.h:193-204 | the names of trailers stand one after the other with commas between them |
| HttpExchanges.NothingMoreIsWritten | Src/Http/HttpBrokerPrivate.h:132-133 | once a response is complete no call writes, until writing is reset, and never after a closing response |
| HttpExchanges.NothingIsOpen | Src/Http/HttpBrokerPrivate.h:216-219 | while no response is open, chunks and ends write nothing |
| HttpBrokers.HttpBrokerPrivate.WriteResponse | Src/Http/HttpBrokerPrivate.h:125-164 | the bytes written are the responses of the call model in the wire format |
| HttpBrokers.HttpBrokerPrivate.WriteChunkedResponse | Src/Http/HttpBrokerPrivate.h:166-213 | opens a chunked response, closes an open one, or writes nothing |
| HttpBrokers.HttpBrokerPrivate.WriteChunk | Src/Http/HttpBrokerPrivate.cpp:47-55 | appends one chunk to the open response and nothing otherwise |
| HttpBrokers.HttpBrokerPrivate.WriteLastChunk | Src/Http/HttpBrokerPrivate.h:215-231 | ends the open response with its trailers and writes nothing otherwise |
| HttpBrokers.HttpBrokerPrivate.ResetResponseWriting | Src/Http/HttpBrokerPrivate.h:91-101 | allows the next response unless the connection is closing |
| HttpFieldBlocks.LineIsAt | Src/Http/HttpFieldBlock.cpp:39-49 | the running sum of sizes finds every name and value in the text |
| HttpFieldBlocks.EqualIgnoringCaseIsSameName | Src/Http/HttpFieldBlock.cpp:50 | the bounded comparison that stops at zeros is case-insensitive equality for field names |
| HttpFieldBlocks.MatchingIsExact | Src/Http/HttpFieldBlock.cpp:62-86 | the matching lines are exactly those with the same name, in order; none for an empty name |
| HttpFields.SameButForCase | Src/Http/HttpFieldBlock.cpp:50 | only the case of letters is ignored |
| HttpFields.BlanksExample | Src/Http/HttpFieldBlock.cpp:114-123 | spaces and tabs go from both ends and stay inside |
| HttpFields.TrimmedIsUnique | Src/Http/HttpFieldBlock.cpp:114-123 | there is only one value without surrounding whitespace |
| HttpFields.TrimmedIsTrimmed | Src/Http/HttpFieldBlock.cpp:114-123 | trimming from either side gives that value |
| HttpFieldBlocks.Trim | Src/Http/HttpFieldBlock.cpp:114-123 | the two walks find it, also when the value is all whitespace |
| HttpFieldBlocks.HttpFieldBlock.AddFieldLine | Src/Http/HttpFieldBlock.cpp:25-33 | the sizes of one line more are recorded in sixteen bits each, and the index agrees with the text if and only if both fit |
| HttpFieldBlocks.HttpFieldBlock.HasField | Src/Http/HttpFieldBlock.cpp:35-60 | true if and only if some line has the name in any case |
| HttpFieldBlocks.HttpFieldBlock.FieldCount | Src/Http/HttpFieldBlock.cpp:62-86 | the number of lines with the name |
| HttpFieldBlocks.HttpFieldBlock.FieldValue | Src/Http/HttpFieldBlock.cpp:88-133 | the trimmed value of the pos-th match, and nothing for any other position |
| Objects.Connect | Src/Core/Object.h:83-106 | the connection is first in the list and every count still equals the number of live connections |
| Objects.Disconnect | Src/Core/Object.h:109-145 | exactly the matching connections go, or die while the sender emits; all counts follow |
| Objects.DisconnectedOne | Src/Core/Object.h:117-139 | a connection goes, or dies, if and only if it is alive and of the receiver, signal and slot given, each unless none is given |
| Objects.DisconnectedConcat | Src/Core/Object.h:117-143 | each connection on its own, in list order |
| Objects.Destroy | Src/Core/Object.cpp:40-61 | after the destruction, also during an emission of its own, nothing that stays mentions the object, even in senders that emit, and the flag of its emission is set; other connections are untouched |
| Objects.IdleObjectsCanBeDestroyed | Src/Core/Object.cpp:54-60 | every receiver an object that does not emit tells of its destruction exists |
| Objects.EmittingSenderKeepsReceivers | Src/Core/Object.h:128-139 | a sender that emits names the receivers it named before, destroyed ones included |
| Objects.DestroyedReceiverIsStillTold | Src/Core/Object.cpp:54-60 | after an object is destroyed, the receivers an emitting sender's destructor tells all exist if and only if they did before and the object was none of them |
| Objects.DestroyedReceiverExample | Src/Core/Object.cpp:40-61 | an emission starts and the slot it calls destroys the receiver: a valid world with an emitting sender whose destructor would tell a destroyed receiver |
| Objects.EmitSignal | Src/Core/Object.h:185-220 | main result: a possibly nested emission has one turn for each connection present at its start, in list order; a turn takes the connection as it is at that moment and calls its slot if and only if it is then alive and of this signal; the j-th call is followed by exactly the actions of the j-th reaction, whatever they are, and nothing else changes any object; nothing is unlinked before the outermost emission ends, then exactly the dead connections are; if a slot destroys the sender, that turn is the last |
| Objects.EmissionIsItsTurns | Src/Core/Object.h:193-219 | what an emission makes of the objects, nested ones included, is determined by its turns: any turns that follow one another so, to the last connection or until the sender is gone, lead to it |
| Objects.CalledTurnActs | Src/Core/Object.h:195-196 | after a called turn whose slot connects and disconnects, any number of times, the sender's list has one connection in front for each that connects it and exactly the matching ones dead |
| Objects.ActionsOnOwnList | Src/Core/Object.h:102-145 | connecting and disconnecting leave an emitting object that list, and no object comes or goes |
| Objects.CalledSlotExample | Src/Core/Object.h:193-219 | a slot that disconnects its own connection: it is called, and nothing is left |
| Objects.DisconnectedIsNotCalled | Src/Core/Object.h:193-199 | a connection that is dead at any turn up to its own, because a slot disconnected it or destroyed its receiver, is not called |
| Objects.EvolvedBetweenTurns | Src/Core/Object.h:193-199 | between any two turns connections only come in front or die in place |
| Objects.CallSlot | Src/Core/Object.h:195-196 | a call is the emission's turn at that connection, with what there is then, followed by exactly what the slot does; turns of nested emissions are deeper |
| Objects.StartEmitting | Src/Core/Object.h:187-191 | the outermost emission makes a flag of its own, a nested one of the same sender uses the same |
| Objects.EndEmission | Src/Core/Object.h:197-219 | with the flag set nothing is touched any more; otherwise the outermost emission unlinks exactly the dead connections |
| Objects.LiveConcat | Src/Core/Object.h:207-217 | cleaning up treats each connection on its own, in list order |
| Objects.LiveOne | Src/Core/Object.h:209-210 | it unlinks exactly the dead ones |
| Objects.Perform | Src/Core/Object.h:193-199 | what is left is what the actions make of the objects one after the other; those that stay keep their connections in place and all counts stay right, destroying emitting objects included |
| Objects.Object.AddEmitter | Src/Core/Object.cpp:136-139 | the count for the emitter grows by one |
| Objects.Object.RemoveEmitter | Src/Core/Object.cpp:141-146 | the count falls by one and is not kept at zero; an unknown emitter changes nothing |
| Objects.MentionsKilled | Src/Core/Object.h:130-132 | a connection that dies lowers the number of live connections of its receiver by one and of no other |
| Objects.WithoutReceiverMentions | Src/Core/Object.h:61 | disconnecting a receiver leaves no live connection to it, and changes nothing where there is none |
| Objects.CallsAreInOrder | Src/Core/Object.h:193-199 | the positions called are exactly those of the turns that call, in list order |
| Objects.SurvivorsAreCalled | Src/Core/Object.h:193-199 | a connection alive from start to end of an emission is called if and only if it listens; one dead at the start is not |
| Objects.CallNext | Src/Core/Object.h:193-199 | the walk's position stays right under any connections added in front and any that die: the next turn is at the connection whose turn it is |
| Objects.WalkedOn | Src/Core/Object.h:193-199 | the turns of an emission go on with one at the next connection, in the list as it then is |
| ReadyEvents.EpollReadyEventSourceRegistrar.AddReadyEvent | Src/Core/EpollReadyEventSourceRegistrar.cpp:48-63 | the source is in a list with the OR of all masks posted since its last delivery or removal; both lists stay well linked and disjoint, a non-empty ready list has the event set |
| ReadyEvents.DeliveredIsUnion | Src/Core/EpollReadyEventSourceRegistrar.cpp:62 | in an honest history a delivered mask has a bit if and only if some post to the source, with no delivery to it or removal of it since, has it |
| ReadyEvents.PendingIsUnion | Src/Core/EpollReadyEventSourceRegistrar.cpp:52-62 | something is pending exactly while a post waits, and it is the union of the waiting posts |
| ReadyEvents.EpollReadyEventSourceRegistrar.PostedIsUnion | Src/Core/EpollReadyEventSourceRegistrar.cpp:48-63 | the same of a source's mask |
| ReadyEvents.EpollReadyEventSourceRegistrar.RemoveReadyEvent | Src/Core/EpollReadyEventSourceRegistrar.cpp:65-79 | the source leaves whichever list it is in, and nothing is pending for it |
| ReadyEvents.EpollReadyEventSourceRegistrar.OnEvent | Src/Core/EpollReadyEventSourceRegistrar.cpp:106-126 | main result: for any callbacks the drain ends, and of the sources that were ready exactly those have been delivered, in order, that were not removed before their turn; each delivery has exactly the bits posted for the source since it was last delivered to or removed, and is followed by exactly what its callback does |
| ReadyEvents.EpollReadyEventSourceRegistrar.Callback | Src/Core/EpollReadyEventSourceRegistrar.cpp:113-124 | posts and removals of a callback never add to the sources being drained |
| ReadyEvents.EpollReadyEventSourceRegistrar.PopTriggered | Src/Core/EpollReadyEventSourceRegistrar.cpp:115-122 | the first source gets exactly the mask pending for it |
| ReadyEvents.DrainGoesOn | Src/Core/EpollReadyEventSourceRegistrar.cpp:113-124 | one turn keeps the order of delivery, and every source is still to come, delivered or removed according to the first delivery or removal of it |
| ReadyEvents.FinishedDrain | Src/Core/EpollReadyEventSourceRegistrar.cpp:106-126 | a finished drain has delivered, exactly once, every ready source whose first settling event is its delivery, and nothing else |
| ReadyEvents.RemovedSourceWaits | Src/Core/EpollReadyEventSourceRegistrar.cpp:65-79 | a source removed before its turn and posted again is not delivered in the same drain |
| Sequences.SubsequenceIsDistinct | Src/Core/EpollReadyEventSourceRegistrar.cpp:113-124 | what is delivered in the order of a list without repetition is delivered once |

## Left out

- Sockets, epoll, event and timer file descriptors, TLS, threads: system calls; ticks, events, sources and sinks stand for them. `EpollTimerRegistrar`, `HttpConnectionHandler` and the rest of `HttpRequestParser` are not part of this model.
- `TimerNotifier::disable` and its enabled flag: after it every operation returns at once.
- The wheels' slots and the notify list are sequences in `TimerWheels` and `TimerNotifiers`; the pointer form of `TimerList` is proved separately in `TimerLists`.
- `TimerWheel::adjustResolution`: the notifier's wheels have the resolutions 2^(6i) ms, which it returns unchanged.
- The clock is read once per operation, and the tick counter is unbounded (the table is extended past bit 63 by 6).
- TimerNotifiers.TimerNotifier.AddTimer: not for a timer that is active but in no list, nor for `RemoveTimer`, `Start` and `SetInterval`: the source then removes it from a notify list it is not in and follows its null links. Sums that overflow 64 bits are not modelled.
- TimerDrains.NotifyTimers: slots follow finite scripts that start and stop timers of the same notifier; a call on a timer that is active but in no list is skipped, and timers are not deleted.
- The channel calls its virtual notification hooks and emits `sentData` and `receivedData`; the model keeps the flags only. `IOChannel::clear` is left out: it drops bytes on purpose.
- ChunkStreams.DecodeStepIsLawful: the receiver's limits on sizes and its trailers are not modelled, and the bytes of a body part leave the channel with the step that delivers it, not at the start of the next one.
- ChunkParsers.Parse: works on the ring buffer that the channel wraps, with a current capacity of at least 32 bytes, as `SimdIterator` asserts.
- Sizes and capacities are unbounded; that a `size_t` sum could wrap around is not modelled.
- HttpBrokers.HttpBrokerPrivate.WriteResponse: the status-line table, the text of the date and the disconnection of the socket after a closing response are left out; slots of `wroteResponse` run after all state changes and are later calls.
- HttpBrokers.HttpBrokerPrivate.ResetResponseWriting: disconnecting the broker object and deleting the object attached to it are left out.
- HttpResponses.WrittenResponsesAreRead: status lines are those of the source's table, which have no CR LF but at the end; for other texts the condition is exact, see `HttpResponses.ResponseIsReadBackExactly`. Responses to HEAD are read like all others, as the receiver does not know the request.
- HttpFieldBlocks.HttpFieldBlock.AddFieldLine: fewer than 127 lines before, as the source asserts, contiguous in the text, with names that are tokens. Sizes of 2^16 and more are modelled, but its only callers keep both sizes below that (`Src/Http/HttpRequestParser.cpp:625-682`, `:897-954`).
- Objects.EmitSignal: signal and slot ids are numbers; arguments and deletion of connection data are left out.
- Objects.Perform: scripts are finite, name a slot's calls by their order, and act only on objects that exist; objects created by a slot are objects of the world that have no connections yet. A destruction that would tell a receiver that is gone is skipped: `Objects.Destroy` requires these receivers to exist, since the destructor accesses them.
- ReadyEvents.EpollReadyEventSourceRegistrar.OnEvent: not entered from one of its own callbacks; `EpollEventNotifier::processEvents` (`Src/Core/EpollEventNotifier.cpp:135`) does not enter itself again.
