# UniMRCP: toolkit and media library, modelled in Dafny

The project models eight self-contained parts of UniMRCP 1.5.0 and proves what they
promise over all inputs, runs and schedules. Each operation that updates state in the
original is a method of a class, proved equal to a function of the old state or to a
statement of its whole effect; the theorems are about those functions and states.

| files | part |
|---|---|
| TextStream, TextMessage, MessageParser, MessageGenerator, Segmentation, Printing, Delivery, FoldCuts, ParserStatus | text streams, header sections, the incremental message parser and the generator |
| Multipart, MultipartExchange, MultipartForms, Decimal | multipart content, decimal sizes, the length that counts itself |
| JitterBuffer, JitterRuns, LatePlacement, Playout, PlayoutLimits, Arrivals, SteadyStream | the jitter buffer |
| TaskTree, TaskProtocol | requests and completions in a tree of tasks |
| MediaContext | the association matrix and the objects derived from it |
| Dtmf, DtmfEndToEnd, DtmfTone | out-of-band DTMF generator and detector |
| TimerQueue, TimerFiring, TimerRuns, TimerRebase, TimerLinks, TimerTimes | one-shot timers |
| RtpReceiver, RtpRuns, RtpPackets | RTP receiver statistics |
| ChunkBuffer, CyclicQueue, PortRange | byte chunks, the growing queue, port ranges |
| Machine, Options, Multiples, Sequences | machine integers, missing values, facts about quotients and concatenation used by the others |

Machine arithmetic is written out where it matters: 32-bit positions, timestamps and
counters wrap, the frames available are computed in unsigned 64-bit arithmetic, the
counters of the media context are bytes. Calls into code outside the parts are
parameters: the handlers of a protocol (whether a start line is accepted, how long the
body is), whether the jitter buffer takes a packet, which ports are free, what a timer
callback does (any list of settings and kills), the times of arrival.

What the code does and its promises do not cover is proved as such, with the exact
condition where there is one: folded lines are joined only within one delivery
(`Delivery.FoldedLineDependsOnCut`, `FoldCuts.FoldedCutsDisagree`), and a body that
begins with white space is whole only in a delivery of its own
(`Delivery.BodyDependsOnCutIff`), a header field too long for the buffer is dropped
while success is reported (`Printing.SuccessIsCompleteIff`,
`Printing.LongFieldIsDropped`), a multipart content is returned with a part cut short in
it (`MultipartExchange.ComposedWholeIff`), the jitter buffer accepts packets past its
window (`PlayoutLimits.TooEarlyIff`, `PlayoutLimits.PastWindowOverwrites`) and plays
after a restart exactly what was unread before it (`Playout.RingRefinesPlan`,
`PlayoutLimits.RestartCleanIff`), an initial delay rounded up may pass the maximum
(`LatePlacement.DelaysOrderedIff`), an overdue timer is lost at a rebase and stops all
others from firing (`TimerRebase.OverdueIsLost`), a timer due at a rebase cannot be
killed (`TimerRebase.KillMissesIff`), and setting it from the callback of another breaks
the list so that a later advance does not end (`TimerRebase.SetMissesIff`,
`TimerLinks.CallKeepsRingIff`, `TimerLinks.AdvanceNeverEnds`), one transit difference
without a magnitude takes the jitter past its bound (`RtpRuns.JitterKeptIff`), the
repetitions of the last packet of a long tone may carry another duration than it
(`DtmfTone.RepeatsAgreeIff`), a port search that finds nothing may never end
(`PortRange.SearchEndsIff`, `PortRange.KeptCursorIff`) or leave its part
(`PortRange.StaysInPartIff`), tones of one frame are not detected
(`DtmfEndToEnd.DigitsEndToEnd`). Where code and comments disagree the code is followed:
`apt_cyclic_queue_is_empty` returns true for a queue that is not empty.

## Model

| member | source | states |
|---|---|---|
| Segmentation.SegmentationIndependence | unimrcp-1.5.0/libs/apr-toolkit/src/apt_text_message.c:165-339 | two ways to cut one input into non-empty deliveries yield the same messages, the same unconsumed tail, and parsers that are the same up to the flag that an LF may follow, for any number of messages, malformed or rejected parts included, if no line that follows a header line or an empty line begins with white space |
| Segmentation.ReceiveAllAgrees | unimrcp-1.5.0/libs/apr-toolkit/src/apt_text_message.c:252-339 | the chunk parser with its carried-over tail, over any deliveries, agrees with an automaton fed one character at a time |
| Segmentation.DrainAgrees | unimrcp-1.5.0/libs/apr-toolkit/src/apt_text_message.c:252-339 | the same for the calls made on one buffer, splits between CR and LF included |
| Delivery.MessagesArrive | unimrcp-1.5.0/libs/apr-toolkit/src/apt_text_message.c:153-339 | printed messages, cut in any way, are parsed back whole and in order with nothing left over |
| Delivery.FoldedLineDependsOnCut | unimrcp-1.5.0/libs/apr-toolkit/src/apt_text_message.c:66-84 | whatever the message under way and the fields already read, a folded value is joined if both its lines come in one delivery and cut short if they do not, so the condition on folds is needed |
| Delivery.FoldedMessageDependsOnCut | unimrcp-1.5.0/libs/apr-toolkit/src/apt_text_message.c:252-339 | the same from a new connection on, once its start line is accepted |
| Delivery.BodyDependsOnCutIff | unimrcp-1.5.0/libs/apr-toolkit/src/apt_text_message.c:52-84 | a body arrives whole in a delivery of its own, and in one delivery with the empty line before it if and only if it does not begin with white space; otherwise what was taken for a folded value is missing |
| FoldCuts.FoldedCutsDisagree | unimrcp-1.5.0/libs/apr-toolkit/src/apt_text_message.c:66-84 | whatever came before a header field and whatever comes behind its fold, to the end of the input: if the continuation adds any text, a cut between the two lines and no cut leave different messages delivered or under way |
| FoldCuts.FoldedInputDependsOnCut | unimrcp-1.5.0/libs/apr-toolkit/src/apt_text_message.c:252-339 | the same for two ways to cut one whole input, from the first delivery of a connection on |
| FoldCuts.UnterminatedCutsDisagree | unimrcp-1.5.0/libs/apr-toolkit/src/apt_text_message.c:66-84 | a continuation still without its line end is left in the tail without its white space if it came with the field, and with it if it came alone |
| FoldCuts.BlankFoldAgrees | unimrcp-1.5.0/libs/apr-toolkit/src/apt_text_message.c:66-84 | an input with a fold that the two cuts agree on: a continuation of white space alone, where no body is announced |
| ParserStatus.AnswerIs | unimrcp-1.5.0/libs/apr-toolkit/src/apt_text_message.c:252-339 | of any call: a message is handed out if and only if the answer is complete, and it is the one that the text completes; the answer is invalid if and only if a start line with text behind it, or a header section that ends in the text, was rejected |
| ParserStatus.GarbageIsInvalid | unimrcp-1.5.0/libs/apr-toolkit/src/apt_text_message.c:264-277 | a line that is no start line, ended by CR, LF or CRLF, is answered by invalid if anything follows it, and the parser goes on behind it; at the end of the buffer the answer is incomplete |
| ParserStatus.RejectedSectionIsInvalid | unimrcp-1.5.0/libs/apr-toolkit/src/apt_text_message.c:280-300 | a printed header section that is rejected is answered by invalid |
| ParserStatus.MessageIsComplete | unimrcp-1.5.0/libs/apr-toolkit/src/apt_text_message.c:252-339 | a printed message is answered by complete, with that message and what follows it left |
| ParserStatus.WireForm | unimrcp-1.5.0/libs/apr-toolkit/src/apt_text_message.c:153-163 | the text of a message, character by character |
| MessageGenerator.GeneratedArrives | unimrcp-1.5.0/libs/apr-toolkit/src/apt_text_message.c:193-437 | a message generated into any buffers of which the first holds the head is received whole |
| MessageGenerator.WrittenWhole | unimrcp-1.5.0/libs/apr-toolkit/src/apt_text_message.c:193-437 | the buffers together hold the text of the message as far as they reach, and the status is complete exactly if they reach to its end |
| MessageGenerator.HeadWithoutRoom | unimrcp-1.5.0/libs/apr-toolkit/src/apt_text_message.c:383-437 | a head without room leaves what fitted in the buffer and is begun anew; the answer is invalid, and incomplete only for a buffer without any room |
| Printing.FieldRoundTripsIff | unimrcp-1.5.0/libs/apr-toolkit/src/apt_text_message.c:52-122 | a field comes back from its printed line if and only if its name is not empty, begins with no white space and holds no colon after its first character, neither part holds a line end, and the value begins with no white space |
| Printing.SectionRoundTrip | unimrcp-1.5.0/libs/apr-toolkit/src/apt_text_message.c:125-163 | a printed header section is read back, and what follows is touched only if it begins with white space |
| Printing.SectionFieldsAreGood | unimrcp-1.5.0/libs/apr-toolkit/src/apt_text_message.c:52-150 | whatever is parsed, the fields obtained are printable ones |
| Printing.SectionFits | unimrcp-1.5.0/libs/apr-toolkit/src/apt_text_message.c:153-163 | with room for the whole section nothing is left out |
| Printing.SuccessIsCompleteIff | unimrcp-1.5.0/libs/apr-toolkit/src/apt_text_message.c:153-163 | when success is reported nothing is missing if and only if there was room for the whole section |
| Printing.PrintedPieces | unimrcp-1.5.0/libs/apr-toolkit/src/apt_text_message.c:153-163 | each field has its turn, whatever became of those before: all of its line, its text without the line end, or nothing, by the room left then |
| Multipart.ContentRoundTrip | unimrcp-1.5.0/libs/apr-toolkit/src/apt_multipart_content.c:68-310 | parts written and closed are returned in order with the same type, id and body, then the final boundary, whether the boundary is given or learnt |
| Multipart.PartRoundTripsIff | unimrcp-1.5.0/libs/apr-toolkit/src/apt_multipart_content.c:107-310 | a part comes back unchanged, and what follows it untouched, if and only if its values are printable, its body does not begin with white space and its length fits an int |
| MultipartExchange.Exchange | unimrcp-1.5.0/tests/apttest/src/multipart_suite.c:21-87 | what is composed is read, and a content that could not be finalised is not |
| MultipartExchange.ExchangeWhole | unimrcp-1.5.0/tests/apttest/src/multipart_suite.c:21-87 | good parts that fit come back all of them and in order, whether the boundary is given or learnt |
| MultipartExchange.Compose | unimrcp-1.5.0/tests/apttest/src/multipart_suite.c:21-47 | parts added one after another, each whether the one before fitted or not, and finalised |
| MultipartExchange.ComposedWholeIff | unimrcp-1.5.0/tests/apttest/src/multipart_suite.c:21-47 | the content returned is the whole text if and only if that fits: otherwise a part cut short may be in it without notice |
| MultipartExchange.Read | unimrcp-1.5.0/tests/apttest/src/multipart_suite.c:49-78 | parts taken one after another up to the final boundary are all that the content holds |
| Multipart.BoundaryFoundIff | unimrcp-1.5.0/libs/apr-toolkit/src/apt_multipart_content.c:232-272 | a boundary is found again in a part line and in the final line if and only if it is non-empty, has no line end, no leading hyphen, no trailing space and no trailing pair of hyphens |
| MultipartForms.ContentForm | unimrcp-1.5.0/libs/apr-toolkit/src/apt_multipart_content.c:107-185 | a part and the final boundary, character by character |
| MultipartForms.LengthsRead | unimrcp-1.5.0/libs/apr-toolkit/src/apt_multipart_content.c:298-307 | a Content-Length may carry a plus sign and anything behind its digits; more than an int holds and negative numbers are none |
| MultipartForms.LastLengthCounts | unimrcp-1.5.0/libs/apr-toolkit/src/apt_multipart_content.c:284-296 | of several headers the last one counts, and a beginning of the name stands for the name |
| MultipartForms.SameTextIff | unimrcp-1.5.0/libs/apr-toolkit/src/apt_multipart_content.c:262-272 | boundaries are compared up to the case of letters |
| MultipartForms.OtherBoundaryFails | unimrcp-1.5.0/libs/apr-toolkit/src/apt_multipart_content.c:262-272 | a reader that knows its boundary takes no part and no end of another |
| MultipartForms.FinalIsRead | unimrcp-1.5.0/libs/apr-toolkit/src/apt_multipart_content.c:249-277 | the final boundary ends the content, whatever follows |
| MultipartForms.UnfinishedSectionFails | unimrcp-1.5.0/libs/apr-toolkit/src/apt_multipart_content.c:279-282 | a header section without its empty line is no part |
| MultipartForms.EmptyLengthEmptyBody | unimrcp-1.5.0/libs/apr-toolkit/src/apt_multipart_content.c:279-310 | a part with an empty length has an empty body |
| MultipartForms.CutBodyFails | unimrcp-1.5.0/libs/apr-toolkit/src/apt_multipart_content.c:279-310 | a body that is not there to its end is no part |
| Decimal.VarLengthValueGenerate | unimrcp-1.5.0/libs/apr-toolkit/src/apt_text_stream.c:465-499 | the value computed is the least V equal to N plus the number of digits of V, its text is V in decimal, and failure means that there are too many digits |
| Decimal.WithOwnLengthIsLeast | unimrcp-1.5.0/libs/apr-toolkit/src/apt_text_stream.c:465-499 | no smaller number is N plus its own number of digits |
| Decimal.NumberOfDigits | unimrcp-1.5.0/libs/apr-toolkit/src/apt_text_stream.c:388-399 | parsing inverts printing of sizes |
| JitterRuns.ShiftInvariance | unimrcp-1.5.0/libs/mpf/src/mpf_jitter_buffer.c:139-499 | two fresh buffers given the same audio, events, reads and restarts, the sender timestamps of one shifted by any constant, answer everything alike |
| LatePlacement.LateNeverPast | unimrcp-1.5.0/libs/mpf/src/mpf_jitter_buffer.c:163-322 | in every reachable state the measured lengths are ordered and the delay is within its limit, and no packet or event accepted is placed before the reader, even unaligned after a skew correction |
| LatePlacement.DelaysOrderedIff | unimrcp-1.5.0/libs/mpf/src/mpf_jitter_buffer.c:87-122 | the initial delay respects the maximum if and only if rounding it up to a whole frame does not pass the maximum |
| LatePlacement.WholeFrames | unimrcp-1.5.0/libs/mpf/src/mpf_jitter_buffer.c:87-122 | with delays in whole frames the ring spans the maximum delay exactly |
| Playout.RingRefinesPlan | unimrcp-1.5.0/libs/mpf/src/mpf_jitter_buffer.c:139-499 | inside the window and with any number of restarts every operation is answered as by an unbounded map from frame index to content that a restart keeps: writes alike, and a read gives what was last stored for its index, before a restart or after, if the writer is ahead |
| Playout.RingRefinesMap | unimrcp-1.5.0/libs/mpf/src/mpf_jitter_buffer.c:157-499 | without restart, reads give what is stored for their index whatever the write position says: an underflow hides nothing |
| Playout.LiveSlotsDistinct | unimrcp-1.5.0/libs/mpf/src/mpf_jitter_buffer.c:157-161 | no two live frame indices share a slot |
| PlayoutLimits.RestartCleanIff | unimrcp-1.5.0/libs/mpf/src/mpf_jitter_buffer.c:139-155 | after any run, every continuation of a restart is answered as if it had emptied the buffer if and only if no frame of the window is unread |
| PlayoutLimits.UnreadIsFound | unimrcp-1.5.0/libs/mpf/src/mpf_jitter_buffer.c:139-155 | for each unread frame of the window there are operations inside the window whose answers tell it from an empty slot |
| PlayoutLimits.ConfiguredWhole | unimrcp-1.5.0/libs/mpf/src/mpf_jitter_buffer.c:87-122 | a buffer created with delays that do not wrap has a slot for each whole frame of the maximum delay and no more |
| PlayoutLimits.RestartReplays | unimrcp-1.5.0/libs/mpf/src/mpf_jitter_buffer.c:139-155 | from a created buffer on, a frame not read before a restart is heard after it |
| PlayoutLimits.TooEarlyIff | unimrcp-1.5.0/libs/mpf/src/mpf_jitter_buffer.c:324-330 | a packet is refused as too early only when the ring is exactly full, so the test is right if and only if the position is inside the window |
| PlayoutLimits.PastWindowOverwrites | unimrcp-1.5.0/libs/mpf/src/mpf_jitter_buffer.c:324-347 | in any buffer, a packet of one frame past the window is accepted and its frame replaces that of another index of the window |
| PlayoutLimits.PastWindowHeard | unimrcp-1.5.0/libs/mpf/src/mpf_jitter_buffer.c:324-347 | from a created buffer on, such a packet is heard in the place of one that waited |
| SteadyStream.SteadyStream | unimrcp-1.5.0/libs/mpf/src/mpf_jitter_buffer.c:222-354 | from a created buffer on, whatever its first timestamp, every frame of a stream at the pace of the reader is taken and heard in its turn, as many reads later as the playout delay holds frames |
| Arrivals.LateGrows | unimrcp-1.5.0/libs/mpf/src/mpf_jitter_buffer.c:222-354 | a packet that belongs between writer and reader is taken if and only if the buffer is adaptive and the delay plus what it is late does not pass the maximum; it is stored at the reader then and the delay has grown by exactly that, and otherwise nothing changes |
| Arrivals.LateFollows | unimrcp-1.5.0/libs/mpf/src/mpf_jitter_buffer.c:258-321 | with skew detection the offset follows the whole frames of skew first, the adjustment is widened to the whole frames of spread beyond the delay, and the packet is taken if and only if nothing is missing then or the delay may grow by it |
| Arrivals.InTime | unimrcp-1.5.0/libs/mpf/src/mpf_jitter_buffer.c:222-354 | a packet that belongs at or behind the reader, inside the window, is stored there frame by frame, and nothing else changes but the writer |
| Arrivals.OutOfOrder | unimrcp-1.5.0/libs/mpf/src/mpf_jitter_buffer.c:252-256 | one that belongs before the reader and before the writer is too late and changes nothing |
| Arrivals.AtWindowEnd | unimrcp-1.5.0/libs/mpf/src/mpf_jitter_buffer.c:324-330 | one that belongs exactly at the end of the window is too early and changes nothing |
| Arrivals.FirstAtDelay | unimrcp-1.5.0/libs/mpf/src/mpf_jitter_buffer.c:196-220 | the first packet, one after a restart and one with a marker on an empty buffer is put the playout delay behind the reader |
| Arrivals.NewEventStored | unimrcp-1.5.0/libs/mpf/src/mpf_jitter_buffer.c:364-395 | an event is new if marked, the first, another one, or more than four frames behind the end of the last update, and is stored where its packet belongs |
| Arrivals.SegmentNotStored | unimrcp-1.5.0/libs/mpf/src/mpf_jitter_buffer.c:364-395 | the first packet of a new segment is not stored |
| Arrivals.UpdateStoredIff | unimrcp-1.5.0/libs/mpf/src/mpf_jitter_buffer.c:396-411 | an update is stored if and only if it lasts longer than the last one or is the first to end, that much behind the beginning of the event as the last one lasted |
| Arrivals.EventInTime | unimrcp-1.5.0/libs/mpf/src/mpf_jitter_buffer.c:438-464 | an event meant for a position at or behind the reader goes to its slot inside the window and is refused as too early past it; flags, marker, writer and the slot of the next update are as stated, and a refusal changes nothing |
| Arrivals.EventLate | unimrcp-1.5.0/libs/mpf/src/mpf_jitter_buffer.c:413-464 | an event meant for a position before the reader goes to the reader, with the delay raised by exactly what it is late, if and only if the delay may grow by that; a refusal changes nothing |
| Arrivals.ReadMeasures | unimrcp-1.5.0/libs/mpf/src/mpf_jitter_buffer.c:163-188 | with skew detection a read keeps the least and the greatest lead of the writer, and after 50 of them both begin anew at their mean |
| TaskProtocol.RequestsComplete | unimrcp-1.5.0/libs/apr-toolkit/src/apt_task.c:289-562 | for every tree of n tasks, every schedule, and a request of either or of both kinds at a resting root: no completion is unexpected, every counter is exactly the number of children outstanding once the request has reached a child and zero before, completions are raised once, children first and the root last, and the queues are empty after exactly 2n-1 messages per request, no sooner and no later |
| TaskProtocol.StepInv | unimrcp-1.5.0/libs/apr-toolkit/src/apt_task.c:301-330 | each message handled keeps the invariant of its kind and leaves one message less |
| TaskProtocol.StepUntouched | unimrcp-1.5.0/libs/apr-toolkit/src/apt_task.c:301-330 | a message of one kind changes nothing of the other kind |
| TaskProtocol.FindWork | unimrcp-1.5.0/libs/apr-toolkit/src/apt_task.c:406-524 | while a request is under way some task has a message to handle |
| TaskProtocol.AnswerTells | unimrcp-1.5.0/libs/apr-toolkit/src/apt_task.c:301-348 | a completion is expected exactly if a child is outstanding, and one that is not changes nothing |
| MediaContext.TopologyCovers | unimrcp-1.5.0/libs/mpf/src/mpf_context.c:381-535 | the objects requested carry exactly the associations, each once, but twice where the source has several sinks and the sink several sources |
| MediaContext.ListsExact | unimrcp-1.5.0/libs/mpf/src/mpf_context.c:479-535 | sink and source lists hold exactly the members of the row and of the column |
| MediaContext.ConnectCounted | unimrcp-1.5.0/libs/mpf/src/mpf_context.c:264-280 | setting an entry and raising two byte counters keeps counts equal to row and column sums, for capacities up to 255 |
| MediaContext.DisconnectCounted | unimrcp-1.5.0/libs/mpf/src/mpf_context.c:306-318 | clearing an entry and lowering two counters keeps them equal too |
| MediaContext.SeenAll | unimrcp-1.5.0/libs/mpf/src/mpf_context.c:210-214 | once as many occupied slots were seen as are counted, the rest of the slots is free |
| MediaContext.CompatibleIff | unimrcp-1.5.0/libs/mpf/src/mpf_context.c:242-282 | only a stream that receives is joined to one that sends |
| MediaContext.MultiplierBeforeMixer | unimrcp-1.5.0/libs/mpf/src/mpf_context.c:381-415 | a slot with several sinks and several sources asks for the multiplier, then the mixer |
| DtmfEndToEnd.DigitsEndToEnd | unimrcp-1.5.0/libs/mpf/src/mpf_dtmf_generator.c:161-339 | over any interleaving of queueing, frames and fetching: with tones longer than a frame the detector reports exactly the valid digits that left the queue, once and in order, otherwise none; each is buffered, consumed or counted as lost |
| DtmfEndToEnd.GeneratorDrains | unimrcp-1.5.0/libs/mpf/src/mpf_dtmf_generator.c:201-339 | the generator is idle with an empty queue after a bounded number of frames |
| Dtmf.EventIdsInvertChars | unimrcp-1.5.0/libs/mpf/src/mpf_named_event.c:48-74 | the conversions between characters and event ids invert each other on valid digits and mark all others |
| DtmfTone.EventTable | unimrcp-1.5.0/libs/mpf/src/mpf_named_event.c:48-74 | the event of a digit is its place in 0123456789*#ABCD |
| DtmfTone.DigitFrames | unimrcp-1.5.0/libs/mpf/src/mpf_dtmf_generator.c:201-339 | what each frame of a digit carries: durations growing by a frame up to 0xFFFF, segments begun anew behind it and marked, edge and end of event on the last frame of the tone and two repetitions alone, then as many silent frames as the silence takes |
| DtmfTone.OneSegment | unimrcp-1.5.0/libs/mpf/src/mpf_dtmf_generator.c:238-331 | in a tone of one segment the k-th frame carries k frames, and the last one and both repetitions the whole tone |
| DtmfTone.RepeatsAgreeIff | unimrcp-1.5.0/libs/mpf/src/mpf_dtmf_generator.c:268-331 | the repetitions carry the duration of the last frame, unless that begins a new segment: then they carry 0xFFFF |
| DtmfTone.QueueHolds | unimrcp-1.5.0/libs/mpf/src/mpf_dtmf_generator.c:161-182 | 32 characters wait at most, and digits without room are refused together |
| DtmfTone.BufferHolds | unimrcp-1.5.0/libs/mpf/src/mpf_dtmf_detector.c:167-179 | 32 digits are kept, and those that come after are counted as lost |
| TimerRuns.RunGood | unimrcp-1.5.0/libs/apr-toolkit/src/apt_timer_queue.c:72-242 | from the creation of the queue on, between calls the list is sorted, every timer lies in the future and the time base is below 0xFFFF, so the timeout reported is exact |
| TimerRuns.AdvanceGood | unimrcp-1.5.0/libs/apr-toolkit/src/apt_timer_queue.c:72-115 | an advance fires only timers that became due, each once, by time and then by setting order, and every due one unless a callback that ran set or killed it, and calls no more callbacks than there were timers, even if each sets its timer again; at a rebase it fires exactly those that are due |
| TimerRuns.AdvanceFitsIff | unimrcp-1.5.0/libs/apr-toolkit/src/apt_timer_queue.c:90-107 | the calls made during an advance insert no timer twice if and only if, where the time is rebased, the callback of none of the timers due at that moment sets one that comes behind its own among them |
| TimerRuns.CallbacksSuffice | unimrcp-1.5.0/libs/apr-toolkit/src/apt_timer_queue.c:90-107 | as many callbacks as there were timers are all that an advance can call: what further ones would do changes nothing |
| TimerFiring.RebaseKeepsIff | unimrcp-1.5.0/libs/apr-toolkit/src/apt_timer_queue.c:232-242 | a rebase keeps the time that remains of a timer if and only if it is not overdue |
| TimerFiring.CallKeepsMidIff | unimrcp-1.5.0/libs/apr-toolkit/src/apt_timer_queue.c:161-199 | setting or killing a timer keeps the list sorted and without repetition if and only if it does not set a timer that is in the list with time zero |
| TimerFiring.SetIsLaterIff | unimrcp-1.5.0/libs/apr-toolkit/src/apt_timer_queue.c:161-186 | a timer is set to a time later than now if and only if that time does not overflow |
| TimerRebase.OverdueIsLost | unimrcp-1.5.0/libs/apr-toolkit/src/apt_timer_queue.c:85-107 | a rebase that finds any timer overdue fires nothing, whatever the queue and the callbacks, and leaves to each overdue timer almost the whole 32-bit range |
| TimerRebase.KillMissesIff | unimrcp-1.5.0/libs/apr-toolkit/src/apt_timer_queue.c:85-112 | any due timer that the callback of the first one kills does not fire, unless the time is rebased at that moment: then all that are due fire |
| TimerRebase.SetMissesIff | unimrcp-1.5.0/libs/apr-toolkit/src/apt_timer_queue.c:85-186 | set anew in place of killed, it does not fire if the time is not rebased; at a rebase it is inserted a second time |
| TimerLinks.LinksAreTheList | unimrcp-1.5.0/libs/apr-toolkit/src/apt_timer_queue.c:72-242 | over every run from creation that sets no timer twice into the list, the links between timers hold the list of the other theorems |
| TimerLinks.CallKeepsRingIff | unimrcp-1.5.0/libs/apr-toolkit/src/apt_timer_queue.c:161-230 | after a call the links form a ring of distinct timers if and only if no timer in the list was inserted again |
| TimerLinks.AdvanceNeverEnds | unimrcp-1.5.0/libs/apr-toolkit/src/apt_timer_queue.c:85-107 | two timers due at a rebase, of which the first sets the second before all others: the second then leads to itself, and the next advance that finds it due calls its callback as often as one waits and does not end |
| TimerTimes.AdvanceBelow | unimrcp-1.5.0/libs/apr-toolkit/src/apt_timer_queue.c:72-115 | with callbacks that do nothing and the time below 0xFFFF, an advance fires the timers due, in the order of the list, and the time moves on |
| TimerTimes.AdvanceRebased | unimrcp-1.5.0/libs/apr-toolkit/src/apt_timer_queue.c:72-115 | from 0xFFFF on, with no timer overdue, it fires the timers due, the time begins at zero and the others keep what remains to them |
| TimerTimes.SetFiresOnTime | unimrcp-1.5.0/libs/apr-toolkit/src/apt_timer_queue.c:72-186 | a timer that was set fires in the one of any advances to come in which their times together reach its timeout, and in no other |
| TimerTimes.KilledIsOut | unimrcp-1.5.0/libs/apr-toolkit/src/apt_timer_queue.c:189-230 | a killed timer is out of the list, the others stay, and an emptied list resets the time |
| TimerTimes.AnswersTell | unimrcp-1.5.0/libs/apr-toolkit/src/apt_timer_queue.c:161-199 | setting fails for no time at all and killing for a timer that is not set, and a failure changes nothing |
| RtpRuns.NearKeptIff | unimrcp-1.5.0/libs/mpf/src/mpf_rtp_stream.c:703-725 | after one packet the history tells the highest number if and only if the packet, when ahead, is fewer than 3000 ahead, as far as 32 bits tell, and, when behind, does not look in 16 bits as if it were fewer than 3000 ahead, so that up to 62536 behind does no harm |
| RtpRuns.ExtendedNumber | unimrcp-1.5.0/libs/mpf/src/mpf_rtp_stream.c:703-725 | for any arrival order near the highest number in that exact sense, across any number of wraps, the extended number received is the highest minus the first |
| RtpRuns.ReportsExact | unimrcp-1.5.0/libs/mpf/src/mpf_rtp_stream.c:607-860 | over all runs with restarts and source changes the report intervals do not underflow, packets expected mean a packet received, and the fraction fits its eight bits for any number lost and is exact below 2^24 |
| RtpRuns.JitterKeptIff | unimrcp-1.5.0/libs/mpf/src/mpf_rtp_stream.c:732-773 | a packet leaves a bounded jitter within 16*4000-8 if and only if its transit difference is not -2^31, which passes the test for drift |
| RtpRuns.JitterBoundedIff | unimrcp-1.5.0/libs/mpf/src/mpf_rtp_stream.c:732-860 | over all runs the jitter stays within that bound if and only if no packet meets that difference |
| RtpRuns.JitterBoundTight | unimrcp-1.5.0/libs/mpf/src/mpf_rtp_stream.c:732-773 | the bound on the jitter is kept by deviations up to the threshold, and by no larger one |
| RtpRuns.FractionFits | unimrcp-1.5.0/libs/mpf/src/mpf_rtp_stream.c:632-646 | fewer lost than expected gives a fraction below 256 |
| RtpPackets.JitterFollows | unimrcp-1.5.0/libs/mpf/src/mpf_rtp_stream.c:732-773 | a packet deviates by the difference of the samples that passed since the last one and the step of its timestamp: up to 4000 the jitter becomes j + d - (j + 8)/16, and beyond the receiver restarts |
| RtpPackets.NominalPace | unimrcp-1.5.0/libs/mpf/src/mpf_rtp_stream.c:732-860 | a stream whose timestamps keep pace with its arrivals has no jitter and causes no restart over any run |
| RtpPackets.SixthTakesOver | unimrcp-1.5.0/libs/mpf/src/mpf_rtp_stream.c:666-695 | a source not heard before the last packet of the one received is taken over with its sixth packet in a row, and not before |
| RtpPackets.StaysInProbation | unimrcp-1.5.0/libs/mpf/src/mpf_rtp_stream.c:666-695 | a packet of another source brings it one nearer and leaves no trace but a count; a counter at rest goes round its byte, so that source zero takes 256 packets |
| RtpPackets.TakenOver | unimrcp-1.5.0/libs/mpf/src/mpf_rtp_stream.c:666-695 | the last packet of the probation restarts the receiver with itself as the first |
| RtpPackets.KnownEndsProbation | unimrcp-1.5.0/libs/mpf/src/mpf_rtp_stream.c:666-695 | a packet of the source being received ends the probation of any other |
| RtpPackets.RefusedRestartsIff | unimrcp-1.5.0/libs/mpf/src/mpf_rtp_stream.c:775-860 | a refused packet is counted, and restarts the receiver if and only if more than 30 per cent of the packets since the last report were refused |
| RtpPackets.OtherKinds | unimrcp-1.5.0/libs/mpf/src/mpf_rtp_stream.c:788-860 | events and other payloads touch neither jitter nor times, and are counted |
| RtpPackets.SinceLastReport | unimrcp-1.5.0/libs/mpf/src/mpf_rtp_stream.c:607-658 | a report counts from the one before, over any packets without a restart |
| RtpPackets.LostField | unimrcp-1.5.0/libs/mpf/src/mpf_rtp_stream.c:607-658 | the number of lost packets is what is expected beyond what came, in a signed field of 24 bits |
| RtpPackets.SequenceAnswer | unimrcp-1.5.0/libs/mpf/src/mpf_rtp_stream.c:703-725 | less than 3000 ahead is in sequence, less than 100 behind misordered, and in between drifted |
| ChunkBuffer.TakenBytes | unimrcp-1.5.0/libs/mpf/src/mpf_buffer.c:119-168 | a read takes the next bytes of the concatenated chunks and leaves the others |
| ChunkBuffer.TakenKinds | unimrcp-1.5.0/libs/mpf/src/mpf_buffer.c:136-137 | the types reported are those of exactly the chunks touched |
| PortRange.PortsPartitioned | unimrcp-1.5.0/libs/mpf/src/mpf_rtp_termination_factory.c:143-178 | every port of the range falls to exactly one engine |
| PortRange.PartsInRange | unimrcp-1.5.0/libs/mpf/src/mpf_rtp_termination_factory.c:143-178 | the parts are consecutive, inside the range, and all but the last of even length |
| PortRange.PerEngineIsLargest | unimrcp-1.5.0/libs/mpf/src/mpf_rtp_termination_factory.c:143-178 | no larger even number of ports is there for each engine |
| PortRange.CandidatesAreThePairs | unimrcp-1.5.0/libs/mpf/src/mpf_rtp_stream.c:169-186 | the candidates of a search are every other port of the part from its first on, each once |
| PortRange.PairsInsideIff | unimrcp-1.5.0/libs/mpf/src/mpf_rtp_stream.c:169-186 | both ports of every candidate are inside the part if and only if its length is even; otherwise the second port of the last one is the end of the part |
| PortRange.StaysInPartIff | unimrcp-1.5.0/libs/mpf/src/mpf_rtp_stream.c:169-186 | a search begun at a pair never leaves its part if and only if the 16-bit cursor does not wrap behind the last pair: otherwise it goes on at port zero, below the part |
| PortRange.SearchEndsIff | unimrcp-1.5.0/libs/mpf/src/mpf_rtp_stream.c:169-186 | with no port free the cursor comes back to where the search began, which ends it, if and only if it began at a pair of the part |
| PortRange.KeptCursorIff | unimrcp-1.5.0/libs/mpf/src/mpf_rtp_termination_factory.c:143-178 | the first engine keeps its cursor when another is assigned: it is still at a pair of its part if and only if it lies before the new end |
| TextStream.TextReader.LineRead | unimrcp-1.5.0/libs/apr-toolkit/src/apt_text_stream.c:29-67 | reads one line ended by CR, LF or CRLF, or hits the end of the text |
| TextStream.TextReader.HeaderRead | unimrcp-1.5.0/libs/apr-toolkit/src/apt_text_stream.c:81-146 | reads a header line as name and value, told by the marks its scan leaves |
| TextStream.TextReader.HeaderScan | unimrcp-1.5.0/libs/apr-toolkit/src/apt_text_stream.c:86-129 | the scan for name and value ends at the line end |
| TextStream.TextReader.Skip | unimrcp-1.5.0/libs/apr-toolkit/include/apt_text_stream.h:177-206 | skips as far as the characters belong to a set, or until one does |
| TextStream.TextReader.CharSkip | unimrcp-1.5.0/libs/apr-toolkit/include/apt_text_stream.h:191-194 | skips one given character if it comes next |
| TextStream.TextWriter.StringInsert | unimrcp-1.5.0/libs/apr-toolkit/src/apt_text_stream.c:452-462 | inserts a string if a place stays free after it, or changes nothing |
| TextStream.TextWriter.EolInsert | unimrcp-1.5.0/libs/apr-toolkit/include/apt_text_stream.h:138-146 | inserts CR LF likewise |
| TextStream.TextWriter.HeaderNameInsert | unimrcp-1.5.0/libs/apr-toolkit/src/apt_text_stream.c:245-257 | inserts a name, colon and space likewise |
| TextStream.TextWriter.NameValueInsert | unimrcp-1.5.0/libs/apr-toolkit/src/apt_text_stream.c:226-242 | inserts a whole header line, or only its text where the line end does not fit |
| TextMessage.FoldedLinesRead | unimrcp-1.5.0/libs/apr-toolkit/src/apt_text_message.c:66-84 | appends the lines that begin with white space, and stops at the first that does not |
| TextMessage.HeaderFieldParse | unimrcp-1.5.0/libs/apr-toolkit/src/apt_text_message.c:52-116 | parses one field with its folded lines |
| TextMessage.HeaderSectionParse | unimrcp-1.5.0/libs/apr-toolkit/src/apt_text_message.c:125-150 | appends fields up to the empty line or the end of the text |
| TextMessage.HeaderSectionGenerate | unimrcp-1.5.0/libs/apr-toolkit/src/apt_text_message.c:153-163 | prints the fields that fit and the empty line; success speaks of the empty line only |
| Printing.LongFieldIsDropped | unimrcp-1.5.0/libs/apr-toolkit/src/apt_text_message.c:153-163 | a field that does not fit is left out although success is reported |
| MessageParser.Parser.Run | unimrcp-1.5.0/libs/apr-toolkit/src/apt_text_message.c:252-339 | one call of the parser equals the step function on state and text |
| MessageParser.Parser.HeaderStage | unimrcp-1.5.0/libs/apr-toolkit/src/apt_text_message.c:280-334 | header stage, and body stage when a body follows |
| MessageParser.Parser.BodyRead | unimrcp-1.5.0/libs/apr-toolkit/src/apt_text_message.c:165-191 | the body grows by what is available of what is required |
| MessageParser.Parser.CrlfSegmentationTest | unimrcp-1.5.0/libs/apr-toolkit/src/apt_text_message.c:242-249 | a text that ends in CR makes the parser expect LF next |
| MessageParser.Connection.Receive | unimrcp-1.5.0/libs/apr-toolkit/src/apt_text_stream.c:172-189 | a delivery is parsed behind the tail carried over, and leaves the next tail |
| MessageGenerator.Generator.Run | unimrcp-1.5.0/libs/apr-toolkit/src/apt_text_message.c:383-437 | one call of the generator equals the step function on progress and room |
| MessageGenerator.Generator.BodyWrite | unimrcp-1.5.0/libs/apr-toolkit/src/apt_text_message.c:193-222 | as much of the body as fits is written and accounted for |
| Multipart.MultipartWriter.Initialize | unimrcp-1.5.0/libs/apr-toolkit/src/apt_multipart_content.c:68-83 | writes the line end and the boundary line before a part, piece by piece up to the first that does not fit |
| Multipart.MultipartWriter.Add2 | unimrcp-1.5.0/libs/apr-toolkit/src/apt_multipart_content.c:107-156 | writes a part: boundary, header lines, decimal length, empty line, body; success means that the part fits, and otherwise the text left behind is that of the pieces that fitted |
| Multipart.MultipartWriter.Finalize | unimrcp-1.5.0/libs/apr-toolkit/src/apt_multipart_content.c:159-185 | writes the final boundary and returns the whole content |
| Multipart.MultipartReader.DelimiterRead | unimrcp-1.5.0/libs/apr-toolkit/src/apt_multipart_content.c:232-259 | moves past the next boundary line and tells a final one |
| Multipart.MultipartReader.PartRead | unimrcp-1.5.0/libs/apr-toolkit/src/apt_multipart_content.c:279-310 | reads header section and body of a part |
| Multipart.MultipartReader.Get | unimrcp-1.5.0/libs/apr-toolkit/src/apt_multipart_content.c:220-310 | the next part, the final boundary, or failure |
| Multipart.ParseDelimiter | unimrcp-1.5.0/libs/apr-toolkit/src/apt_multipart_content.c:249-259 | trims trailing spaces and recognises the final boundary |
| JitterBuffer.JitterBuffer.constructor | unimrcp-1.5.0/libs/mpf/src/mpf_jitter_buffer.c:76-133 | the configured delays are completed and rounded, and a created buffer has empty slots and waits to synchronise |
| JitterBuffer.JitterBuffer.Restart | unimrcp-1.5.0/libs/mpf/src/mpf_jitter_buffer.c:139-155 | synchronises anew at the reader and leaves the slots |
| JitterBuffer.JitterBuffer.StatUpdate | unimrcp-1.5.0/libs/mpf/src/mpf_jitter_buffer.c:163-188 | minimum and maximum of the measured length |
| JitterBuffer.JitterBuffer.WritePrepare | unimrcp-1.5.0/libs/mpf/src/mpf_jitter_buffer.c:196-220 | maps a sender timestamp to an aligned position |
| JitterBuffer.JitterBuffer.SkewAdjust | unimrcp-1.5.0/libs/mpf/src/mpf_jitter_buffer.c:262-296 | moves the offset with the clock skew and tells what adjustment is left |
| JitterBuffer.JitterBuffer.DelayExtend | unimrcp-1.5.0/libs/mpf/src/mpf_jitter_buffer.c:298-321 | grows the delay by the adjustment, or refuses |
| JitterBuffer.JitterBuffer.AudioPlace | unimrcp-1.5.0/libs/mpf/src/mpf_jitter_buffer.c:229-322 | the position of an audio packet, or that it is late |
| JitterBuffer.JitterBuffer.FramesStore | unimrcp-1.5.0/libs/mpf/src/mpf_jitter_buffer.c:332-343 | stores whole frames of the payload in consecutive slots |
| JitterBuffer.JitterBuffer.Write | unimrcp-1.5.0/libs/mpf/src/mpf_jitter_buffer.c:222-354 | the whole new state and the result of an audio write |
| JitterBuffer.JitterBuffer.EventDetect | unimrcp-1.5.0/libs/mpf/src/mpf_jitter_buffer.c:364-395 | recognises a new event or a new segment |
| JitterBuffer.JitterBuffer.EventPlace | unimrcp-1.5.0/libs/mpf/src/mpf_jitter_buffer.c:411-445 | the position of an event update |
| JitterBuffer.JitterBuffer.EventStore | unimrcp-1.5.0/libs/mpf/src/mpf_jitter_buffer.c:447-464 | stores an event, to be compared with the next update |
| JitterBuffer.JitterBuffer.EventWrite | unimrcp-1.5.0/libs/mpf/src/mpf_jitter_buffer.c:356-465 | the whole new state and the result of an event write |
| JitterBuffer.JitterBuffer.Read | unimrcp-1.5.0/libs/mpf/src/mpf_jitter_buffer.c:467-499 | hands out the slot of the reader, clears it and moves on |
| TaskTree.TaskSystem.RequestProcess | unimrcp-1.5.0/libs/apr-toolkit/src/apt_task.c:406-436 | sends the request to each child, counts it, and raises the completion if there is none |
| TaskTree.TaskSystem.RequestComplete | unimrcp-1.5.0/libs/apr-toolkit/src/apt_task.c:500-524 | counts a completion back, or reports that nothing is pending |
| TaskTree.TaskSystem.CompleteRaise | unimrcp-1.5.0/libs/apr-toolkit/src/apt_task.c:546-562 | raises a completion and signals the parent |
| TaskTree.TaskSystem.MsgProcess | unimrcp-1.5.0/libs/apr-toolkit/src/apt_task.c:301-348 | a task handles the next message of its queue |
| TaskTree.TaskSystem.MsgSignal | unimrcp-1.5.0/libs/apr-toolkit/src/apt_task.c:261-275 | a message joins the end of a queue |
| MediaContext.Context.constructor | unimrcp-1.5.0/libs/mpf/src/mpf_context.c:112-149 | an empty context |
| MediaContext.Context.TerminationAdd | unimrcp-1.5.0/libs/mpf/src/mpf_context.c:170-193 | takes the first free slot, or fails when all are occupied, and joins the ring when it is the first |
| MediaContext.Context.TerminationSubtract | unimrcp-1.5.0/libs/mpf/src/mpf_context.c:195-240 | frees the slot, removes exactly the associations that touch it, and leaves the ring when it is the last |
| MediaContext.Context.AssociationAdd | unimrcp-1.5.0/libs/mpf/src/mpf_context.c:242-282 | adds the two directions that the streams allow, and nothing else |
| MediaContext.Context.AssociationRemove | unimrcp-1.5.0/libs/mpf/src/mpf_context.c:284-320 | removes the two directions, and nothing else |
| MediaContext.Context.AssociationsReset | unimrcp-1.5.0/libs/mpf/src/mpf_context.c:322-366 | clears the whole matrix despite the loops cut short |
| MediaContext.Context.TopologyApply | unimrcp-1.5.0/libs/mpf/src/mpf_context.c:381-415 | requests the objects of the matrix, slot by slot |
| MediaContext.Context.BridgeCreate | unimrcp-1.5.0/libs/mpf/src/mpf_context.c:445-477 | a bridge to the only sink, or none where a mixer feeds it |
| MediaContext.Context.MultiplierCreate | unimrcp-1.5.0/libs/mpf/src/mpf_context.c:479-506 | a multiplier to all sinks |
| MediaContext.Context.MixerCreate | unimrcp-1.5.0/libs/mpf/src/mpf_context.c:508-535 | a mixer of all sources |
| Dtmf.Generator.constructor | unimrcp-1.5.0/libs/mpf/src/mpf_dtmf_generator.c:127-158 | durations in units of the event clock |
| Dtmf.Generator.Enqueue | unimrcp-1.5.0/libs/mpf/src/mpf_dtmf_generator.c:161-182 | queues all the digits or none |
| Dtmf.Generator.DigitTake | unimrcp-1.5.0/libs/mpf/src/mpf_dtmf_generator.c:207-211 | takes digits off the queue up to the first valid one |
| Dtmf.Generator.TonePut | unimrcp-1.5.0/libs/mpf/src/mpf_dtmf_generator.c:238-297 | the frames of a tone, with segments for long ones |
| Dtmf.Generator.EndingPut | unimrcp-1.5.0/libs/mpf/src/mpf_dtmf_generator.c:304-331 | the final packet is sent twice more |
| Dtmf.Generator.FramePut | unimrcp-1.5.0/libs/mpf/src/mpf_dtmf_generator.c:201-339 | one frame in any state |
| Dtmf.Detector.DigitAdd | unimrcp-1.5.0/libs/mpf/src/mpf_dtmf_detector.c:167-179 | buffers a digit or counts it as lost |
| Dtmf.Detector.FrameGet | unimrcp-1.5.0/libs/mpf/src/mpf_dtmf_detector.c:263-280 | reports the digit of a frame that starts an event |
| Dtmf.Detector.DigitGet | unimrcp-1.5.0/libs/mpf/src/mpf_dtmf_detector.c:137-148 | hands out the first digit |
| TimerQueue.Timers.TimerInsert | unimrcp-1.5.0/libs/apr-toolkit/src/apt_timer_queue.c:201-215 | inserts behind the last timer that is not scheduled later |
| TimerQueue.Timers.TimerRemove | unimrcp-1.5.0/libs/apr-toolkit/src/apt_timer_queue.c:217-230 | removes a timer; an emptied list resets the time base |
| TimerQueue.Timers.Set | unimrcp-1.5.0/libs/apr-toolkit/src/apt_timer_queue.c:161-186 | sets a timer anew, relative to the time base |
| TimerQueue.Timers.KillTimer | unimrcp-1.5.0/libs/apr-toolkit/src/apt_timer_queue.c:189-199 | removes a timer that is set |
| TimerQueue.Timers.Reschedule | unimrcp-1.5.0/libs/apr-toolkit/src/apt_timer_queue.c:232-242 | subtracts the elapsed time everywhere |
| TimerQueue.Timers.Advance | unimrcp-1.5.0/libs/apr-toolkit/src/apt_timer_queue.c:72-115 | moves the time and fires what is due, callbacks included |
| TimerQueue.Timers.TimeoutGet | unimrcp-1.5.0/libs/apr-toolkit/src/apt_timer_queue.c:124-146 | time until the first timer |
| RtpReceiver.Receiver.Restart | unimrcp-1.5.0/libs/mpf/src/mpf_rtp_stream.c:554-575 | clears statistics and histories but for the number of restarts and the report |
| RtpReceiver.Receiver.SsrcUpdate | unimrcp-1.5.0/libs/mpf/src/mpf_rtp_stream.c:666-695 | probation of a new source |
| RtpReceiver.Receiver.SeqUpdate | unimrcp-1.5.0/libs/mpf/src/mpf_rtp_stream.c:703-725 | highest sequence number, cycles and packets received |
| RtpReceiver.Receiver.TsUpdate | unimrcp-1.5.0/libs/mpf/src/mpf_rtp_stream.c:732-773 | jitter from the deviation, or drift |
| RtpReceiver.Receiver.ThresholdCheck | unimrcp-1.5.0/libs/mpf/src/mpf_rtp_stream.c:775-786 | too many discarded packets restart the receiver |
| RtpReceiver.Receiver.PacketReceive | unimrcp-1.5.0/libs/mpf/src/mpf_rtp_stream.c:788-860 | one packet received |
| RtpReceiver.Receiver.PeriodicHistoryUpdate | unimrcp-1.5.0/libs/mpf/src/mpf_rtp_stream.c:607-658 | fraction and number of lost packets since the last report |
| ChunkBuffer.Buffer.AudioWrite | unimrcp-1.5.0/libs/mpf/src/mpf_buffer.c:83-100 | appends a chunk of bytes |
| ChunkBuffer.Buffer.EventWrite | unimrcp-1.5.0/libs/mpf/src/mpf_buffer.c:102-117 | appends a chunk without bytes |
| ChunkBuffer.Buffer.FrameRead | unimrcp-1.5.0/libs/mpf/src/mpf_buffer.c:119-168 | fills a frame with the next bytes and zeros, adds the types of the chunks touched, keeps the size equal to the bytes unread, and ends |
| CyclicQueue.Queue.Push | unimrcp-1.5.0/libs/apr-toolkit/src/apt_cyclic_queue.c:50-62 | appends an element, growing if need be |
| CyclicQueue.Queue.Pop | unimrcp-1.5.0/libs/apr-toolkit/src/apt_cyclic_queue.c:64-73 | removes and returns the first element |
| CyclicQueue.Queue.Clear | unimrcp-1.5.0/libs/apr-toolkit/src/apt_cyclic_queue.c:75-79 | empties the queue |
| CyclicQueue.Queue.IsEmpty | unimrcp-1.5.0/libs/apr-toolkit/src/apt_cyclic_queue.c:81-84 | true if there are elements, the opposite of the name |
| CyclicQueue.Queue.Resize | unimrcp-1.5.0/libs/apr-toolkit/src/apt_cyclic_queue.c:86-104 | moves a full queue to a larger array with the same contents |
| PortRange.Factory.EngineAssign | unimrcp-1.5.0/libs/mpf/src/mpf_rtp_termination_factory.c:120-180 | a known engine changes nothing, a new one splits the range anew, whatever ports were used: all cursors but the first begin anew |
| PortRange.Factory.RangesRewrite | unimrcp-1.5.0/libs/mpf/src/mpf_rtp_termination_factory.c:143-178 | the parts begin where the ones before end |
| PortRange.PortPool.PortFind | unimrcp-1.5.0/libs/mpf/src/mpf_rtp_stream.c:169-196 | the first free pair in cyclic order, or none after each was tried once |

## Left out

- Segmentation.SegmentationIndependence: speaks of messages, parser and tail; the invalid statuses returned on the way depend on the cut, because a rejected start line at the end of a buffer is reported as incomplete. It asks that the empty start line be rejected, as the protocols do, and that no line is folded: where a fold adds text the cuts disagree (`FoldCuts.FoldedCutsDisagree`), and where it is white space alone they may agree (`FoldCuts.BlankFoldAgrees`).
- Multipart.PartRoundTripsIff: does not model a negative or overflowing Content-Length, for which the original moves its position out of the text; the model refuses such a part.
- MessageParser.Connection.Receive: does not model the fixed size of the receive buffer; the tail and a delivery always fit.
- TextStream.TextReader.LineRead: reads from an immutable text, because the parsers do not write to their stream; scrolling the buffer is the concatenation of tail and delivery.
- MessageGenerator.Generator.Run: takes the start line as given text; the callback that computes it, message-length included, is a parameter.
- JitterBuffer.JitterBuffer.FramesStore: uses the dissector that cuts frames of a fixed size; codecs with a dissector of their own are not modelled.
- LatePlacement.LateNeverPast: reader and writer are at most `span` apart, where `span` is a parameter that leaves the measured lengths room in the signed 32-bit range, beyond which they are misread; positions go up to the end of the 32-bit range and do not wrap.
- Playout.RingRefinesPlan: speaks of runs inside the window (see `PlayoutLimits.TooEarlyIff`) whose positions do not wrap.
- PlayoutLimits.RestartCleanIff: asks that five times the maximum delay lies between the reader and the end of the 32-bit range.
- TaskProtocol.RequestsComplete: every task accepts signals; a handler runs as one step over FIFO queues. Threads, mutexes, starting and the synchronous termination are not modelled.
- MediaContext.Context.TopologyApply: names objects by slots; whether codecs allow an object to be created, and processing of the objects, are not modelled.
- MediaContext.Context.AssociationAdd: header and matrix are sequences reassigned by the methods, not arrays updated in place.
- DtmfEndToEnd.DigitsEndToEnd: sampling rates of at least 1000 Hz and durations that do not pass the 32-bit range; resets of generator and detector are not modelled.
- TimerRuns.AdvanceGood: asks what a caller can see: timeouts up to 0xFFFF0000, no 32-bit overflow of the time, at a rebase no timer overdue (`TimerRebase.OverdueIsLost` says what happens otherwise), and there no callback that sets a timer due at that moment before it fires (`TimerRebase.SetMissesIff`, `TimerLinks.AdvanceNeverEnds`).
- TimerQueue.Timers.Set: a timer set while it is in the list with time zero is held twice by the sequence modelled here; what becomes of the links is in TimerLinks, which models the ring macros of the Apache Portable Runtime on values.
- TimerQueue.Timers.Advance: callbacks set and kill timers and do nothing else to the queue.
- RtpRuns.ReportsExact: counters stay below 2^32 packets.
- CyclicQueue.Queue.constructor: asks for two places at least; with one the growth by half is none and the original writes past its array.
- PortRange.PortPool.PortFind: the search begins at a pair of the part, without which it may not end (`PortRange.SearchEndsIff`, for ranges that end below 65535), and the cursor does not wrap behind the last pair (`PortRange.StaysInPartIff`); binding sockets is a set of free ports.
- ChunkBuffer.Buffer.FrameRead: without restart, which drops the chunks but not the size.
- Header and start lines hold no NUL character, at which the original's string functions would stop.
- In-band DTMF, float values, G.711 and NLSML: floating point, tables and XML that are not part of this model.
- RTP extension headers, RTCP packet layout, the transmitter and the mixer's addition of samples.
- Sockets, pollsets, files, logging, directory layout, memory pools, stream vtables.
- Pair arrays, boolean values, completion causes and unique ids of the text stream: easy members.
