# Verified model of the telephony core

This project models the parts of the telephony library that turn byte streams into messages and keep
requests and responses together, and proves that they behave the same however their input is cut up,
interleaved or enumerated.

| files | component |
|---|---|
| `MuxFcs`, `MuxFrame`, `MuxDecoder`, `Mux`, `MuxHandshake`, `MuxEffects` | the CMUX basic-mode multiplexer (3GPP TS 27.010): frame check sequence, frame layout, the resumable stream decoder, the state of the eight channels, the handshake of two multiplexers, what each kind of frame does and that a damaged one does nothing |
| `AtLines`, `AtEngine`, `AtStream`, `AtRouting`, `AtFramed`, `AtPrompts`, `AtTokens` | the AT engine: receive buffer, lines, routing of lines by command type, text between line ends as modems send it, two-part commands (final results of 3GPP TS 27.007 Annex B), tokenizer |
| `Demux` | the physical line put together with the AT engines of the channels |
| `AtSession` | queue, adapter and AT engine of one channel together |
| `QueueOrder`, `HalRuns`, `HalEffects`, `HalCorrelation`, `HalInFlight`, `HalCancel`, `HalCallbacks`, `HalFailures`, `Hal` | the queue of pending requests and the adapter that sends them and matches their responses, cancels them and fails to send them |
| `Gsm7`, `Base64`, `Marshal` | packing of the default alphabet (3GPP TS 23.038 section 6.1.2), base 64 (RFC 4648 section 4), marshalling of nested tables |
| `SimXdn`, `BcdText` | dialing-number records of a SIM (3GPP TS 51.011 section 10.5.1) and the BCD reader of toolkit commands |
| `SatTlv`, `SatText`, `SatResponses` | toolkit objects and terminal responses (ETSI TS 102 223 section 8) |
| `PsSlots`, `PsAnswers`, `Ps` | the slot table of PDP context ids, and what activating, deactivating and clearing answer |

Code that updates state is a class or a method over an array, proved equal to a function of the old
state; the theorems are about these functions. The lemmas that say what one operation does write its octets,
characters and conditions out instead of using the functions. Calls into other components (logical adapters,
the modem object, user callbacks, plug-ins) are entries of a log or a result value. The outcome of a send is a
parameter. Octets are `bv8` where the code works on bits and a subset of `int` where it counts.

## Where the code does not keep a promise

These are stated as lemmas about the code as it is, most of them as the exact condition.

- A prompt that nothing answers moves the read position past the write position
  (`AtStream.OverrunExactlyAtBarePrompt`), so the result can depend on how the stream is cut
  (`AtStream.PromptDependsOnCut`): the streams that some cut makes overrun are exactly those outside
  `AtStream.SafeUnderEveryCut`. With a request outstanding and no second part the same happens exactly at a bare
  prompt before the final line (`AtRouting.ResponseExactly`). An answered prompt with octets behind it leaves a NUL
  at the read position, and no line is found after it (`AtStream.AnsweredPromptStalls`).
- A final line ends the call, and complete lines behind it are left for the next one, which takes them for the next
  request, although they had arrived before that was sent (`AtSession.EarlierLineAnswers`): every line of every
  response is a later one exactly when no idle send that gives the engine a request finds a complete line unread
  (`AtSession.SessionLater`, `AtSession.LeftUnread`).
- In AT mode a HIGH request made while another is in flight is given the other's response
  (`HalCorrelation.RequestKeepsHead`, `HalCorrelation.HighTakesOthersResponse`), and an IMMEDIATELY request
  into a queue that is not empty puts two in flight (`HalCorrelation.ImmediateDoublesInFlight`), of which the second
  is given no final line as long as no request is auto-free (`HalInFlight.SecondInFlightIsNeverAnswered`); an
  auto-free IMMEDIATELY one has it answered with its own final line (`HalInFlight.AutoFreeAnswersStuck`).
- A send that a hook stops leaves its request marked as sent although nothing was sent, and a request that is not
  IMMEDIATELY then blocks the queue (`HalFailures.StoppedSendBlocks`).
- A failed send drops the head of the queue, whichever request failed, and schedules no other
  (`HalFailures.FailedSendStaysAwake`, `HalFailures.FailedSendDropsItsOwn`, `HalFailures.FailedSendLosesWakeUp`); in
  AT mode the engine keeps the request, and the next final line is given to another (`HalFailures.FailedSendInAtMode`).
- Cancelling in AT mode does not end when there is something to cancel (`HalCancel.CancelEnds`). In CUSTOM mode it
  does not end when every callback makes a request with the command again (`HalCallbacks.EchoNeverEnds`,
  `HalCallbacks.EchoedRequest`; `HalCallbacks.CancelsExactly` says exactly when it ends).
- A marshalled table comes back exactly when no key has a blank or a colon (`Marshal.MarshalExactly`).
- A text of 127 characters, or of more than 254, is not read back (`SatTlv.TextRoundTrip`); nor is one of the
  default alphabet, which is written as it is and unpacked on reading, nor one with a message class
  (`SatText.TextHeld`, `SatTlv.DcsRoundTrip`).
- The scans of the slot table stop before slot 4, which can give one access point name two slots
  (`PsSlots.ActivateKeeps`, `PsSlots.OverlookedTwinIsReachable`); a context deactivated beside a twin keeps
  its id and is later activated without being listed (`PsSlots.AskedButUnlisted`, `PsSlots.StaleIdIsReachable`); and
  a context in the last slot can never be deactivated (`PsSlots.LastSlotRefused`, `PsSlots.LastSlotIsReachable`).
- The comment on dialing numbers says that 0xC is read as 0x70, a lower-case p; the code writes an upper-case
  P, and the model follows the code (`SimXdn.NumberRoundTrip`).

## Model

| member | source | states |
|---|---|---|
| MuxFcs.TableIsShift8 | src/mux.c:115-132 | every entry of the 256-entry table is eight steps of the bit-serial reversed CRC with polynomial x^8+x^2+x+1 |
| MuxFcs.OctetRegisterIsSerial | src/mux.c:442-445 | eight register shifts per octet compute the bit-serial register over the message bits, least significant first, for every message and start value |
| MuxFcs.TableLookup | src/mux.c:115-132 | a look-up in the table is the eight-fold shift |
| MuxFcs.CalcCrc | src/mux.c:437-452 | the table loop returns the bit-serial FCS, for headers of any length |
| MuxFcs.ResidueIff | src/mux.c:563-576 | one more step on the received FCS gives the residue 0xCF exactly for the complement of the register |
| MuxFcs.RcvCrcCheck | src/mux.c:559-577 | the check accepts exactly the FCS of the header |
| MuxFcs.FcsDetectsByteChange | src/mux.c:437-452 | changing any one octet of a header of any length changes its FCS |
| MuxFrame.LengthRoundTrip | src/mux.c:514-526 | the length indicator, of one or two octets, is read back as the length, wherever the frame stands |
| MuxFrame.Layout | src/mux.c:454-557 | the octets of an encodable frame written out: flag 0xF9, channel in the upper six bits with C/R and EA below, type with the P/F bit 0x10, length in one or two octets, information, FCS, flag |
| MuxFrame.FrameRoundTrip | src/mux.c:454-557 | reading an encoded frame from flag to flag gives the same channel, type, P/F, C/R, EA and information field, with an accepted FCS |
| MuxDecoder.RunSplit | src/mux.c:883-1013 | the decoder run on two pieces is the decoder run on both, state and frames |
| MuxDecoder.FitsSplit | src/mux.c:893-897 | frames fit the 4096-octet buffer on a stream exactly when they do on its pieces, one after the other |
| MuxDecoder.ChunkIndependence | src/mux.c:883-1013 | any way of cutting a stream into calls hands over the same frames and ends in the same state |
| MuxDecoder.FramesComplete | src/mux.c:1001-1012 | every buffer handed over is one whole frame, as long as its own length indicator says, for any octets on the line |
| MuxDecoder.RunFrame | src/mux.c:883-1013 | one encoded frame, flags inside its information field or not, is handed over as it is |
| MuxDecoder.RunWire | src/mux.c:883-1013 | encoded frames one after the other are handed over one by one, each as it was |
| MuxDecoder.WireRoundTrip | src/mux.c:454-1013 | any list of encoded frames, behind any noise and cut in any way, is decoded and accepted as the same list in the same order |
| MuxDecoder.Decoder.constructor | src/mux.c:893-899 | the decoder starts hunting for a flag |
| MuxDecoder.Decoder.Length1Found | src/mux.c:950-971 | the first length octet, with or without EA bit, an empty information field included |
| MuxDecoder.Decoder.Length2Found | src/mux.c:973-979 | the second length octet completes the 15-bit length |
| MuxDecoder.Decoder.DataFound | src/mux.c:981-999 | copying what the chunk holds of the field equals taking it octet by octet, when the chunk ends inside, at or behind its end |
| MuxDecoder.Decoder.FcsFound | src/mux.c:1001-1012 | the FCS octet completes the frame, which is handed over once, and the decoder hunts for a flag |
| MuxDecoder.Decoder.Advance | src/mux.c:904-918 | a jump to the label of the current state does what the octet-wise machine does on the octets it passes |
| MuxDecoder.Decoder.RcvFromHal | src/mux.c:883-1013 | a call on a chunk, with the state kept between calls, is the octet-wise machine run on the chunk, without writing outside the buffer |
| Mux.Multiplexer.EncodeFrame | src/mux.c:454-557 | the octets laid out in the buffer are the frame's; exactly an impossible channel or more than 4096 octets are refused |
| Mux.Multiplexer.ProcessUa | src/mux.c:679-718 | a UA establishes or closes the channel, counts, and announces at the eighth |
| Mux.Multiplexer.ProcessChannelData | src/mux.c:646-816 | the whole effect of each frame type on channels, counter, line and logical adapters |
| Mux.Multiplexer.ProcessRcvFrame | src/mux.c:818-881 | a received buffer has the effect of its frame; a wrong channel has none, a wrong FCS only notes the header |
| Mux.CmuxUpExactlyWhenAllConfirmed | src/mux.c:683-706 | for anything received while the multiplexer is up, CMUX-UP is announced at most once, and exactly when each of the eight channels has had its SABM confirmed by a UA |
| MuxEffects.DamagedDropped | src/mux.c:818-876 | a frame of any type whose address, control or FCS octet was changed on the line, to whatever octet, sends nothing, reaches no logical adapter, counts nothing and changes no channel's state |
| MuxEffects.HeaderNoted | src/mux.c:838-874 | of a frame with a wrong FCS the channel keeps the header: type with P/F bit, EA, C/R and P/F, and nothing else |
| MuxEffects.DamagedFrameIsLostAlone | src/mux.c:646-1013 | among data frames of any channels, behind any noise and cut in any way, such a damaged frame is lost alone: every logical adapter gets exactly its payloads from the frames before and behind it, in order |
| MuxEffects.DmCloses | src/mux.c:720-737 | a DM emits and counts nothing, and closes its own channel exactly when that waited for its UA or was established; no other channel changes |
| MuxEffects.UaEstablishes | src/mux.c:679-706 | a UA for a waiting channel establishes it and no other, and the eighth is announced if there is a modem object, which starts the count again |
| MuxEffects.UaCloses | src/mux.c:707-714 | a UA for a DISC closes its channel and no other, and takes the multiplexer down exactly on channel 0 |
| MuxEffects.UaIgnored | src/mux.c:715-718 | a UA that nobody waits for does nothing |
| MuxEffects.RefusedForGood | src/mux.c:679-737 | from the opening on, once a DM has refused a waiting channel, that channel is never confirmed, no later UA changes anything on it, and CMUX-UP is never announced, whatever else arrives |
| MuxEffects.InformationDelivered | src/mux.c:589-677 | a UI or UIH frame reaches the logical adapter of its channel with its information; on channel 0 it takes the multiplexer down exactly when its first octet is 0xC3 |
| MuxEffects.SabmOctets | src/mux.c:785-811 | the answer to a polled SABM octet by octet: F9, the address with C/R and EA set, 0x73, a length of 0, the FCS, F9 |
| MuxEffects.DiscOctets | src/mux.c:739-783 | the answer to a polled DISC octet by octet, 0x1F for a closed channel and 0x73 for any other; no state changes, and on channel 0 the multiplexer goes down behind the answer |
| MuxEffects.OthersIgnored | src/mux.c:812-816 | a frame of any other type does nothing |
| MuxHandshake.UnpolledDiscarded | src/mux.c:739-809 | a SABM or DISC without the poll bit changes nothing but the header last seen |
| MuxHandshake.SabmAnswered | src/mux.c:785-811 | a polled SABM gets one answer, which decodes as a UA with the final bit on its channel, and establishes that channel and no other |
| MuxHandshake.DiscAnswered | src/mux.c:739-783 | a polled DISC gets one answer, which decodes as a DM exactly when the channel was closed and as a UA if not; on channel 0 the multiplexer goes down |
| MuxHandshake.SabmsAnswered | src/mux.c:785-811 | SABMs of any channels in any order are answered by the UAs of the same channels in the same order |
| MuxHandshake.UasConfirm | src/mux.c:679-706 | a run of UAs confirms exactly the waiting channels it names |
| MuxHandshake.HandshakeCompletes | src/mux.c:646-816 | between two multiplexers, with SABMs in any order and repeated at will, every channel named is established on the other side and CMUX-UP is announced, once, exactly when all eight were named |
| Demux.DataFrameDispatched | src/mux.c:308-322 | a data frame reaches the logical adapter of its channel once and no other |
| Demux.DataFramesProcessed | src/mux.c:308-322 | after any interleaving of data frames, channel c was handed the payloads sent on c, in order |
| Demux.EndToEnd | src/mux.c:308-1013 | for any interleaving over the channels, any noise before and any cutting of the physical octets, the AT engine of channel c is called with c's own payloads in order and emits exactly the lines of their concatenation whenever no call meets a prompt; without NUL octets the read position overruns exactly when a payload leaves a bare prompt unread |
| Demux.EndToEndText | src/mux.c:308-1013 | if what was sent on channel c is lines of text, each between two pairs of carriage return and line feed, the AT engine of c emits exactly these lines in order, under any interleaving, noise and cutting |
| AtEngine.Engine.ShiftLeft | src/at.c:475-486 | dropping consumed octets keeps the unread ones and leaves zeros behind them |
| AtEngine.Engine.Grow | src/at.c:488-501 | the doubling loop ends with room for the data and a zero behind it, and keeps the unread octets |
| AtEngine.Engine.BufWrite | src/at.c:464-508 | unread octets are those of before followed by the data; everything behind the write position stays zero |
| AtEngine.Engine.FindNextEol | src/at.c:93-105 | the scan for the end of a line finds the first CR not behind a NUL, or the end of a prompt, and stops inside the buffer |
| AtEngine.Engine.FindLine | src/at.c:564-571 | the next line of the unread octets, behind blank ones |
| AtEngine.Engine.EmitPendingResponse | src/at.c:145-166 | the lines collected are handed over with the final line and the request is done |
| AtEngine.Engine.RouteLine | src/at.c:595-684 | a line that is not final joins the response or is unsolicited, by command type, prefix and what was collected |
| AtEngine.Engine.Take | src/at.c:564-690 | one turn of the loop is one turn of the reference engine, state and output |
| AtEngine.Engine.Process | src/at.c:551-694 | a call with data is the reference engine run on unread octets followed by the data |
| AtStream.LinesSplit | src/at.c:562-691 | cutting a stream anywhere: lines and rest of the whole are those of the first part and of its rest followed by the second |
| AtStream.FeedIdle | src/at.c:579-582 | with no request outstanding, any cutting of a stream into calls that meet no prompt emits its lines, each once and in order, as unsolicited; lines that start like a prompt are lines like any other |
| AtStream.IdleExactly | src/at.c:564-691 | without NUL octets, a sequence of calls overruns the read position exactly when one of them leaves a bare prompt unread, and emits the lines of the stream when none does |
| AtStream.SafeUnderEveryCut | src/at.c:93-105 | every way of cutting a stream into calls is free of an overrun exactly when none of its lines, complete or not, starts like a prompt |
| AtStream.OverrunExactlyAtBarePrompt | src/at.c:585-593 | one turn of the loop overruns the read position exactly when a prompt ends the data and nothing answers it |
| AtStream.PromptFound | src/at.c:93-105 | a prompt is found with nothing or a NUL behind its two characters, and is the beginning of an ordinary line with anything else behind them |
| AtStream.PromptDependsOnCut | src/at.c:93-105 | the same octets, whole or cut behind the prompt, lead to different states |
| AtStream.AnsweredPromptStalls | src/at.c:573-593 | behind an answered prompt no line is ever found again exactly when octets stand behind the prompt |
| AtStream.AnsweredPromptLineStalls | src/at.c:573-593 | the shortest input for it: a prompt line ended by CR, after which a call with any data finds nothing |
| AtRouting.JoinsIsTaken | src/at.c:612-684 | the engine's test on a line agrees with the position of the line among those received: first digit-led line, first match, all matches, or everything from the first match on |
| AtRouting.ScanCollecting | src/at.c:564-691 | one call while a response is being collected, as long as it meets no prompt up to the final line: its lines, the other lines in order, the final line and what is left unread |
| AtRouting.ResponseAcrossCalls | src/at.c:595-690 | over any number of calls that meet no prompt, with or without a final line: the response holds exactly the lines its command type takes, every other line was unsolicited once and in order, and the rest is left for the next call |
| AtRouting.CallsExactly | src/at.c:564-691 | on octets other than NUL and with no second part to send, a sequence of calls overruns the read position exactly when one comes to a bare prompt before it comes to the final line of the request, if one is outstanding |
| AtRouting.ResponseExactly | src/at.c:564-691 | a request without a second part, under any cutting of such octets: overrun exactly when a call meets a bare prompt before the final line, and otherwise the response of its type, all other lines in order and the rest for the next call |
| AtFramed.LinesAreText | src/at.c:93-105 | no line of any stream is empty, starts with a carriage return or line feed, or has a carriage return or NUL in it |
| AtFramed.FramedLines | src/at.c:564-571 | the lines of text in which each line stands between two pairs of carriage return and line feed are these lines, and one line feed is left |
| AtFramed.IdleText | src/at.c:564-582 | with no request outstanding, such text comes out line by line as unsolicited under any cutting into calls |
| AtFramed.SharesAre | src/at.c:612-684 | the lines a response takes, told by their characters: none, the first one that starts with a digit or with the prefix, all of those, or everything from the first of them on |
| AtFramed.RemaindersAre | src/at.c:612-684 | the lines a response leaves, told in the same way, in order |
| AtFramed.FinalCodes | src/at.c:53-91 | a line ends a response well exactly when it starts with OK, and badly exactly when it starts with one of the five error codes |
| AtFramed.ResponseText | src/at.c:564-691 | a request outstanding and such text, with an OK or an error code behind lines that are neither, in any number of calls: the response is handed over with its lines and that end, successful exactly for OK, all other lines were unsolicited and nothing is left unread |
| AtPrompts.ScanPrefixed | src/at.c:564-691 | what was emitted before has no influence on what a call emits |
| AtPrompts.TwoPartExchange | src/at.c:585-690 | a command of two parts, cut into calls of which one ends in the bare prompt: the second part goes out once, at the prompt, and the response holds the lines its type takes from those before and behind the prompt together |
| AtSession.MoveGood | src/hal.c:311-328 | every request, idle send and call with data keeps queue, engine and history in step |
| AtSession.SessionDelivers | src/at.c:145-166 | over whole sessions of one channel, with requests made by callbacks and commands of two parts, the n-th response handed over is the n-th request's and holds exactly the lines its type takes out of consecutive lines of the stream, which begin behind the final line before and end with the first final line from there on; each prompt sends the second part of the request in progress once |
| AtSession.SessionLater | src/at.c:600-610 | all lines taken for all requests arrived after the request was sent exactly when no idle send that gives the engine a request finds a complete line unread |
| AtSession.LeftUnread | src/at.c:600-610 | complete lines are left unread only by a call that completes a response: those behind its final line |
| AtSession.EarlierLineAnswers | src/at.c:600-610 | the session in which the second of two final lines that arrive in one call answers a request that is sent only afterwards |
| AtTokens.JoinedTokens | src/at.c:766-832 | a list of raw, quoted and parenthesised tokens, with any number of blanks before each and ignored characters behind the closing marks, is read back as exactly the tokens, empty and trailing empty ones included |
| AtTokens.UnclosedLast | src/at.c:785-832 | tokens before a quotation mark or parenthesis that nothing closes are read exactly; what is behind it is lost, but for a parenthesis that the one ending the line closes |
| AtTokens.PrefixedRoundTrip | src/at.c:727-835 | such a list behind a prefix, a colon and any white space is read back exactly |
| AtTokens.ParenthesisedRoundTrip | src/at.c:727-835 | such a list inside an outer pair of parentheses is read back exactly |
| AtTokens.OpenedRoundTrip | src/at.c:742-746 | such a list behind a parenthesis that is not closed at the end of the line is read back to the end of the line |
| AtTokens.BareLine | src/at.c:748-754 | a line that is not empty, has no colon and does not start with a parenthesis comes back as its only token |
| AtTokens.NestedRoundTrip | src/at.c:727-835 | a list inside a list comes out as one token, and tokenizing that token gives the inner list |
| AtTokens.TokenLoop | src/at.c:764-834 | the loop over the line with its token type and start position reads the tokens of the reference machine |
| AtTokens.TokNew | src/at.c:727-835 | the tokenizer returns the reference tokens for every line |
| QueueOrder.InsertArranged | src/queue.c:404-460 | inserting keeps the arrangement: IMMEDIATELY in order of arrival, HIGH in reverse, DEFAULT and LOW together in order |
| QueueOrder.ArrangedAt | src/queue.c:470-587 | removing or marking any entry leaves the rest arranged |
| QueueOrder.QueueStaysArranged | src/queue.c:404-587 | after any run of arrivals, removals and markings the queue is in that arrangement |
| QueueOrder.NextPendingIs | src/queue.c:614-650 | behind the leading sent IMMEDIATELY entries, the entry to send is the next one if it is unsent, and there is none if it is sent or missing |
| Hal.RequestQueue.PushHead | src/queue.c:404-423 | the request stands right behind the leading IMMEDIATELY entries, all others as they were |
| Hal.RequestQueue.Push | src/queue.c:425-460 | an id is assigned if there is none, and the request is inserted by its priority |
| Hal.RequestQueue.PopByPending | src/queue.c:470-492 | exactly the given request is removed, if it is there |
| Hal.RequestQueue.SearchById | src/queue.c:535-587 | the first request with the id |
| Hal.RequestQueue.SearchByCommand | src/queue.c:589-596 | the first request with the command |
| Hal.RequestQueue.RefNextPending | src/queue.c:614-650 | the loop over the queue finds the next request to send |
| Hal.Adapter.IdleSend | src/hal.c:67-129 | an idle send marks the next request, keeps, frees or drops it by the outcome, and says whether it wants to run again |
| Hal.Adapter.SendRequest | src/hal.c:276-299 | a request is queued and sent at once, scheduled, or left to wait |
| Hal.Adapter.RunIdle | src/hal.c:67-129 | a scheduled idle send stays scheduled exactly when it asks to |
| Hal.Adapter.RequestAll | src/hal.c:276-299 | the requests of a callback are made one after the other |
| Hal.Adapter.DispatchById | src/hal.c:330-351 | a response with an id answers the first request with it, makes the requests of its callback and schedules an idle send; an unknown id does nothing |
| Hal.Adapter.DispatchFinal | src/at.c:145-166 | a final line answers the head of the queue when a request is held, makes the requests of its callback and schedules an idle send |
| Hal.Adapter.DispatchResponseData | src/hal.c:311-351 | by mode, data complete the request in flight or answer the request named; the AT engine refuses a response without data |
| Hal.Adapter.CancelTurn | src/queue.c:675-684 | a turn answers the first match without data, makes the requests of its callback and finds the next match |
| Hal.Adapter.CancelByCommand | src/queue.c:668-694 | where the cancelling loop ends, whatever its callbacks request, it leaves what its turns leave one after the other |
| HalRuns.NoLostWakeUp | src/hal.c:67-351 | in every state of a CUSTOM-mode run with successful sends, any priorities, auto-free requests, callbacks that request and cancellations that end, a queue that is not empty has a sent request or a scheduled idle send |
| HalEffects.Queued | src/queue.c:404-460 | a request joins the queue in one place, behind the leading IMMEDIATELY entries or at the end, keeps its own id unless that is zero, and changes nothing else but the next number |
| HalEffects.RequestWaits | src/hal.c:276-299 | a request that is not IMMEDIATELY schedules an idle send exactly when the queue was empty |
| HalEffects.AtData | src/hal.c:311-354 | in AT mode only data with a final line count, and only while the engine holds a request: the head of the queue is answered, its callback's requests are made, and an idle send is scheduled, even for an empty queue |
| HalEffects.CustomData | src/hal.c:311-354 | in CUSTOM mode the first request with the id is answered, with or without data, its callback's requests are made, and an idle send is scheduled; an unknown id changes nothing |
| HalFailures.FailedSendStaysAwake | src/hal.c:115-122 | after a failed send the queue still waits or is served exactly when the request stood behind a sent one, was the only one, another idle send is scheduled or another request is sent |
| HalFailures.FailedSendDropsItsOwn | src/hal.c:115-122 | a failed send drops the request it could not send exactly when nothing stood before it; otherwise it drops a sent IMMEDIATELY request that waits for its response and leaves its own marked as sent |
| HalFailures.FailedSendBehindImmediate | src/hal.c:115-122 | the run in which that happens: the response finds nobody, and a request never sent stands marked at the head |
| HalFailures.FailedSendInAtMode | src/hal.c:91-122 | in AT mode engine and queue stay in step exactly when nothing was sent; otherwise the engine keeps the request that has left the queue, and the next final line is given to the next request, unsent |
| HalFailures.BlockedStays | src/queue.c:644-647 | behind such a head no idle send, forced send or ordinary request sends anything |
| HalFailures.FailedSendLosesWakeUp | src/hal.c:115-122 | two requests of which the first fails: the second stays unsent over every run of requests other than IMMEDIATELY and scheduled idle sends, while a forced send would send it |
| HalFailures.StoppedSendBlocks | src/hal.c:67-129 | a send stopped by a hook leaves the request marked as sent, though nothing was sent and no other send is asked for; where it was the head of the queue and not IMMEDIATELY, nothing is sent in any run of idle sends and DEFAULT or LOW requests that follows |
| HalFailures.AutoFreeLeaves | src/hal.c:106-113 | an auto-free request leaves the queue as it is sent, or fails to be, and the idle send is renewed |
| HalFailures.SentStays | src/hal.c:94-122 | any other request, once sent, stays in its place marked as sent, in AT mode the engine holds it, and the idle send is not renewed |
| HalFailures.StrandedStays | src/hal.c:276-299 | a queue with nothing in flight and nothing scheduled stays so over every such run |
| HalCorrelation.AtCorrelation | src/at.c:145-166 | in every state of an AT-mode run with DEFAULT and LOW requests the engine holds a request exactly when the head is the only sent one, and the n-th final response went to the n-th request |
| HalCorrelation.AtNoLostWakeUp | src/hal.c:67-328 | in every state of such a run a queue that is not empty has a request held by the engine or a scheduled idle send |
| HalCorrelation.FinalLineAnswersInFlight | src/at.c:145-166 | a final line answers the request in flight and no other |
| HalCorrelation.RequestKeepsHead | src/queue.c:404-423 | a request leaves the one in flight at the head exactly when it is not HIGH or nothing is in flight |
| HalCorrelation.HighTakesOthersResponse | src/queue.c:404-423 | the HIGH request is answered in place of the one in flight, without having been sent |
| HalCorrelation.ImmediateDoublesInFlight | src/queue.c:622-649 | after an IMMEDIATELY request and the next idle send one request is in flight exactly when the queue was empty |
| HalInFlight.StuckStays | src/at.c:145-166 | a sent request that the engine does not hold, behind nothing that it could hold, stays in the queue and is given no final line over every run of requests of any priority, idle and forced sends and final lines with requesting callbacks, as long as no request is auto-free |
| HalInFlight.SecondInFlightIsNeverAnswered | src/at.c:145-166 | so it is with the head of the queue after an IMMEDIATELY request into a queue that is not empty and the next idle send |
| HalInFlight.AutoFreeAnswersStuck | src/hal.c:106-113 | an auto-free IMMEDIATELY request leaves the queue while the engine holds it, and its final line is given to the stuck head |
| HalInFlight.AutoFreeAlone | src/hal.c:106-113 | with nothing else in the queue, the final line for an auto-free request answers nobody, and one idle send is scheduled |
| HalCancel.RespondExactly | src/hal.c:330-351 | with distinct ids a response removes and answers exactly the request it names |
| HalCancel.RunAssigned | src/queue.c:432-435 | assigned ids stay distinct over every CUSTOM-mode run |
| HalCancel.CancelDistinct | src/queue.c:668-694 | with callbacks that request nothing, cancelling answers every request with the command once, in order, and keeps the others in order |
| HalCancel.CancelEnds | src/queue.c:675-691 | with callbacks that request nothing, the cancelling loop comes to an end exactly in CUSTOM mode or when no pending request has the command |
| HalRuns.AtCancels | src/at.c:557-558 | in AT mode the loop ends, whatever the callbacks would request, exactly when no pending request has the command |
| HalCallbacks.CancelsExactly | src/queue.c:675-691 | in CUSTOM mode, whatever the callbacks request turn by turn, the loop ends exactly when after some number of turns as many requests with the command were answered as had been pending and were made since |
| HalCallbacks.CancelElsewhere | src/queue.c:668-694 | if the callbacks leave no new request with the command, the loop takes one turn for each match; each is answered once, in order, and the queue is as if they had been taken out first and the callbacks' requests been made afterwards |
| HalCallbacks.EchoNeverEnds | src/queue.c:675-691 | if every callback leaves a new request with the command, a single match makes the loop run for ever |
| HalCallbacks.EchoedRequest | src/queue.c:675-691 | the shortest input for it: one pending request that is made again when it is cancelled |
| HalCallbacks.CancelAnswersExactlyOnce | src/queue.c:668-694 | both in every state reached by a CUSTOM-mode run with assigned ids |
| Gsm7.PackedBits | src/util.c:506-550 | bit k of the packed octets is bit k of the septets laid end to end; what is left is zero, or a CR when it is a whole septet |
| Gsm7.UnpackedBits | src/util.c:459-504 | bit b of unpacked septet i is bit 7i + b of the octets |
| Gsm7.Pack | src/util.c:506-550 | the packing loop writes those octets, zeros behind them, and never runs into its length bail-out |
| Gsm7.UnpackSeptets | src/util.c:477-494 | the unpacking loop writes the septets and stays inside the buffer |
| Gsm7.Unpack | src/util.c:459-504 | the result is the septets with CR as a space and a NUL behind them; null exactly for no octets |
| Gsm7.PackRoundTrip | src/util.c:459-550 | packing and unpacking gives the septets back with CR as a space, and one space more exactly when n mod 8 is 7 |
| Gsm7.SpareSeptet | src/util.c:506-550 | where seven bits are left they hold 0x0D, and a 0x0D read anywhere is shown as 0x20 |
| Base64.RoundTrip | src/util.c:643-726 | decoding inverts encoding for octets of any length |
| Base64.SymbolCode | src/util.c:712-720 | the characters of the 64 values by their codes |
| Base64.GroupOfFour | src/util.c:712-720 | each three octets become the four base-64 digits of the number they make, the last group filled up with one or two equals signs |
| Marshal.Serialize | src/util.c:686-726 | the loop over a table in any enumeration order writes the reference text |
| Marshal.IntEntry | src/util.c:686-726 | the text of an entry with a number: key, type 24, its decimal digits in base 64 |
| Marshal.BoolEntry | src/util.c:686-726 | the same with type 20 and VFJVRQ== or RkFMU0U=, the words TRUE and FALSE in base 64 |
| Marshal.StringEntry | src/util.c:686-726 | the same with type 64 and the string in base 64 |
| Marshal.TableEntry | src/util.c:686-726 | the same with the type of hash tables and the text of the inner table in base 64 |
| Marshal.Deserialize | src/util.c:643-684 | the loop over the entries of a text builds the table the text stands for, and fails exactly where an entry has not three parts, the last in base 64, or no short piece ends the text |
| Marshal.ShortPieceEnds | src/util.c:656-658 | a piece of at most three characters ends the text, whatever follows |
| Marshal.PieceWithoutParts | src/util.c:658-668 | a longer piece without two colons is read past its end |
| Marshal.EntryRead | src/util.c:666-679 | an entry is read under its key by the number of its type modulo 2^32, and its decoded content counts up to the first NUL |
| Marshal.ConvertStrToType | src/util.c:138-183 | the text is converted by its type number, nested tables by reading their text |
| Marshal.ContentRead | src/util.c:138-183 | a text is read as true exactly when its first four characters spell that word in letters of either case; a string is read as it stands |
| Marshal.NumberRead | src/util.c:145-150 | the number of a text is kept within 64 bits with a sign, and its lower 32 bits are read, with a sign again |
| Marshal.NumberText | src/util.c:145-150 | the number of a text stands behind white space and a sign, if any, and ends at the first character that is no digit |
| Marshal.SignedRead | src/util.c:145-150 | a printed number is read back, and has no blank and no colon |
| Marshal.MarshalRoundTrip | src/util.c:643-726 | reading what was written gives the table, whatever the enumeration order of each table in it and however deep they nest |
| Marshal.DeserializedClean | src/util.c:656-679 | whatever text is read, no key of the result, at any depth, has a blank or a colon |
| Marshal.MarshalExactly | src/util.c:643-726 | a table comes back as it was exactly when none of its keys, at any depth, has a blank or a colon |
| Marshal.ForgetFinds | src/util.c:686-726 | the table behind an enumeration holds each key with its own value and no other key |
| Marshal.OrderIsForgotten | src/util.c:686-726 | two enumerations of the same entries are read back as one table |
| SimXdn.DigitSurvives | src/co_sim.c:252-354 | exactly the characters 0-9 * # P p ? survive the nibbles, a pause in upper case |
| SimXdn.NibbleValues | src/co_sim.c:252-354 | the nibble of each character and the character of each nibble |
| SimXdn.DigitToBcd | src/co_sim.c:252-287 | the loop swaps the digits into pairs, fills up an odd number with 0xF and leaves the rest of the buffer |
| SimXdn.BcdToDigit | src/co_sim.c:300-354 | the digits of all pairs are written, and the length returned is that up to the first end mark |
| SimXdn.GetValidBcdByte | src/co_sim.c:430-441 | the pairs in use are those before the first 0xFF |
| SimXdn.AlphaRoundTrip | src/co_sim.c:367-408 | an alpha identifier comes back exactly when it is empty, starts in the one-octet range and has no 0xFF, or starts above it and fills its field |
| SimXdn.NumberRoundTrip | src/co_sim.c:252-441 | a number of at most twenty digits comes back, pauses in upper case, exactly when it is in the alphabet |
| SimXdn.RecordRoundTrip | src/co_sim.c:963-1075 | decoding an encoded record gives back both maximal lengths, kind and plan of the number, capability and extension identifiers, and alpha identifier and number each exactly on its own condition |
| SimXdn.RecordLayout | src/co_sim.c:1035-1075 | each octet of a written record: identifier and padding, length, 0x80 with kind and plan, the swapped digits with 0xF at an odd end and 0xFF behind, capability and extension |
| SimXdn.DecodedLayout | src/co_sim.c:963-1033 | each field of a record that was read, from its octets; a length octet of 0 gives a maximal length of -2, for which the program's own case is never reached |
| SimXdn.DialingNumber.GetString | src/co_sim.c:367-386 | the identifier copied out of a padded field |
| SimXdn.DialingNumber.Decode | src/co_sim.c:963-1033 | the structure holds what the record says; an empty record is refused and leaves it cleared |
| SimXdn.DialingNumber.Encode | src/co_sim.c:1035-1075 | the record of the structure's fields; exactly what does not fit is refused, leaving padding |
| BcdText.ConvertBcdToAscii | src/util.c:552-622 | all nibbles but the reserved ones are shown in order and a NUL follows; null exactly when twice the length exceeds the limit |
| BcdText.ShownCharacters | src/util.c:569-614 | the character each nibble is shown as; 14 and 15 are not shown |
| BcdText.ShownInOrder | src/util.c:552-622 | the lower nibble of each octet is shown before the upper one |
| BcdText.ShownRoundTrip | src/util.c:552-622 | a packed number is shown as it was, pauses in lower case, exactly when it is in the alphabet |
| BcdText.PaddingShowsNothing | src/util.c:569-614 | 0xFF octets behind a number show nothing |
| SatTlv.WalkTiles | src/co_sat.c:236-241 | octets laid out object by object are taken apart into the same objects, whatever follows |
| SatTlv.DcsRoundTrip | src/co_sat.c:5071-5119 | a data coding scheme comes back exactly when it has no message class and no reserved format |
| SatTlv.SchemeRead | src/co_sat.c:300-348 | the scheme that each octet stands for, by its bits |
| SatTlv.SchemeClassed | src/co_sat.c:5071-5119 | the octet of a scheme with a message class: class numbers count from one, and the fourth runs into the bits of the alphabet |
| SatTlv.TextWalks | src/co_sat.c:5279-5313 | an encoded text reads as one object with its scheme and characters exactly for 0 to 126 and 128 to 254 characters |
| SatTlv.TextLayout | src/co_sat.c:5279-5313 | the octets of a text object: tag, one length octet up to 127 characters or 0x81 and one, cut down to eight bits, scheme and characters |
| SatTlv.TextRead | src/co_sat.c:1125-1180 | any object with the tag of a text, with or without the top bit, and any length field that fits its value is read as scheme octet and characters, nothing being left of a value of one octet |
| SatTlv.TextNotRead | src/co_sat.c:1125-1180 | another tag, or a length field of another form, is not read |
| SatTlv.TextRoundTrip | src/co_sat.c:1125-1180 | reading an encoded text at any offset finds its scheme octet and characters and consumes what the encoder returned, exactly for those lengths |
| SatTlv.ChannelDataRoundTrip | src/co_sat.c:2102-2150 | channel data of 0 to 255 octets comes back at any offset and consumes what the encoder returned |
| SatTlv.ChannelDataRead | src/co_sat.c:2102-2150 | any object with the tag of channel data, with or without the top bit, and any length field that fits is read as its value |
| SatText.TextString.Decode | src/co_sat.c:1125-1180 | the structure after reading a text, default alphabet unpacked, and the octets consumed; no text leaves it as it was |
| SatText.TextHeld | src/co_sat.c:243-348 | an encoded text, wherever it stands, leaves its own scheme and characters in the structure and is consumed exactly when its length is good and it has no message class and an alphabet of 8 or 16 bits; an empty one when the structure held its scheme before |
| SatText.Unpack | src/co_sat.c:243-272 | octets of the default alphabet are unpacked and shown up to the first NUL |
| SatText.PackedTextShown | src/co_sat.c:243-272 | a packed text without NUL is shown as its septets with CR as a space, and a trailing space exactly when n mod 8 is 7 |
| SatText.ChannelData.Decode | src/co_sat.c:2102-2150 | the channel data after reading, and the octets consumed; refused data leave it as it was |
| SatResponses.EncodeText | src/co_sat.c:5279-5313 | the text object written in the buffer, nothing else changed, and its length returned |
| SatResponses.EncodeBearer | src/co_sat.c:5442-5479 | the bearer description with the parameters of its kind and a length that covers them |
| SatResponses.EncodeChannelData | src/co_sat.c:5491-5513 | the channel data object with a length field of one or two octets |
| SatResponses.EncodeChannelStatus | src/co_sat.c:5524-5536 | the status is added to what the buffer held |
| SatResponses.EncodeGetInkey | src/co_sat.c:5678-5735 | the response to get inkey, object by object, and its length; 0 for an unknown result |
| SatResponses.EncodeGetInput | src/co_sat.c:5737-5788 | the response to get input, object by object, and its length; 0 for an unknown result |
| SatResponses.EncodeOpenChannel | src/co_sat.c:6483-6549 | the response to open channel, object by object, and its length; 0 for an unknown result |
| SatResponses.EncodeReceiveData | src/co_sat.c:6651-6702 | the response to receive data, object by object, and its length; 0 for an unknown result |
| SatResponses.InkeyOctets | src/co_sat.c:5678-5735 | the octets of the response to get inkey for every result: command details, device identities, result, and text, duration or problem octet by result |
| SatResponses.InputOctets | src/co_sat.c:5737-5788 | the same for get input, which knows no duration |
| SatResponses.OpenChannelOctets | src/co_sat.c:6483-6549 | the same for open channel, with the channel status for the results that answer, and bearer and buffer size for all that are known |
| SatResponses.ReceiveDataOctets | src/co_sat.c:6651-6702 | the same for receive data, with the data and the length left for the results that answer |
| SatResponses.TextResponseTiled | src/co_sat.c:5678-5788 | a response to get inkey or get input is taken apart into its objects, to its last octet, exactly when its text, if it has one, has a good length |
| SatResponses.OpenChannelTiled | src/co_sat.c:6483-6549 | a response to open channel is tiled by its objects up to the length returned |
| SatResponses.ReceiveDataTiled | src/co_sat.c:6651-6702 | a response to receive data is tiled by its objects up to the length returned |
| PsSlots.ActivateKeeps | src/co_ps.c:420-472 | activating keeps the table in order exactly when it overlooks no context of the same name in the last slot |
| PsSlots.DeactivateKeeps | src/co_ps.c:474-515 | deactivating keeps the table in order |
| PsSlots.ClearKeeps | src/co_ps.c:392-418 | clearing keeps the table in order and unlists the context |
| PsSlots.StepKeeps | src/co_ps.c:392-515 | the exact condition for every step |
| PsSlots.RunStaysInOrder | src/co_ps.c:392-515 | every run that overlooks no context keeps it: a slot is marked exactly when it lists a context, listed contexts carry its id, are listed once, and share a slot exactly when their names are equal |
| PsSlots.ThreeNamesStayInOrder | src/co_ps.c:118-515 | every run in which at most three names are listed at once keeps the table in order and the last slot free |
| PsSlots.OverlookedTwinIsReachable | src/co_ps.c:167-191 | six steps from an empty table after which one name has two slots |
| PsSlots.IdFindsName | src/co_ps.c:332-350 | in a table in order, the id of a listed context leads to exactly the listed contexts of its name |
| PsSlots.AskedButUnlisted | src/co_ps.c:458-471 | the plug-in is asked to activate a context that is then not listed exactly when the context kept an old id and its name is in no slot that the scans visit |
| PsSlots.StaleIdIsReachable | src/co_ps.c:493-500 | four steps from an empty table after which that happens |
| PsSlots.LastSlotRefused | src/co_ps.c:474-492 | while online, deactivating a listed context is refused exactly when it stands in the last slot, and then changes nothing |
| PsSlots.LastSlotIsReachable | src/co_ps.c:363-378 | four steps from an empty table after which that happens |
| PsAnswers.DeactivateAlone | src/co_ps.c:492-515 | online, deactivating a context that is the only listed one of its name, in a slot the scans visit, asks the plug-in exactly when the context is activated; one being activated is an error and the other states succeed, and then nothing changes |
| PsAnswers.DeactivateBeside | src/co_ps.c:496-503 | beside a listed context of its name, it is unlisted and deactivated without asking the plug-in, keeps its id, and all others stay listed |
| PsAnswers.DeactivateRefused | src/co_ps.c:484-494 | offline, or for a context in no slot that the scans visit, nothing changes and the answer is an error |
| PsAnswers.PluginAskedAtTheLast | src/co_ps.c:392-515 | in every run that overlooks no context, deactivating a context seen by the scans asks the plug-in exactly when it is activated and the last listed one of its name |
| PsAnswers.ActivateSettled | src/co_ps.c:432-442 | offline, or for a context already seen by the scans, activating changes nothing |
| PsAnswers.ActivateBeside | src/co_ps.c:444-450 | a context whose name is listed joins the end of that slot with the id and state of the first context there, without asking the plug-in |
| PsAnswers.ActivateFirst | src/co_ps.c:452-470 | for a name in no slot that the scans visit, the state decides; a deactivated context without an id takes the first free slot and the plug-in is asked, or is refused when none is free |
| PsAnswers.ClearUnlists | src/co_ps.c:392-418 | clearing takes the id back, leaves the state, unlists that context alone, and frees the slot exactly when it was the last |
| Ps.PacketService.IsActiveContext | src/co_ps.c:118-149 | the nested scan finds a context exactly when one of the slots it visits lists it |
| Ps.PacketService.IsDuplicatedApn | src/co_ps.c:151-196 | the scan finds the first other context of the same name and copies its id and state |
| Ps.PacketService.AssignContextId | src/co_ps.c:352-390 | the first free slot, or the slot asked for if it is in use, and an error that changes nothing |
| Ps.PacketService.ClearContextId | src/co_ps.c:392-418 | the whole table after clearing |
| Ps.PacketService.RemoveContext | src/co_ps.c:259-274 | clearing, and removal from the list of contexts |
| Ps.PacketService.ActivateContext | src/co_ps.c:420-472 | the whole table and the result after activating |
| Ps.PacketService.DeactivateContext | src/co_ps.c:474-515 | the whole table and the result after deactivating |

## Left out

- Mux.Multiplexer.EncodeFrame: information fields of 4090 to 4096 octets, which the encoder accepts and which do not fit its buffer.
- Mux.Multiplexer.ProcessUa: the closing of all channels when the multiplexer goes down is one log entry; the DISC frames sent for them and the return to the physical adapter are not modelled.
- Mux.Multiplexer.ProcessChannelData: the same, and control-channel messages other than close down.
- MuxHandshake.DiscAnswered: the same closing behind the answer on channel 0.
- MuxEffects.DiscOctets: the same closing, as in UaCloses and InformationDelivered.
- MuxEffects.DamagedFrameIsLostAlone: damage to the length indicator or to flags, which shifts where frames begin; and an address octet that has become a flag.
- The FCS the decoder carries along: its test is commented out in the program, so it has no effect.
- Advanced multiplexer mode, and streams that announce frames longer than the decoder's buffer.
- The static UA counter across two multiplexer sessions: runs start at zero with the modem object present.
- AtEngine.Engine.Take: leaves out a turn on a prompt that nothing answers, after which the read position is outside the data; AtStream states when and where that happens.
- AtEngine.Engine.Process: leaves out the same.
- AtRouting.ScanCollecting: calls that meet a prompt; AtPrompts states the exchange with one that is answered.
- AtRouting.ResponseAcrossCalls: exchanges in which a prompt is answered, which AtPrompts states.
- AtFramed.ResponseText: lines that start like a prompt, and octets behind the final line, which AtRouting.ResponseExactly covers.
- AtSession.SessionDelivers: ordinary requests, successful sends, no timers, and no prompts but answered ones at the end of a call.
- The table of registered notifications and the pairing of a two-line notification with its second line: an unsolicited line is one log entry.
- HalRuns.NoLostWakeUp: successful sends and no timers, with callbacks that request but do not cancel; failed sends have lemmas of their own.
- Hal.Adapter.DispatchResponseData: the transparent mode, and the AT engine's own work: its outcome is a flag in the data.
- Hal.Adapter.CancelByCommand: callbacks that cancel themselves, and cancellations that do not end.
- HalCancel.CancelDistinct: callbacks that make requests, which HalCallbacks states.
- HalCancel.CancelEnds: the same.
- HalCallbacks.CancelsExactly: requests that name their own ids, and sends that fail on the way.
- HalInFlight.StuckStays: failed sends, and requests that name their own ids.
- HalCorrelation.AtCorrelation: no timers, no auto-free requests and ids assigned by the queue; so with AtNoLostWakeUp.
- Timeouts, send hooks other than their stop result, power state, and the wrap-around of request ids at 32 bits.
- Marshal.ConvertStrToType: doubles, characters and the plain boxed type are left unread, and table type numbers have 32 bits, to which the program cuts them.
- Marshal.Deserialize: an entry of two parts and foreign characters in base 64 count as failures, where the program goes on.
- Base64.Decode: reads only well-formed text, while GLib's decoder skips foreign characters.
- SimXdn.DialingNumber.Decode: records of 14 to 44 octets, for which the alpha identifier fits its array and the fixed part is there.
- SatText.TextString.Decode: objects that announce more octets than there are, for which the program reads past the buffer.
- SatText.ChannelData.Decode: a length field of two octets whose second one lies past the buffer.
- Ps.PacketService.AssignContextId: ids asked for above the last slot, which the program uses as an index unchecked; and an assignment asked for by the plug-in is no step of a run.
- The qualifier octet of command details is one field; how it is put together from the command's flags is left out.
- SAT tables of languages, file lists and the other terminal responses, which are built from the same objects.
- Walking the slot table while removing from it (`tcore_ps_deactivate_contexts`), and the use of the list of contexts.
- The remaining service information that is copied between contexts with one access point name.
- Dispatchers, getters and setters of the core objects, sockets, plug-in loading, storage and the server.
