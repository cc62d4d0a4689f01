# RAP in Dafny

RAP carries many request/response pipes ("conns") over one byte stream. This
project models its core and proves what the design promises: a conn is a
reliable, flow-controlled pipe that can be closed and reused for the next
session; the muxer gives every conn a private FIFO over the shared stream; the
wire codec and its parser undo each other.

`dafny verify dfyconfig.toml` checks everything.

## How the model is laid out

| files | part of RAP |
|---|---|
| `Protocol`, `ProtocolInvariant`, `ProtocolFlow`, `ProtocolPipe`, `ProtocolTheorems`, `ProtocolProgress`, `ProtocolAssumptions`, `ProtocolRace` | the two-endpoint conn protocol as a labelled transition system |
| `ProtocolCalls`, `Conn` | the conn object, method by method; every call is a sequence of steps of that system |
| `Header`, `Framing`, `Serving`, `Muxer` | frame headers, framed reading and writing, and the muxer's loops over the conns of one side |
| `Wire`, `Network` | the proof that the byte streams realise the wires of the protocol, and the composition: two muxers, any number of conns, one stream in each direction |
| `Varint`, `Strings`, `Records`, `RecordLimits`, `FrameData`, `FrameParser`, `WireFormat` | the codec: its meaning as functions and laws, the writer and parser objects proved against them, and the format itself, byte by byte |
| `Allocator`, `Deadline`, `Pool` | the conn ID allocator, the deadline object and frame buffer ownership, each over all interleavings |

**The conn protocol.** Two endpoints of one conn ID are joined by two FIFO
wires. Each step is a region of `conn.go` between two lock operations, so a
writer that has seen a positive window, one that has taken a unit of it but has
not yet handed its frame over, or a reader that popped a frame but has not yet
acked it, is a state of its own. The two ends may have different window sizes,
each any number from 1 to 8 (`rap.go:17`, `sanitycheck.go:13-18`). The panics of
`SubmitFrame`, `receivedFinal`, `consumeAck` and `canRecycleLocked`, and that of
`writeFrame` on a negative window, are outcomes of steps, and are proved
unreachable; the one on a final with its size value set needs bytes, and is an
outcome of the steps of `Serving` and `Network`. The two panics of `writeFrame` on
the flags of its frame (conn.go:600-607) are excluded where frames are built, by
`FrameData.Flagged`. The
session number on endpoints and frames, the logs of bytes sent and read, and the
lists of frames written and submitted are history: no guard looks at them. A
schedule is any sequence of moves; a move that cannot happen where it is
scheduled is skipped, so every interleaving of the two ends is some schedule.
Acks are consumed only while there is a frame to send, as in `writeFrame`.

**What the protocol trusts.** Four things the code does not enforce are
assumed. The first three are the fields of `Rules`, and `ProtocolAssumptions`
shows for each that without it, the other two kept, some run goes wrong for
every pair of window sizes. `ProtocolRace` goes further for the third, which no owner controls: it
drops it and says exactly which runs break.

- The owner has flushed before it closes (`flushFirst`). Otherwise `flushLocked`
  fails because `localClosed` is closed, and the final is not written although
  it is marked as sent. The repository's own client breaks this rule: when a
  request is too big for a frame, `Conn.WriteRequest` returns without flushing
  (conn.go:828-840), and `Client.serveHTTP` then closes (client.go:238) with the
  record still in `fdw`. `FlushFirstNeeded` is for any contents of `fdw`, so for
  this one too.
- Nothing is read once the final is written (`quietAfterClose`). Otherwise
  `readFrame` may prefer `readCh` to `localClosed` and ack after the final.
- Writing the final ack and recycling is one step (`atomicFinal`). The peer may
  otherwise start its next session in between.
- The muxer is not being torn down, so `ConnWrite` succeeds.

**Choices outside the program** are parameters or free choices: what a Go `select`
picks among its ready cases, and when a deadline passes, the muxer aborts or another
goroutine calls Close (`Conn.Interrupts`); an error is only ever returned for its
cause, and without one a call succeeds. Map iteration order is a
parameter (`Enumerates`), and `path.Clean`, `url.Parse`, header canonicalisation,
`ParseInt` and `FormatInt` are arbitrary functions in `Library`. A panic of a
parser or of a record writer is a result, not a precondition. During a call on a
conn any frames the protocol allows may arrive (`Conn.Arrivals`), in any number.
The muxer's conn table has any size; with `MaxConnID` its bounds are never exceeded.

## What the proofs found

- A pong whose payload is not a complete integer, for instance the four bytes
  `00 00 7F FF`, panics in the reading loop: the handler reads an integer without
  checking. `PongSurvivedIff` says exactly which pongs are survived; the one that
  answers the muxer's own ping is.
- So does a frame its conn refuses: a final with its size value set
  (`00 01 C0 01`), a second final, or data after a final. A stream is served whole
  if and only if every pong in it can be read and every conn accepts its own frames
  in turn, whatever the others do (`ServedWholeIff`). Streams written by a peer that
  keeps to the protocol always are: `NetNeverBreaks` proves it for whole runs of two
  muxers and all their conns, trusting what is listed above.
- Between writing the final ack and recycling, `Close` is open to a data frame of
  the next session, which panics. This is the only panic of the protocol without
  that assumption, and it happens exactly there (`RaceExactly`, `RunPanicsIff`). It
  cannot happen if the end that opens sessions is always the one that closes second
  (`OpenerClosesSecond`).
- A string of 0x8000 bytes or more writes nothing, and the record writers ignore
  the error; the reader then takes the following bytes for it, and may panic
  (`LongMethodPanics`). A string survives if and only if it is shorter
  (`StringSurvivesIff`). A record survives if and only if its strings do and it fits
  in its frame (`RequestSurvivesIff`, `ResponseSurvivesIff`), except that a
  Content-Length field replaced by a known length may hold anything
  (`LongLengthHarmless`). Three values of 0x7fff bytes are each short enough, and
  together too big (`ThreeLongValues`). Map order makes no difference to the size.
- `WriteRequest` panics on an empty path, or an empty Content-Length or Host value
  list that it needs, and exactly then (`FrameData.WriteRequest`).
- `Conn.Write` returns 0 when its last flush fails, even if full frames were
  handed over before. `ZeroIsExactIff` says for which buffered data and argument
  that 0 is right, and `ZeroIsWrong` gives the shortest write for which it is not.
- Three places let go of a frame buffer without freeing it: a frame too big to send, a
  reserved flow frame, and the frame being read when a conn is recycled
  (`BuffersKept`). The collector gets them.
- A key without values is written but not read back (`Merge`, `MergeWhole`).
- Closing with data in `fdw` loses both that data and the final
  (`ConnObject.Conn.Close`, `FlushFirstNeeded`).

Where documentation and code differ, the model follows the code: `README.md:114`
and `README.md:118-119` describe the integer encodings differently from
`framedata.go:144-161` (least significant group first; shift, then complement),
and the comment at `frameheader.go:4-16` describes an older, byte-counted flow
control.

## Model

| member | source | states |
|---|---|---|
| `ProtocolTheorems.NoPanic` | conn.go:268-318 | For all window sizes of the two ends and every schedule, no panic is reached (ack or data would block, frame after final, multiple finals, negative or overflowing window, the four recycle errors), and the invariant holds at the end |
| `ProtocolTheorems.StepKeeps` | conn.go:323-348 | Every step of either end keeps the inductive invariant and the whole-run history, and does not panic |
| `ProtocolTheorems.RunKeeps` | conn.go:599-658 | The same over any run from any state that satisfies the invariant |
| `ProtocolFlow.FlowSafe` | conn.go:758-762 | Each kind of step keeps the wires' session numbering and the credit equations, and its panics are out of reach, that of the window going negative because a writer that saw a positive window still has it |
| `ProtocolPipe.PipeSafe` | conn.go:409-420 | Each kind of step keeps the equation between bytes read, unread, in flight and sent |
| `ProtocolTheorems.SessionIsolation` | conn.go:674-734 | In every reachable state the ends' sessions differ by at most one, and the next frame to arrive at an end was sent in the session that end is in |
| `ProtocolTheorems.CreditConservation` | conn.go:631-652 | Window, committed frame, frames in flight, frames queued, acks in flight and ack tokens of a direction add up to at most its sender's window size, and to exactly that until the receiver has recycled; so no queue exceeds it |
| `ProtocolTheorems.TransparentPipe` | conn.go:363-369 | In every session what one side read is a prefix of what the other sent; at EOF it is all of it, and the sender has written its final |
| `ProtocolTheorems.ClosingHandshake` | conn.go:747-797 | Over a whole run each end writes at most one final per session and nothing of that session after it, writes a final ack only in answer to a final, and has recycled exactly min(finals written, finals received) times; everything written is submitted in order or still on the wire |
| `ProtocolTheorems.EveryFrameFits` | conn.go:613-617 | No endpoint ever hands over a data frame whose payload exceeds FrameMaxPayloadSize, although fdw may outgrow it |
| `ProtocolTheorems.QuietAfterFinal` | conn.go:631-639 | Once an end has seen the peer's final of a session, it hands over in that session, over any continuation of the run, at most the one data frame that was already past its window test |
| `ProtocolTheorems.QuietAfterClose` | conn.go:624-625 | The same once Close has begun |
| `ProtocolTheorems.WindowMoves` | conn.go:620-639 | A step of an end moves its window down by one for a frame past its test, up by one for an ack consumed while a frame is to be sent, to the full size on recycling, and not else |
| `ProtocolTheorems.PanicsAreThere` | conn.go:694-706 | In any state whatever, the window and recycle panics are reached under the code's conditions |
| `ProtocolTheorems.NoCloseDeadlock` | README.md:166-176 | With nothing on the wires both ends are in the same session, agree on who has closed, and do not both wait for each other |
| `ProtocolProgress.NoWindowDeadlock` | conn.go:323-354 | From every reachable state with both ends open, moves that only drain, in any order, number at most the weight in flight, and any such beginning can be completed to a state with empty wires, everything sent read and all credit back at its sender: in the window, or, at an end with nothing to send, in acks the next writeFrame consumes |
| `ProtocolProgress.DrainBounded` | conn.go:642-652 | Every draining move strictly decreases the weight in flight, so a run of them is no longer than that weight |
| `ProtocolProgress.SomeMoveEnabled` | conn.go:331-335 | As long as anything is in flight, or acks wait for a frame that is to be sent, some draining move is possible |
| `ProtocolProgress.BlockedWriterHasCredit` | conn.go:640-651 | A writer with an empty window has all its credit outstanding in its own direction: data frames on the wire, frames queued or being acked at the peer, acks on the way back, ack tokens |
| `ProtocolProgress.WriterUnblocks` | conn.go:631-652 | A writer blocked on an empty window is unblocked by some run of deliveries, of its peer's reads and acks, and of acks it consumes itself, after which the window test passes for the same frame |
| `ProtocolProgress.DrainedIsWhole` | conn.go:758-762 | With nothing in flight all credit is back at its sender and each side has read all the other sent |
| `ProtocolProgress.ClosingCompletes` | conn.go:299-318 | From every reachable state with no Close half done, deliveries alone bring both ends to the same session; two ends that both sent a final both recycle |
| `ProtocolAssumptions.FlushFirstNeeded` | conn.go:747-751 | Closing with any unflushed data leads, for all window sizes, to a frame of session 1 on its way to a peer in session 0 |
| `ProtocolAssumptions.QuietAfterCloseNeeded` | conn.go:331-344 | Reading after the final leads, for all window sizes, to the "sendWindow > SendWindowSize" panic in the peer's next session |
| `ProtocolAssumptions.AtomicFinalNeeded` | conn.go:793-794 | A step between final ack and recycling leads, for all window sizes, to the "received frame after final" panic |
| `ProtocolRace.RaceExactly` | conn.go:786-794 | With final ack and recycling as two steps, a step of a reachable state panics if and only if it delivers a data frame to an end between the two; the frame is of the next session, the panic is "received frame after final", and but for that end's pending reset the atomic protocol's invariant holds |
| `ProtocolRace.RunPanicsIff` | conn.go:286-288 | A whole run panics if and only if some move in it is such a delivery |
| `ProtocolRace.OpenerClosesSecond` | conn.go:767-797 | If one end opens every session and closes only after the peer's final, and the other sends only in sessions data has reached it in, no run panics |
| `ProtocolCalls.CallIsRun` | conn.go:268-297 | If the frames that arrive during a call are the next on the wire, the call's steps are a run of the two-endpoint system, with what was handed over on the wire and what arrived off it |
| `ConnObject.CallStaysReachable` | conn.go:483-493 | A call from a reachable state, with such arrivals, leads to a reachable state, so all results on runs apply to calls |
| `ConnObject.InvAtRest` | conn.go:694-706 | In every state of the invariant an endpoint that is in no call satisfies the object's invariant |
| `ConnObject.SentIsFlushThenHandOver` | conn.go:631-658 | Sending a frame extends any sequence of steps by window test, debit and hand-over, all enabled |
| `ConnObject.TakenIsPopThenAck` | conn.go:331-335 | Taking a frame extends any sequence of steps by the pop and its ack, both enabled |
| `ConnObject.Conn.constructor` | conn.go:245-260 | A new conn is the protocol's initial endpoint |
| `ConnObject.Conn.SubmitFrame` | conn.go:268-297 | On the bytes of any frame, the new state or the panic is the one of the protocol's delivery of what the flags say, or the panic on a final with a size; within the credit the object's invariant is kept |
| `ConnObject.Conn.ReceivedFinal` | conn.go:299-318 | A final with a size panics, and so does a second one; the first is recorded, and recycles exactly when the local final was sent |
| `ConnObject.Conn.Recycle` | conn.go:674-706 | Recycles, or panics with the first condition that fails and changes nothing |
| `ConnObject.Conn.ForceRecycle` | conn.go:708-734 | Both channels are drained, the deadlines are cleared, and the state is a fresh session's |
| `ConnObject.Conn.WriteStart` | conn.go:378-394 | Succeeds if and only if the peer's final has not come, neither this end nor a waiting Close has closed, and the write deadline has not passed; EOF exactly if the final has come; keeps a frame already begun, and on failure leaves fdw alone; any frames may arrive before |
| `ConnObject.Conn.WriteFrame` | conn.go:599-658 | With any frames arriving meanwhile, the call is a sequence of protocol steps. A frame that is not too big is handed over, for one unit of window, if and only if the peer's final has not come, nobody has closed, the deadline has not passed and the muxer has not aborted; otherwise only acks are consumed and the error has its cause; the credit bound is kept |
| `ConnObject.Conn.FlushLocked` | conn.go:591-597 | fdw is gone either way; its payload is handed over exactly on success, which is exactly when nothing stands in the way, the peer's final included |
| `ConnObject.Conn.Flush` | conn.go:585-597 | The same for a caller outside Close: a sequence of protocol steps in which a frame that was not sent is dropped |
| `ConnObject.ChunksFacts` | conn.go:495-518 | The frames of k bytes concatenate to them, number max(1, ceil(k / FrameMaxPayloadSize)), and all but the last are full |
| `ConnObject.Conn.WriteInner` | conn.go:495-518 | A sequence of protocol steps. The loop ends, also from an already full frame; the frames handed over and the one left in fdw are the chunks of buffered data and p; on failure n is the number of bytes of p handed over; nothing is handed over from an fdw that has outgrown a frame |
| `ConnObject.Conn.Write` | conn.go:483-493 | A sequence of protocol steps. Succeeds if and only if nothing stands in the way and fdw has not outgrown a frame; then all chunks of buffered data and p are handed over, in order. On failure a proper prefix of them is, and n counts its bytes of p unless the last flush failed, when n is 0. After the peer's final it is EOF with nothing handed over |
| `ConnObject.ZeroIsExactIff` | conn.go:483-493 | That 0 is the number of bytes handed over exactly when everything fits in one frame, or fdw was full and p fits in one |
| `ConnObject.BytesHandedMeans` | conn.go:505-511 | The count n is the length of the handed frames' payloads less the bytes that were buffered |
| `ConnObject.ZeroIsWrong` | conn.go:487-491 | With nothing buffered and one byte more than a frame holds, a full frame has been handed over when n is reported as 0 |
| `ConnObject.Conn.ReadFrame` | conn.go:323-354 | A sequence of protocol steps: takes and acks the first of the frames queued or arriving, or none; an error has its cause, and EOF only when the peer's final came and no frame is left |
| `ConnObject.Conn.LoadFrameReader` | conn.go:363-369 | A sequence of protocol steps: the frames taken are the first of those queued or arriving, all empty but the last, each acked; unread bytes grow by exactly what arrived |
| `ConnObject.Conn.Read` | conn.go:409-420 | A sequence of protocol steps: returns the front of the open frame, as much as fits in the buffer, which leaves the front of the bytes unread or arriving; the open frame is the one begun before, or the first that is not empty; one ack per frame taken; an error has its cause, and EOF only when nothing is left |
| `ConnObject.Conn.WriteFinalLocked` | conn.go:747-756 | The final is marked as sent, and written unless fdw held data, after a sequence of protocol steps that consumes acks |
| `ConnObject.Conn.Close` | conn.go:767-797 | A second Close is an error and changes nothing; the first is the protocol's closing steps, also when fdw held data, recycling at once when the peer's final has come; never panics |
| `Framing.SizedKeeps` | framedata.go:104-110 | Setting the size makes the header give the frame's true length and changes no other field and no payload byte |
| `Framing.ResumeOnce` | framedata.go:247-272 | From any point inside a frame, ReadFrom finishes exactly that frame, or takes everything there is and reports a short read |
| `Framing.ReadErrors` | framedata.go:247-272 | For any bytes read so far and any bytes available, which of short read, too small, too big or success ReadFrom reports, and how many bytes it then holds |
| `Framing.ResumableReading` | framedata.go:247-272 | However the bytes are split, repeated reads build the same frame as one read, report counts adding up to its length, and consume nothing past its end |
| `Framing.PongAnswers` | muxer.go:103-111 | A ping is answered by the same frame with the head flag set, which is a pong |
| `Serving.PongSurvivedIff` | muxer.go:113-122 | A well-formed pong is passed over if its payload begins with an accepted integer (the first byte without its high bit among the first ten, the value below 2^64), and otherwise ends the loop in a panic |
| `Serving.EmptyPongPanics` | muxer.go:113-122 | The pong 00 00 7F FF ends the loop in a panic, whatever follows |
| `Serving.OwnPingReturns` | muxer.go:140-151 | The frame Ping writes is answered, and the answer is a pong the handler reads the sent time from |
| `Serving.ServeOne` | muxer.go:183-243 | A frame at the front of the stream gets the reaction of its control handler or of its conn's SubmitFrame, and if that is not a panic the rest of the stream is served from the state it leaves |
| `Serving.MuxerRefinesFifos` | muxer.go:183-243 | For every interleaving of well-formed frames of any number of conns, of pings, and of pongs that can be read, if each conn accepts its own frames, reading back what was written gives each conn exactly those in order with sizes set, leaves it as submitting them to it alone would, answers every ping, and consumes every byte |
| `Serving.ServedWholeIff` | muxer.go:183-219 | With control payloads of any content and conns in any state, the whole stream is served if and only if every pong in it can be read and every conn accepts its own frames; otherwise the loop ends in the pong handler's panic, in a panic of SubmitFrame, or waiting for a Close |
| `Serving.ServedIsAccepted` | muxer.go:221-240 | For any input at all, a conn ends as the frames handed to it, in order, and no others leave it |
| `Serving.SizedFinalPanics` | conn.go:303-309 | The final 00 01 C0 01 ends the loop in the panic on its size, whatever follows, unless a Close of conn 1 is busy |
| `Serving.AfterFinalPanics` | conn.go:286-288 | A second final, or data after a final, for an open conn ends the loop in a panic |
| `Serving.ControlRefused` | muxer.go:124-137 | A panic frame or a reserved control frame ends the loop |
| `Serving.UnknownConnRefused` | muxer.go:221 | A conn ID beyond the table ends the loop |
| `Serving.BigFrameRefused` | framedata.go:259-266 | A header announcing more than FrameMaxPayloadSize bytes is refused after its four bytes, and ends the loop |
| `Serving.AckMeans` | conn.go:271-279 | An ack adds one token to ackCh and changes nothing else, or panics when there are MaxSendWindowSize |
| `Serving.DataMeans` | conn.go:286-294 | Data is queued last, unless the peer's final has come or MaxSendWindowSize frames are queued, which panics |
| `Serving.FinalMeans` | conn.go:299-318 | A final waits for a busy Close, panics with a size or as the second, is noted by an open end, and starts a fresh session at an end that has closed |
| `Serving.ReservedIgnored` | conn.go:271-284 | The reserved flow frame changes nothing |
| `Serving.MuxerOnline` | muxer.go:183-243 | Wherever a stream its conns accept is cut, the frames before the cut have been taken by their conns, pongs are queued for the pings among them, reading resumes inside the next frame and finds the rest of the stream, and each conn ends as it would have without the cut |
| `MuxerLoops.WriteTo` | framedata.go:275-296 | A well-formed frame is written with its size set; the count is what the writer took; success means the whole frame, and failure exactly that the writer reported an error; too big a frame writes nothing |
| `MuxerLoops.ReadFrom` | framedata.go:247-272 | The method computes the function the reading laws are about, and counts the bytes it added |
| `MuxerLoops.Muxer.Dispatch` | muxer.go:213-240 | A frame is submitted to its own conn and changes no other, or queues a pong, or is a pong that is read, or stops the loop, with SubmitFrame's panic if it panics |
| `MuxerLoops.Muxer.ReadLoop` | muxer.go:167-244 | For any input and conns in any states with no Close under way: the byte count, the pongs queued, the reason to stop, panics of SubmitFrame and of the pong handler included, and the states the conns are left in are those of the specification |
| `MuxerLoops.Muxer.WriteLoop` | muxer.go:253-317 | What reaches the writer is a prefix of all frames' bytes and n is its length; it is all of them exactly if the writer reports no error |
| `Wire.OneFrame` | conn.go:736-745 | A data, ack or final frame of a conn, encoded as the conn builds it, with its size set and told apart by its flags, is submitted as the protocol's delivery of that frame, to the conn of its ID |
| `Wire.ByteStreamIsWires` | conn.go:268-297 | For every interleaving of the protocol's frames of all conns, and conns in any state, the loop takes the whole stream if and only if the protocol delivers each conn's own frames without a panic, and then leaves every conn as those deliveries do |
| `Wire.OnlineWires` | muxer.go:183-243 | Wherever such a stream is cut, each conn has been delivered the first of its own frames, and serving the remaining bytes delivers the rest |
| `Network.NetNeverBreaks` | muxer.go:183-243 | For every number of conns, all window sizes and every interleaving of the conns' own steps, of pings and of the two reading loops over the two byte streams: no conn panics, no frame is refused, no stream is misread; and with its own frames on the streams each conn is in a state that a run of its protocol alone reaches |
| `Network.NetStepKeeps` | muxer.go:213-240 | Every step of the network keeps the streams the bytes of some frames and each conn in a reachable state of its protocol, and breaks nothing |
| `Network.NetDelivers` | muxer.go:183-240 | The next frame on a stream can be read at once, and is taken off it, except a final for an end in the middle of Close |
| `Network.NetAnswers` | muxer.go:103-122 | A ping that is read is answered on the other stream by a pong with its time; a pong changes nothing more |
| `Network.NetActs` | muxer.go:535-542 | A conn may take any step of its own its protocol allows, and what it sends goes last on the stream |
| `Network.NetPipes` | conn.go:363-369 | Over every run of the network, what one side has read of any conn in any session is a prefix of what the other has written to it |
| `Header.UnpackPack` | frameheader.go:131-150 | Every header record fits four bytes and is read back |
| `Header.PackUnpack` | frameheader.go:131-150 | Every four bytes are the header of exactly one record |
| `Header.FlowFrames` | frameheader.go:182-194 | Acks and finals are exactly the flow frames with, respectively, neither flag and the body flag; no frame is both, and none of them has a payload |
| `Header.MasksAreDivisions` | frameheader.go:182-194 | The bit masks of the source, on any byte, are the divisions and remainders used in the model |
| `Header.SetBitAlone` | frameheader.go:244-273 | Setting a flag changes no other flag and no ID bit |
| `FrameBuffers.FrameData.constructor` | frameheader.go:284-290 | A new frame has a zero size, no flags and the given conn ID |
| `FrameBuffers.FrameData.SetSizeValue` | frameheader.go:158-161 | Only the size field changes, truncated to 16 bits |
| `FrameBuffers.FrameData.SetPayloadSize` | framedata.go:104-110 | Sets the size to the payload's length and changes nothing else; panics exactly on a frame without a header |
| `FrameBuffers.FrameData.SetConnId` | frameheader.go:131-150 | Only the ID field changes |
| `FrameBuffers.FrameData.SetFlow` | frameheader.go:244-246 | Only the flow flag changes |
| `FrameBuffers.FrameData.SetBody` | frameheader.go:266-273 | Only the body flag changes |
| `FrameBuffers.FrameData.SetHead` | frameheader.go:255-262 | Only the head flag changes |
| `FrameBuffers.FrameData.SetMuxerControl` | frameheader.go:231-234 | The three flags are the control bits, the ID is the muxer's, the size is kept |
| `Varint.AcceptedIff` | frameparser.go:41-56 | A byte sequence is accepted exactly when some byte lacks the high bit, the first such is among the first ten, and the groups up to it add up to less than 2^64 |
| `Varint.DecodedMeaning` | frameparser.go:41-56 | An accepted value is the sum of (b mod 128) * 128^i over the one to ten bytes consumed |
| `Varint.GroupAdded` | frameparser.go:49-52 | One shift-and-or of the reading loop in 64 bits adds the next group exactly |
| `Varint.Uint64RoundTrip` | framedata.go:144-151 | Reading inverts writing for every uint64, whatever follows |
| `Varint.EncodingMinimal` | framedata.go:144-151 | No accepted encoding of a value is shorter than the one written |
| `Varint.ZigZagMeaning` | framedata.go:154-161 | Shift and complement give 2x or -2x-1, for every int64 including the least, and the reader's formula inverts it |
| `Varint.ZigZagOnto` | frameparser.go:66-73 | Every uint64 is the zigzag of the int64 the reader computes |
| `Varint.Int64RoundTrip` | frameparser.go:66-73 | Reading inverts writing for every int64, whatever follows |
| `Strings.LenRoundTrip` | framedata.go:165-177 | A length is written exactly when it is in 0..0x7fff, and is then read back |
| `Strings.StringRoundTrip` | framedata.go:181-199 | NULL, the empty string and every string under 0x8000 bytes are read back, whatever follows |
| `Strings.StringSurvivesIff` | frameparser.go:88-105 | A string is read back exactly when it is that short |
| `Strings.StringMeans` | frameparser.go:88-105 | What ReadString makes of any bytes: a string of the length they start with, NULL, the empty string, or a panic on missing bytes or an unmapped index |
| `Strings.LenMeans` | frameparser.go:76-85 | What ReadLen makes of any bytes: seven bits, or fifteen with the high bit set, high byte first, or a panic |
| `Strings.StringsPrefixFree` | framedata.go:181-199 | No encoding of a string or NULL begins the encoding of another |
| `Strings.EntriesRead` | frameparser.go:171-184 | Nested NULL-terminated key-value-value lists of any contents are read back, whatever follows |
| `Strings.EntriesUnique` | frameparser.go:171-184 | Two lists with any suffixes that give the same bytes are the same lists with the same suffixes |
| `Records.AddMap` | frameparser.go:151-184 | Reading a map's entries, in whatever order they were written, merges the map into the target, value order kept |
| `Records.AddedValues` | frameparser.go:171-184 | For keys of any spelling, reading collects under each key the values of all entries spelled so, in order, behind those already there |
| `Records.RequestCollects` | frameparser.go:151-193 | On any bytes that are a request, the query is collected under its keys as they are, the header under its keys in canonical form, and Content-Length then set |
| `Records.ResponseCollects` | frameparser.go:204-227 | On any bytes that are a response, the header is collected under its keys in canonical form, and Content-Length set unless a key is spelled exactly so |
| `Records.RouteMeans` | frameparser.go:108-115 | A route is a string after a zero, and an index panics |
| `Records.MapReads` | framedata.go:310-345 | A map written in any order is read back as its entries |
| `Records.MergeWhole` | frameparser.go:151-184 | A map survives whole exactly when every key has a value |
| `Records.RequestRoundTrip` | framedata.go:299-360 | ReadRequest after WriteRequest, for every order of both maps, either reports the URL the parser refuses or recovers the method, the scheme, both maps, the path, host, length and Content-Length as `RequestMeans` describes them case by case, and leaves exactly the body |
| `Records.ReceivedMeans` | framedata.go:304-355 | What is received is determined by: the cleaned path with backslashes turned and a slash at its end put back; the host, else the first Host field, else none; the length, else what the first Content-Length field parses to, else it as given, else -1; Content-Length set to a known length in decimal and all other fields kept |
| `Records.TrailingSlashKept` | framedata.go:304-307 | With a cleaner that leaves a slash only at the root, the path received ends in a slash exactly when the path sent did or it is the root |
| `Records.WithLengthMeans` | frameparser.go:188-193 | Setting the length means: "0" for zero, the decimal number for a positive one, nothing for an unknown one, and no other field changes |
| `Records.RecordsToldApart` | conn.go:905-925 | A request record is taken for a request and a response record for a response, neither for the other, and a hijack marker for what it is |
| `Records.ResponseRoundTrip` | framedata.go:363-380 | ProxyResponse after WriteResponse yields the status and the header merged into those present, with Content-Length set to the decimal length exactly when absent from the record and known, no other field touched, and leaves exactly the body |
| `RecordLimits.RequestSurvivesIff` | framedata.go:299-360 | A request with canonical header keys, written to a frame that may hold something already, is sent, taken for a request and recovered, in the sense of `RequestMeans`, if and only if the record fits in the frame, its method, scheme, path, host, query and the header fields read from the record are all shorter than 0x8000 bytes, and the URL parser accepts its path |
| `RecordLimits.ResponseSurvivesIff` | framedata.go:363-380 | A response with canonical header keys is sent and recovered if and only if the record fits in the frame, its status is in 0..0x7fff and its keys and values are shorter than 0x8000 bytes |
| `RecordLimits.RequestSizeAnyOrder` | framedata.go:310-358 | The size of a request record, and so whether it fits, is the same for every iteration order of its maps |
| `RecordLimits.ResponseSizeAnyOrder` | framedata.go:367-378 | The same for a response record |
| `RecordLimits.ThreeLongValues` | framedata.go:356-358 | A request with three header values of 0x7fff bytes meets every other condition and is too big for any frame |
| `RecordLimits.LongMethodPanics` | framedata.go:300-302 | A request with a method of 0x8000 bytes is written without it, and reading it panics |
| `RecordLimits.LongLengthHarmless` | frameparser.go:188-193 | A Content-Length field of 0x8000 bytes or more does not keep a request of known length from being recovered |
| `FrameBuffers.FrameData.WriteUint64` | framedata.go:144-151 | The loop appends the encoding the varint laws are about |
| `FrameBuffers.FrameData.WriteInt64` | framedata.go:154-161 | Appends the zigzag varint |
| `FrameBuffers.FrameData.WriteLen` | framedata.go:165-177 | Appends the length, or fails and appends nothing |
| `FrameBuffers.FrameData.WriteString` | framedata.go:181-191 | Appends the string, or fails and appends nothing |
| `FrameBuffers.FrameData.WriteStringNull` | framedata.go:196-199 | Appends the NULL marker |
| `FrameBuffers.FrameData.WriteMap` | framedata.go:310-318 | The nested loops append the key-value-value list of the map in iteration order |
| `FrameBuffers.FrameData.WriteRequestHeader` | framedata.go:320-355 | Panics if and only if a Content-Length or Host value list it needs is empty; otherwise appends the header list and settles content length and host the same way for every iteration order |
| `FrameBuffers.FrameData.WriteRequest` | framedata.go:299-360 | Panics if and only if the path is empty or such a list is; otherwise appends the request record the round trip is about, sets the head flag and no other header field, and reports a frame past FrameMaxSize exactly |
| `FrameBuffers.FrameData.WriteResponse` | framedata.go:363-380 | Appends the response record, sets the head flag and no other header field, and reports a frame past FrameMaxSize exactly |
| `FrameBuffers.FrameData.AppendBody` | conn.go:501-502 | Appends body data and sets the body flag alone; like the record writers, keeps a frame free of what writeFrame panics on, a flow flag or a payload without a flag |
| `FrameParsing.FrameParser.Read` | frameparser.go:34-38 | Returns as much of the front as fits, and keeps the rest |
| `FrameParsing.FrameParser.ReadUint64` | frameparser.go:41-56 | The loop with 64-bit shifts returns the decoded value and the rest, or panics, as the varint laws say |
| `FrameParsing.FrameParser.ReadInt64` | frameparser.go:66-73 | The same for signed integers |
| `FrameParsing.FrameParser.ReadLen` | frameparser.go:76-85 | Returns the length and the rest, or panics on missing bytes |
| `FrameParsing.FrameParser.ReadString` | frameparser.go:88-105 | Returns the string or NULL and the rest; panics on an unmapped index or missing bytes |
| `FrameParsing.FrameParser.ReadRoute` | frameparser.go:108-115 | Returns the route and the rest; panics on an index |
| `FrameParsing.FrameParser.ReadMap` | frameparser.go:151-184 | The nested loops build the map of all entries and notice a watched key |
| `FrameParsing.FrameParser.ReadRequest` | frameparser.go:129-195 | On any bytes, parses or fails as the request decoder says |
| `FrameParsing.FrameParser.ProxyResponse` | frameparser.go:199-231 | On any bytes, parses or fails as the response decoder says |
| `FrameParsing.FrameParser.ReadRecordType` | frameparser.go:58-63 | The first byte, or a panic when there is none |
| `FrameParsing.FrameParser.Serve` | conn.go:905-925 | The case distinction of Conn.Serve on head flag and record type |
| `FrameParsing.FrameParser.ReadAnswer` | conn.go:855-864 | The case distinction of Conn.ProxyResponse |
| `WireFormat.HeaderBytes` | frameheader.go:131-150 | The bytes of three headers |
| `WireFormat.FrameBytesOfConnOne` | conn.go:736-745 | The bytes of an ack, both finals and data frames of conn 1 |
| `WireFormat.PingBytes` | muxer.go:103-111 | The bytes of a ping and of its pong |
| `WireFormat.NumberBytes` | framedata.go:144-161 | The bytes of some integers |
| `WireFormat.StringBytes` | framedata.go:165-199 | The bytes of lengths, of NULL, the empty string and others, and of a list |
| `WireFormat.RequestExample` | framedata.go:299-360 | All bytes of a request record, field by field |
| `WireFormat.ResponseExample` | framedata.go:363-380 | All bytes of a response record, field by field |
| `Allocator.StepKeeps` | muxer.go:513-532 | Every atomic step keeps IDs 1..connLastID split without duplicates into free and handed out, never panics, and hands out only IDs nobody holds |
| `Allocator.ReleaseMeans` | muxer.go:546-553 | A release goes to the end of the queue, or panics if the queue is full |
| `Allocator.IdsConserved` | muxer.go:503-510 | After every interleaving of NewConn and ConnRelease that split holds, IDs are between 1 and MaxConnID, a conn that is out has room in the queue to come back to, and AvailableConns is MaxConnID minus the conns handed out |
| `Allocator.AvailableReadTwice` | muxer.go:503-510 | Reading the queue length and, after any other steps, the counter gives at most MaxConnID minus the conns handed out at the first reading, and exactly that if and only if no ID was created in between |
| `Allocator.NeverHandedOutTwice` | muxer.go:546-553 | In every reachable state an ID handed out next is not held by anyone |
| `Allocator.RetryMeansProgress` | muxer.go:519-531 | A compare-and-swap hands out an ID or fails, and fails if and only if the counter has grown since the load; the goroutine then looks again |
| `Allocator.NilMeansExhausted` | muxer.go:513-532 | A goroutine leaves NewConn with exactly one ID, or with nil and then only when all IDs have been created; a step moves no other goroutine |
| `Allocator.LeftAloneObtains` | muxer.go:519-531 | From wherever it is in NewConn, a goroutine left alone gets the next ID if and only if one is left to create |
| `Allocator.AvailableMeansObtainable` | muxer.go:503-532 | AvailableConns is positive exactly when an undisturbed NewConn returns a conn |
| `Deadline.StepKeeps` | conn.go:66-99 | Every step keeps the deadline's invariant, closes no channel twice and reopens none |
| `Deadline.DeadlineSafety` | conn.go:66-106 | Over every interleaving of set, wait, expiry and callback, with timers and started callbacks running on whatever set does with its reference, no channel is closed twice, a timer or callback under way has an open channel, and every channel ever returned is current or closed |
| `Deadline.NothingOutlivesItsDeadline` | conn.go:70-73 | At most one timer or callback is under way, the current timer's, and none of an earlier deadline is left when set returns |
| `Deadline.SetMustWait` | conn.go:70-72 | A set that went ahead without waiting for a started callback would have its channel closed twice |
| `Deadline.WaitMeans` | conn.go:102-106 | Wait returns the current channel and changes nothing |
| `Deadline.NobodyStranded` | conn.go:66-106 | A set waiting for a callback gets it, and an expiry or a past time closes every channel any waiter holds |
| `Deadline.SetMeans` | conn.go:66-99 | After set, the deadline is expired exactly for a past time and a timer runs exactly for a future time; an open channel is kept |
| `Pool.ActionKeeps` | framepool.go:14-43 | Every action of conns and muxer, Ping and Hijack included, keeps each buffer with one owner, and every buffer of a frame within size at capacity FrameMaxSize |
| `Pool.BuffersOwnedOnce` | framepool.go:14-43 | After any run no buffer is in two places, so none is freed twice, every pooled buffer has capacity FrameMaxSize, and a frame begun by writeStart has exactly FrameMaxPayloadSize bytes free |
| `Pool.BuffersKept` | framepool.go:35-43 | While the pool has room no buffer is lost, except in the three places where the code lets go of one without freeing it; one is made only by Hijack or when the pool is empty |

## Left out

- client.go, server.go, reverseproxy.go and cmd/: dialling, listeners and HTTP proxying over libraries that are not part of this model.
- Muxer Close and Shutdown, ServeHTTP and the goroutines they start: teardown depends on real I/O and timers.
- Waking a writer blocked on an empty window when the peer closes: the code has no such case, and progress is claimed only while both ends are open.
- Conn.ReadFrom, Conn.WriteTo, Conn.WriteByte, hijacking and ResponseWriter.Flush; the first can stop making progress on an exactly full frame, the last closes without flushing.
- Panic control frames with a payload: the header says they have none, so they are not well-formed frames.
- The latency a pong reports, statistics, serial numbers, the conn's run state and all String() methods.
- Registered routes and string tables, which the reading side does not implement.
- The encoding of the query back into the parsed URL, and the construction of the http.Request around the decoded fields.
- FrameBuffers.FrameData: a Go slice that other variables may alias is one object holding its bytes; aliasing is the subject of `Pool` alone.
- ConnObject.Conn.WriteFrame: another goroutine's Close is an interruption of the call, and its Read is not modelled inside the method; both interleave step by step in the protocol modules.
- ConnObject.Conn.LoadFrameReader: a peer that sends empty frames for ever, on which the code's loop does not end; any finite number of arrivals is modelled.
- Allocator.IdsConserved: AvailableConns is taken at one instant here; its two separate readings are the subject of `Allocator.AvailableReadTwice`.
- MuxerLoops.Muxer.ReadLoop: the owners of the conns do not act while the method runs; their steps interleave with the loop's frame by frame in `Network`.
- Pool.BuffersOwnedOnce: the actions follow the places where the code allocates, passes on and frees a buffer; they are not derived from the methods of `Conn` and `Muxer`.
- Deadline.SetMeans: a time is zero, past or future; durations and clocks are not modelled.
- NewConnWait and the conn table's lookup of conns by the allocator.
