# Verified model of nethello

nethello is a network test tool. This project models the parts of it that carry protocol and data-structure
logic, and proves what they promise:

- **KCP** (`depend/kcp/ikcp.c`, `ikcp.h`), the reliable-transport engine: fragmentation, windows, cumulative and
  selective acknowledgements, retransmission with backoff and fast resend, congestion control, window probing,
  datagram batching and the wire codec. `KcpModel` gives every operation as a function on the control block;
  `Kcp.Endpoint` is the imperative endpoint (mutable fields, loops, a growing acknowledgement array, one output
  buffer), each of whose methods is proved equal to that function. `IQueue` has the pointer macros of the intrusive
  lists on real nodes, and `SegmentLists` runs the list loops of the engine on such circles, proved equal to the
  sequence functions of the model. On top of that stand the single-endpoint invariant for any input bytes
  (`KcpInvariant`), whole runs of one endpoint (`KcpRuns`), the codec (`KcpCodec`), messages and fragments
  (`KcpMessages`), timing (`KcpTiming`), and two endpoints over a network that loses, duplicates and reorders
  datagrams (`KcpLink`).
- **File transfer** (`src/core/file`, `src/net/StickyPacket.cpp`, `src/net/Buffer.h`, `src/core/raw`,
  `SockUtil::send_tcp_data`): the sender, which takes any answer but 0 of its transport as "sent", the framing of a
  byte stream that arrives in arbitrary pieces, the drain loop that feeds it from KCP, and the receiver. `FileStream`
  composes them over TCP with what each call really puts on the stream. `FileKcp` is the closed system: both programs,
  both KCP endpoints and the network, with every call of `ikcp_send`, `ikcp_recv`, `ikcp_input` and `ikcp_update` in any
  order; `FileKcpInvariant` proves what every state of every run keeps, `FileOverKcp` what follows for the file, and
  `FileRun` (on `KcpExchange`) exhibits whole runs.
- **Independent parts**: the picojson printer and parser, GNU getopt's in-place permutation, the event loop's timer
  queue, the buffered socket sender, and the lock-free calendar conversion.

32-bit arithmetic is explicit: `u32` values wrap (`Serial.Add`, `Sub`, `Mul`), sequence numbers and clocks are compared
by the signed reading of their difference (`Serial.Diff`), signed overflow wraps as two's complement.
The end-to-end theorems assume fewer than 2^31 numbered segments in each direction; everything about one endpoint is
exact modulo 2^32. The network is the set of all datagrams ever output, from which any one may arrive at any time,
any number of times or never.

Files: `Serial`, `Sequences`, `Wire`, `KcpModel`, `KcpInvariant`, `KcpMessages`, `KcpCodec`, `KcpTiming`, `KcpRuns`,
`KcpLink`, `KcpExchange`, `Kcp`, `IQueue`, `SegmentLists`, `Buffer`, `StickyPacket`, `KcpClient`, `FileTransfer`,
`FileStream`, `FileKcp`, `FileKcpInvariant`, `FileOverKcp`, `FileRun`, `SendBuffer`, `TimerQueue`, `Json`, `JsonReader`,
`Getopt`, `Calendar`. `dafny verify dfyconfig.toml` checks all of them.

## What turned out to be conditional

- A framing header that announces length 0 stops the dispatch loop from advancing: the receiver hangs
  (`StickyPacket.ZeroLengthHangs`), and without oversized headers exactly then (`StickyPacket.HangsExactlyWhenStuck`).
- FileSend tests the answer of `_send_data` only for 0. Over KCP the answer is the result of `ikcp_send` behind an
  unsigned type, so a refusal of -2 reads as 0xFFFFFFFE and the piece counts as sent. The transfer is faithful at every
  moment, and complete once everything has settled, exactly when the largest data message, min(file size + 8, send size)
  bytes, is at most 127 * mss (else `ikcp_send` refuses it) and at most 131072 (else the drain loop never reads it);
  otherwise the file never becomes complete (`FileOverKcp.TransferOverKcp`, `FileOverKcp.SettledTransfer`). The program's own
  send size of 1460 meets this for every file (`FileOverKcp.OwnSettingsComplete`). `FileRun.RefusalHappens` is a run at a
  send size of 200000 that leaves 1 byte of 199993 on disk, with success reported by the sender.
- Over TCP `send_tcp_data` may give up with a short count. What FileSend counts is what reached the stream exactly when
  every answer that was not 0 was the full length (`FileStream.CountIsTrueExactly`); if each message went out whole, or
  not at all with the answer 0, the transfer is faithful (`FileStream.FileOverStream`; only this way round, because bytes
  that happen to coincide can make a damaged stream look right). `FileStream.ShortWriteCorrupts` is the failing input.
- The drain loop of KcpClient reads a complete message exactly when it is at most 131072 bytes; a longer one, which
  `ikcp_send` accepts up to 127 * mss, stalls it for good (`FileOverKcp.ReadsWhatFits`, `FileOverKcp.TooLongStalls`).
- A flush of the send buffer compares sizes as signed 32-bit numbers. It conserves the bytes exactly when fewer than
  2^31 are held or the kernel takes fewer than the signed reading of their number
  (`SendBuffer.FlushConservesExactly`); two sends on a fresh socket with the default limits reach a buffer that is then
  lost (`SendBuffer.HugeBufferIsLost`), and a caller who keeps limit and pieces below 1 GiB is safe
  (`SendBuffer.ModestRunsConserve`).
- `flushDelayTask` returns the wait to the first deadline exactly when that deadline is not already over, and 0 also
  for a timer due right now (`TimerQueue.WaitIsExact`). Its answer is unambiguous and exact if and only if everything
  scheduled during the flush is due later than the clock reads (`TimerQueue.FlushIsUnambiguous`).
- A printed JSON value is read back exactly when it fits the depth limit, which counts array levels and needs one
  level left for any object (`Json.RoundTrip`).
- Scanning permuted arguments again gives the same result exactly unless the last option misses its argument and there
  are other arguments it could take instead (`Getopt.PermutedIsStable`).
- The calendar conversion is right exactly for adjusted times from the epoch on (`Calendar.NoLocksLocaltime`).

## Model

| member | source | states |
|---|---|---|
| KcpLink.DeliveredIsPrefix | depend/kcp/ikcp.c:358-1178 | in every state of every run of two endpoints over a losing, duplicating, reordering network, in both directions, the bytes received are a prefix of the bytes accepted by ikcp_send, and in message mode the messages received are a prefix of the messages accepted |
| KcpLink.NoAckedSegmentIsLost | depend/kcp/ikcp.c:578-853 | in every reachable state and in both directions, each number below snd_nxt is in the sender's snd_buf, below the receiver's rcv_nxt, or in its rcv_buf |
| KcpLink.FullQueueIsReadable | depend/kcp/ikcp.c:358-463 | with honest senders, a full receive queue at either endpoint holds a complete message at its head: ikcp_recv with enough room returns exactly as many bytes as ikcp_peeksize announced |
| KcpLink.QuietMeansDelivered | depend/kcp/ikcp.c:1292-1295 | in either direction, once ikcp_waitsnd is 0 at the sender and the receiver has emptied its queue, everything accepted was delivered |
| KcpLink.RunKeepsLink | depend/kcp/ikcp.c:358-1178 | every reachable state of the two-endpoint system satisfies the link invariant (logs, queues, acknowledgements and all datagrams in transit agree) |
| KcpInvariant.InputKeepsInv | depend/kcp/ikcp.c:756-907 | ikcp_input on any byte string keeps the endpoint invariant, exact modulo 2^32: snd_buf strictly ascending in [snd_una, snd_nxt) with snd_una its head, rcv_buf strictly ascending in the window, rcv_queue consecutive up to rcv_nxt - 1 and within rcv_wnd, a ready rcv_buf head only behind a full queue, counters equal to lengths |
| KcpInvariant.RecvKeepsInv | depend/kcp/ikcp.c:358-435 | ikcp_recv, also when it only peeks or fails, keeps the invariant |
| KcpInvariant.SendKeepsInv | depend/kcp/ikcp.c:469-544 | ikcp_send keeps the invariant: queued segments have at most mss bytes and fewer than 128 fragments follow them |
| KcpInvariant.FlushKeepsInv | depend/kcp/ikcp.c:938-1144 | ikcp_flush keeps the invariant while numbering new segments |
| KcpInvariant.UpdateKeepsInv | depend/kcp/ikcp.c:1153-1178 | ikcp_update keeps the invariant |
| KcpInvariant.SettersKeepCfg | depend/kcp/ikcp.c:1230-1289 | every setter leaves mtu at least 50, mss = mtu - 24, rcv_wnd at least 128 and interval within 10..5000 |
| KcpInvariant.DropBelowExact | depend/kcp/ikcp.c:600-614 | for a cumulative acknowledgement inside the window exactly the segments below it are dropped |
| KcpInvariant.DropAckedExact | depend/kcp/ikcp.c:578-598 | exactly the acknowledged segment is dropped |
| KcpInvariant.InsertBackMembers | depend/kcp/ikcp.c:690-725 | the backward scan inserts a new segment unless its number is present, and adds nothing else |
| KcpInvariant.InsertBackKeeps | depend/kcp/ikcp.c:690-725 | the insertion keeps rcv_buf strictly ascending from rcv_nxt, modulo 2^32 |
| KcpRuns.RunKeepsInv | depend/kcp/ikcp.c:234-1289 | every state reachable by any sequence of calls with any input bytes satisfies the endpoint invariant, with the settings unchanged |
| KcpRuns.RunKeepsCong | depend/kcp/ikcp.c:882-1144 | in every reachable state (cwnd - 1) * mss < incr < (cwnd + 1) * mss and ssthresh >= 2, for an mss up to 65535 and a fast-resend threshold that cannot make cwnd * mss wrap |
| KcpRuns.RunKeepsProbe | depend/kcp/ikcp.c:977-1021 | in every reachable state the probe timer is off or between 7 and 120 seconds, and no question is pending between calls |
| KcpRuns.SendsAreAccounted | depend/kcp/ikcp.c:1051-1115 | over any run of fewer than 2^31 calls, each segment in snd_buf was sent once first and otherwise only when overdue or at the fast-resend threshold, fast resends number at most fastlimit when positive, and with nodelay off its timeout after k <= 16 overdue resends is at least 2^k times the first |
| KcpRuns.RunDiesOnlyAtDeadLink | depend/kcp/ikcp.c:1111-1113 | state is -1 only if after some earlier call a segment in snd_buf had been sent dead_link times |
| KcpCodec.FlushRoundTrip | depend/kcp/ikcp.c:938-1121 | every datagram of a flush is at most mtu bytes, and decoding them yields exactly the pending acknowledgements, then the probes, then the due data segments, in order, unchanged and without error |
| KcpCodec.BatchRoundTrip | depend/kcp/ikcp.c:954-1121 | gathering any list of sendable segments into datagrams and decoding those gives back the list |
| KcpCodec.DuePacketsCarry | depend/kcp/ikcp.c:1055-1109 | every data segment that travels carries number, fragment and bytes of a segment in snd_buf |
| KcpCodec.FlushAnnounces | depend/kcp/ikcp.c:926-962 | every segment of a flush announces the free room of the receive queue and the next number expected (window at most 65535) |
| KcpCodec.FlushedPacket | depend/kcp/ikcp.c:938-1121 | no datagram of a flush decodes to anything the flush did not mean to send |
| Wire.HeaderRoundTrip | depend/kcp/ikcp.c:54-121 | every header field is decoded as it was encoded |
| Wire.ParseEncodeAll | depend/kcp/ikcp.c:766-876 | the decode loop over the encoding of any list of valid segments gives back the list and no error |
| KcpMessages.PeekSizeIsExact | depend/kcp/ikcp.c:358-463 | whatever the queue holds, the size announced is the size merged: the assertion in ikcp_recv never fires |
| KcpMessages.PeekFindsWholeMessage | depend/kcp/ikcp.c:441-463 | on a stretch of honestly numbered fragments ikcp_peeksize accepts exactly complete messages, and the merge stops at fragment 0 |
| KcpMessages.SendQueuesBytes | depend/kcp/ikcp.c:469-544 | the bytes ikcp_send reports are exactly the bytes it appended to the queue, in stream mode across the extended last segment too; on an error it queues none |
| KcpMessages.SendQueuesMessage | depend/kcp/ikcp.c:509-544 | in message mode an accepted message is queued as fragments that reassemble to exactly that message |
| KcpMessages.SendKeepsChain | depend/kcp/ikcp.c:469-544 | sending keeps the countdown of fragment numbers behind what was numbered before |
| KcpMessages.RecvReadsFirstMessage | depend/kcp/ikcp.c:358-435 | if the queue holds whole messages, ikcp_recv returns the first one (or -3 when it does not fit) and leaves the others |
| KcpTiming.SampleStaysInBounds | depend/kcp/ikcp.c:550-565 | one sample in [a, b] with b < 2^28: no 32-bit intermediate overflows, srtt stays in [a, b], rttval in [0, b], and rx_rto is the exact clamped formula |
| KcpTiming.RttBounds | depend/kcp/ikcp.c:550-565 | the same over any number of samples, with rx_rto between min(rx_minrto, 60000) and 60000 |
| KcpTiming.GrowKeeps | depend/kcp/ikcp.c:882-904 | a growth step keeps incr within a segment of cwnd, never shrinks cwnd and never lifts it above rmt_wnd |
| KcpTiming.CongestKeeps | depend/kcp/ikcp.c:1123-1144 | fast resend and loss keep the congestion invariant and leave cwnd at least 1, as long as the new cwnd * mss does not wrap |
| KcpTiming.InputKeepsCong | depend/kcp/ikcp.c:882-904 | ikcp_input on any bytes keeps the congestion invariant and lifts cwnd at most to the remote window |
| KcpTiming.FlushKeepsCong | depend/kcp/ikcp.c:1123-1144 | ikcp_flush keeps the congestion invariant |
| KcpTiming.FlushFillsWindow | depend/kcp/ikcp.c:1023-1049 | a flush puts no more segments in flight than the smallest of snd_wnd, rmt_wnd and (unless switched off) cwnd, and leaves none queued while there is room |
| KcpTiming.ProbesClosedWindows | depend/kcp/ikcp.c:977-1021 | a flush asks for the remote window exactly when that is closed and the probe timer has run out; a closed window leaves the timer armed, and each question makes the wait half as long again, up to 120 seconds |
| KcpTiming.FlushSendsEach | depend/kcp/ikcp.c:1056-1066 | after an effective flush every segment in snd_buf has been sent at least once (its counter not having wrapped) |
| KcpTiming.SentOnlyWhenDue | depend/kcp/ikcp.c:1055-1109 | exactly the segments that are new, overdue or skipped often enough travel |
| KcpTiming.DeadIff | depend/kcp/ikcp.c:1111-1113 | a flush declares the link dead exactly when a segment it sends has been sent dead_link times |
| KcpTiming.StateDiesOnlyAtDeadLink | depend/kcp/ikcp.c:1111-1113 | a flush changes state only to -1, and only then |
| KcpTiming.CheckAgreesWithUpdate | depend/kcp/ikcp.c:1190-1226 | modulo 2^32, ikcp_update does not flush before the moment ikcp_check names, which is at most interval ahead and not after the scheduled flush |
| KcpTiming.TickAdvances | depend/kcp/ikcp.c:1153-1178 | each flush moves ts_flush on by at least interval, and it stays within one interval after the clock (read at least every 2^31 units) |
| KcpTiming.FlushesAreBounded | depend/kcp/ikcp.c:1153-1178 | under a monotone clock the number of flushes is at most the time passed divided by interval, plus one |
| Serial.AddSubAreModular | depend/kcp/ikcp.c:136-139 | unsigned addition and subtraction are the ring operations modulo 2^32 and _itimediff is the signed reading of the difference |
| Kcp.Endpoint.constructor | depend/kcp/ikcp.c:234-295 | a fresh control block satisfies the invariant |
| Kcp.Endpoint.SetMtu | depend/kcp/ikcp.c:1230-1243 | the new configuration, with a buffer of three maximal datagrams; refused below 50 |
| Kcp.Endpoint.WndSize | depend/kcp/ikcp.c:1279-1289 | positive windows are taken over, the receive window not below 128 |
| Kcp.Endpoint.NoDelay | depend/kcp/ikcp.c:1253-1276 | non-negative settings are taken over, the interval clamped to 10..5000 |
| Kcp.Endpoint.PeekSize | depend/kcp/ikcp.c:441-463 | the loop over the queue computes the model's announced size |
| Kcp.Endpoint.Recv | depend/kcp/ikcp.c:358-435 | keeps the invariant and computes the model's new state, return value and data |
| Kcp.Endpoint.Send | depend/kcp/ikcp.c:469-544 | keeps the invariant and computes the model's new state and return value |
| Kcp.Endpoint.UpdateAck | depend/kcp/ikcp.c:550-565 | the estimator step in place equals the model's |
| Kcp.Endpoint.ParseUna | depend/kcp/ikcp.c:600-614 | the deletion loop in place equals the model's |
| Kcp.Endpoint.ParseAck | depend/kcp/ikcp.c:578-598 | the search and deletion in place equals the model's |
| Kcp.Endpoint.ParseFastack | depend/kcp/ikcp.c:616-638 | the skip counters in place equal the model's |
| Kcp.Endpoint.AckPush | depend/kcp/ikcp.c:644-678 | appends one acknowledgement to the array, grown by doubling when full, and keeps the earlier ones |
| Kcp.Endpoint.ParseData | depend/kcp/ikcp.c:690-750 | out-of-window and repeated segments are dropped, others inserted at their place and moved up when ready, as in the model |
| Kcp.Endpoint.Input | depend/kcp/ikcp.c:756-907 | on any bytes: terminates, keeps the invariant, and computes the model's state and return code |
| Kcp.Endpoint.Flush | depend/kcp/ikcp.c:938-1144 | keeps the invariant, computes the model's state, and hands exactly the model's datagrams to the output, gathered in one fixed buffer |
| Kcp.Endpoint.Update | depend/kcp/ikcp.c:1153-1178 | keeps the invariant and computes the model's state and datagrams |
| Kcp.Endpoint.Check | depend/kcp/ikcp.c:1190-1226 | computes the model's next update time |
| IQueue.Init | depend/kcp/ikcp.h:151-152 | a list head on its own is an empty circle |
| IQueue.Add | depend/kcp/ikcp.h:165-167 | inserts right behind the given node, all other neighbours kept |
| IQueue.AddTail | depend/kcp/ikcp.h:169-171 | appends at the end of the list |
| IQueue.Delete | depend/kcp/ikcp.h:175-178 | removes the node from the circle and clears its links |
| IQueue.IsEmpty | depend/kcp/ikcp.h:183-183 | a head points at itself exactly when the list is empty |
| SegmentLists.SegQueue.DropBelow | depend/kcp/ikcp.c:600-614 | the deletion loop of ikcp_parse_una on a circle of nodes leaves the sequence the model's scan gives, and counts what it deleted |
| SegmentLists.SegQueue.DropAcked | depend/kcp/ikcp.c:578-598 | the search and deletion of ikcp_parse_ack on nodes equals the model's scan |
| SegmentLists.SegQueue.MarkSkipped | depend/kcp/ikcp.c:616-638 | the skip counters are raised in place, node by node, as in the model's scan |
| SegmentLists.SegQueue.InsertBack | depend/kcp/ikcp.c:690-725 | the backward search on nodes inserts a new node at the model's place, or finds the number repeated |
| SegmentLists.SegQueue.MoveFirst | depend/kcp/ikcp.c:733-742 | the first node of one list becomes the last of another; both stay circles that share no node |
| SegmentLists.RxLists.ParseData | depend/kcp/ikcp.c:690-750 | ikcp_parse_data on rcv_buf and rcv_queue as circles, moving nodes between them, computes the model's receiving half |
| SegmentLists.TxLists.ParseUna | depend/kcp/ikcp.c:600-614 | the list and its counter after ikcp_parse_una are the model's |
| SegmentLists.TxLists.ParseAck | depend/kcp/ikcp.c:578-598 | the same for ikcp_parse_ack, which ignores numbers outside the window |
| SegmentLists.TxLists.Admit | depend/kcp/ikcp.c:1027-1049 | the loop that moves nodes from snd_queue to snd_buf and stamps them there computes the model's sending half |
| Buffer.Buffer.SetCapacity | src/net/Buffer.h:67-90 | never shrinks, and keeps the contents |
| Buffer.Buffer.Align | src/net/Buffer.h:140-149 | the given bytes become the contents; refused when the range is empty |
| Buffer.Buffer.SetSize | src/net/Buffer.h:162-168 | a size above the capacity is ignored |
| Buffer.Buffer.Append | src/net/Socket.h:797-830 | received bytes are appended behind the contents |
| StickyPacket.Dispatch | src/net/StickyPacket.cpp:42-64 | the dispatch loop hands out exactly the whole messages of the buffer, in order, and stops in front of the remainder, or reports the hang |
| StickyPacket.StickyPacket | src/net/StickyPacket.cpp:18-83 | one call on the buffer equals the framing step: messages dispatched, remainder moved to the front, capacity grown, or failure |
| StickyPacket.CutConcat | src/net/StickyPacket.cpp:18-83 | cutting a longer stream gives the messages of its front, then those of the remainder followed by the rest |
| StickyPacket.FramingIgnoresPieces | src/net/StickyPacket.cpp:18-83 | for any cutting into fitting pieces, a running receiver has dispatched exactly the messages of the bytes so far, holds their remainder and has room to read; it hangs only after a zero-length header and fails only after an oversized one |
| StickyPacket.HangsExactlyWhenStuck | src/net/StickyPacket.cpp:44-64 | without oversized headers the receiver hangs if and only if some header announced length 0 |
| StickyPacket.WellFramedStreamsAreCut | src/net/StickyPacket.cpp:18-83 | for headers within the limits, every cutting gives the same messages and remainder, and the next read always has room |
| StickyPacket.ZeroLengthHangs | src/net/StickyPacket.cpp:44-64 | eight zero bytes hang the receiver |
| KcpClient.CreateKcp | src/core/raw/KcpClient.cpp:24-68 | the endpoint the program creates: windows 128, nodelay 2, interval 10, fast resend 1, rx_minrto 10, no congestion window |
| KcpClient.DrainIsComplete | src/core/raw/KcpClient.cpp:86-93 | whatever the callback sends in each turn, the drain loop ends only when no message is complete, the next one exceeds the room left, or the program ended |
| KcpClient.RecvFits | src/core/raw/KcpClient.cpp:86-93 | what ikcp_recv writes is as long as it says and not longer than the room it was given |
| KcpClient.KcpClient.ReceiveOne | src/core/raw/KcpClient.cpp:86-93 | one turn, with what the callback sends on the same endpoint, keeps: every piece fitted the room, and buffer and dispatched messages are the framing of all pieces |
| KcpClient.KcpClient.RcvDataToKcp | src/core/raw/KcpClient.cpp:76-97 | one datagram in: the state is that of ikcp_input, the whole drain loop with the sends of its callback, and ikcp_update |
| FileTransfer.FileSend.StartTransf | src/core/file/FileSend.cpp:41-80 | hands over the request; an empty file or an answer of 0 ends the program |
| FileTransfer.FileSend.DispatchMsg | src/core/file/FileSend.cpp:93-134 | handles one message as the sender function does: a response, or an end that reports an error |
| FileTransfer.FileSend.ProcTranRsp | src/core/file/FileSend.cpp:139-316 | an error ends the program; the first success hands over the pieces until an answer is 0, then END with success exactly if none was |
| FileTransfer.FileSend.SendPieces | src/core/file/FileSend.cpp:212-247 | the read and send loop hands over exactly the pieces up to the first answer of 0, and its byte count equals the file size if and only if there was none, whatever the other answers are |
| FileTransfer.FileRecv.DispatchMsg | src/core/file/FileRecv.cpp:59-77 | handles one message as the receiver function does |
| FileTransfer.FileRecv.ProcTranReq | src/core/file/FileRecv.cpp:106-194 | opens the file, answers, and starts receiving; errors end the program |
| FileTransfer.FileRecv.ProcFileData | src/core/file/FileRecv.cpp:221-289 | writes the payload, detects short writes, completion and excess |
| FileTransfer.PiecesShape | src/core/file/FileSend.cpp:212-222 | the pieces are not empty, fit the buffer, and make up the file |
| FileTransfer.TransferIsTold | src/core/file/FileRecv.cpp:106-289 | after any front of request, any surviving pieces and end, with any answers of the disk, the written bytes are a front of the pieces, and END(success) was sent exactly if they have the announced size |
| FileTransfer.WholeTransferEnds | src/core/file/FileRecv.cpp:221-289 | if the disk does its part, all pieces that arrive are written, and completion is reported exactly if none is missing |
| FileTransfer.DataFindsFileOpen | src/core/file/FileRecv.cpp:221-236 | no data message arrives before the file is open or after it was closed |
| FileTransfer.FramedStream | src/net/StickyPacket.cpp:18-83 | messages that state their own length are what the framing reads back from their concatenation |
| FileStream.SendTcpData | src/net/SocketBase.cpp:1233-1265 | a front of the message reaches the stream and the answer is its length, or 0 if a send returned 0; all of it if the kernel keeps taking bytes |
| FileStream.CountIsTrueExactly | src/core/file/FileSend.cpp:212-247 | the messages counted as sent are what reached the stream if and only if every answer that was not 0 was the full length |
| FileStream.FileOverStream | src/core/file/FileSend.cpp:139-316 | if every message went out whole, or not at all with the answer 0: any part of the stream, delivered in any fitting pieces, leaves the receiver running and faithful to the file |
| FileStream.FileCompletesOverStream | src/core/file/FileRecv.cpp:221-289 | with full answers, the whole stream and a disk that does its part, the whole file is written and completion reported |
| FileStream.ShortWriteCorrupts | src/net/SocketBase.cpp:1244-1261 | nine of ten bytes of the only data message reach the stream: a byte of the closing message is written into the file and completion is reported; with the short answer the sender reports success too and the receiver hangs |
| FileKcp.KcpAcceptsWhatFits | depend/kcp/ikcp.c:509-544 | in message mode ikcp_send takes a message whole if it has at most 127 * mss bytes and answers -2 otherwise, which _send_data passes on unsigned |
| FileKcpInvariant.RunOk | src/core/raw/RawFileClient.cpp:13-157 | in every reachable state of both programs and the network: what endpoint a accepted is what ikcp_send keeps of the calls made so far, each program is its function of the messages delivered to it, b accepted exactly the receiver's signals, and both framings run with empty buffers |
| FileKcp.KeptOfJob | depend/kcp/ikcp.c:509-544 | the pieces ikcp_send keeps are of the file, and make it up if and only if the largest data message is at most 127 * mss |
| FileOverKcp.TransferOverKcp | src/core/file/FileRecv.cpp:106-289 | at every moment of every run, for every file, send size and segment size: under the condition the receiver is faithful to the file; otherwise the file never becomes complete and completion is never reported |
| FileOverKcp.SettledTransfer | src/core/file/FileSend.cpp:139-316 | once all calls are made and nothing waits, with a disk that does its part: the sender reports success in any case, on disk are exactly the pieces ikcp_send kept, and the file is complete and reported so if and only if the condition holds |
| FileOverKcp.OwnSettingsComplete | src/core/config.h:64-64 | the program's own send size and segment size meet the condition for every file |
| FileOverKcp.RefusalGoesUnnoticed | src/core/file/FileSend.cpp:218-226 | with a send size of 200000 a file of 199993 bytes ends up as its last byte, while the sender reports success |
| FileOverKcp.ReadsWhatFits | src/core/raw/KcpClient.cpp:86-93 | in every reachable state a complete message at the head of the receive queue is the next one accepted, and the drain loop reads it if and only if it is at most the buffer's 131072 bytes |
| FileOverKcp.TooLongStalls | src/core/raw/KcpClient.cpp:86-93 | a message longer than that is never read, nor anything behind it |
| FileRun.SomeRunSettles | src/core/raw/RawFileClient.cpp:13-157 | for every job of which one short piece is accepted there is a run of both programs, from their start, that settles with a disk that did its part |
| FileRun.RefusalHappens | src/core/raw/RawFileClient.cpp:154-157 | the failing input is reached by a run in which neither program ends and nobody is told |
| FileRun.SmallFileCompletes | src/core/file/FileRecv.cpp:221-289 | with the program's own send size there is a run that writes any file of up to 292 bytes and reports completion |
| KcpExchange.UpdateIs | depend/kcp/ikcp.c:938-1178 | in quiet times one due ikcp_update sends its acknowledgements and short messages in one datagram, numbered in order |
| KcpExchange.InputIs | depend/kcp/ikcp.c:756-907 | such a datagram empties snd_buf, and its messages can be read in order |
| SendBuffer.FlushConservesExactly | src/net/Socket.cpp:1199-1246 | a flush keeps kernel bytes + buffer = accepted bytes if and only if fewer than 2^31 bytes are held or fewer are taken than the signed 32-bit reading of their number |
| SendBuffer.HugeBufferIsLost | src/net/Socket.cpp:1131-1215 | two sends of 0xffffffff and 0x65 bytes on a fresh socket with the default limits, and a kernel that then takes 100 bytes: the other 2^32 bytes are dropped although nothing failed |
| SendBuffer.RunsConserve | src/net/Socket.cpp:1131-1246 | over any interleaving of the three calls and any kernel answers, with a capacity below 2^31, the bytes the kernel took followed by the buffer are the concatenation of all accepted data |
| SendBuffer.CapacityIsBounded | src/net/Socket.cpp:1147-1168 | the buffer never exceeds max(256 KiB, twice the limit plus one piece) |
| SendBuffer.ModestRunsConserve | src/net/Socket.cpp:1131-1246 | conservation for every caller whose limit and pieces are together below 1 GiB |
| SendBuffer.Sender.Send | src/net/Socket.cpp:1131-1180 | lazily created buffer, growth, refusal, and the flush above 64 KiB, on the real buffer |
| SendBuffer.Sender.Tick | src/net/Socket.cpp:1182-1197 | flushes when due and shuts down after ten periods without progress |
| SendBuffer.Sender.Flush | src/net/Socket.cpp:1199-1246 | full, partial, impossible and failed sends, with the tail moved to the front |
| TimerQueue.FlushIsExact | src/event/EventLoop.cpp:509-540 | each task due at entry runs exactly once, by deadline, and no other; afterwards exactly the rest, the repeats and the newly added tasks are pending, in order |
| TimerQueue.FlushIsUnambiguous | src/event/EventLoop.cpp:509-540 | the result is 0 exactly when no timer is left, and otherwise the exact wait to the first deadline, if and only if everything scheduled during the flush is due later than the clock reads |
| TimerQueue.FlushWaitsForTheNext | src/event/EventLoop.cpp:528-540 | with a monotone clock and delays of at least 1 ms that is always so |
| TimerQueue.WaitIsExact | src/event/EventLoop.cpp:528-540 | now + result is the first deadline if and only if that is not over; the result is 0 for a timer due now |
| TimerQueue.ZeroDelayIsAmbiguous | src/event/EventLoop.cpp:528-540 | a task added with delay 0 makes the result 0 although a timer is left |
| TimerQueue.RunsConserve | src/event/EventLoop.cpp:509-569 | over any run, every scheduled task is pending or has run, as often as scheduled, and none ran early |
| TimerQueue.EventLoop.FlushDelayTask | src/event/EventLoop.cpp:509-540 | the swap, the run loop and the merge compute exactly that |
| TimerQueue.EventLoop.GetMinDelay | src/event/EventLoop.cpp:542-558 | the shortcut for no due task gives the same as a flush |
| TimerQueue.EventLoop.DoDelayTask | src/event/EventLoop.cpp:560-569 | the queue gains exactly this entry, stays sorted, and the entry stands behind all that are due no later and in front of all that are due later |
| Json.RoundTrip | src/common/picojson.h:581-650 | parsing what was serialized, compact or prettified, gives the value back, leaving only the final line break, if and only if the value fits the depth limit; strings range over all byte sequences |
| Json.ShallowRoundTrip | src/common/picojson.h:966-1027 | array nesting below 100 is enough |
| Json.BodyIsRead | src/common/picojson.h:876-928 | the same for any nested value, any indentation, any depth and any text behind it |
| Json.EscapedIsRead | src/common/picojson.h:529-564 | the escaped form of any byte string is read as that string up to the closing quote |
| Json.CodepointIsRead | src/common/picojson.h:738-777 | every code point, escaped with surrogates where needed (RFC 8259 section 7), is read as its UTF-8 bytes |
| Json.Utf8IsDecoded | src/common/picojson.h:760-776 | for a code point that is no surrogate those bytes are its well-formed UTF-8 (RFC 3629): they decode to it and are the shortest form, and no encoding of a surrogate |
| Json.InsertIsUpdate | src/common/picojson.h:1019-1023 | storing a member keeps the key order, replaces the value of its key, and touches no other member |
| Json.ParsedIsWf | src/common/picojson.h:966-1027 | whatever text is accepted, the value has its members in key order and respects the depth limit |
| Json.ReparseIsStable | src/common/picojson.h:876-928 | printing any accepted value and parsing it again changes nothing |
| Json.SerializeIsInjective | src/common/picojson.h:581-650 | different values have different texts |
| JsonReader.Input.GetC | src/common/picojson.h:661-677 | delivers the next byte or -1, and counts the lines passed |
| JsonReader.Input.SkipSpace | src/common/picojson.h:689-697 | skips exactly the white space |
| JsonReader.Input.Expect | src/common/picojson.h:698-705 | consumes the expected byte behind white space or nothing but that |
| JsonReader.ReadQuadHex | src/common/picojson.h:717-736 | reads four hexadecimal digits of either case, or fails |
| JsonReader.ReadCodepoint | src/common/picojson.h:738-777 | reads an escaped code point, surrogate pairs included, or fails |
| JsonReader.ReadString | src/common/picojson.h:779-818 | on any text terminates and computes the string function |
| JsonReader.ReadNumber | src/common/picojson.h:856-874 | collects the longest number-like token and accepts it if it is a whole decimal number |
| JsonReader.ReadValue | src/common/picojson.h:876-928 | on any text terminates and computes the parse function: value, rest and failure |
| JsonReader.ReadArray | src/common/picojson.h:820-835 | the item loop computes the array function |
| JsonReader.ReadObject | src/common/picojson.h:837-854 | the member loop computes the object function |
| Getopt.Permute | src/common/getopt.c:509-622 | calling until -1: all options with their arguments come first, then all other arguments, each in original order, and optind stands between them |
| Getopt.Scanner.Exchange | src/common/getopt.c:302-380 | the in-place block swap exchanges the two blocks, each in its own order, and terminates |
| Getopt.Scanner.Next | src/common/getopt.c:547-622 | one call keeps the partial permutation, advances optind, and at the end leaves the final order |
| Getopt.Scanner.Terminate | src/common/getopt.c:576-592 | "--" ends the options, is moved in front of the others, and everything behind it is no option |
| Getopt.ShortBottom | src/common/getopt.c:338-356 | swapping the short bottom block to the far end leaves a smaller instance of the same exchange |
| Getopt.ShortTop | src/common/getopt.c:357-374 | swapping the short top block to the front leaves a smaller instance of the same exchange |
| Getopt.SplitIsPermutation | src/common/getopt.c:547-622 | the result is a permutation of the arguments |
| Getopt.PermutedIsStable | src/common/getopt.c:547-622 | scanning the result again gives the same result if and only if no dangling option could take one of the other arguments |
| Calendar.NoLocksLocaltime | src/base/local_time.cpp:45-93 | from the epoch on all fields are in range, describe one day and satisfy the POSIX.1-2017 formula for the adjusted time; before it some field is out of range |
| Calendar.FindYear | src/base/local_time.cpp:67-77 | the subtract-a-year loop terminates with the year that contains the day |
| Calendar.FindMonth | src/base/local_time.cpp:79-91 | the subtract-a-month loop terminates within the year, with the day of the month in range |
| Calendar.YearStartIsClosed | src/base/local_time.cpp:34-43 | the days before a year follow the closed leap-year formula |
| Calendar.FieldsAreUnique | src/base/local_time.cpp:45-93 | only one coherent set of fields stands for a time: the conversion is injective |

## Left out

- Sockets, epoll, select, pipes, raw capture, name resolution and interface listing: the kernel write is a parameter that answers anything.
- Allocation failure, the allocator and logging hooks of KCP, and releasing a control block.
- Threads and mutexes: every entry point is one atomic step. In `FileKcp` the calls of the send thread interleave with all other moves, but each call is atomic, while the source calls ikcp_send there without a lock; elsewhere tasks for the "send poller" run inline.
- Changing windows or the mtu while data is in flight: the setters are modelled, the run theorems keep the settings fixed.
- KCP queues of `Kcp.Endpoint` are sequences; `SegmentLists` runs the loops that search, delete, insert and move on real nodes, but the transmission pass, ikcp_send and the merge of ikcp_recv are on sequences only, and no class combines both. Segment fields that ikcp_flush sets before they are read start as 0.
- The flag bits of `probe` are two booleans, list-length counters are unbounded integers, and ikcp_malloc sizes do not wrap (they would for an mtu above 1.4 * 10^9).
- A null buffer, a length of -2^31 and a caller's buffer shorter than the length it names, in ikcp_recv and ikcp_send; bytes are returned as sequences.
- The window field travels in 16 bits; the sender truncates it as the code does, and the receiver takes it as it comes.
- TimerQueue.EventLoop.FlushDelayTask: what the callbacks do is a parameter, one outcome for each task that runs; a callback that throws counts as one that does not repeat.
- KcpClient.KcpClient.RcvDataToKcp: the clock reading is a parameter; the program passes microseconds where ikcp_update documents milliseconds, which the model, having no unit, allows.
- FileOverKcp.TransferOverKcp: send sizes from 9 bytes to below 2^31 (at 8 or less the source's read size is 0 or wraps), files from 1 byte to below 4 GiB (the source truncates larger sizes to 32 bits), message mode as the program sets it, and runs with fewer than 2^31 numbered segments.
- FileRun.SomeRunSettles: runs are exhibited for one short piece only; that every run settles if the network delivers often enough is not shown.
- FileStream.FileOverStream: the stream is what the calls put on it, in order (the kernel's TCP is not modelled); the answers of the receiver to the sender are not.
- FileTransfer.FileRecv.ProcTranReq: the directory checks, fopen and errno are one answer of the operating system; path names are not taken apart.
- FileTransfer.FileRecv.ProcFileData: sending a signal always succeeds, fields beyond the end of a short message read as 0, and exiting is a terminal state.
- FileTransfer.FileSend.ProcTranRsp: rate limiting, progress and timing output are not modelled; fread returns full pieces.
- SendBuffer.Sender.Send: after a shutdown no further call is made; memory for the buffer is always available.
- Json.RoundTrip: numbers are excluded, since strtod, snprintf and the locale are not modelled; the parser keeps their text. The other parse contexts and the stream operators are left out.
- JsonReader.ReadValue: a value is returned instead of written through a pointer, so what a failed parse leaves behind is not stated; the C++ stack is unbounded.
- Getopt.Permute: one call stands for all calls on one option element, which element takes the following one is a parameter, and error messages, long-option matching and the other two orderings are left out. Calling again after -1 is not modelled.
- Calendar.NoLocksLocaltime: years are unbounded integers; tm_isdst and tm_gmtoff are copies of the settings.
- Press, text, raw and packet-capture models, command-line validation, string utilities, error tables and strptime: shallow or bound to input and output.
