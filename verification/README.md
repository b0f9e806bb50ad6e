# Verified models of the streaming, sensor and control code

The project models four components of the repository and proves what they promise. Each module holds a state and a step
function that follow the source branch by branch, classes whose methods do what the source's methods do and are proved to
refine that function, and lemmas over all runs. `dafny verify dfyconfig.toml` checks everything.

1. **The WebSocket endpoints** (`wsServer`, `wsClient`; RFC 6455). `WsFraming.dfy` has the writers and, independent of
   either reader, what a byte stream means. `WsReader.dfy` has the chains of read handlers over a stream buffer,
   `WsSendQueue.dfy` the send queue on its strand, `WsConnection.dfy` lifecycle, close and idle timer, `WsHandshake.dfy`
   the opening handshake, and `WsEndToEnd.dfy` joins them: from one application's `send` to the other's `onmessage`
   and `onclose`.
   `Bytes.dfy` has octets and byte order, `Wrappers.dfy` values that may be missing.
2. **The MPU-6050 driver.** `DmpMemory.dfy`: block transfers through a banked, auto-incrementing window refine a flat
   memory, and the configuration interpreter refines applying its blocks in order. `I2cFields.dfy`: read-modify-write bit
   fields refine a map of bits.
3. **The stream control protocol.** `ControlProtocol.dfy`: the record store, the server's and the players' handlers, the
   device, and how many messages a session takes.
4. **The earthquake monitor and the Morse flasher.** `Calibration.dfy`, `Trigger.dfy` and `Morse.dfy`.

Where a promise is false the code is modelled as it is and the exact condition is proved:

- the client's first message is right if and only if no byte follows the handshake in its buffer
  (`WsReader.ClientFirstMessage`), while the server only lags (`WsReader.ServerReadsMeaning`);
- a close status survives if and only if it has 16 bits (`WsFraming.CloseRoundTrip`);
- a null timer is used if and only if idle timeouts are on and the handshake response cannot be written
  (`WsConnection.TimerMissingExactly`);
- a request path arrives if and only if it has no space and no line feed (`WsHandshake.PathRecoveredExactly`);
- a session left alone ends if and only if the device reports the action, or it is off or done, or it is live or local and
  no set-up is needed or some set-up succeeds (`ControlProtocol.EndsExactly`), and two streams keep separate records unless
  their names agree in the part the file name keeps (`ControlProtocol.SharedFileExactly`);
- calibration ends for every starting point if and only if the gain is 2 to 15, and with gain 1 if and only if the z axis
  is within reach of a 16-bit offset (`Calibration.AlwaysCalibratesExactly`, `Calibration.CalibratesExactly`);
- a block reads back as written if and only if it agrees with itself where it wraps (`DmpMemory.ReadBackExactly`).

Two comments of the source do not hold of its code: `LEDTester.java` speaks of seven dark units for a space, the code shows
eleven (`Morse.GapBetweenLetters` with k = 1); and the tables of the configuration set name bytes 0 to `length`, the code
reads `length` bytes.

What the environment decides is a parameter or an event: which handler runs next, how many bytes a write or read moves and
whether it fails, what the application does inside a callback, the clock, masks and nonces, the readings of a sensor, what
players write and whether a media set-up succeeds. SHA-1 is any function and Base64 any pair whose decoder undoes its
encoder.

## Model
| member | source | states |
|---|---|---|
| WsEndToEnd.DeliveredIsSent | wsServer/src/server_ws.hpp:436-573 | in every run of the sender's queue without write error, at every moment and however the bytes are cut up, the receiver has reported a prefix of the messages posted; the server may hold bytes left over from the handshake, the client may not |
| WsEndToEnd.QuietIsDelivered | wsClient/src/client_ws.hpp:323-441 | once the sender's strand and socket are idle and its bytes have arrived, the receiver has reported the meaning of all of them but the last k, for k bytes left over from the handshake (none on the client); with k = 0 exactly the messages up to the first close |
| WsEndToEnd.ApplicationsAgree | wsServer/src/server_ws.hpp:561-564 | whatever the run of the server connection, its `onmessage` calls are a prefix of the data messages the client sent before its first close, unchanged and in order |
| WsEndToEnd.ClosesAgree | wsServer/src/server_ws.hpp:541-552 | whatever the run of the server connection, the statuses and reasons given to `onclose` are a prefix of those of the closes the client sent, the first of which ends what is visible |
| WsEndToEnd.CloseReportedUnchanged | wsClient/src/client_ws.hpp:193-208 | if the first close the client sends is `send_close(status, reason)` with a status in 0..65535, `onclose` is only ever called with that status and that reason |
| WsEndToEnd.WireIsPrefix | wsServer/src/server_ws.hpp:81-109 | without write errors the wire is a prefix of the concatenation of all posted frames |
| WsEndToEnd.SegmentsCarry | wsServer/src/server_ws.hpp:271-275 | header stream and message stream of the server, and the one stream of the client, each concatenate to the message's frame |
| WsFraming.DecodeWritten | wsClient/src/client_ws.hpp:143-191 | for every message sequence, all masks and all three length forms, the meaning of the written bytes is the (opcode, payload) sequence up to the first close; also for the server's unmasked frames |
| WsFraming.ParseWritten | wsClient/src/client_ws.hpp:158-184 | a written frame, whatever follows it, parses back to its opcode and payload and to its own size |
| WsFraming.WrittenIsMinimal | wsServer/src/server_ws.hpp:253-269 | no frame with the same payload is shorter than the one the writer chooses |
| WsFraming.LengthWritten | wsServer/src/server_ws.hpp:464-511 | the written length field tells its own width, its mask bit and the length |
| WsFraming.UnmaskMasked | wsServer/src/server_ws.hpp:536-538 | unmasking with the mask that masked gives back the payload |
| WsFraming.DecodeGrows | wsServer/src/server_ws.hpp:436-573 | more bytes only add events behind those already decoded |
| WsFraming.ParseGrows | wsServer/src/server_ws.hpp:436-573 | a frame once complete is the same frame whatever bytes follow |
| WsFraming.CloseRoundTrip | wsServer/src/server_ws.hpp:541-552 | what `send_close` encodes is read back as the low 16 bits of the status, so it survives if and only if it is in 0..65535; the reason always survives |
| WsFraming.PutLength | wsServer/src/server_ws.hpp:253-269 | the marker octet and the shift loop write the length field of section 5.2 of RFC 6455 |
| WsFraming.ServerSend | wsServer/src/server_ws.hpp:247-269 | header stream followed by the untouched message stream is one unmasked frame |
| WsFraming.ClientSend | wsClient/src/client_ws.hpp:154-184 | the stream built is one frame: opcode, length field, the mask drawn, and octet j of the payload exclusive-or octet j % 4 of the mask |
| WsFraming.PutMasked | wsClient/src/client_ws.hpp:182-184 | the loop that drains the message stream appends octet j exclusive-or octet j % 4 of the mask |
| WsFraming.FrameOctets | wsClient/src/client_ws.hpp:154-184 | a frame octet by octet: opcode, length field, mask, and each payload octet exclusive-or the mask octet of its turn |
| WsFraming.LengthOctets | wsServer/src/server_ws.hpp:253-269 | below 126 the length itself, up to 65535 a 126 and two octets of weights 256 and 1, else a 127 and eight octets, the mask bit added to the first |
| WsFraming.EveryFormParsed | wsServer/src/server_ws.hpp:464-511 | a frame whose length is written in a longer form than it needs is understood as well |
| WsFraming.VisibleExactly | wsServer/src/server_ws.hpp:541 | exactly the messages up to the first one of opcode 8 are visible, unchanged and in order, and without one all of them |
| Bytes.XorCancels | wsServer/src/server_ws.hpp:537 | masking an octet twice with the same octet is the identity |
| Bytes.XorIsBitwise | wsServer/src/server_ws.hpp:537 | each of the eight bits is set if and only if it is set in exactly one of the two octets |
| Bytes.BigEndianWeights | wsServer/src/server_ws.hpp:501-502 | two octets weigh 256 and 1, eight octets the powers of 256 from the seventh down |
| Bytes.BigEndianRoundTrip | wsServer/src/server_ws.hpp:501-502 | octets written from the highest down denote the number again, if it fits |
| WsReader.ServerReadsMeaning | wsServer/src/server_ws.hpp:436-573 | for every k bytes left over and every stream arriving behind them, the server has reported exactly the meaning of as many bytes of leftover ++ arrived as have arrived |
| WsReader.ServerReadsPrefix | wsServer/src/server_ws.hpp:335-361 | so the server never reports anything but a prefix of the meaning of leftover ++ arrived |
| WsReader.ServerLagBound | wsServer/src/server_ws.hpp:436-573 | and k further bytes bring out everything leftover ++ arrived means: it lags by at most k bytes |
| WsReader.ServerBuffer | wsServer/src/server_ws.hpp:438-450 | the server's buffer holds k bytes more than its current read has fetched, so exactly k whenever a header read starts |
| WsReader.ServerLags | wsServer/src/server_ws.hpp:436-573 | the server with k bytes buffered is, byte for byte, the server without them fed the stream k bytes early |
| WsReader.ChunkingIrrelevant | wsServer/src/server_ws.hpp:438 | how the stream is cut into chunks makes no difference to the reader's state |
| WsReader.ReadsMeaning | wsClient/src/client_ws.hpp:323-441 | without leftover both readers report exactly the meaning of what has arrived |
| WsReader.ClientFirstMessage | wsClient/src/client_ws.hpp:403-439 | with k bytes left over the client's first message carries the next k bytes too; its first report is right if and only if k = 0 |
| WsReader.SentIsRead | wsClient/src/client_ws.hpp:323-441 | what one endpoint writes the other reports, up to the first close, for every chunking |
| WsReader.AllAreReported | wsClient/src/client_ws.hpp:323-441 | if no message has opcode 8, the other endpoint reports every one of them, unchanged and in order, for every chunking |
| WsReader.WrongMaskStops | wsServer/src/server_ws.hpp:455-459 | behind any messages without a close, a frame whose mask bit is wrong is reported as such and ends the reading |
| WsReader.HeaderHandled | wsServer/src/server_ws.hpp:446-511 | the header handler stops on a wrong mask bit, asks for the extension or for the content |
| WsReader.FrontFrame | wsServer/src/server_ws.hpp:436-573 | a reader between frames handles the frame at the front as its meaning says: incomplete, wrongly masked, close, or anything else |
| WsReader.FrameReader.Receive | wsServer/src/server_ws.hpp:438-442 | the read loop over pieces of the socket's bytes computes the reader state function of all of them |
| WsReader.FrameReader.OnHeader | wsServer/src/server_ws.hpp:446-511 | the header handler refines its state function |
| WsReader.FrameReader.OnExtension | wsServer/src/server_ws.hpp:492-504 | the shift-and-add loop computes the big-endian value, for two and eight octets |
| WsReader.FrameReader.OnContent | wsServer/src/server_ws.hpp:523-567 | the content handler unmasks from the shared buffer (server) or takes the whole fresh buffer (client), and ends the reading if and only if the opcode is 8 |
| WsReader.FrameReader.Unmask | wsServer/src/server_ws.hpp:536-538 | the loop consumes exactly `length` octets and yields octet j exclusive-or octet j % 4 of the mask |
| WsSendQueue.OneWriterAlways | wsServer/src/server_ws.hpp:81-109 | over all interleavings of sends, handlers, partial transmissions and errors: a writer chain is pending if and only if the queue is not empty, never two, and the front of an empty queue is never touched |
| WsSendQueue.ErrorFreeWire | wsServer/src/server_ws.hpp:81-109 | without write errors the wire is whole items in post order followed by a prefix of the next one, and the callbacks have fired once each, in order, without error |
| WsSendQueue.EveryRun | wsClient/src/client_ws.hpp:60-76 | in every run callbacks fire in post order and at most once, and the wire is what each finished item contributed, whole or cut short by its own error |
| WsSendQueue.NothingStuck | wsServer/src/server_ws.hpp:92-97 | when no handler and no write is left, everything posted is on the wire |
| WsSendQueue.ErrorRestarts | wsServer/src/server_ws.hpp:97-105 | a write error empties the queue and ends the chain; whatever is sent meanwhile, nothing reaches the wire, and the next handler to run is a send that starts a new chain with its own item |
| WsSendQueue.StepKeepsInv | wsServer/src/server_ws.hpp:81-109 | every step of strand or socket keeps order, single writer, progress, history and no loss without error |
| WsSendQueue.Connection.Post | wsClient/src/client_ws.hpp:186-190 | `send` posts its item to the strand |
| WsSendQueue.Connection.RunNext | wsServer/src/server_ws.hpp:271-275 | the strand's next handler changes the state as the step function says |
| WsSendQueue.Connection.OnWritten | wsServer/src/server_ws.hpp:84-107 | the completion handler of either write: callback, erase, continue or clear |
| WsConnection.LifecycleAlways | wsServer/src/server_ws.hpp:402-415 | in every run: messages only after `onopen`, at most one `onclose` or `onerror` and nothing behind it, exactly one read outstanding and membership of the connection set exactly while open |
| WsConnection.NothingAfterTheEnd | wsServer/src/server_ws.hpp:587-611 | after the terminal callback nothing is delivered any more, whatever the application, the timer or the clock still do |
| WsConnection.CloseOnceAlways | wsServer/src/server_ws.hpp:278-294 | at most one close frame is queued by `send_close`, whoever asks first, and one is if and only if `closed` is set |
| WsConnection.MessagesAreDataFrames | wsServer/src/server_ws.hpp:541-568 | a listening application is given exactly the data frames read, in order |
| WsConnection.ReportedAreRead | wsServer/src/server_ws.hpp:541-552 | `onclose` is given exactly the closes read, in order, status and reason as received |
| WsConnection.CloseAnswered | wsServer/src/server_ws.hpp:541-552 | a peer's close is reported with its status and reason and answered with the same payload, unless a close went out before; whatever the application does inside `onclose` comes behind the answer, and no second close by `send_close` is queued |
| WsConnection.MaskingErrorClosed | wsServer/src/server_ws.hpp:455-459 | an unmasked frame is reported and answered as a close of status 1002 (octets 3 and 234 and the reason, in a frame of octet 136), unless a close went out before |
| WsConnection.PingAnswered | wsServer/src/server_ws.hpp:556-560 | a frame of opcode 9 is answered by an empty frame of the next opcode, is not shown to the application, and reading goes on |
| WsConnection.MessageDelivered | wsServer/src/server_ws.hpp:561-567 | a frame whose opcode is neither 8 nor 9 is handed to a listening application as it is, and reading goes on; without a listener it leaves no trace |
| WsConnection.ClosesExactly | wsServer/src/server_ws.hpp:541-568 | a whole frame ends the connection, and calls `onclose`, if and only if its opcode is 8 |
| WsConnection.OtherReads | wsServer/src/server_ws.hpp:440-460 | part of a frame changes nothing, a failed read is reported by `onerror` and ends the connection |
| WsConnection.OpenStarts | wsServer/src/server_ws.hpp:402-415 | with the response written the connection is open, in the set, reads, and waits for the whole timeout if one is configured; a failed write is reported |
| WsConnection.AsApplicationSays | wsServer/src/server_ws.hpp:241-294 | `send` queues its opcode and payload as given; `send_close` queues octet 136 with the status, high octet first, and the reason, unless a close went out before |
| WsConnection.CloseKeepsWait | wsServer/src/server_ws.hpp:241-245 | a close frame leaves the idle timer alone |
| WsConnection.TimerMissingExactly | wsServer/src/server_ws.hpp:412-413 | a timer that does not exist is used if and only if idle timeouts are configured and the handshake response could not be written |
| WsConnection.IdleCloseNotEarly | wsServer/src/server_ws.hpp:629-634 | the idle handler runs at most once, and not before the timeout counted from the last time the wait was started |
| WsConnection.ActivityReplacesWait | wsServer/src/server_ws.hpp:620-623 | a sent frame other than a close, a message or a ping that finds the wait pending replaces it by one for the full timeout |
| WsConnection.NeverRearmed | wsServer/src/server_ws.hpp:613-634 | once the wait has fired or was cancelled it is never started again |
| WsConnection.IdleClosed | wsServer/src/server_ws.hpp:629-633 | the idle handler sends a close frame of octet 136 and status 1000, unless a close went out before |
| WsConnection.StepKeepsInv | wsServer/src/server_ws.hpp:575-634 | every handler keeps lifecycle, bookkeeping, close-once and timer invariants |
| WsConnection.ServerConnection.TimerIdleReset | wsServer/src/server_ws.hpp:620-623 | cancels and restarts only a pending wait, on a timer that could hold any number; never more than one is outstanding |
| WsConnection.ServerConnection.TimerIdleInit | wsServer/src/server_ws.hpp:613-619 | creates the timer with one wait, if a timeout is configured |
| WsConnection.ServerConnection.TimerIdleCancel | wsServer/src/server_ws.hpp:624-627 | cancels the pending wait; without a timer object this is the use of a null pointer |
| WsConnection.ServerConnection.OnWaitDue | wsServer/src/server_ws.hpp:629-634 | an expired wait is no longer pending: its handler is queued and nothing else changes |
| WsConnection.ServerConnection.OnIdleTimeout | wsServer/src/server_ws.hpp:630-633 | the wait's handler refines its step |
| WsConnection.ServerConnection.SendFrame | wsServer/src/server_ws.hpp:241-245 | every frame but a close resets the idle timer, then joins the queue |
| WsConnection.ServerConnection.CloseWith | wsServer/src/server_ws.hpp:278-294 | `send_close` does nothing the second time |
| WsConnection.ServerConnection.OnConnectionOpen | wsServer/src/server_ws.hpp:575-585 | timer, membership and `onopen`, in this order |
| WsConnection.ServerConnection.OnConnectionClose | wsServer/src/server_ws.hpp:587-597 | timer cancelled, connection removed, `onclose` called with status and reason |
| WsConnection.ServerConnection.OnConnectionError | wsServer/src/server_ws.hpp:599-611 | timer cancelled, connection removed, `onerror` called |
| WsConnection.ServerConnection.OnHandshakeWritten | wsServer/src/server_ws.hpp:407-413 | opens and starts the first read, or fails |
| WsConnection.ServerConnection.OnRead | wsServer/src/server_ws.hpp:440-460 | each way a read ends refines its step |
| WsConnection.ServerConnection.Deliver | wsServer/src/server_ws.hpp:561-564 | the idle timer is reset, then `onmessage` called |
| WsConnection.ServerConnection.StartRead | wsServer/src/server_ws.hpp:566-567 | one more read is outstanding |
| WsConnection.ServerConnection.OnWholeFrame | wsServer/src/server_ws.hpp:541-568 | close, ping, message and unheard message, each followed by the next read except the close |
| WsHandshake.HandshakeSucceeds | wsServer/src/server_ws.hpp:421-434 | for any SHA-1 and any Base64 whose decoder undoes its encoder: the server recovers the request, answers it, the client accepts the answer, and the bytes behind either message stay in its buffer |
| WsHandshake.RequestRoundTrip | wsClient/src/client_ws.hpp:252-270 | every request the client prints is parsed back with method, path, version and all headers |
| WsHandshake.PathRecoveredExactly | wsServer/src/server_ws.hpp:367-375 | the path arrives if and only if it has neither a space nor a line feed, whatever host and key are |
| WsHandshake.PrintedRequestParsed | wsServer/src/server_ws.hpp:363-392 | any request line with any header block is parsed back, and exactly what follows the blank line is left |
| WsHandshake.PrintedResponseParsed | wsClient/src/client_ws.hpp:303-321 | any status line with any header block is parsed back, and exactly what follows the blank line is left |
| WsHandshake.ResponseRoundTrip | wsClient/src/client_ws.hpp:303-321 | the printed response's headers, the accept value among them, reach the client |
| WsHandshake.HeadersRoundTrip | wsServer/src/server_ws.hpp:377-389 | any printed header block is recovered and exactly what follows the blank line is left |
| WsHandshake.FirstDuplicateWins | wsServer/src/server_ws.hpp:377-389 | in what either parser makes of printed headers, a name is present if and only if some field has it, and its value is that of the first such field |
| WsHandshake.HeaderForms | wsServer/src/server_ws.hpp:381-386 | behind the colon one space is dropped and no other; an empty value is a value |
| WsHandshake.HeaderCutOff | wsServer/src/server_ws.hpp:381-386 | a line cut off behind the colon or its space adds nothing |
| WsHandshake.AnyRequestLine | wsServer/src/server_ws.hpp:367-375 | verb and path up to the spaces, the version behind HTTP/, or 1.1 if the line is too short |
| WsHandshake.NoRequestLine | wsServer/src/server_ws.hpp:367-375 | a line without two spaces is no request line |
| WsHandshake.MessageTexts | wsServer/src/server_ws.hpp:421-434 | request and response line by line with their texts, and the client's comparison of the decoded accept value with the hash of key and constant |
| WsHandshake.LoopHangsExactly | wsServer/src/server_ws.hpp:379-389 | from a text on, the header loop never ends if and only if every line of the text, from one line feed to the next, an unfinished last one included, has a colon |
| WsHandshake.ParsersReturn | wsServer/src/server_ws.hpp:350-358 | both parsers run only once the end of the header was found, and then they return, on well-formed and malformed input alike |
| WsHandshake.ReadHeaders | wsServer/src/server_ws.hpp:377-389 | the shared header loop refines the loop function, on every input on which it ends |
| WsHandshake.ServerHandshake.ParseHandshake | wsServer/src/server_ws.hpp:363-392 | the server's parser refines the parser function, the missing request line included |
| WsHandshake.ParseServerResponse | wsClient/src/client_ws.hpp:303-321 | the client's parser refines its function |
| WsHandshake.WriteRequest | wsClient/src/client_ws.hpp:254-270 | the printed request, line by line |
| WsHandshake.TextStream.GetLine | wsServer/src/server_ws.hpp:365 | `getline` with its end-of-file behaviour: an exhausted stream leaves the line as it was |
| DmpMemory.WriteMemoryBlock | Backup/Adil Project/Documents/EarthQuake_Monitoring_System/MPU6050.cpp:2972-3047 | for every block, start bank and start address the device ends up as the flat memory with the block written at 256*bank+address, verification succeeds, both buffer modes alike, and every transfer is at most 16 bytes inside one bank |
| DmpMemory.ReadMemoryBlock | Backup/Adil Project/Documents/EarthQuake_Monitoring_System/MPU6050.cpp:2941-2971 | the buffer receives exactly the flat memory from 256*bank+address on, nothing else of it or of the device changes, and every transfer stays inside one bank |
| DmpMemory.WriteThenRead | Backup/Adil Project/Documents/EarthQuake_Monitoring_System/MPU6050.cpp:2941-3047 | a block of at most 8192 bytes written through the driver is read back through the driver |
| DmpMemory.ReadBackExactly | Backup/Adil Project/Documents/EarthQuake_Monitoring_System/MPU6050.cpp:3003-3006 | read back as written if and only if the block agrees with itself wherever it wraps around the memory, which every block of at most 8192 bytes does |
| DmpMemory.NextPosition | Backup/Adil Project/Documents/EarthQuake_Monitoring_System/MPU6050.cpp:3034-3039 | the 8-bit address and the bank that advances when it wraps stay at start + i, modulo 2^16 |
| DmpMemory.WindowCell | Backup/Adil Project/Documents/EarthQuake_Monitoring_System/MPU6050.cpp:2919-2930 | five bits of bank and the address register select the cell of the flat position |
| DmpMemory.ChunkSize | Backup/Adil Project/Documents/EarthQuake_Monitoring_System/MPU6050.cpp:2983-2990 | a chunk is not empty, at most 16, inside the data and inside the bank |
| DmpMemory.WriteChunk | Backup/Adil Project/Documents/EarthQuake_Monitoring_System/MPU6050.cpp:3000-3029 | one chunk written, read back and compared; the comparison succeeds on a faithful device |
| DmpMemory.ReadNext | Backup/Adil Project/Documents/EarthQuake_Monitoring_System/MPU6050.cpp:2947-2962 | one turn of the read loop extends what was read by exactly its chunk |
| DmpMemory.WriteNext | Backup/Adil Project/Documents/EarthQuake_Monitoring_System/MPU6050.cpp:2983-3000 | one turn of the write loop extends the flat memory by exactly its chunk |
| DmpMemory.SerialisedIsExecuted | Backup/Adil Project/Documents/EarthQuake_Monitoring_System/MPU6050.cpp:3061-3122 | the interpreter reads the serialisation of any blocks to its end and executes them in order up to the first unknown special code, whatever follows that |
| DmpMemory.ExecutedIsSerialised | Backup/Adil Project/Documents/EarthQuake_Monitoring_System/MPU6050.cpp:3061-3122 | conversely, a stream that it reads to its end is the serialisation of the blocks executed, and nothing is executed behind an unknown code |
| DmpMemory.WriteDMPConfigurationSet | Backup/Adil Project/Documents/EarthQuake_Monitoring_System/MPU6050.cpp:3051-3125 | every cell holds the last byte written to its place 256*bank + offset + j modulo 8192, every other cell its old byte; the interrupt register is 0x32 if and only if a special code 1 was executed, else unchanged; the result is false exactly if an unknown code stopped it; both buffer modes alike, and the buffer's capacity always covers the block |
| DmpMemory.ConfiguredCell | Backup/Adil Project/Documents/EarthQuake_Monitoring_System/MPU6050.cpp:3061-3088 | over any blocks, the cell (256*bank + offset + j) modulo 8192 of the last byte written to it holds that byte |
| DmpMemory.ConfiguredKept | Backup/Adil Project/Documents/EarthQuake_Monitoring_System/MPU6050.cpp:3061-3088 | a cell that no block writes keeps its byte |
| DmpMemory.WrittenOrNot | Backup/Adil Project/Documents/EarthQuake_Monitoring_System/MPU6050.cpp:3061-3088 | every cell has a last byte written to it or is written by no block |
| DmpMemory.InterruptsConfigured | Backup/Adil Project/Documents/EarthQuake_Monitoring_System/MPU6050.cpp:3102-3111 | the interrupt register is 0x32 if a special code 1 was executed and unchanged otherwise |
| DmpMemory.BlockOctets | Backup/Adil Project/Documents/EarthQuake_Monitoring_System/MPU6050.cpp:3061-3122 | what the octets at the front of a stream say: bank, offset, length and data, or a length of 0 and a special code; a stream cut off inside a block is read past its end |
| DmpMemory.RunBlocks | Backup/Adil Project/Documents/EarthQuake_Monitoring_System/MPU6050.cpp:3061-3122 | the loop over the stream applies the executed blocks in order |
| DmpMemory.NextBlock | Backup/Adil Project/Documents/EarthQuake_Monitoring_System/MPU6050.cpp:3061-3121 | one turn of the interpreter consumes exactly one block and writes it at 256*bank + offset, or 0x32 to the interrupt register, or reports failure |
| DmpMemory.RegularBlock | Backup/Adil Project/Documents/EarthQuake_Monitoring_System/MPU6050.cpp:3081-3088 | the data go to 256*bank + offset; the buffer is reallocated when a pointer's size is less than the length, and then is always large enough |
| DmpMemory.SetMemoryBank | Backup/Adil Project/Documents/EarthQuake_Monitoring_System/MPU6050.cpp:2919-2924 | the bank register gets the five low bits of the bank and the flags for the user bank and for prefetching |
| I2cFields.RegistersAreBitMap | Backup/Adil Project/Documents/EarthQuake_Monitoring_System/I2Cdev.cpp:231-279 | over any run of bit, field and byte writes to any registers, each bit is the one of the latest write covering it |
| I2cFields.FieldReadsBack | Backup/Adil Project/Documents/EarthQuake_Monitoring_System/I2Cdev.cpp:101-115 | a field that no later write overlaps reads back as the value written modulo 2^length |
| I2cFields.MergeBit | Backup/Adil Project/Documents/EarthQuake_Monitoring_System/I2Cdev.cpp:260-279 | a field write changes exactly the bits of its field, to the low bits of the value |
| I2cFields.ExtractBit | Backup/Adil Project/Documents/EarthQuake_Monitoring_System/I2Cdev.cpp:107-113 | a field read returns exactly the bits of its field, right-aligned |
| I2cFields.Bus.PutBits | Backup/Adil Project/Documents/EarthQuake_Monitoring_System/I2Cdev.cpp:260-279 | the read-modify-write of a field refines the field write on the register array, all other registers unchanged |
| I2cFields.Bus.PutBit | Backup/Adil Project/Documents/EarthQuake_Monitoring_System/I2Cdev.cpp:231-235 | the read-modify-write of a bit refines the bit write |
| I2cFields.Bus.GetBits | Backup/Adil Project/Documents/EarthQuake_Monitoring_System/I2Cdev.cpp:101-115 | mask and shift return the field |
| I2cFields.Bus.GetBit | Backup/Adil Project/Documents/EarthQuake_Monitoring_System/I2Cdev.cpp:70-75 | the result is not zero exactly if the bit is set |
| I2cFields.Bus.PutWords | Backup/Adil Project/Documents/EarthQuake_Monitoring_System/I2Cdev.cpp:381-421 | at most 63 words are written big-endian to consecutive registers and no other register changes; more are refused and nothing changes |
| I2cFields.Bus.SetThenGetOffset | Backup/Adil Project/Documents/EarthQuake_Monitoring_System/MPU6050.cpp:2791-2797 | two octets written, high one first, are read back as one signed word |
| I2cFields.Bus.SetThenGetInt16 | Backup/Adil Project/Documents/EarthQuake_Monitoring_System/MPU6050.cpp:2791-2797 | an offset of -32768 to 32767 set is read back as the same number |
| I2cFields.SignedReadsBack | Backup/Adil Project/Documents/EarthQuake_Monitoring_System/MPU6050.cpp:2791-2793 | such a number is recovered from its low 16 bits |
| I2cFields.SetBitBit | Backup/Adil Project/Documents/EarthQuake_Monitoring_System/I2Cdev.cpp:231-235 | a bit write changes exactly its bit, to the value given |
| ControlProtocol.Converges | StreamerServer/src/srvrComm.c:23-30 | whatever players write, of the four actions and to any stream: a session has sent at most two messages more than its stream was written to and set-ups failed, at most one more while it lasts |
| ControlProtocol.EndsInTime | StreamerClient/src/TCPClient/ClientComm.c:12-19 | a session given two rounds more than that has ended with an ACK; with set-ups succeeding after at most 2 + W messages for W writes |
| ControlProtocol.EndsExactly | StreamerServer/src/srvrComm.c:69-78 | left alone, whatever becomes of its set-ups, a session ends if and only if the device reports the action, or it is off or done, or it is live or local and no set-up is needed or some set-up succeeds |
| ControlProtocol.UnknownNeverEnds | StreamerClient/src/TCPClient/ClientComm.c:31-68 | an action outside the protocol that the device does not report is sent for ever, whatever becomes of set-ups |
| ControlProtocol.FailingNeverEnds | StreamerClient/src/TCPClient/ClientComm.c:31-56 | a ready device whose every set-up fails stays ready and is sent live or local for ever |
| ControlProtocol.EndsAt | StreamerServer/src/srvrComm.c:69-78 | a session that can end does so within two messages, or with the message behind the one answered by the first set-up that succeeds, its action fulfilled |
| ControlProtocol.NoCommandLost | StreamerServer/src/srvrComm.c:60-79 | in every run over any streams, an action that is no longer wanted was replaced by a player or answered by a reported status that fulfils it |
| ControlProtocol.ChangeJustified | StreamerServer/src/srvrComm.c:41-48 | one step changes a stream's action only as a player says, or to done when the reported status fulfils it |
| ControlProtocol.OthersUnchanged | StreamerServer/src/srvrJson.c:41-58 | a handler leaves every other stream's record as it was |
| ControlProtocol.SharedFileExactly | StreamerServer/src/srvrJson.c:9-14 | two streams share a record if and only if their names agree up to where the file name is cut, never if both have at most 51 characters |
| ControlProtocol.StatusOutcome | StreamerServer/src/srvrComm.c:60-79 | a status message is stored and leads to ACK and done if it fulfils the action, and to the action sent back otherwise |
| ControlProtocol.PlayerOutcome | StreamerServer/src/PlayerServer.c:36-45 | a player's message sets the action, or is answered with the stored status |
| ControlProtocol.NewStream | StreamerServer/src/srvrJson.c:16-26 | a stream not met before is asked to go live, and its status is off, until told otherwise |
| ControlProtocol.DeviceFollows | StreamerClient/src/TCPClient/ClientComm.c:31-68 | the device follows actions for its own stream only: live and local unless a needed set-up fails, off back to ready, and no others |
| ControlProtocol.StepKeepsInv | StreamerServer/src/srvrComm.c:60-67 | records keep their three keys, and the only use of a null pointer is a status without stream id before any device named one |
| ControlProtocol.StreamServer.MsgParse | StreamerServer/src/srvrComm.c:60-79 | the server's handler refines the step on the record store and the reply |
| ControlProtocol.StreamServer.SigAck | StreamerServer/src/srvrComm.c:41-48 | ACK, the session's end, and the action set to done |
| ControlProtocol.StreamServer.SigAct | StreamerServer/src/srvrComm.c:32-39 | the stored action is sent |
| ControlProtocol.StreamServer.WriteBack | StreamerServer/src/PlayerServer.c:11-58 | the player's handler refines the step |
| ControlProtocol.StreamServer.NewJsonFile | StreamerServer/src/srvrJson.c:16-26 | the default record: status off, action live |
| ControlProtocol.StreamServer.JsonFromFile | StreamerServer/src/srvrJson.c:28-35 | a missing record is created |
| ControlProtocol.StreamServer.SetJsonValue | StreamerServer/src/srvrJson.c:41-47 | read, change one key, write back |
| ControlProtocol.StreamServer.GetJsonValueFromFile | StreamerServer/src/srvrJson.c:49-58 | the stored value; a missing key stores the action off and gives a null pointer |
| ControlProtocol.Device.MsgParse | StreamerClient/src/TCPClient/ClientComm.c:31-68 | the device's next status for every action, status and set-up result |
| ControlProtocol.Device.Exchange | StreamerClient/src/TCPClient/ClientComm.c:70-80 | one round between device and server refines the session step |
| Calibration.AlwaysCalibratesExactly | Backup/Adil Project/Documents/EarthQuake_Monitoring_System/Final_code_including_web_server_data_V5/EARTHQUAKE.cpp:779-894 | calibration ends for every noiseless sensor of gain g if and only if 2 <= g <= 15 |
| Calibration.CalibratesExactly | Backup/Adil Project/Documents/EarthQuake_Monitoring_System/Final_code_including_web_server_data_V5/EARTHQUAKE.cpp:785-893 | for gains 1 to 15 the loop ends if and only if g >= 2 or the z axis at rest reads at least -16391: below that gain 1 needs an offset beyond 16 bits |
| Calibration.PassLowersError | Backup/Adil Project/Documents/EarthQuake_Monitoring_System/Final_code_including_web_server_data_V5/EARTHQUAKE.cpp:871-892 | in every run, every pass that does not leave the loop lowers |mean_ax| + |mean_ay| + |16384 - mean_az| as measured, saturated readings included, and axes inside the dead zone keep their offset |
| Calibration.SeenShrinks | Backup/Adil Project/Documents/EarthQuake_Monitoring_System/Final_code_including_web_server_data_V5/EARTHQUAKE.cpp:871-887 | the error seen of an axis outside the dead zone shrinks in one pass, also from a z reading at the end of its range |
| Calibration.StaysBounded | Backup/Adil Project/Documents/EarthQuake_Monitoring_System/Final_code_including_web_server_data_V5/EARTHQUAKE.cpp:871-887 | x and y never saturate in a run, z only at its upper end and by no more than one pass makes good |
| Calibration.Pull | Backup/Adil Project/Documents/EarthQuake_Monitoring_System/Final_code_including_web_server_data_V5/EARTHQUAKE.cpp:871-887 | moving an offset by an eighth of the seen error brings the error nearer to 0 for gains 1 to 15, without overshoot up to gain 8 |
| Calibration.PassMoves | Backup/Adil Project/Documents/EarthQuake_Monitoring_System/Final_code_including_web_server_data_V5/EARTHQUAKE.cpp:781-887 | the first offset is an eighth of the first error; a pass adds an eighth of the measured error unless that is at most 8 |
| Calibration.QuotientCutsOff | Backup/Adil Project/Documents/EarthQuake_Monitoring_System/Final_code_including_web_server_data_V5/EARTHQUAKE.cpp:781-783 | the quotient is cut off towards zero: its remainder is below the divisor and has the dividend's sign |
| Calibration.OutOfReach | Backup/Adil Project/Documents/EarthQuake_Monitoring_System/MPU6050.cpp:2815-2817 | with gain 1 no 16-bit offset brings a z reading below -16391 into the dead zone |
| Calibration.MeanBetween | Backup/Adil Project/Documents/EarthQuake_Monitoring_System/Final_code_including_web_server_data_V5/EARTHQUAKE.cpp:769-773 | a mean lies between the least and the greatest reading, and sums of up to 65535 readings fit 32 bits |
| Calibration.Monitor.MeanSensors | Backup/Adil Project/Documents/EarthQuake_Monitoring_System/Final_code_including_web_server_data_V5/EARTHQUAKE.cpp:756-777 | each mean is the toward-zero quotient of the sum of exactly the readings numbered 101 to buffersize + 100, for any readings |
| Calibration.Monitor.Calibrate | Backup/Adil Project/Documents/EarthQuake_Monitoring_System/Final_code_including_web_server_data_V5/EARTHQUAKE.cpp:779-894 | the loop ends at the first pass on which all three axes are in the dead zone, with the offsets of that pass |
| Calibration.Monitor.Adjust | Backup/Adil Project/Documents/EarthQuake_Monitoring_System/Final_code_including_web_server_data_V5/EARTHQUAKE.cpp:871-892 | the three bits are set together exactly if all axes are settled, every other axis moves by its quotient |
| Calibration.Monitor.SetOffsetOfMPU | Backup/Adil Project/Documents/EarthQuake_Monitoring_System/Final_code_including_web_server_data_V5/EARTHQUAKE.cpp:742-755 | afterwards the disturbance check of `loop` is false and the registers hold the offsets unclipped |
| Trigger.FiresExactly | Backup/Adil Project/Documents/EarthQuake_Monitoring_System/Final_code_including_web_server_data_V5/EARTHQUAKE.cpp:166-190 | an alarm fires if and only if two axes shake, ten passes have gone by, and none fired in the nine passes before |
| Trigger.AlarmsApart | Backup/Adil Project/Documents/EarthQuake_Monitoring_System/Final_code_including_web_server_data_V5/EARTHQUAKE.cpp:166-190 | two alarms are at least ten passes apart |
| Trigger.PrintedExactly | Backup/Adil Project/Documents/EarthQuake_Monitoring_System/Final_code_including_web_server_data_V5/EARTHQUAKE.cpp:173-190 | an alarm's report is printed in the pass it fires and the eight that follow, and in no other pass |
| Trigger.CountersBounded | Backup/Adil Project/Documents/EarthQuake_Monitoring_System/Final_code_including_web_server_data_V5/EARTHQUAKE.cpp:175-190 | at pass boundaries 0 <= count5 <= 10, and count6 is 1 if and only if count5 is 9 |
| Trigger.AlwaysTimed | Backup/Adil Project/Documents/EarthQuake_Monitoring_System/Final_code_including_web_server_data_V5/EARTHQUAKE.cpp:166-190 | both counters and the report are functions of the passes since the last alarm |
| Trigger.Loop.Pass | Backup/Adil Project/Documents/EarthQuake_Monitoring_System/Final_code_including_web_server_data_V5/EARTHQUAKE.cpp:166-190 | one pass of `loop` refines the step and prints what the step says |
| Trigger.Loop.Passes | Backup/Adil Project/Documents/EarthQuake_Monitoring_System/Final_code_including_web_server_data_V5/EARTHQUAKE.cpp:896-901 | any number of passes from the start state print the sequence the run defines |
| Morse.LightRecovers | Backup/Adil Project/Documents/BlueJ Projects/LED-Button/LEDTester.java:54-74 | reading the light of any translatable message gives it back, up to letter case and the two brackets |
| Morse.SameLightExactly | Backup/Adil Project/Documents/BlueJ Projects/LED-Button/LEDTester.java:54-74 | two messages show the same light if and only if they differ at most in letter case and the two brackets |
| Morse.SplitRecovers | Backup/Adil Project/Documents/BlueJ Projects/LED-Button/StringToMorse.java:115-125 | splitting a translation at the slashes gives the message back, likewise |
| Morse.GapBetweenLetters | Backup/Adil Project/Documents/BlueJ Projects/LED-Button/LEDTester.java:61-73 | anywhere in a message, 3 + 8k units are dark between two letters k spaces apart |
| Morse.GapInsideLetter | Backup/Adil Project/Documents/BlueJ Projects/LED-Button/LEDTester.java:61-72 | inside a letter exactly one unit is dark between pulses |
| Morse.ShownEnds | Backup/Adil Project/Documents/BlueJ Projects/LED-Button/LEDTester.java:62-65 | a letter starts and ends lit, a dot for one unit and a dash for three |
| Morse.CodeGivesLetter | Backup/Adil Project/Documents/BlueJ Projects/LED-Button/StringToMorse.java:18-104 | every code is dots and dashes and belongs to one letter only, up to case and the two brackets |
| Morse.ReadsBack | Backup/Adil Project/Documents/BlueJ Projects/LED-Button/LEDTester.java:61-73 | codes and slashes by turns are read back from their light |
| Morse.Translate | Backup/Adil Project/Documents/BlueJ Projects/LED-Button/StringToMorse.java:115-125 | the text, the first character without a code, or the exception on the empty message, as `TranslationRecovers` and `TranslationFails` describe them |
| Morse.TranslationRecovers | Backup/Adil Project/Documents/BlueJ Projects/LED-Button/StringToMorse.java:115-125 | what `translate` returns gives the message back when split at the slashes, and its light when read, up to letter case and the two brackets |
| Morse.TranslationFails | Backup/Adil Project/Documents/BlueJ Projects/LED-Button/StringToMorse.java:115-125 | otherwise the message is empty, or the first of its characters without a code is reported |
| Morse.CodeableExactly | Backup/Adil Project/Documents/BlueJ Projects/LED-Button/StringToMorse.java:18-104 | letters of either case, digits, the space and twelve other characters have a code, a small letter that of its capital, and nothing else has one |
| Morse.LedTester.FlashMorse | Backup/Adil Project/Documents/BlueJ Projects/LED-Button/LEDTester.java:54-74 | the LED shows the light of the translation on a fresh pin, and nothing if translation throws |
| Morse.LedTester.FlashAtom | Backup/Adil Project/Documents/BlueJ Projects/LED-Button/LEDTester.java:62-72 | one character of a translation lights and darkens the LED for its units, the common gap included |
| Calibration.Monitor.FirstOffsets | Backup/Adil Project/Documents/EarthQuake_Monitoring_System/Final_code_including_web_server_data_V5/EARTHQUAKE.cpp:781-783 | the first offsets are those of pass 0 |
| Calibration.Monitor.Pass | Backup/Adil Project/Documents/EarthQuake_Monitoring_System/Final_code_including_web_server_data_V5/EARTHQUAKE.cpp:785-893 | one turn of the loop writes the offsets as 16-bit numbers, measures under them and adjusts |
| Calibration.Monitor.Measure | Backup/Adil Project/Documents/EarthQuake_Monitoring_System/Final_code_including_web_server_data_V5/EARTHQUAKE.cpp:756-777 | on the noiseless sensor the means are what it reads under the registered offsets |
| Calibration.Monitor.WriteOffsets | Backup/Adil Project/Documents/EarthQuake_Monitoring_System/MPU6050.cpp:2795-2797 | the setters take the low 16 bits, signed |
| DmpMemory.SetMemoryStartAddress | Backup/Adil Project/Documents/EarthQuake_Monitoring_System/MPU6050.cpp:2928-2930 | the address register gets the address and nothing else changes |
| DmpMemory.CopyFromProgramMemory | Backup/Adil Project/Documents/EarthQuake_Monitoring_System/MPU6050.cpp:2992-2994 | the copy loop stays inside its 16 bytes and copies the chunk |
| WsConnection.ServerConnection.OnCloseFrame | wsServer/src/server_ws.hpp:541-552 | status and reason are taken from the payload, answered and reported |
| WsConnection.ServerConnection.ExpiresFromNow | wsServer/src/server_ws.hpp:621 | sets the expiry, cancels every pending wait and reports how many there were |
| WsConnection.ServerConnection.StartWait | wsServer/src/server_ws.hpp:629-634 | adds one wait to the timer |
| WsReader.FrameReader.ReadMessageContent | wsServer/src/server_ws.hpp:518-520 | the content read asks for the mask as well on the server |
| WsSendQueue.Connection.SendFromQueue | wsServer/src/server_ws.hpp:81-82 | the start of the next write is posted to the strand |

## Left out

- WsReader.FrameReader.OnExtension: shifts the eight length octets as 64-bit numbers; the source shifts an `int` by up to 56, which C++ leaves undefined from 32 on.
- WsReader.ServerReadsMeaning: does not model `4+length` wrapping in `size_t`, which takes a length field of at least 2^64 - 4, nor the read repeated when no byte was transferred.
- WsReader.ClientFirstMessage: describes the first message after k leftover bytes only; what later frames become then depends on the peer's bytes and is not the peer's stream.
- WsConnection.LifecycleAlways: is about the server; the client's handlers are the same with no timer and no connection set, and another reason text for a masked frame. Runs with `stop()` are not covered.
- WsConnection.CloseOnceAlways: takes handlers one at a time; `closed` is tested and set in two steps, so two threads could pass the test. Close frames an application makes itself through `send` are not counted.
- WsConnection.ServerConnection.OnConnectionOpen: logs the place where `onopen` is called, whether or not the application has set one.
- WsConnection.ServerConnection.OnConnectionClose: logs the place where `onclose` is called, whether or not the application has set one.
- WsConnection.ServerConnection.OnConnectionError: logs the place where `onerror` is called, whether or not the application has set one.
- WsConnection.PingAnswered: states the empty pong of the code; section 5.5.3 of RFC 6455 wants the ping's data. Fragments are not reassembled, and data may follow a close the application sent.
- WsConnection.IdleCloseNotEarly: is about the idle handler; how late it may run is up to the scheduler.
- WsHandshake.HandshakeSucceeds: `method` is named `verb`; matching a path against the endpoint expressions and the request timeout are not modelled; characters stand for octets.
- WsEndToEnd.DeliveredIsSent: says nothing after a write error, behind which the wire goes on with a cut frame.
- DmpMemory.WriteMemoryBlock: the device is faithful and the bus does not fail, so the branch that returns false is never taken; failing `malloc` is not modelled. The memory has the 32 banks of 256 bytes that the bank mask can select.
- DmpMemory.WriteDMPConfigurationSet: requires a stream that can be read to its end; on any other the source reads past its input. Program memory is ordinary memory.
- I2cFields.Bus.PutBits: the bus does not fail (a failed read of -1 becomes 255 in the source and counts as success); fields lie inside the octet; the 16-bit bit functions and transfers above the source's limits are not modelled.
- ControlProtocol.StreamServer.MsgParse: a message is its two fields; JSON text, quoting, truncation at the message size and a missing status field are not modelled.
- ControlProtocol.NoCommandLost: takes one device session at a time and each handler as one step; the shared globals and the unlocked read-modify-write of two threads are not modelled. A file that exists holds a record.
- ControlProtocol.Device.MsgParse: starting and stopping the media pipeline is not modelled but for whether set-up succeeds; the loop that retries a stop is taken to end.
- Calibration.MeanBetween: `long` is unbounded; with 32 bits up to 65535 readings are covered.
- Calibration.CalibratesExactly: the sensor is linear with one gain for all axes, free of noise, and saturates at 16 bits; the offsets of the program are unbounded where the loop does not end.
- Trigger.Loop.Pass: shaking and the report are inputs; filters, velocity and magnitude tables work in floating point and are not modelled.
- Morse.LedTester.FlashMorse: time is exact and sleeps are not interrupted.
- Sockets, accept loops, threads, files, TLS, OTA transfer, GStreamer, the Python scripts and the user interfaces: foreign calls or plumbing.
