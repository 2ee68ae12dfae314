# RUDP: a Dafny model of the Stop-and-Wait connection and its registry

RUDP is a small C++ library that adds reliability to UDP. It uses Stop-and-Wait ARQ:

- Every data frame carries a 16-bit sequence number.
- `send` retransmits the frame until the peer ACKs that sequence number, or until a retry limit is reached.
- `receive` works per sender. It ACKs frames with the sequence number it expects and also stale duplicates. It delivers the frame with the expected number and then advances that sender's counter.
- A registry, `ConnectionController`, hands out connection numbers and owns the connections.

This project models that core in Dafny and proves properties of the model.

- `wire.dfy` (module `Wire`): bytes and fixed-width integers with their little-endian encodings. Also the data frame `[uint16 sequence][int32 length][payload]`, `(s + 1) % USHRT_MAX`, and the frame round trip.
- `send_spec.dfy` (module `SendSpec`): the retransmit/ACK-wait loop of `send` as a function over a trace of attempt outcomes. Each outcome is a failed transmission, a timed-out wait, or a reply carrying a 16-bit value. The module also has a reference definition written from the first decisive attempt, a proof that the two agree, and the loop's bounds and exits.
- `receive_spec.dfy` (module `ReceiveSpec`): one iteration of the receive loop as a function, and the loop as a fold over a trace of inbound datagrams. Each datagram is a failed `receive_from`, or a sender id, the datagram's bytes and whether the ACK `send_to` for it succeeded. The module proves the per-datagram behaviour: unseen sender, duplicate, ahead, expected, oversized, transport error. It also proves the per-sender table discipline and duplicate suppression across calls.
- `connection.dfy` (module `Rudp`): `class Connection` with the fields the implementation updates in place. Its methods are the constructor, the endpoint setters, the retry-limit setter, the two resets, `Send` and `Receive`.
  - `Send` is the `while` retry loop. It is proved against `SendSpec.SendRun`.
  - `Receive` allocates the receive buffer, an `array` of `6 + len` zero bytes. `ReceiveLoop` is the `while` loop over datagrams on that array, and its body uses byte-copy `for` loops. Both are proved against `ReceiveSpec.ReceiveRun`.
- `controller.dfy` (module `Controller`): `class ConnectionController` with its connection counter and its `int → Connection` map, and `class ControllerSingleton`, which holds the lazily created instance.

The socket is not modelled. Its effects become inputs:

- the outcome of `bind` and of address parsing (a flag each);
- the outcome of each transmission and ACK wait of `send`;
- each datagram `receive_from` yields to `receive`.

A trace can run out before the real call would return. The result is then `SendBlocked` or `ReceiveBlocked`: the call is still waiting. The implementation throws exceptions; the model returns them as error values (`ConfigFailed`, `SendFailed`, `ReceiveFailed`, `OutOfRange`).

Where the implementation and its documentation differ, the model follows the implementation:

- Sequence numbers wrap modulo `USHRT_MAX` = 65535, not 65536 (src/Connection.cpp:247, 396).
- A frame whose sequence number is above the expected one is dropped. It is neither ACKed nor delivered (src/Connection.cpp:370, 393).
- The exhaustion check after the send loop ignores whether the ACK arrived (src/Connection.cpp:238). An ACK on the last allowed attempt is reported as failure, so a limit of 1 never succeeds.
- `send` returns the size of the whole frame it transmitted (`6 + len`), not the payload length (src/Connection.cpp:169, 249).
- A failed `receive_from` still enters the sender id left over from the previous iteration into the table, with 0. On the first iteration that id is the default endpoint's `"0.0.0.0:0"` (src/Connection.cpp:285-296).
- Duplicate suppression fails at the wrap. Delivering expected number 65534 sets the entry to 0 (src/Connection.cpp:396). A retransmitted 65534 is then above the expected number, so it is dropped without an ACK (src/Connection.cpp:370). Exhaustion does not advance the sender's number (src/Connection.cpp:238-243), so a sender whose ACK was lost keeps resending 65534. The pair stays stuck until a send-side reset, and without a retry limit `send` never returns.

## Model

| member | source | states |
|---|---|---|
| Wire.NextSequence | src/Connection.cpp:247 | The successor stays below 65535. It is `s + 1` below 65534 and wraps to 0 at 65534 (and maps 65535 to 1). |
| Wire.U16RoundTrip | src/Connection.cpp:305-312 | Decoding the two bytes written for a 16-bit sequence number gives the number back. |
| Wire.U16EncodeDecode | src/Connection.cpp:305-312 | Every two-byte field re-encodes to itself: it is the encoding of the value read from it. |
| Wire.I32RoundTrip | src/Connection.cpp:322-329 | Decoding the four two's-complement bytes written for a 32-bit length gives the length back, negative values included. |
| Wire.EncodeU16 | src/Connection.cpp:155 | The 2-byte little-endian encoding of the sequence field. Its own contract gives only the size. `U16RoundTrip` and `U16EncodeDecode` prove it inverse to the decoding `receive` uses. |
| Wire.EncodeI32 | src/Connection.cpp:156 | The 4-byte little-endian two's-complement encoding of the length field. Its own contract gives only the size. `I32RoundTrip` proves the decoding `receive` uses gives the length back. |
| Wire.SequenceField | src/Connection.cpp:305-312 | Reads the sequence number from bytes 0-1 of the receive buffer. It has no ensures of its own. `FrameRoundTrip` states what it reads from a frame. |
| Wire.LengthField | src/Connection.cpp:320-329 | Reads the length from bytes 2-5 of the receive buffer. It has no ensures of its own. `FrameRoundTrip` states what it reads from a frame. |
| Wire.PayloadField | src/Connection.cpp:345-353 | Reads `len` payload bytes from offset 6 of the receive buffer. It has no ensures of its own. `FrameRoundTrip` states what it reads from a frame. |
| Wire.BuildFrame | src/Connection.cpp:155-157 | The frame is 6 header bytes followed by exactly the first `len` bytes of the caller's buffer. |
| Wire.FrameRoundTrip | src/Connection.cpp:305-353 | Any buffer that starts with a frame built by `send`, read at offsets 0, 2 and 6 as `receive` reads it, gives back the frame's sequence number, length and payload. |
| SendSpec.SendLoop | src/Connection.cpp:165-237 | The retry loop stepped one attempt at a time. It stops when the budget is spent, a transmission fails, the matching ACK arrives, or the trace runs out. It has no ensures of its own. `SendLoopReference` gives its closed form. |
| SendSpec.SendRun | src/Connection.cpp:146-250 | The outcome of `send` after the endpoint check: the failed frame write for a negative length, the loop, then the exhaustion check at line 238. That check treats an accepted ACK on attempt `L` as exhaustion. It has no ensures of its own. `SendRunMatchesReference`, `SendSucceedsIffAckedInBudget`, `SendTransmitsAtMostLimit`, `SendTransmitFailureAborts`, `SendExhaustsAfterLimit` and `SendAckOnLastAttemptFails` state its properties. |
| SendSpec.FirstDecisive | src/Connection.cpp:165-236 | The index of the first attempt that ends the loop (a failed transmission or the matching ACK). No earlier attempt is decisive. |
| SendSpec.SendLoopReference | src/Connection.cpp:165-237 | Entered after any number of attempts, the loop ends at the limit, at the first failed transmission or at the first matching ACK, whichever comes first. Timeouts and mismatched replies only use up attempts. |
| SendSpec.SendRunMatchesReference | src/Connection.cpp:146-250 | The loop-stepping outcome of `send` (result and transmission count) equals the reference definition based on the first decisive attempt, for every trace and every valid limit. |
| SendSpec.SendTransmitsAtMostLimit | src/Connection.cpp:165-167 | With a limit `L`, `send` transmits at most `L` times. |
| SendSpec.SendSucceedsIffAckedInBudget | src/Connection.cpp:164-250 | `send` succeeds if and only if the length is non-negative and a matching ACK arrives before any failed transmission, within the first `L - 1` attempts. On success the last attempt carried the ACK, every earlier one timed out or carried another value, and the frame size is returned. |
| SendSpec.SendTransmitFailureAborts | src/Connection.cpp:169-175 | A failed transmission before any decisive attempt and within the budget ends the call at once with a transport error, after that many transmissions. |
| SendSpec.SendExhaustsAfterLimit | src/Connection.cpp:238-243 | A peer that never sends the matching ACK makes a limited `send` fail after exactly `L` transmissions. This covers every wait that times out or brings a stale reply, and a trace with no transmission failure. |
| SendSpec.SendAckOnLastAttemptFails | src/Connection.cpp:238-243 | A matching ACK on attempt `L` is still reported as exhaustion. |
| SendSpec.SendWithLimitOneNeverSucceeds | src/Connection.cpp:165-243 | With a limit of 1, no trace makes `send` succeed. |
| SendSpec.SendUnlimitedSucceedsAfterTimeouts | src/Connection.cpp:210-231 | Without a limit, `K` timeouts followed by the matching ACK make `send` succeed on transmission `K + 1` and return the frame size. |
| SendSpec.SequenceAfterIsModulo | src/Connection.cpp:247 | After `n` successful sends from 0, the send sequence number is `n % 65535`. |
| ReceiveSpec.ExpectedOf | src/Connection.cpp:293-297 | The expected number of a sender, 0 for one not in the table. It has no ensures of its own. `TouchKeepsExpected` relates it to the lookup. |
| ReceiveSpec.ReceiveInto | src/Connection.cpp:285 | `receive_from` into the receive buffer. Its own contract keeps the buffer's size. `ReceiveIntoAt` and `ReceiveIntoPrefix` state its contents. |
| ReceiveSpec.ZeroBuffer | src/Connection.cpp:269 | The zero-initialised receive buffer of `6 + len` bytes. Its contract gives the size. |
| ReceiveSpec.InitialState | src/Connection.cpp:266-269 | A call of `receive` starts from the connection's table, a `6 + len` zero buffer and the default sender id. Its contract gives the buffer size. |
| ReceiveSpec.Arrive | src/Connection.cpp:285-297 | The first half of an iteration. A successful `receive_from` fills the buffer and records the sender; a failed one keeps both. The sender in hand is then looked up. Its own contract keeps the buffer size. `StepFacts` states the lookup and the stale sender. |
| ReceiveSpec.Decide | src/Connection.cpp:303-393 | The second half, in the order the code checks. First the sequence field is compared with the expected number. If equal: a length above the caller's capacity aborts, a negative length aborts, and otherwise the frame is ACKed and delivered only if the ACK send succeeds. If below: ACKed with its own number (the `<=` at line 370). If above: nothing. It has no ensures of its own. `StepFacts`, `ReceiveDeliversFrame`, `ReceiveAcksDuplicate`, `ReceiveDropsAhead`, `ReceiveRejectsOversized` and `ReceiveContinuesOnAckFailure` state its cases. |
| ReceiveSpec.Step | src/Connection.cpp:279-394 | One iteration: `Arrive`, then `Decide` unless `receive_from` failed. Its own contract keeps the buffer size. `StepFacts` states what an iteration guarantees. |
| ReceiveSpec.Advance | src/Connection.cpp:396 | The increment of the delivering sender's entry by `NextSequence`. It has no ensures of its own. `ReceiveOnlyDelivererAdvances` states its effect over a call. |
| ReceiveSpec.ReceiveRun | src/Connection.cpp:279-397 | The whole loop as a fold over the datagram trace. It continues, delivers with the increment, aborts, or blocks when the trace runs out. Its own contract keeps the buffer size. The `ReceiveSpec` lemmas below state its properties. |
| ReceiveSpec.Touch | src/Connection.cpp:293-296 | Looking a sender up adds exactly that sender to the table's keys. |
| ReceiveSpec.TouchKeepsExpected | src/Connection.cpp:293-297 | Looking a sender up changes no sender's expected number. An unseen sender reads as 0. |
| ReceiveSpec.ReceiveIntoAt | src/Connection.cpp:285 | After `receive_from`, each buffer byte comes from the datagram if the datagram reaches it, and keeps its earlier value otherwise. |
| ReceiveSpec.ReceiveIntoPrefix | src/Connection.cpp:285 | A datagram that fits the buffer is found whole at its start. |
| ReceiveSpec.StepFacts | src/Connection.cpp:285-393 | One iteration enters its sender with 0 if it is unseen. A failed `receive_from` keeps the previous sender and emits nothing. A delivery needs a successful ACK, has `0 <= len <= cap` with a payload of that length, and emits exactly the ACK echoing the sender's expected number. |
| ReceiveSpec.ReceiveOnlyDelivererAdvances | src/Connection.cpp:293-396 | Over a whole call, no sender's entry is lost. Every entry the call does not deliver from keeps its expected number (0 for senders first seen in the call). The delivering sender's entry becomes the successor of its expected number. |
| ReceiveSpec.ReceiveKeepsTableBounded | src/Connection.cpp:396 | Every expected number in the table stays below 65535 across a call. |
| ReceiveSpec.ReceiveDeliversExpected | src/Connection.cpp:320-397 | A delivery reports a length in `0..len` with a payload of that many bytes. The last ACK of the call echoes the delivering sender's expected number. |
| ReceiveSpec.ReceiveDeliversFromTrace | src/Connection.cpp:362-393 | The reported sender is the sender of a datagram of the trace whose ACK was sent successfully. |
| ReceiveSpec.ReceiveDeliversFrame | src/Connection.cpp:320-397 | A frame with the expected number that fits, and whose ACK goes out, is delivered at once with its payload and sender. Exactly one ACK echoing the number is emitted, and only that sender's entry advances. |
| ReceiveSpec.ReceiveAcksDuplicate | src/Connection.cpp:370-393 | A frame below the expected number is ACKed with its own number and not delivered. The table is unchanged and the loop goes on with the rest of the trace. |
| ReceiveSpec.ReceiveDropsAhead | src/Connection.cpp:370-393 | A frame above the expected number gets no ACK and no delivery. The loop goes on, and the only table change is entering an unseen sender. |
| ReceiveSpec.ReceiveContinuesOnAckFailure | src/Connection.cpp:379-393 | A fitting frame with the expected number whose ACK `send_to` fails is not delivered. The ACK echoing its number was still transmitted, the entry is not advanced, and the loop goes on with the rest of the trace. |
| ReceiveSpec.ReceiveRejectsOversized | src/Connection.cpp:335-341 | A frame with the expected number whose length exceeds the caller's buffer fails the call, before its ACK and before any increment. |
| ReceiveSpec.ReceiveSkipsTransportError | src/Connection.cpp:285-297 | A failed `receive_from` emits nothing and delivers nothing. It only enters the stale sender id, and the loop goes on. |
| ReceiveSpec.ReceiveDeliversOnce | src/Connection.cpp:293-396 | For an expected number below 65534: a frame delivered by one call is ACKed with its number and not delivered when it arrives again at the next call. A later delivery from the same sender is of the next number. |
| ReceiveSpec.ReceiveDropsRetransmissionAfterWrap | src/Connection.cpp:370-396 | For expected number 65534: the first call delivers the frame and wraps the entry to 0. The same frame arriving again at the next call is dropped: no ACK, no delivery, and the loop goes on. A call with nothing more to receive stays blocked. |
| Rudp.CopyOut | src/Connection.cpp:306-310 | The byte-by-byte copy into the cache yields exactly the buffer's bytes at `offset .. offset + n`. |
| Rudp.ReceiveFrom | src/Connection.cpp:285 | Writing the datagram into the receive array leaves it equal to `ReceiveInto` of its old contents. |
| Rudp.Connection.constructor | src/Connection.cpp:20-28 | A new connection has send sequence 0, an empty receive table, both endpoint flags false, limit -1, retry count 0 and the given timeout. |
| Rudp.Connection.SetEndpointLocal | src/Connection.cpp:56-68 | The endpoint is set to any address and the port, even when the bind fails. A successful bind sets the local flag and empties the receive table; a failed one changes neither. |
| Rudp.Connection.SetEndpointRemote | src/Connection.cpp:81-92 | A valid address sets the remote endpoint and flag and restarts the send sequence at 0. An invalid one fails and changes nothing. |
| Rudp.Connection.SetSendRetriesLimit | src/Connection.cpp:105-116 | A positive limit is stored. Any other value fails and leaves the limit unchanged. |
| Rudp.Connection.ResetConnectionReceive | src/Connection.cpp:123-127 | Empties the receive table and changes nothing else. |
| Rudp.Connection.ResetConnectionSend | src/Connection.cpp:129-133 | Sets the send sequence to 0 and changes nothing else. |
| Rudp.Connection.Send | src/Connection.cpp:135-252 | Without a remote endpoint, fails and changes nothing. Otherwise the result and transmission count are those of `SendRun`, and every attempt carries `BuildFrame` of the current sequence number. The sequence number advances by `NextSequence` only on success, and the retry count ends at 0 on every return. |
| Rudp.Connection.ReceiveIteration | src/Connection.cpp:281-393 | One pass of the loop body updates the table, the receive array and the sender id exactly as `ReceiveSpec.Step` says, and reports the same decision. |
| Rudp.Connection.Receive | src/Connection.cpp:254-399 | Without a local endpoint, fails and changes nothing. With a length below -6, the buffer's size wraps, its allocation fails (`std::length_error`) and nothing changes. Otherwise the result, the ACKs transmitted and the new table are those of `ReceiveRun` from a zeroed `6 + len` buffer and the default sender id, and the table stays bounded. |
| Rudp.Connection.ReceiveLoop | src/Connection.cpp:279-397 | Starting from the default sender id, the loop and the final increment leave the result, the ACKs transmitted and the table exactly as `ReceiveRun` from the array's contents says. |
| Controller.ConnectionController.constructor | src/ConnectionController.cpp:23-27 | The registry starts with no connections and a count of 0. |
| Controller.ConnectionController.AddConnection | src/ConnectionController.cpp:39-45 | Like `AddConnectionWithTimeout`, with the default timeout. |
| Controller.ConnectionController.AddConnectionWithTimeout | src/ConnectionController.cpp:47-53 | The count goes up by exactly 1 and the new count is returned. That number was not registered before. It now maps to a fresh connection in its initial state with the given timeout, and no other entry changes. Every registered number stays in `1..count`, and no two numbers share a connection. |
| Controller.ConnectionController.RemoveConnection | src/ConnectionController.cpp:55-59 | Deletes only key `k` (a no-op for an absent key) and leaves the count alone, so numbers are never reused. |
| Controller.ConnectionController.GetConnection | src/ConnectionController.cpp:61-65 | Returns the connection stored under `k` exactly when `k` is registered, and out of range otherwise. |
| Controller.ControllerSingleton.constructor | src/ConnectionController.cpp:19 | No instance exists initially. |
| Controller.ControllerSingleton.GetInstance | src/ConnectionController.cpp:29-37 | The first call creates an empty registry. Every later call returns that same instance. |

## Left out

- Boost.Asio: opening, binding and cancelling the socket, `io_service.run_one`, the deadline timer and its actor, and the asynchronous receive callback. These are foreign, asynchronous and timed. Their outcomes are inputs to `Send` and `Receive`, and `timeoutMs` is only stored.
- The mutexes and threads. Every operation is modelled as atomic.
- A failure to open the socket in the constructor. It is a foreign call, so the model's constructor always succeeds.
- Address parsing, the bind, and the formatting of `"address:port"` sender ids are foreign library calls. They become a success flag and an abstract string.
- Native byte order. The model fixes little-endian.
- The `memcpy` null checks. `memcpy` never returns null, so those branches are dead.
- `sizeof(ack_buffer)` (src/Connection.cpp:379) transmits pointer-size bytes. An ACK is modelled as its 2-byte sequence number.
- `memcpy(buf, …, len)` (src/Connection.cpp:355) over-reads the cache. The copy-out is modelled as the `received_len` payload bytes, returned with the sender only when the call delivers.
- The early writes to the caller's `buf`, `address` and `port` are not modelled. They happen at src/Connection.cpp:355 and 365-366, before the ACK `send_to` at 379. When the ACK of an expected frame fails (379-385, 393), the caller's outputs are already overwritten and the loop goes on without returning. If the call later fails with `BufferTooSmall`, the caller's buffer still holds that undelivered payload.
- `bytestream.good()` failures other than a negative length.
- Rudp.Connection.Send: a negative `len` gives `SendFailed(FrameWriteFailed)`, as with libstdc++ and libc++. There `ostream::write` with a negative count sets badbit. MSVC's `write` skips a non-positive count and leaves the stream good, so there a 6-byte header-only frame is sent and `send` can return 6. The model does not capture the MSVC behaviour.
- Rudp.Connection.Receive: requires `len < -6 || 0 <= len`, so the model leaves out the whole range `-6 <= len < 0`, including the ACKs and drops that happen there before any undefined read. A length below -6 is modelled: the allocation throws before the loop.
  - For `-6 <= len < -4` the buffer has 0 or 1 bytes, and reading the sequence number of any datagram (src/Connection.cpp:307-310) indexes past its end.
  - For `-4 <= len < 0` the buffer has 2 to 5 bytes. The sequence number is read in bounds, so duplicates are ACKed and frames ahead are dropped as usual. Only the length read (324-327) of a frame with the expected number runs past the end, which is undefined behaviour.
- Rudp.Connection.Send: requires `len <= |buf|`. The implementation reads `len` bytes from the caller's pointer, so a shorter buffer is undefined behaviour.
- Controller.ConnectionController.AddConnectionWithTimeout: `connection_count` is an `int` whose overflow after 2^31 - 1 additions is undefined behaviour. The model counts with an unbounded integer.
- The value of `DEFAULT_TIMEOUT_MS`. It is defined in `rudp_macros.h`, which is not part of this model, so it is an unspecified constant.
- The static storage of the registry. `connections` and `connection_count` are static members in the implementation. Since `getInstance` creates the only instance, they are modelled as fields of that instance.
- The destructor, which only stops the I/O service and closes the socket.
- DEBUG logging and the progress messages written to standard output.
- `rudp.cpp`/`rudp.h`, the C wrappers that turn exceptions into `*error = -1`, and the test programs, which are process-level harnesses.
