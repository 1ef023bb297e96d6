# PJON for Python: a model of the local-bus protocol engine

pjon_python speaks the PJON v4.2 local-bus protocol over a serial line. This project models the protocol object
(`dispatch`, `update`, `receive`, `send_string`), the checksum it relies on, the serial strategy below it, the
simulated serial bus used in its place, and the line parser of the PJON-piper client, and proves what they guarantee.

The code that changes things step by step is modelled by classes and loops: `Protocol.PjonProtocol`,
`Protocol.OutgoingPacket`, `SerialStrategy.Strategy`, `Bus.Serial`, `Piper.ReceivedPacketsProcessor`, and the checksum
loops of `Crc8` and `CrcHex`. Each method is proved equal to one step on values (`Nodes`, `Cleanup`, `Frames`), and the
results about whole runs are proved of those steps:

| file | content |
|---|---|
| Constants | protocol symbols, header bits, limits |
| Crc8, CrcAlgebra, CrcHex | the checksum loop, what it detects for messages of every length, its hexadecimal form |
| Frames, Streams | frame layout, one `receive` call, streams of frames, damaged frames |
| Cleanup | the restarting clean-up loop of `update` and the single pass it amounts to |
| Nodes, Runs, Guarantees | the protocol object as a state machine, its invariant over all runs, and what follows for the packets |
| Sending, Pacing, Registration, Reports, WireLog | who is sent when and with which verdict, back-off and registration times, error calls, the bytes written |
| Strategy, Protocol | the objects, proved to take exactly those steps |
| Handshake | sender and receiver over a line that loses frames and answers and carries bytes of others |
| LateAnswers | the same when any of the receiver's answers may be read in any response window |
| Witnesses | runs and histories, from a new system on, that reach the cases in which the code falls short |
| Bus | the broadcast line with any number of clients |
| Text, Piper, PiperOutput | the string operations, the `#RCV` line parser, and the text that is cut into lines for it |

## Main results

- **Clean-up.** After each deletion the code walks the queue again from the front, counting one more attempt against
  every failed packet it passes. The whole loop equals one pass from the right: a packet's fate depends only on its own
  fields and on D, the number of packets deleted behind it. A failed packet goes when `attempts + 1 + D > MAX_ATTEMPTS`,
  otherwise it stays with exactly `attempts + 1 + D` attempts. The order of all error calls is exact too.
- **Conservation over every run.** An accepted packet is queued, or was removed by exactly one of: acknowledgement,
  exhaustion, adoption of its address. The application's error function has been called with `CONNECTION_LOST` for a
  device exactly once for each packet to it that was exhausted, and once for each time one with a timing was given up.
  The queue stays in dispatch order. The bytes written are exactly the frames of the logged transmissions and one answer for each delivery that asks
  for one.
- **Retries.** At most `MAX_ATTEMPTS + 1` transmissions of a one-shot packet fail. Every transmission, also of a packet
  that is rescheduled, waits for its timing and the cube of the failures since its last registration, counted from the
  clock of the dispatch or the update that registered it. A one-shot packet whose turns find the channel free and whose
  transmissions all fail is gone by its 126th update however the clock runs, as long as it does not go back before the
  registration. A packet that asks nobody for an answer never fails.
- **Codec.** Emission and reception are two-sided inverses, and frames are prefix-free. A frame is decoded as it should
  be in front of every continuation if and only if it is separable: taken (addressed to the device and receivable), or
  such that the receiver's scan of it accepts nothing and never waits for a byte behind it. A stream of separable frames
  is decoded to exactly the taken ones.
- **Damage.** With the length byte intact, a damaged frame is accepted if and only if it still addresses the device on a
  local bus and the error pattern has checksum zero. Odd errors, bursts of at most eight bits, and two flipped bits
  whose distance is no multiple of 127 never do. Errors that hit the length byte, alone or with others, are decided by one
  exact law.
- **Handshake.** In every history of the two nodes, the packets that asked for an answer and were acknowledged have a
  delivery each at the receiver's application, with their own payload and sender. Deliveries together are never longer
  than the bytes heard; if the frames that reached the receiver are separable, what was delivered and what is still to be
  decoded are the messages heard and taken, in order, each once. Even if any of the receiver's answers may be read
  in any window, packets acknowledged are never more than deliveries answered.
- **Packet lines.** The text printed for a packet is received as that one packet if and only if its payload has no line
  break and no `data=`, does not end in whitespace, and agrees with the line wherever it mentions one of the five keys
  searched for. For a line handed over whole it is said for every payload what the parser makes of it.

## Where the code and its documentation part

- `attempts` is described by its name and by `MAX_ATTEMPTS` as a count of tries. It counts walks of the clean-up loop:
  in one clean-up a failed packet in front of acknowledged ones is reported lost exactly when its attempts and their
  number reach `MAX_ATTEMPTS` (`Guarantees.LostAfterOneTry`). `Witnesses.LostAfterOneTransmission` is a run in which
  that happens in the only update, after the packet's only transmission.
- `update` raises an IndexError when a packet without content runs out of attempts: exactly then
  (`Guarantees.RaisesExactly`), and `Witnesses.ContentlessRaises` is a run that gets there. No packet is lost from the
  books even then (`Guarantees.UpdatedConserves`).
- The queue takes `MAX_PACKETS + 1` packets (`Guarantees.DispatchAnswer`).
- `dispatch` admits payloads of up to 49 bytes; `receive` takes frames of 5 to 49 bytes in all (`Streams.AcceptedFrame`),
  so an empty payload without sender, or one that makes the frame longer, is never accepted.
- The address filter reads on after one foreign byte, so one frame for another device can hand over all the frames it
  carries (`Streams.EmbeddedFramesAreDelivered`), and a history can have more deliveries than transmissions
  (`Witnesses.DeliveriesCanExceedTransmissions`). `Streams.SeparableExactly` says which frames are safe; those that
  mention neither the device's id nor the broadcast address are among them (`Streams.QuietStream`).
- An error in the length byte escapes the checksum exactly under the condition of `Streams.DamagedLength`, for example
  when the payload spells a shorter message (`Streams.DamagedLengthIsAccepted`).
- The sender takes the first byte in the response window for the answer to its frame (`Handshake.FirstByteDecides`), so
  the guarantee of the handshake rests on no other answer arriving then. The receiver's own late answer to an earlier
  frame breaks it: `LateAnswers.AcknowledgedUndelivered` is a history in which only the two nodes write and a packet is
  acknowledged that was never delivered.
- The packet lines are searched for their keys from the right, so a payload can stand in for the fields of its own line:
  one that spells a wrong length is ignored (`Piper.LengthFromPayload`), and one that spells a sender id is delivered
  under that id (`Piper.SenderFromPayload`). A payload that breaks the line and goes on with a packet line is received as
  that packet (`PiperOutput.LineInPayload`). `PiperOutput.PrintedIsDelivered` is the exact condition.

## Assumptions

`dispatch`, `update` and `receive` are atomic steps and callbacks do not re-enter the object (the code has no lock). The
clock is an input in microseconds, read once for each packet that is sent, each reception and each clean-up. Bytes
reach the port between steps, before a channel sample, or in the response window. In the two-node system the receiver
calls `receive` at any time, also while the sender waits for a response, and bytes of others reach either node at any
time, between two packets of one update as well. The one assumption is that an ACK at the front of the response window is
the receiver's answer to a frame equal to the one sent; answers to earlier frames, and anything else, come outside the
window or are no ACK. `LateAnswers` weakens it to: an ACK there is one of the receiver's answers, each read at most once.
The receiver only receives. A step that raises ends a run, as it ends the update thread of
pjon_python/base_client.py.

## Model

| member | source | states |
|---|---|---|
| Crc8.AddToCRC | pjon_python/utils/crc8.py:27-37 | for every integer, negative ones included, the eight-turn loop on the pair (byte, register) is eight clocks of the shift register on their xor |
| Crc8.NegativeByte | pjon_python/utils/crc8.py:29-30 | lifting a negative byte by 256 keeps its low eight bits |
| Crc8.CalcCrcForByteArray | pjon_python/utils/crc8.py:7-11 | the running loop leaves the checksum of the whole array |
| CrcAlgebra.TableBijection | pjon_python/utils/crc8.py:31-36 | one byte's effect on the register is xor-linear, injective and onto |
| CrcAlgebra.CrcLinear | pjon_python/utils/crc8.py:7-11 | the checksum of two equally long messages xored is the xor of their checksums |
| CrcAlgebra.CrcResidue | pjon_python/utils/crc8.py:7-11 | a message followed by a byte has checksum zero if and only if that byte is the message's checksum |
| CrcAlgebra.CrcIsBitSerial | pjon_python/utils/crc8.py:7-11 | the byte-wise checksum is the bit-serial division, low bit of each byte first, for messages of every length |
| CrcAlgebra.CrcParity | pjon_python/utils/crc8.py:27-37 | the parity of the checksum is the parity of all message bits |
| CrcAlgebra.BurstDetected | pjon_python/utils/crc8.py:27-37 | an error within eight consecutive serial bits has a non-zero checksum |
| CrcAlgebra.OrderIs127 | pjon_python/utils/crc8.py:31-36 | a single one in the register returns after exactly the multiples of 127 clocks |
| CrcAlgebra.TwoBitLaw | pjon_python/utils/crc8.py:27-37 | two flipped bits go unseen if and only if their serial distance is a multiple of 127 |
| CrcAlgebra.ErrorUnseen | pjon_python/utils/crc8.py:7-11 | an error keeps a message's checksum if and only if the error's own checksum is zero |
| CrcHex.CalcCrcForHexString | pjon_python/utils/crc8.py:14-24 | prints the checksum of the decoded bytes; fails on what is not hexadecimal |
| CrcHex.CheckIsResidue | pjon_python/utils/crc8.py:40-46 | `check` is true if and only if the decoded message has checksum zero |
| CrcHex.CheckIsLastByte | pjon_python/utils/crc8.py:40-46 | for non-empty input, if and only if its last byte is the checksum of those before it |
| CrcHex.HexLaw | pjon_python/utils/crc8.py:24 | hex() of every byte is the prefix and its lower-case digits without a leading zero |
| CrcHex.HexDigitLaw | pjon_python/utils/crc8.py:17-19 | a digit of either case is worth its place among the sixteen, and nothing else is a digit |
| CrcHex.DecodeLaw | pjon_python/utils/crc8.py:17-20 | exactly texts of an even number of hexadecimal digits are decoded, two digits a byte |
| CrcHex.PaddedIsTwoDigits | pjon_python/utils/crc8.py:51 | splitting at x and padding gives two digits for every byte, those below 16 included |
| CrcHex.AppendChecks | pjon_python/utils/crc8.py:49-52 | what `append` returns is the message and two more digits, and passes `check` |
| Frames.Receive | pjon_python/protocol/pjon_protocol.py:262-305 | every call ends within 49 bytes, never reads past the input, and takes at least one byte if there is one |
| Frames.CompletePackets | pjon_python/protocol/pjon_protocol.py:300-346 | a complete local packet to this device is read to its length and answered with ACK, the answer byte and the delivery of its bytes if its checksum is right, else with NAK 21 alone |
| Frames.IncompletePackets | pjon_python/protocol/pjon_protocol.py:265-287 | anything else is BUSY 666 after one foreign byte or a shared header, or FAIL 256 after a bad length or when the input runs dry |
| Frames.FrameFields | pjon_python/protocol/pjon_protocol.py:370-399 | each field of an emitted frame stands where `receive` and `get_packet_info` look for it, and the length byte is the frame's length |
| Frames.FrameSealed | pjon_python/protocol/pjon_protocol.py:366-399 | the last byte emitted is the checksum of all others |
| Frames.ReceiveFrame | pjon_python/protocol/pjon_protocol.py:253-341 | an emitted frame of receivable length is accepted whatever follows it, with recipient, header, sender and payload recovered |
| Frames.AcceptedIsFrame | pjon_python/protocol/pjon_protocol.py:304-341 | whatever is accepted is byte for byte the frame `send_string` emits for the decoded fields |
| Streams.ReceptionDiscipline | pjon_python/protocol/pjon_protocol.py:300-346 | ACK and NAK read exactly the declared length; only ACK delivers; an answer goes out if and only if the packet is accepted, asks for one and is no broadcast |
| Streams.ReceptionIsLocal | pjon_python/protocol/pjon_protocol.py:262-302 | a call that does not run dry is unaffected by the bytes after those it read |
| Streams.FramesPrefixFree | pjon_python/protocol/pjon_protocol.py:370-399 | no frame is a proper prefix of another, and equal frames carry equal fields |
| Streams.AcceptedFrame | pjon_python/protocol/pjon_protocol.py:253-341 | a frame that is accepted at all is addressed, of receivable length, read to its last byte and delivered with its own fields |
| Streams.AcceptedExactly | pjon_python/protocol/pjon_protocol.py:253-341 | a call returns ACK if and only if the input starts with a receivable frame addressed to the device |
| Streams.IdleCall | pjon_python/protocol/pjon_protocol.py:262-302 | on bytes that are idle by themselves a call ends within them, delivers and answers nothing and leaves idle bytes, whatever follows |
| Streams.SkipIdle | pjon_python/protocol/pjon_protocol.py:253-346 | idle bytes do not affect what is delivered after them |
| Streams.Disturbs | pjon_python/protocol/pjon_protocol.py:253-346 | any other bytes do, for some continuation |
| Streams.StreamDecoding | pjon_python/protocol/pjon_protocol.py:253-341 | repeated calls turn any concatenation of separable frames into exactly the taken ones, in order, each once, whatever follows |
| Streams.SeparableExactly | pjon_python/protocol/pjon_protocol.py:253-341 | a frame is decoded as it should be in front of every continuation if and only if it is separable |
| Streams.DeliveredFits | pjon_python/protocol/pjon_protocol.py:274-304 | a delivery is never longer than the bytes it came from, nor shorter than five |
| Streams.UnreceivableIsLost | pjon_python/protocol/pjon_protocol.py:274-325 | no byte stream ever delivers a message of shared mode or unreceivable length |
| Streams.EmbeddedFramesAreDelivered | pjon_python/protocol/pjon_protocol.py:270-272 | without separability the filter leaks: a foreign frame hands over all the addressed frames it carries |
| Streams.QuietStream | pjon_python/protocol/pjon_protocol.py:270-272 | frames that are taken or mention neither the device's id nor the broadcast address are separable and are decoded with no failure code |
| Streams.Damaged | pjon_python/protocol/pjon_protocol.py:270-308 | input with any errors in it is accepted if and only if what it then says is addressed, local, of a valid length and in reach, and the intact bytes up to that length have the checksum of the errors up to it |
| Streams.DamagedFrame | pjon_python/protocol/pjon_protocol.py:300-346 | any frame with its length byte intact is accepted after damage if and only if its length is receivable, its recipient byte still addresses the device, its header is local, and the error has checksum zero |
| Streams.DamageIsDetected | pjon_python/protocol/pjon_protocol.py:300-346 | any frame hit outside its length byte by an odd number of flips, a burst of at most eight bits, or two flips at a distance that is no multiple of 127 is never accepted, delivered or answered |
| Streams.DamagedLength | pjon_python/protocol/pjon_protocol.py:274-308 | with any wrong length byte and any continuation, the input is accepted if and only if the frame is addressed and local, the new length is valid and in reach, and the intact bytes up to it have the checksum of the error in the length byte alone |
| Streams.DamagedLengthIsAccepted | pjon_python/protocol/pjon_protocol.py:274-279 | a family that meets the condition: a payload that spells a shorter message and its checksum |
| Cleanup.WalkSettles | pjon_python/protocol/pjon_protocol.py:532-580 | one walk of the code is the first walk of the right-to-left settlement, or all of it when it deletes nothing, down to the order of events |
| Cleanup.FateAfter | pjon_python/protocol/pjon_protocol.py:550-576 | a packet that stays in one walk meets in the remaining walks the fate it would have met with one more |
| Cleanup.SettleConserves | pjon_python/protocol/pjon_protocol.py:532-580 | kept and removed packets together are the queue, each once, and there is one walk more than deletions |
| Cleanup.EveryFate | pjon_python/protocol/pjon_protocol.py:532-580 | every packet meets the fate that its own fields and the deletions behind it decide |
| Cleanup.CleanUpLaw | pjon_python/protocol/pjon_protocol.py:532-580 | in numbers: with D packets removed behind it, a packet in state 6 is removed or, with a timing, registered anew at the clean-up's clock; one in state 256 gets attempts + 1 + D, or past 125 is adopted if its integer content starts with 63, else reported lost and removed or registered anew; any other is unchanged |
| Cleanup.RescheduledAnew | pjon_python/protocol/pjon_protocol.py:544-576 | a kept packet that is to be sent was so before and is unchanged, or has a timing, no attempts and the clean-up's clock as registration |
| Cleanup.KeptFrom | pjon_python/protocol/pjon_protocol.py:532-580 | every kept packet is such a survival |
| Cleanup.EventFrom | pjon_python/protocol/pjon_protocol.py:532-580 | every removal or error call is such an end or restart |
| Cleanup.SettleOrdered | pjon_python/protocol/pjon_protocol.py:532-580 | deletions keep the queue in dispatch order without repetition |
| Cleanup.LoopSettles | pjon_python/protocol/pjon_protocol.py:532-580 | the restarting loop ends with the queue and the events of the settlement wherever that exists |
| Cleanup.LoopConserves | pjon_python/protocol/pjon_protocol.py:532-580 | also a clean-up that raises loses no packet, removes none twice and keeps the order |
| Cleanup.WalkFaultsAt | pjon_python/protocol/pjon_protocol.py:550-553 | a walk that raises stops at a packet without content, one attempt past 125, and leaves those behind it alone |
| Nodes.HeaderBits | pjon_python/protocol/pjon_protocol.py:477-510 | the configured header has exactly the configured bits, and an overridden one exactly the bits of the arguments |
| Nodes.AddressAfterAppend | pjon_python/protocol/pjon_protocol.py:553-561 | the address after successive histories is the one after their concatenation |
| Nodes.AdoptionTakesAddress | pjon_python/protocol/pjon_protocol.py:555 | an adoption gives the device the packet's address, and no other event changes it |
| Nodes.StoredAreLast | pjon_python/protocol/pjon_protocol.py:333-339 | the stored packets are the last 32 delivered, or all if fewer |
| Runs.TransmitKeeps | pjon_python/protocol/pjon_protocol.py:514-530 | one packet's turn to be sent keeps the books, the failure count and the pacing |
| Runs.CleanUpKeeps | pjon_python/protocol/pjon_protocol.py:532-580 | the clean-up restores the invariant: at most as many failures as attempts, no acknowledged packet left |
| Runs.DispatchKeeps | pjon_python/protocol/pjon_protocol.py:437-475 | a dispatch, accepted or refused, keeps the invariant |
| Runs.NextKeeps | pjon_python/protocol/pjon_protocol.py:253-582 | so does every step |
| Runs.RunsKeep | pjon_python/protocol/pjon_protocol.py:253-582 | in every state of every run: packet states are TO_BE_SENT, BUSY or FAIL; attempts stay within MAX_ATTEMPTS and the queue within MAX_PACKETS + 1; the queue is a subsequence of the accepted packets; every verdict rests on a transmission |
| Guarantees.OneFate | pjon_python/protocol/pjon_protocol.py:454-582 | in every run an accepted packet is queued or was removed by exactly one event, with its own recipient |
| Guarantees.UpdatedConserves | pjon_python/protocol/pjon_protocol.py:512-582 | the same books hold after an update that raises |
| Guarantees.LostOnce | pjon_python/protocol/pjon_protocol.py:562-572 | in every run a one-shot packet is lost exactly as often as it is exhausted: at most once, and never while it is queued |
| Reports.CallsAreCounted | pjon_python/protocol/pjon_protocol.py:473-563 | each loss of a packet makes one error call with code 101 and its device, each refusal for a full queue one with code 102 and 128 |
| Reports.CallsAreReports | pjon_python/protocol/pjon_protocol.py:473-563 | and there are no other error calls |
| Reports.CallsAreInOrder | pjon_python/protocol/pjon_protocol.py:473-563 | what happened later is reported later |
| Reports.LossesAreReported | pjon_python/protocol/pjon_protocol.py:562-576 | in every run the calls with code 101 for a device are as many as the packets to it that were exhausted and the times one with a timing was given up |
| Guarantees.RetryBound | pjon_python/protocol/pjon_protocol.py:550-572 | in every run at most MAX_ATTEMPTS + 1 transmissions of a one-shot packet fail; while it is queued, no more than its attempts |
| Guarantees.PacedInRuns | pjon_python/protocol/pjon_protocol.py:520-527 | in every run a transmission of a one-shot packet after k failed ones happens at least k cubed milliseconds after its registration |
| Registration.AcceptedBy | pjon_python/protocol/pjon_protocol.py:454-470 | in every run each accepted packet is the one requested by some dispatch: its recipient, payload, header, sender and timing, given or default, and its registration at the time of that call |
| Registration.BackOff | pjon_python/protocol/pjon_protocol.py:454-527 | so a one-shot packet that has failed k times is not sent before k cubed milliseconds have passed since the call that dispatched it |
| Sending.NotDueWaits | pjon_python/protocol/pjon_protocol.py:520-530 | a packet whose timing and cube of attempts have not passed since its registration is left as it is, and nothing is sent |
| Sending.OccupiedIsBusy | pjon_python/protocol/pjon_protocol.py:362-364 | a due packet on an occupied channel becomes BUSY, and nothing is sent |
| Sending.DueIsSent | pjon_python/protocol/pjon_protocol.py:366-432 | a due packet on a free channel is sent: its frame is written and logged, and its state is ACK if it asks nobody or the first byte in the window is 6, FAIL if none came, else BUSY |
| Sending.NobodyIsNeverLost | pjon_python/protocol/pjon_protocol.py:401-407 | in every run a packet that asks nobody for an answer only ever has transmissions with ACK, and is never reported lost or adopted |
| Sending.TurnsInOrder | pjon_python/protocol/pjon_protocol.py:514-530 | one update transmits in dispatch order, each packet at most once |
| Sending.ReceptionQuietens | pjon_python/strategies/pjon_hwserial_strategy.py:38-43 | in every run, as long as the clock does not go back, nothing is sent within 100 microseconds after a reception that has read a byte |
| Pacing.LastRegistered | pjon_python/protocol/pjon_protocol.py:544-576 | in every run each queued packet was dispatched or rescheduled last in some state, and its attempts cover the failures since |
| Pacing.Paces | pjon_python/protocol/pjon_protocol.py:520-530 | in every run every transmission of any packet happens no earlier than its timing and the cube of its failures since its last registration after that registration |
| Registration.Origin | pjon_python/protocol/pjon_protocol.py:454-576 | in every run the registration of a packet that is to be sent is the clock of the dispatch that accepted it or, with a timing, of the update that rescheduled it, and it was not sent since |
| Registration.PacesFromClock | pjon_python/protocol/pjon_protocol.py:454-576 | so every transmission waits for timing and cube of failures counted from that clock |
| Registration.AcknowledgedStartsAnew | pjon_python/protocol/pjon_protocol.py:535-548 | a packet that is sent again after a transmission that was acknowledged has a timing, and waits at least for it from the clock of an update no earlier than the acknowledged one |
| Guarantees.Progress | pjon_python/protocol/pjon_protocol.py:514-580 | an update that leaves a packet failed has counted at least one attempt against it |
| Guarantees.AttemptsCountUpdates | pjon_python/protocol/pjon_protocol.py:514-580 | a packet that is fresh or failed in every state of a stretch has an attempt counted for every update in it |
| Registration.UnansweredEnds | pjon_python/protocol/pjon_protocol.py:514-580 | a one-shot packet whose turns find the channel free and whose logged transmissions all have code FAIL survives at most 125 updates, whatever the clock readings, as long as none is before its registration |
| Guarantees.RaisesExactly | pjon_python/protocol/pjon_protocol.py:550-553 | the clean-up raises if and only if some packet without content is taken past its attempts |
| Guarantees.ContentNeverRaises | pjon_python/protocol/pjon_protocol.py:512-582 | with content in every packet no update raises |
| Guarantees.LostAfterOneTry | pjon_python/protocol/pjon_protocol.py:532-572 | in one clean-up a failed packet in front of acknowledged ones is reported lost if and only if its attempts and their number reach MAX_ATTEMPTS |
| Witnesses.LostAfterOneTransmission | pjon_python/protocol/pjon_protocol.py:532-572 | a run from a new node in which a packet is reported lost in the only update, one failed transmission after its dispatch |
| Witnesses.ContentlessRaises | pjon_python/protocol/pjon_protocol.py:553 | a run from a new node after which `update` raises |
| Guarantees.DispatchAnswer | pjon_python/protocol/pjon_protocol.py:437-489 | an accepted packet is the requested one in every field, registered at the time of the call, and its index is the last of the queue and never the FAIL code; a refusal changes nothing but that a full queue is reported |
| Guarantees.AcknowledgedIsGone | pjon_python/protocol/pjon_protocol.py:535-543 | in every run a packet removed as acknowledged is gone from the queue and had a transmission that returned ACK |
| WireLog.RunsAccount | pjon_python/protocol/pjon_protocol.py:253-530 | in every run the bytes written are the frames of the logged transmissions, with the accepted fields and in order, and one answer for each delivery that asks for one |
| WireLog.TurnWrites | pjon_python/protocol/pjon_protocol.py:362-399 | a packet's turn writes its whole frame and is logged, or writes nothing |
| WireLog.AnswerMatches | pjon_python/protocol/pjon_protocol.py:308-325 | a reception answers if and only if its delivery's own header and recipient ask for it |
| WireLog.AddressFollowsEvents | pjon_python/protocol/pjon_protocol.py:553-561 | the device address changes by adoption alone |
| SerialStrategy.Strategy.CanStart | pjon_python/strategies/pjon_hwserial_strategy.py:38-43 | true if and only if no byte waits and the channel has been clear for long enough |
| SerialStrategy.Strategy.SendByte | pjon_python/strategies/pjon_hwserial_strategy.py:45-65 | appends one byte to what was written |
| SerialStrategy.WaitLaw | pjon_python/strategies/pjon_hwserial_strategy.py:73-107 | waiting fails and changes nothing if and only if no byte waits or arrives before the time is up, and otherwise takes the first byte at the first poll that finds any, leaves the others and notes the clock of that poll |
| SerialStrategy.Strategy.ReceiveByte | pjon_python/strategies/pjon_hwserial_strategy.py:67-107 | takes the last byte of the read buffer if there is one; otherwise the polling loop does what waiting does with its 10 ms or 500 ms, notes the time of a byte, and reports the out-of-band failure when none comes |
| SerialStrategy.Strategy.ReceiveResponse | pjon_python/strategies/pjon_hwserial_strategy.py:109-110 | a byte read with the longer waiting time |
| SerialStrategy.Strategy.SendResponse | pjon_python/strategies/pjon_hwserial_strategy.py:112-113 | writes the answer |
| Protocol.OutgoingPacket.constructor | pjon_python/protocol/pjon_protocol.py:455-467 | a new packet is to be sent, with no attempts |
| Protocol.PjonProtocol.constructor | pjon_python/protocol/pjon_protocol.py:130-156 | starts with empty buffers, acknowledge and sender info on |
| Protocol.ComputeCrc8ForByte | pjon_python/protocol/pjon_protocol.py:162-169 | folds one byte into the checksum |
| Protocol.PjonProtocol.SetAcknowledge | pjon_python/protocol/pjon_protocol.py:217-218 | changes that flag only |
| Protocol.PjonProtocol.SetSenderInfo | pjon_python/protocol/pjon_protocol.py:220-221 | changes that flag only |
| Protocol.PjonProtocol.GetHeaderFromInternalConfig | pjon_python/protocol/pjon_protocol.py:477-489 | the header `Nodes.HeaderBits` speaks of |
| Protocol.PjonProtocol.Dispatch | pjon_python/protocol/pjon_protocol.py:437-475 | takes the dispatch step of the runs; only new objects enter the queue |
| Protocol.PjonProtocol.SendString | pjon_python/protocol/pjon_protocol.py:348-432 | takes the sending step: BUSY and nothing written on an occupied channel, otherwise the whole frame and the code its response stands for |
| Protocol.PjonProtocol.EmitFrame | pjon_python/protocol/pjon_protocol.py:366-399 | the byte-by-byte emission with its running checksum writes exactly the frame |
| Protocol.PjonProtocol.ReceiveTurn | pjon_python/protocol/pjon_protocol.py:262-302 | one turn of the loop reads one byte and keeps the running checksum, or stops where the closed form does |
| Protocol.PjonProtocol.AssemblePacket | pjon_python/protocol/pjon_protocol.py:254-304 | the loop ends with the closed form's code and consumption, or with the packet and the checksum of its body |
| Protocol.JudgeSound | pjon_python/protocol/pjon_protocol.py:270-301 | each decision of the loop agrees with the closed form for the whole input |
| Protocol.PjonProtocol.AcceptPacket | pjon_python/protocol/pjon_protocol.py:308-339 | answers if due and delivers payload, length and packet info |
| Protocol.PjonProtocol.Deliver | pjon_python/protocol/pjon_protocol.py:329-339 | one receiver call; the stored packets remain the last 32 delivered, in order |
| Protocol.StoredPush | pjon_python/protocol/pjon_protocol.py:335-339 | appending and trimming keeps exactly the last ones of all deliveries |
| Protocol.PjonProtocol.Receive | pjon_python/protocol/pjon_protocol.py:253-346 | takes the reception step of the runs |
| Protocol.PjonProtocol.TransmitPacket | pjon_python/protocol/pjon_protocol.py:514-530 | one packet's turn: the back-off, the transmission, the new state of that packet alone |
| Protocol.PjonProtocol.TransmitAll | pjon_python/protocol/pjon_protocol.py:514-530 | every packet has its turn in queue order |
| Protocol.WithoutOne | pjon_python/protocol/pjon_protocol.py:540 | filtering by identity takes exactly the one packet from its position |
| Protocol.PjonProtocol.VisitQueued | pjon_python/protocol/pjon_protocol.py:535-576 | a visit changes or removes the visited packet only, and makes its error call |
| Protocol.PjonProtocol.WalkOnce | pjon_python/protocol/pjon_protocol.py:534-576 | the inner loop up to the break, or up to the exception, is one walk, in queue, events and address |
| Protocol.PjonProtocol.CleanUp | pjon_python/protocol/pjon_protocol.py:532-580 | the outer loop ends; it leaves what the loop of walks leaves, returning or raising, and raises if and only if the settlement faults |
| Protocol.PjonProtocol.Update | pjon_python/protocol/pjon_protocol.py:512-582 | leaves the whole object as specified whether it returns or raises; if it returns, it has taken the update step of the runs and yields the length of the queue |
| Handshake.FirstByteDecides | pjon_python/protocol/pjon_protocol.py:413-432 | a transmission that waits for an answer ends in ACK if and only if the first byte in the response window is an ACK, whoever sent it, and in FAIL if and only if none came |
| Handshake.AnswerBacks | pjon_python/protocol/pjon_protocol.py:308-332 | a receiver that answers the frame at the front of its input, whatever follows it, delivers exactly that frame's fields |
| Handshake.TurnCredits | pjon_python/protocol/pjon_protocol.py:514-530 | a packet's turn credits no packet but its own, and that only with an ACK at the front of the window |
| Handshake.AnsweredTruthful | pjon_python/protocol/pjon_protocol.py:362-432 | an exchange in which the receiver, after any receptions before, answers the frame adds the delivery that the verdict stands for |
| Handshake.UnansweredTruthful | pjon_python/protocol/pjon_protocol.py:362-432 | any other exchange credits nothing that waits for an answer |
| Handshake.CleanUpCredits | pjon_python/protocol/pjon_protocol.py:535-548 | the clean-up removes as acknowledged only what was answered |
| Handshake.MoveKeeps | pjon_python/protocol/pjon_protocol.py:253-582 | every move of the two-node system keeps verdicts backed, frames heard within transmissions and deliveries within the bytes heard |
| Handshake.HistoryKeeps | pjon_python/protocol/pjon_protocol.py:253-582 | so in every state of every history |
| Handshake.AcknowledgementsAreBacked | pjon_python/protocol/pjon_protocol.py:403-418 | in every history the deliveries that the acknowledged packets stand for, counted with multiplicity, are among the receiver's deliveries |
| Handshake.AcknowledgedWasDelivered | pjon_python/protocol/pjon_protocol.py:403-418 | so each packet that asked for an answer and was removed as acknowledged was delivered with its recipient, payload and sender |
| Witnesses.AcknowledgedAfterForeign | pjon_python/protocol/pjon_protocol.py:512-543 | a history in which an update first sends to another device, whose frame reaches the receiver too, and its next packet is answered and acknowledged |
| Handshake.DeliveriesAreCovered | pjon_python/protocol/pjon_protocol.py:253-341 | in every history the lengths of all deliveries and the bytes still in the input sum to no more than the bytes heard |
| Handshake.HistoryInStep | pjon_python/protocol/pjon_protocol.py:253-341 | if the frames that reached the receiver are separable and the bytes of others idle, its input is always the idle rest of what it is skipping and whole pieces yet to be read |
| Handshake.DeliveredIsHeard | pjon_python/protocol/pjon_protocol.py:253-341 | then what was delivered followed by what is still to be decoded is the messages heard and taken, in order, each once; never more deliveries than transmissions |
| Witnesses.DeliveriesCanExceedTransmissions | pjon_python/protocol/pjon_protocol.py:270-272 | without separable messages a history can make two deliveries of one transmission |
| LateAnswers.CreditsWithinAnswers | pjon_python/protocol/pjon_protocol.py:308-312 | with the receiver's answers read in any window, in every history the acknowledged packets that asked for an answer are no more than the deliveries answered |
| LateAnswers.AcknowledgedUndelivered | pjon_python/protocol/pjon_protocol.py:413-418 | then a history in which only the two nodes write acknowledges a packet that was never heard |
| Bus.Serial.Write | pjon_python/utils/fakeserial.py:67-71 | publishes one message under the client's own id |
| Bus.Serial.UpdateInputQueue | pjon_python/utils/fakeserial.py:73-80 | the loop fetches everything published, and appends all of it but the client's own |
| Bus.Serial.Read | pjon_python/utils/fakeserial.py:82-86 | returns and removes a prefix of what is there after fetching |
| Bus.Serial.InWaiting | pjon_python/utils/fakeserial.py:88-90 | counts what is there after fetching |
| Bus.Serial.FlushInput | pjon_python/utils/fakeserial.py:95-97 | takes out all that is there after fetching |
| Bus.ReadTakes | pjon_python/utils/fakeserial.py:82-86 | a read fetches all that is published and takes as many bytes as asked for from its front, or all if there are fewer |
| Bus.ForeignAppend | pjon_python/utils/fakeserial.py:73-80 | fetching in portions collects what fetching at once would |
| Bus.ActKeeps | pjon_python/utils/fakeserial.py:67-90 | an action of one client keeps the accounts of all |
| Bus.NothingLostNothingOwn | pjon_python/utils/fakeserial.py:67-90 | in every interleaving, what a client has read, what it holds and what it has not fetched are the bytes the others wrote since it connected, in order |
| Text.LastPiece | pjon_python/wrapper_client.py:408 | the last piece of a split begins behind the last occurrence of the key |
| Text.ParseDecimal | pjon_python/wrapper_client.py:386 | int() of a printed number is the number |
| Text.ParseSigned | pjon_python/wrapper_client.py:372 | int() reads a sign |
| Text.StripLaw | pjon_python/wrapper_client.py:321 | strip() takes off exactly the whitespace around a text |
| Piper.FieldFound | pjon_python/wrapper_client.py:384-404 | a field is found by its key if no later name ends in that key and the payload does not contain it |
| Piper.PayloadFound | pjon_python/wrapper_client.py:406-408 | the extracted payload is the printed one behind its last `data=`, and has its text or its length if and only if there is none |
| Piper.ParseDotted | pjon_python/wrapper_client.py:388-391 | a printed dotted address is parsed to its numbers |
| Piper.LastInside | pjon_python/wrapper_client.py:384-408 | a key that the payload mentions is found in the payload, at its last mention |
| Piper.FieldsExtracted | pjon_python/wrapper_client.py:410-419 | for every payload, each field is read from the payload's last mention of its key, or from the line if there is none |
| Piper.LineLaw | pjon_python/wrapper_client.py:318-333 | for every payload, the line is received as its fields are read back from it without trailing whitespace if the length read is that of the payload read, and is ignored otherwise |
| Piper.LineIsDelivered | pjon_python/wrapper_client.py:318-333 | a packet whose line is handed over whole is delivered as printed if and only if its payload has no `data=`, does not end in whitespace, and for each of the five keys it mentions has the printed value behind the last mention |
| Piper.SenderFromPayload | pjon_python/wrapper_client.py:385-386 | a payload that spells a sender id is delivered under that id |
| Piper.LengthFromPayload | pjon_python/wrapper_client.py:327-333 | a payload that spells a wrong length is ignored |
| Piper.ErrorIsReported | pjon_python/wrapper_client.py:342-376 | an error line is reported with its code and its data |
| Piper.OthersAreIgnored | pjon_python/wrapper_client.py:320-346 | lines of another kind and lines of at most one character make no call |
| Piper.PrintedIsHandled | pjon_python/wrapper_client.py:325-340 | a printed packet whose fields can be read resets the watchdog, with a right length or not, unless the receiver function raises; only an error that is no ValueError ends the loop |
| Piper.AllLinesTaken | pjon_python/wrapper_client.py:306-354 | without a failed start and without such an error every line is handled, in order |
| Piper.ReceivedPacketsProcessor.HandleLine | pjon_python/wrapper_client.py:320-351 | one line leads to the receiver call, error call and watchdog reset it should, also when the application's function raises |
| Piper.ReceivedPacketsProcessor.Run | pjon_python/wrapper_client.py:306-359 | the loop handles the lines in order up to a stop or an error that breaks it off, and stops thread and client exactly when it meets the failed start of the client |
| PiperOutput.AttachQueueToStdout | pjon_python/wrapper_client.py:580-589 | the loop queues every line of the printed text, stripped, in order |
| PiperOutput.UnbrokenText | pjon_python/wrapper_client.py:580-589 | a packet whose payload has no line break is queued as one line and makes the receipts of that line, whatever is printed after it |
| PiperOutput.NothingBrokenReceived | pjon_python/wrapper_client.py:580-589 | no text is ever received as a packet with a line break in its payload |
| PiperOutput.PrintedIsDelivered | pjon_python/wrapper_client.py:318-333 | the text printed for a packet is received as exactly that packet if and only if its payload has no line break and survives the line |
| PiperOutput.AllAreDelivered | pjon_python/wrapper_client.py:318-333 | any number of such packets are received as printed, in order, each once |
| PiperOutput.LineInPayload | pjon_python/wrapper_client.py:586-589 | a payload that breaks the line and goes on with a packet line is received as that packet |

## Left out

- Guarantees.PacedInRuns: speaks of one-shot packets, whose registration never changes; `Pacing.Paces` and `Registration.PacesFromClock` speak of all.
- Handshake.DeliveredIsHeard: asks the frames that reached the receiver to be separable and the bytes of others idle; the other results about histories do without.
- Piper.ReceivedPacketsProcessor.Run: any error of the application's function but a ValueError ends the thread; the locking of the queue is left out.
- PiperOutput.AttachQueueToStdout: takes the printed text as given; the stop flags and a pipe that breaks are left out.
- Bus.Serial.Read: a `listen` that finds a message returns it at once; its timeout and the Redis transport are left out.
- Protocol.PjonProtocol.Receive: takes the bytes that arrive in time as waiting in the port when the call begins, so each of its byte reads needs one poll.
- Shared-bus mode: `dispatch` raises NotImplementedError and `bus_id_equality` is a stub, so `shared` is fixed to False, and with it the bus-id defaults of `PacketInfo`.
- Router and SIMPLEX mode: `set_router` always ends in False and nothing sets the mode.
- The NAK answer of `receive` and the NAK result of `send_string`: unreachable as written.
- The random delay after a bad response and the Python 3 error that its non-integer bound causes there; the model follows Python 2.
- Payload types: bytes are 8-bit vectors, a flag keeps apart integers and characters where `content[0]` is compared with 63, and the TypeErrors for other types are left out.
- `send_string` called directly with a length argument, with None, or with a frame longer than its length byte can tell.
- `auto_delete` and `store_packets` switched off, other buffer sizes, and other values of the constants.
- Floating-point time: the clock is in integer microseconds and the cube is exact.
- Logging, `PjonPiperClient`, `WatchDog` but for its line reader, the Redis client, port discovery, real ports, `flushOutput`, and the Arduino sketches.
- int() of underscores and of non-ASCII digits, and whitespace beyond the six ASCII characters.
