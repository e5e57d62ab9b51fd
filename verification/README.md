# Serial file transfer, verified

A Dafny model of the modem library's three protocol engines (XMODEM, YMODEM, ZMODEM), its firmware
digest, its NFC transport, its run-length decoder and its log rotation, with proofs of what each of
them promises. `dafny verify dfyconfig.toml` checks the whole project.

## How the C code is modelled

- **The line.** `read_byte` draws from a finite script of events (`Byte`, `Timeout` for -1, `Cancel`
  for -2) that is followed by silence; `write_bytes` appends to the bytes sent; the storage callbacks
  are recorded in order (`Serial.World`, and the mutable `Serial.Port`). In the round-based results the two
  ends take turns: what one sends in a round, if it arrives, arrives before the other gives up waiting.
- **The engines.** Each C function is a method with the source's loops, buffers and early returns. Its
  `ensures` ties the port it leaves behind and its status to a function of the port it found
  (`Receive`, `Transmit`): one step for every point where the C code waits, run over the script. Those
  functions say of every script whether the C code returns on it, and what it then leaves. The lemmas
  speak about these functions.
- **The CRCs.** Zephyr's CRC-16 and CRC-32 are a parameter: an arbitrary step function folded over the
  bytes from the seed the code uses. The results hold for each of them. Where the header
  (`src/crc.h:39`) says the CRC-16 starts from 0x0000, the code (`src/crc.h:48`) starts from 0xFFFF, and
  the model follows the code.
- **Machine integers.** Bytes are 0 to 255 and wrap where the source's `uint8_t` does: block numbers and
  retry counters in XMODEM, checksums, `size_t` in the YMODEM length subtraction. The digest register
  is a 32-bit vector.

## The main results

- **XMODEM.** Run against each other over a line that loses, damages (detectably) or delivers each
  packet and each reply, the receiver always holds a prefix of the blocks, each once, despite block
  numbers wrapping at 256, and is never more than one block ahead (`XmodemDelivery.DeliveredIsPrefix`).
  If the transmitter reports success, the whole file is there (`XmodemDelivery.SuccessDelivers`). All this
  holds for every combination of the modes at the two ends, 128 and 1024 byte blocks.
- **When an XMODEM transfer completes.** If faults do not outlast the retry limits the transmitter reports
  success, with exactly two exceptions (`XmodemFallback.CompletesExactlyWhen`). One is the loss of the
  receiver's reply to EOT, which is sent once: `XmodemFinalAck.FinalAckLossFails` shows such a run for
  every file. The other is mode 1K, the default: a receiver that falls back to checksums while the
  transmitter repeats its first block with a CRC never stores a block, not even over a perfect line. Which
  runs these are can be read off the faults alone (`XmodemCourse.CourseDecides`): j lost first blocks are
  survived if and only if j is at most max_retries / 2 (`XmodemFallback.LossesExactly`).
- **The rounds are runs of the C functions.** For every run of rounds there are two scripts, which bring
  just what the rounds deliver, on which the two C functions do what the rounds say (`XmodemRuns`); and
  for every file there are two byte strings that they send each other (`XmodemRuns.ClosedLoop`).
- **YMODEM.** Over a line that may lose or damage every packet and lose or alter every byte of a reply,
  where both functions are at any time, and what storage has been told, follows from the faults and the
  numbers of blocks (`YmodemDelivery.CourseDecides`). So it is known exactly when a batch arrives byte for
  byte, with names, sizes and offsets, files of size zero included (`YmodemDelivery.DeliveredExactlyWhen`),
  and which faults end the transmission (`YmodemFaults`); storage is never told anything that is not true
  of the batch (`YmodemDelivery.StorageToldTruly`). As runs of the C functions: every such run has scripts
  (`YmodemRuns.RunsDeliver`), and for every batch there are two byte strings that the two functions send
  each other, each given the other's (`YmodemRuns.ClosedLoop`).
- **Every engine on every input.** Whatever is on the line, each turn of the receivers and each answer to
  the transmitters has the effect that a table states in terms of the line and of what has been recorded,
  the reasons for every return included (`XmodemTurns.EveryTurn`, `XmodemTransmission.TransmitOnAnyInput`,
  `YmodemTurns.ReturnsBecause`, `YmodemTransmission.EveryAnswer`, `ZmodemTurns.ReceiveIsTurns`,
  `ZmodemTransmission.TransmitOnAnyReplies`). Each block or subpacket that a receiver passes to storage was
  on the line with a matching check, and each file that it ends with OK had its end marker there, in order
  and without overlap (`XmodemTrace.ReceiveOnAnyInput`, `YmodemChecked.StoredWasChecked`,
  `ZmodemChecked.StoredWasChecked`).
- **ZMODEM.** The stream the transmitter emits, fed to the receiver, gives back exactly the files if and
  only if none of them is empty (`ZmodemSession.StreamDelivered`): an empty file's ZDATA header is
  followed by no subpacket, which the receiver cannot read. Streams of any other sender, cut into subpackets
  and data frames in any way under 16-bit or 32-bit CRCs, are delivered whole
  (`ZmodemStreams.AnyStreamDelivered`). Run against each other on a FIFO link the two functions fail on their first file, because the receiver sends ZRINIT twice
  (`ZmodemSession.FifoLinkFails`, `ZmodemSession.FifoClosedLoop`).
- **Digest.** The register after any chunks is the one remainder of the seeded message modulo the
  reflected IEEE 802.3 generator, and two messages that differ only within four bytes always differ in it
  (`SignatureVerify.DigestIsRemainder`, `SignatureVerify.ShortBurstDetected`).
- **NFC.** Over every interleaving of its operations the transport is two bounded FIFO queues with exact
  byte accounts, provided each flush is given room for its record; without that room bytes are lost
  (`NfcHistory.TransportIsFifo`, `NfcHistory.FlushLoses`). The field state, every counter and the answer
  to every read and write follow from the operations alone (`NfcField`).
- **Decoder and log.** The bounded decoder writes a prefix of the unbounded decoding, and a byte string
  has an encoding at all exactly when each 0x90 in it is last or precedes a zero
  (`StreamDecompress.DecodableExactlyWhen`); an encoder that writes runs is undone by it
  (`StreamDecompress.RunsRoundTrip`). The log's packing bound and its tightness are
  `LogRotation.RotationBound` and `LogRotation.RotationBoundTight`.

## Model

| member | source | states |
|---|---|---|
| Serial.Port.PurgeInput | src/xmodem.c:35-43 | reads on up to and including the first read that fails, and nothing beyond it |
| Checks.FoldChains | src/crc.h:46-64 | a CRC continued over a second buffer is the CRC of both buffers together, for any CRC step |
| Checks.Checksum8 | src/crc.c:10-21 | the loop yields the sum of the bytes modulo 256 |
| Numerals.StrtoulDecimal | src/ymodem.c:58-70 | reading back a printed 64-bit size gives that size, whatever follows its terminator |
| Numerals.StrtoulReads | src/ymodem.c:58-70 | leading space and a plus sign are passed over, a minus sign negates modulo 2^64, numbers beyond 64 bits saturate |
| Numerals.SizeDigits | src/ymodem.c:323 | a 64-bit size prints in at most 20 digits, so name and size fit in Block 0 |
| XmodemFrames.FrameReads | src/xmodem.c:134-225 | a block written by the transmitter is accepted by the receiver with its number and payload, whatever follows, and no byte beyond it is read |
| XmodemFrames.AcceptedWasThere | src/xmodem.c:134-225 | the receiver accepts nothing else: the bytes read were exactly a well-formed block with matching complement and check |
| XmodemFrames.FrameLayout | src/xmodem.c:314-333 | a block byte by byte: SOH or STX, number, complement, payload, and the CRC from 0xFFFF, high byte first, or the sum modulo 256 |
| XmodemReceiver.XmodemReceive | src/xmodem.c:45-248 | wherever the C loop returns, its status, bytes sent, data_cb calls and unread input equal the run of the receiver's step function |
| XmodemTransmitter.XmodemTransmit | src/xmodem.c:250-370 | the same for the transmitter's three nested phases |
| XmodemTransmitter.TransmitReturnsExactlyWhen | src/xmodem.c:270-369 | the run function yields a return if and only if the transmitter's turns come to one |
| XmodemTransmitter.TransmitReturnsOnEveryScript | src/xmodem.c:270-286 | the transmitter returns on every finite script followed by silence if and only if max_retries is at most 254 |
| XmodemTransmission.TransmitOnAnyInput | src/xmodem.c:265-369 | on any input and after any number of answers the bytes written are the blocks begun, in order, each at most max_retries times, then EOTs or the CANs that belong to the return; just those blocks were fetched, and EOT is sent only where the file ends, with a length given or without |
| XmodemTransmission.EveryAnswer | src/xmodem.c:271-369 | ACK is the only way on and, to EOT, the only way to success; anything else repeats the packet as long as it may; CAN or a cancel request ends the transmission, the request to a block answered with CAN CAN |
| XmodemTrace.ReturnsExactlyWhen | src/xmodem.c:72-247 | the run function yields a return if and only if the receiver's turns come to one |
| XmodemTrace.ReturnsOnEveryScript | src/xmodem.c:72-247 | the receiver returns on every finite script followed by silence if and only if max_retries is at most 254 |
| XmodemTrace.ReceiveOnAnyInput | src/xmodem.c:134-246 | on any input, after any number of turns and for every max_retries, the stored blocks are numbered 1, 2, 3, ... modulo 256, each stored or repeated block was a correctly checked frame on the line, in order without overlap, and on success the total is the stored length and the ACKs are one for each stored block, one for each repeat and one for EOT |
| XmodemTurns.EveryTurn | src/xmodem.c:72-247 | on any input each turn stores the checked block with the number after the last stored one, only acknowledges the one before, asks again while neither comes, or returns: XMODEM_OK for EOT, CANCEL for CAN or a cancel request, SEQUENCE for any other checked block, IO when data_cb fails, TIMEOUT and ERROR when the idle turns since the last block exceed max_retries, each with just its bytes and calls |
| XmodemTurns.CallsNumbered | src/xmodem.c:227-246 | on any input a stored block has the number of the stored blocks before it plus one, and a repeated block just that number, modulo 256 |
| XmodemTurns.AbortedExactly | src/xmodem.c:134-225 | a block is given up for a cancel request exactly when one comes among its reads |
| XmodemLink.PlayKeepsInv | src/xmodem.c:227-356 | one lossy round keeps the two ends in step: an ACK on its way can only be for the block in flight, and the ends can disagree on the check only before the first block is stored |
| XmodemCourse.NeverFallsBack | src/xmodem.c:63-93 | in modes CRC and STANDARD the receiver never changes the check, whatever the line does |
| XmodemCourse.CourseDecides | src/xmodem.c:82-96 | from the faults of a run alone: the receiver keeps its first check if and only if none of its turns before the first stored block is silent after max_retries / 2 or more others, and the ends part if and only if such a turn loses the block the transmitter is repeating |
| XmodemLink.DamageDetectable | src/xmodem.c:179-225 | a block whose payload or check was altered so that they no longer match, and a stray byte, are damage of the kind the runs allow |
| XmodemDelivery.DeliveredIsPrefix | src/xmodem.c:227-246 | over every run of lossy rounds, in every combination of modes and with or without a fallback, the stored payloads are a prefix of the transmitter's blocks, and the delivered count is the acknowledged count or one more |
| XmodemDelivery.SuccessDelivers | src/xmodem.c:293-370 | if the transmitter returns XMODEM_OK so has the receiver, its total is the least multiple of the block size that holds the file, and the stored bytes are the file followed by 0x1A, each block stored once |
| XmodemDelivery.TransferCompletes | src/xmodem.c:314-369 | if fault streaks stay within the retry limits, the final ACK arrives and the ends do not part, n blocks are transferred after n + 3 good rounds (n + 2 if the handshake was heard) |
| XmodemDelivery.PerfectLine | src/xmodem.c:288-369 | without faults every file arrives in n + 2 rounds, in every combination of modes |
| XmodemFinalAck.LostFinalAck | src/xmodem.c:358-369 | a run in which an EOT arrives and the reply to it is lost never lets the transmitter return XMODEM_OK, whatever its other rounds bring |
| XmodemFinalAck.FinalAckLossFails | src/xmodem.c:98-105 | such a run for every file: n good rounds, an EOT answered in vain, and then anything; the receiver has returned XMODEM_OK with the whole file |
| XmodemFrames.CrcBlockRejected | src/xmodem.c:204-225 | a receiver in checksum mode rejects a block sent with a CRC unless its checksum happens to be the first CRC byte |
| XmodemFallback.FallbackStalls | src/xmodem.c:82-96 | once the ends have parted nothing is ever stored and neither end reports success, whatever the rounds bring |
| XmodemFallback.CompletesExactlyWhen | src/xmodem.c:72-369 | a run whose fault streaks stay within the retry limits, with enough good rounds, ends in XMODEM_OK if and only if the ends do not part and the reply to an EOT that arrives is not lost |
| XmodemFallback.LossesExactly | src/xmodem.c:89-93 | in mode 1K a heard handshake, j lost blocks and then enough good rounds end in XMODEM_OK if and only if j is at most max_retries / 2 |
| XmodemFallback.FallbackOnScripts | src/xmodem.c:72-369 | for every run that parts the ends there are scripts of both C functions, made of what the rounds bring, on which neither returns XMODEM_OK and nothing is stored |
| XmodemFallback.LossesOnScripts | src/xmodem.c:72-369 | such scripts for max_retries / 2 + 1 lost blocks and then a perfect line |
| XmodemFallback.ChanceMatchEnds | src/xmodem.c:204-225 | if a block's checksum happens to be the first byte of its CRC and the second is EOT, a receiver that has fallen back returns XMODEM_OK after that one block |
| XmodemScripts.TurnSegment | src/xmodem.c:72-247 | whatever arrives in a round, a piece of script that brings just those bytes makes the receiver take that turn inside any longer script |
| XmodemRuns.RoundsAreReceive | src/xmodem.c:72-247 | for every run of rounds there is a script, its bytes being in order the packets that arrive intact and the noise of damaged ones, on which xmodem_receive makes exactly the rounds' replies and calls and is then where the rounds leave it |
| XmodemRuns.AnswersSpell | src/xmodem.c:271-363 | the bytes of the transmitter's script are the receiver's bytes that were not lost, in order and up to those still unread |
| XmodemRuns.RoundsAreTransmit | src/xmodem.c:265-369 | on the answers of a run of rounds xmodem_transmit writes exactly the rounds' packets, fetches exactly their blocks and is then where they leave it |
| XmodemRuns.RunsDeliver | src/xmodem.c:45-370 | whenever the rounds end well, both C functions return XMODEM_OK on those scripts, each sending what the rounds say, with the padded file in storage |
| XmodemRuns.ClosedLoop | src/xmodem.c:45-370 | for every file and combination of modes there are two byte strings such that each function, given what the other sends, sends its own and returns XMODEM_OK, with the padded file in storage |
| YmodemBlock0.Block0RoundTrip | src/ymodem.c:42-71 | Block 0 parsed gives back the name (cut to 100 bytes) and the size it was printed from, for every NUL-free name and 64-bit size |
| YmodemBlock0.EndRecognised | src/ymodem.c:315-324 | the all-zero block and a file's block are never mistaken for one another |
| YmodemBlock0.Block0Layout | src/ymodem.c:315-324 | Block 0 byte by byte: at most 100 bytes of the name, NUL, the size in decimal, NULs up to 128 bytes |
| YmodemBlock0.BlockParses | src/ymodem.c:42-71 | of any peer's block the name up to the first NUL and the number in the first 31 bytes of the text up to the next one are taken |
| YmodemBlock0.UnterminatedName | src/ymodem.c:49-56 | a block without any NUL is all name, cut to 255 bytes |
| YmodemReceiver.YmodemReceive | src/ymodem.c:73-301 | status, bytes sent, storage calls and unread input of the C loops equal the run of the receiver's step function, on every script |
| YmodemTransmitter.YmodemTransmit | src/ymodem.c:303-429 | the same for the transmitter |
| YmodemTransmission.EveryAnswer | src/ymodem.c:311-428 | on any input each answer has just its effect: only 'C' starts a file, Block 0 and the 'C' after it are asked for once, block k + 1 holds the file from byte 1024 k on, padded with 0x1A, and is written up to ten times until ACK, NAK to EOT brings a second EOT, and OK is the ACK to the Block 0 that ends the batch |
| YmodemTransmission.TransmitIsTurns | src/ymodem.c:303-429 | ymodem_transmit returns where those answers lead |
| YmodemTrace.ReceiveOnAnyInput | src/ymodem.c:171-299 | on any input on_file_start and on_file_end alternate strictly, on_data comes only in between, with a whole block at the running offset and the length the announced size leaves for it, and every opened file is closed before the return |
| YmodemTurns.EveryTurn | src/ymodem.c:79-299 | on any input each turn takes the checked Block 0 or data block that comes next, acknowledges the last one again, asks again, ends a file after EOT, or returns, each with just its bytes and calls |
| YmodemTurns.ReturnsBecause | src/ymodem.c:79-299 | on any input OK is returned only for a checked Block 0 with an empty name and no file open, CANCEL exactly for a CAN or cancel request, and a return inside a file is a failure that ends the file with the status returned |
| YmodemChecked.StoredWasChecked | src/ymodem.c:115-289 | on any input, for each on_file_start the Block 0 with that name and size, for each on_data the block it is given, both with a matching CRC, and for each file ended with OK an EOT was on the line, in order and without overlap |
| YmodemTrace.LengthsOnAnyInput | src/ymodem.c:276-284 | on any input each length given to on_data stays within its block if and only if no size was announced or the blocks before it have not passed that size |
| YmodemTrace.LengthWraps | src/ymodem.c:278-284 | a peer that announces fewer than 128 bytes and sends two blocks makes on_data be told of 2^64 + size - 128 bytes, in every such run |
| YmodemTrace.WriteLengthWithinBlock | src/ymodem.c:276-284 | the length given to on_data stays within the block if and only if no size was announced or the blocks so far have not passed it |
| YmodemLink.NoiseHeard | src/ymodem.c:102-274 | a detectably damaged packet is answered as if the receiver had to ask again and changes nothing that storage is told, except that after a first EOT it ends the file |
| YmodemLink.DamageDetectable | src/ymodem.c:267-274 | a block whose payload or CRC was altered so that they no longer match is damage of the kind the runs allow |
| YmodemStorage.DataCallsKeepContent | src/ymodem.c:376-417 | the 128/1024 block choice and the truncation together write exactly the file's bytes |
| YmodemStorage.FileKept | src/ymodem.c:376-417 | what storage keeps of a file's calls from its start to its end is the file |
| YmodemCourse.CourseProgress | src/ymodem.c:311-428 | no round sets a batch back, and every good one that does not fail it brings it closer to its end |
| YmodemDelivery.PlayFollows | src/ymodem.c:79-428 | one round with any faults takes both functions, the line and the storage calls where the retry counts and fault kinds say, or ends the transmission for good |
| YmodemDelivery.CourseDecides | src/ymodem.c:79-428 | after any run the state of both functions and the storage calls are those of a course computed from the faults and the numbers of blocks alone |
| YmodemDelivery.OffsetsAgree | src/ymodem.c:276-291 | before every data block, first sent or repeated, both ends are in the same file and the receiver either expects that block at that offset or has stored it once |
| YmodemDelivery.DeliveredExactlyWhen | src/ymodem.c:79-428 | after enough good rounds the transmitter has returned OK if and only if the faults by themselves do not fail the batch, and then the receiver has too, with storage told of every name, size, block and file end in order |
| YmodemDelivery.StorageToldTruly | src/ymodem.c:151-296 | under any faults storage has been told a prefix of what the whole batch tells it, followed at most by the end of a file with an error |
| YmodemFaults.HeaderFaultEnds | src/ymodem.c:346-371 | the batch survives a Block 0 round if and only if Block 0, its ACK and the 'C' after it all arrive; otherwise ymodem_transmit never returns OK |
| YmodemFaults.AttemptsExactly | src/ymodem.c:387-413 | a data block survives nine attempts in a row without acknowledgement, lost, damaged or answered in vain in any mixture, and not ten |
| YmodemFaults.EotFaultsEnd | src/ymodem.c:419-425 | the end of a file survives two rounds if and only if one of them brings an EOT (the second only if the NAK for the first was read) and no cancel is heard; otherwise ymodem_transmit never returns OK |
| YmodemRuns.RoundsAreReceive | src/ymodem.c:79-301 | for every run of rounds, whatever its faults, there is a script whose bytes are just those that reach the receiver, on which ymodem_receive does what the rounds say; if every packet arrives intact it is what the transmitter wrote |
| YmodemRuns.ReadSpells | src/ymodem.c:329-424 | the bytes of the transmitter's script are the replies as they arrive |
| YmodemRuns.RoundsAreTransmit | src/ymodem.c:311-428 | on the answers of a run of rounds ymodem_transmit writes exactly the rounds' packets and is then where they leave it |
| YmodemRuns.RunsDeliver | src/ymodem.c:73-429 | on those scripts of a run with enough good rounds, followed by silence, ymodem_transmit returns OK if and only if the faults do not fail the batch, and then so does ymodem_receive, with the batch in storage |
| YmodemRuns.ClosedLoop | src/ymodem.c:73-429 | for every batch there are two byte strings such that each function, given what the other sends, sends its own and returns OK, with the batch in storage |
| ZmodemLine.SendHexHeader | src/zmodem.c:45-117 | what is written is the HEX frame, with XON unless it is ZFIN or ZACK |
| ZmodemLine.SendZdleByte | src/zmodem.c:484-492 | what is written is the escaped byte |
| ZmodemLine.SendBinaryHeader | src/zmodem.c:494-508 | what is written is the BIN16 frame |
| ZmodemLine.SendSubpacket | src/zmodem.c:510-522 | what is written is the subpacket closed by the CRC over payload and ender |
| ZmodemLine.ReadZdleByte | src/zmodem.c:122-182 | 0 and the byte, 1 and the ender, -2 for a cancel or -1 for any other failure, as the escape rules say, for the receiver's reader and the transmitter's, which knows no rubout codes |
| ZmodemLine.ReadFrameHeader | src/zmodem.c:187-343 | the header found in any input, its format and what is left unread |
| ZmodemLine.ReadSubpacketInto | src/zmodem.c:348-385 | payload, ender and unread input, or failure on a bad CRC, a failed read or a full buffer |
| ZmodemRoundTrip.SubpacketReads | src/zmodem.c:348-385 | reading a written subpacket returns its payload and ender, accepts the CRC and leaves exactly what follows |
| ZmodemRoundTrip.SubpacketCrcCoversEnder | src/zmodem.c:518-519 | the closing CRC is the CRC of the payload followed by the ender |
| ZmodemRoundTrip.SubpacketFlowSafe | src/zmodem.c:484-522 | no bare 0x11, 0x13, 0x81 or 0x83 is emitted |
| ZmodemRoundTrip.HexHeaderReads | src/zmodem.c:45-343 | a HEX header is found after any bytes free of ZPAD by both readers, and its CR LF XON tail, left unread, is free of ZPAD |
| ZmodemRoundTrip.BinHeaderReads | src/zmodem.c:187-264 | a BIN16 header is found after any bytes free of ZPAD and consumed exactly |
| ZmodemRoundTrip.HexHeaderLength | src/zmodem.c:47-79 | a HEX frame fits the 20-byte buffer if and only if it is ZFIN or ZACK, and is never longer than 21 bytes |
| ZmodemRoundTrip.HexHeaderLayout | src/zmodem.c:45-117 | a HEX frame byte by byte: the four opening bytes, fourteen lower-case hexadecimal digits that read back as type, flags and CRC, CR, LF and, except after ZFIN and ZACK, XON |
| ZmodemRoundTrip.BinHeaderLayout | src/zmodem.c:494-508 | a BIN16 frame: its three opening bytes, then type, flags and CRC, escaped |
| ZmodemRoundTrip.SearchSkips | src/zmodem.c:187-227 | what the search for a header passes over: anything but ZPAD, ZPAD before anything but ZPAD and ZDLE, two ZPADs before anything but ZDLE, an opening with an unknown format byte; a failed read behind it ends the search |
| ZmodemRoundTrip.HexEitherCase | src/zmodem.c:187-227 | a HEX header is read in lower case, upper case or both |
| ZmodemRoundTrip.NoHexNoHeader | src/zmodem.c:187-227 | fourteen bytes of which one is no hexadecimal digit are no HEX header |
| ZmodemRoundTrip.AfterZdleReads | src/zmodem.c:122-182 | what a byte after ZDLE stands for in the receiver's and in the transmitter's reader |
| ZmodemStreams.Bin32HeaderReads | src/zmodem.c:229-264 | a BIN32 header is found after any bytes free of ZPAD and consumed exactly, by both readers |
| ZmodemStreams.PacketReads | src/zmodem.c:348-385 | subpackets with a 16-bit or a 32-bit CRC are lossless and self-delimiting |
| ZmodemReceiver.ZmodemReceive | src/zmodem.c:387-482 | status, bytes sent, storage calls and unread input of the C loops equal the session function, on every script |
| ZmodemTurns.ReceiveIsTurns | src/zmodem.c:396-481 | on any input the nested loops take the turns of a flat machine that states, for each frame type and frame end, what is answered, what storage is told, and why the session ends |
| ZmodemTransmitter.ZmodemTransmit | src/zmodem.c:524-609 | the same for the transmitter |
| ZmodemTransmission.TransmitOnAnyReplies | src/zmodem.c:524-609 | on any replies what is written reads as ZRQINIT, then for each file up to the first without a name its name and size and, once ZRPOS answers, a ZDATA header with the position asked for, the content from there on and ZEOF with the size modulo 2^32, and ZFIN at the end, with "OO" if ZFIN answers it; ZMODEM_OK exactly if every ZRPOS and ZRINIT came |
| ZmodemTrace.ReceiveOnAnyInput | src/zmodem.c:432-473 | on any input file start and end alternate, data comes only in between and at the running sum of the lengths before it, and a file is left open only by a ZFIN inside it |
| ZmodemChecked.SubpacketWasThere | src/zmodem.c:348-385 | an accepted subpacket was on the line: bytes that unescape to its data, an ender, and check bytes that match the CRC-16 or CRC-32 of data and ender |
| ZmodemChecked.AnySubpacketReads | src/zmodem.c:348-385 | a subpacket in any escaped form is read, and accepted exactly if its check bytes match its data and ender |
| ZmodemChecked.TooLongFails | src/zmodem.c:348-385 | more than 1024 bytes of data are no subpacket |
| ZmodemChecked.StoredWasChecked | src/zmodem.c:409-473 | on any input, for each on_file_start and each on_data a subpacket with that name and size, or those bytes, and a matching check, and for each file ended with OK a ZEOF header was on the line, in order and without overlap |
| ZmodemTrace.OffsetCarried | src/zmodem.c:572-579 | the four position bytes carry an offset modulo 2^32 |
| ZmodemSession.AnyInfoParses | src/zmodem.c:418-428 | of any sender's ZFILE subpacket the name up to the first NUL and the number after it are taken; of a name longer than 255 bytes the first 255, and the number is then looked for inside the name |
| ZmodemSession.TransmitEmits | src/zmodem.c:524-609 | with the replies it expects the transmitter sends exactly the batch's stream and returns ZMODEM_OK |
| ZmodemSession.DataCallsCarryContent | src/zmodem.c:582-593 | the data calls of a file, put together, are its contents |
| ZmodemSession.StreamDelivered | src/zmodem.c:398-481 | the receiver gets exactly the stream's names, sizes and contents and returns ZMODEM_OK, if and only if no file is empty |
| ZmodemStreams.AnyStreamDelivered | src/zmodem.c:398-481 | any stream that brings files in subpackets of at most 1024 bytes, ZCRCG or ZCRCQ between them and ZCRCE or ZCRCW at the end of each of any number of ZDATA frames, is delivered whole and ends in ZMODEM_OK, empty files included |
| ZmodemStreams.HexFrameMisread | src/zmodem.c:187-227 | after a HEX header a subpacket is read with the header's CR, LF and XON in front, or not at all |
| ZmodemSession.EmptyFileMisread | src/zmodem.c:447-453 | after an empty file's ZDATA header the receiver fails or delivers data that the file does not have |
| ZmodemSession.FifoLinkFails | src/zmodem.c:396-408 | whatever follows ZRQINIT the receiver has answered it with two ZRINIT headers, and a transmitter that reads them succeeds only on an empty batch |
| ZmodemSession.FifoClosedLoop | src/zmodem.c:387-570 | for every batch that is not empty there are two byte strings the two functions send each other, each given the other's, on which both time out on the first file |
| Polynomials.RemainderUnique | src/signature_verify.c:26-35 | two polynomials of degree below 32 that are both remainders of the same polynomial are equal |
| SignatureVerify.Verifier.constructor | src/signature_verify.c:10-19 | the register starts at the seed with no bytes counted |
| SignatureVerify.Verifier.Update | src/signature_verify.c:21-38 | the register is the digest of all bytes fed so far, however they were split, and the count is their number |
| SignatureVerify.DigestChains | src/signature_verify.c:26-35 | feeding two chunks is feeding their concatenation |
| SignatureVerify.GeneratorReflected | src/signature_verify.c:30 | the constant 0xEDB88320 is the IEEE 802.3 generator without its leading term, reflected |
| SignatureVerify.DigestIsRemainder | src/signature_verify.c:26-35 | a register is the remainder of the seeded message modulo the generator if and only if it is the digest |
| SignatureVerify.ShortBurstDetected | src/signature_verify.c:26-35 | two messages that differ at most within a window of four bytes have the same digest if and only if they are equal |
| NfcRing.Ring.Push | src/nfc_transport.c:166-170 | a byte is appended to the queue, or refused when 1024 are held |
| NfcRing.Ring.Pop | src/nfc_transport.c:192-194 | the oldest byte is taken |
| NfcTransport.Transport.constructor | src/nfc_transport.c:35-60 | both queues empty, field off, counters zero |
| NfcTransport.Transport.EncodeNdefRecord | src/nfc_transport.c:116-140 | the short record is written if the payload has at most 255 bytes and fits the buffer, else nothing changes |
| NfcTransport.Transport.RxCallback | src/nfc_transport.c:142-175 | a record's payload, or the raw data, is queued as far as there is room, and every byte is counted as received or overflowed |
| NfcTransport.Transport.Read | src/nfc_transport.c:177-201 | a look at field and queue before each sleep, until the oldest byte is taken, the field is gone or the time is up, whatever callbacks come in between |
| NfcTransport.Transport.FlushTxNdef | src/nfc_transport.c:233-249 | up to 255 bytes leave the transmit queue and are encoded if the buffer has room |
| NfcTransport.Transport.WriteBytes | src/nfc_transport.c:203-231 | bytes are queued as far as there is room and, with automatic framing, one record goes out |
| NfcTransport.Transport.SetFieldActive | src/nfc_transport.c:251-257 | only the field state and the count of losses change |
| NfcTransport.Transport.T4tEvent | src/nfc_transport.c:99-114 | events are counted and dispatched |
| NfcHistory.RecordUnwraps | src/nfc_transport.c:151-163 | a record of 1 to 255 payload bytes is recognised and gives back its payload |
| NfcField.RecordLayout | src/nfc_transport.c:116-140 | a record byte by byte: 0xD2, type and payload lengths, "application/x-modem", payload |
| NfcField.RecordsRecognised | src/nfc_transport.c:151-163 | data are taken for a record exactly when one starts them and they are longer than an empty one |
| NfcHistory.PlayKeepsFifo | src/nfc_transport.c:99-249 | every operation keeps the queues FIFO and the byte accounts exact |
| NfcHistory.TransportIsFifo | src/nfc_transport.c:165-245 | over every interleaving of operations with roomy flushes nothing is reordered, duplicated or lost to a field drop, rx_bytes plus overflows is every payload byte offered, and rx_bytes is bytes read plus bytes queued |
| NfcField.FieldFollows | src/nfc_transport.c:99-257 | from the operations alone: the field is on exactly if the last call or event about it turned it on, losses count the changes from on to off, and events and records received and sent are counted exactly |
| NfcField.ReadsAnswer | src/nfc_transport.c:187-198 | a look finds the field lost exactly when it is off, and else the oldest byte taken in and not yet read, if there is one |
| NfcField.WritesAnswer | src/nfc_transport.c:203-231 | a write is refused, and changes nothing, exactly when there is nothing to write or the field is off; else bytes are queued up to 1024 and with automatic framing up to 255 of them go out as one record |
| NfcField.ArrivalsQueued | src/nfc_transport.c:142-175 | what comes in is queued up to 1024 bytes, the rest counted as overflow |
| NfcHistory.WaitingIsInterleaving | src/nfc_transport.c:187-198 | a read that waits is an interleaving of looks with what happens between them |
| NfcHistory.FlushLoses | src/nfc_transport.c:233-249 | a flush keeps the transmit account if and only if the buffer holds the record it takes the bytes for |
| NfcHistory.FlushesPublish | src/nfc_transport.c:239-248 | a run of k flushes into big enough buffers publishes exactly the first k records of the queue, or all of them |
| NfcHistory.FlushedQueueArrives | src/nfc_transport.c:142-249 | a whole transmit queue, flushed repeatedly into another transport's receive callback with room, arrives there in order and without overflow |
| NfcHistory.FlushedRunArrives | src/nfc_transport.c:142-249 | the records that enough flushes publish, passed to another transport with room, append the flushed queue there in order, and the queue is then empty |
| StreamDecompress.Decompressor.Process | src/stream_decompress.c:21-65 | with capacity c exactly the first min(c, n) bytes of the n-byte decoding (or of the input, for the other algorithms) are written and nothing else of the buffer changes |
| StreamDecompress.DecodeLength | src/stream_decompress.c:38-55 | twice the decoded length is at most 255 times the input length |
| StreamDecompress.DecodeLengthTight | src/stream_decompress.c:38-55 | that bound is met if and only if the input is runs of 255 and nothing else |
| StreamDecompress.DecodeIdentity | src/stream_decompress.c:47-49 | input in which every 0x90 is last or precedes a zero is its own decoding |
| StreamDecompress.RunsRoundTrip | src/stream_decompress.c:38-55 | every decodable byte string, encoded with its runs of 3 to 256 equal bytes, decodes to itself, and the encoding is never longer |
| StreamDecompress.DecodableExactlyWhen | src/stream_decompress.c:41-49 | a byte string is the decoding of some input if and only if each 0x90 in it is last or precedes a zero |
| LogRotation.Completed | src/log_rotation.c:18-26 | zero sizes and an empty name are replaced, so chunk size, chunk count and name are usable |
| LogRotation.Defaults | src/log_rotation.c:17-26 | 65536 bytes, 5 chunks and "system_log" where nothing is set, and what is set otherwise |
| LogRotation.LogWriter.WriteLog | src/log_rotation.c:32-51 | the write goes to the current chunk or, if it does not fit, to the next one, and the name reported is that chunk's, cut to the capacity |
| LogRotation.NameReads | src/log_rotation.c:46-49 | an uncut name is base, underscore, index and ".log", and its digits read back as the index |
| LogRotation.NamesDiffer | src/log_rotation.c:46-49 | different chunks have different names when the buffer holds them |
| LogRotation.NameCut | src/log_rotation.c:46-49 | a name that does not fit is cut to the buffer |
| LogRotation.IndexCountsRotations | src/log_rotation.c:40 | the chunk index is the rotation count modulo the number of chunks |
| LogRotation.ChunkWithinSize | src/log_rotation.c:39-44 | while no write exceeds a chunk, neither does the current chunk |
| LogRotation.RotationBound | src/log_rotation.c:39-44 | after R >= 1 rotations more than floor((R + 1) / 2) chunk sizes have been written, for writes of any size |
| LogRotation.RotationBoundTight | src/log_rotation.c:39-44 | the bound is met up to one byte for each pair of chunks |

## Left out

- XmodemReceiver.XmodemReceive: may be called only where the C function returns, because a Dafny method must; where that is, `XmodemTrace.ReturnsExactlyWhen` and `XmodemTrace.ReturnsOnEveryScript` say.
- XmodemTransmitter.XmodemTransmit: the same, with `XmodemTransmitter.TransmitReturnsExactlyWhen` and `XmodemTransmitter.TransmitReturnsOnEveryScript`.
- XmodemDelivery.DeliveredIsPrefix: for runs that part the ends it assumes that the first block's checksum is not by chance the first byte of its CRC; otherwise a CRC byte is read as the next header (`XmodemFallback.ChanceMatchEnds`), which rounds do not express.
- Packets and replies that arrive out of order, late or twice because both ends time out at once, and damage that the CRC or checksum does not catch.
- YmodemDelivery.DeliveredExactlyWhen: damage is of the kind a CRC catches and does not lengthen an EOT, and no reply byte is altered into ACK or 'C', which the C transmitter could not tell from the real ones.
- NfcTransport.Transport.Read: what happens in a sleep is any number of arrivals and field changes; writes from elsewhere during a sleep are interleavings in `NfcHistory` only.
- NfcTransport.Transport.RxCallback: counters are unbounded, as they are in the other statistics.
- ZmodemLine.SendHexHeader: uses a 21-byte buffer, because frames other than ZFIN and ZACK do not fit the 20 bytes at src/zmodem.c:47 (`ZmodemRoundTrip.HexHeaderLength`); what the overrun does to the stack is not modelled.
- Real time: timeouts, sleeps and uptime are the `Timeout` events of the script.
- Zephyr's CRC implementations, which are not part of this model beyond being a fold over bytes; nothing is assumed about their error detection.
- Byte counts and file offsets are unbounded except where a wrap-around is written out; `size_t` and `unsigned long` are taken to have 64 bits where sizes are printed and parsed.
- Return codes of `write_bytes`, `on_file_start`, `on_data` and `read_data`, which the source ignores, and the checks for null arguments and callbacks.
- `strtoul` on a ZFILE subpacket whose size field is not terminated within the bytes received reads what an earlier subpacket left in the buffer; the model stops at the bytes received.
- The ZMODEM specification (section 7.2) escapes 0x91 and 0x93 where the code escapes 0x81 and 0x83; the model follows the code.
- ZmodemStreams.AnyStreamDelivered: headers that subpackets follow are binary, because the receiver reads the line end of a HEX header as data (`ZmodemStreams.HexFrameMisread`).
- `nfc_transport_start`, `nfc_transport_stop` and the statistics calls, `signature_verify_final` (a stub), and the data bytes of log writes (only lengths matter there).
- The remaining sources (console, Bluetooth and socket transports, autostart, session dispatch, flash helper, delta update, encryption, boot image check, statistics) and the command-line tools: short or glue.
