# Verified model of the eMRTD reader

A Dafny model of a reader for electronic passports and identity cards: the block protocol to the
card, Secure Messaging, the two access protocols, the file reader with its export, and the codecs
underneath. `dafny verify dfyconfig.toml` checks the whole project.

## What is modelled

**The block protocol** (`IsoDep*`). Reader and card each keep one block number bit. `IsoDepProtocol` holds the
reader as functions of any card's behaviour, `IsoDepReader` the program's own object with its buffers and
loops, proved to compute those functions. `IsoDepBounds` is about any card at all. `IsoDepChip` is the card
that follows the rules, on a wire that may lose a frame before the card sees it or lose the answer after the
card has acted; `IsoDepExactlyOnce` and `IsoDepSession` put the two together. The card is more general than
the one in the repository's test: answers are cut into any pieces, time may be asked for before any piece, any
answer but those to RATS and DESELECT may be lost, and a reassembled command is cleared when it has run.
`IsoDepTiming` is the arithmetic of the times an ATS announces.

**Secure Messaging** (`Cipher`, `Mac`, `Cmac`, `SecureMessaging`, `SmReader`, `SimChip`, `SmRefinement`).
DES and AES are abstract keyed permutations with an inverse; everything above them - triple DES, CBC, the two
checksums, padding, the envelope, the counter - is built on that. `SmReader` is the reader's session over
mutable buffers, including decryption of a response over itself. `SimChip` is the simulated chip's
independent half.

**Opening the chip** (`AccessSelection`, `Credentials`, `Digests`, `AccessPort`, `AccessChip`, `Bac*`, `Pace*`,
`AuthenticatedSession`). SHA-1 and SHA-256 are abstract functions with fixed output lengths; points of the
curve form a set with a commutative action of the scalars, an encoding that can be read back, and the generic
mapping as a partial function that has no value at the point at infinity. Random values are parameters and the
theorems hold for all of them.

**Reading files** (`ReadStream`, `FileReader`, `Export`, `FaceImage`, `CardAccess`, `OneFile`, `FrameBudget`,
`Progress`, `ReadRun`). The chip is any function of the traffic so far; a chip that serves a file is one whose
answers with data are stretches of it. `ReadStream` says what the stream of one file asks, gets and ends with, as
functions of the chip and the number of rounds; `FileReader` is the program's loop, proved to be that stream, with
everything its bytes go to. `ReadRun` accounts for all the traffic of a read, file by file. Files on the storage card are append-only byte sequences, and any write may be short.

**The layers together** (`Transmission`, `WireRead`, `ProtectedRead`). `Transmission` is the worker's one place where
a command goes out, in the clear or through the session, to anything that answers with bytes; `WireRead` is a
whole read over it, against any other end; `ProtectedRead` is a whole read of the simulated document, its
files behind its own end of Secure Messaging.

**Codecs** (`Bytes`, `Numbers`, `Tlv`, `Apdu`, `Mrz`, `MrzNames`, `MrzZone`, `MrzLayouts`). `MrzLayouts` lays out the
zones of the three sizes of document field by field, reads them back, and says exactly which zones are in order.
`CommandBytes` has every command the reader builds in the bytes that leave it.

## Where the code and its description part

- The comment on sizing a file says its header tells the length after one exchange. The code takes a first
  answer that is shorter than the header for the whole file; `ReadStream.WholeObjectRead` gives the exact
  condition, and `ReadStream.ShortFirstAnswerCutsFile` a chip and a file with which it fails.
- 6282, 6B00 after the first byte and an empty answer all end a file without an error, wherever they come.
  What is then known of the bytes is what `FileReader.Worker.StreamFile` and `ReadStream.ServedHead` state: they
  are the head of the file, and everything that consumed them consumed the same ones.
- Document numbers of up to twenty characters are accepted as entries, but the string the keys are derived from
  has room for sixteen; `Credentials.LongNumbersAreRefused` gives the exact condition.
- The buffer of a PACE token input is said to hold the longest identifier with the longest point. It is one byte
  short of that pair and holds every other; on the curves the build supports nothing is ever refused
  (`Pace.TokenInputFits`).
- An honest run of PACE fails when the nonce maps to the point at infinity, and in no other case.
- The simulated document answers the odd READ BINARY with 6D00, so that an object is read whole from it only
  when its last piece begins below 32768; `ProtectedRead.StackRead` gives the exact condition.
- The test card does not clear its partial command at RATS, so activation alone does not give lockstep.

## Reading the model

A method of a class mirrors a function of the source over the same fields and buffers. Its contract names a
function of the old state, and the theorems are about those functions. `hide` statements only keep definitions a proof
does not need away from the solver. Tables and constants are held to
the standards' figures by lemmas that spell those out (`...InNumbers`, `...InBytes`, and the whole of `CommandBytes`).

## Model

| member | source | states |
|---|---|---|
| IsoDepSession.ExactlyOnce | transport/emrtd_isodep.c:483-550 | from lockstep, for every APDU, every way the card chains and delays its answer and every loss pattern: success means the card ran exactly this command once, all of its answer was handed over and lockstep holds again; failure means it ran the command at most once |
| IsoDepSession.LossTolerance | transport/emrtd_isodep.c:296-323 | when the answer can be carried (64 blocks, the caller's room), the exchange succeeds if and only if no block lost three frames and no exchange met a sixty-first request for time; loss is reported if and only if three frames were lost inside one block's recovery |
| IsoDepSession.SessionExactlyOnce | transport/emrtd_isodep.c:483-550 | from lockstep, over any sequence of commands up to the first failure, the card ran them in order, each once, after all it had run before, and every answer is the card's to that command |
| IsoDepSession.ActivationEstablishesLockstep | transport/emrtd_isodep.c:377-423 | an answer to RATS puts both sides in lockstep if and only if the card holds no part of an earlier command |
| IsoDepSession.ExchangeLast | transport/emrtd_isodep.c:331-375 | the last block of a command: when it is answered the command has run once and the first block of its answer is here, whatever was lost and however often time was asked for |
| IsoDepSession.ExchangeChained | transport/emrtd_isodep.c:331-375 | a chained block is acknowledged with its own number and the card has it exactly once |
| IsoDepSession.ExchangeAck | transport/emrtd_isodep.c:463-480 | an R(ACK) inside a chained answer brings the next block, neither skipping nor repeating one, although it is its own recovery frame |
| IsoDepExactlyOnce.SendIBlock | transport/emrtd_isodep.c:296-323 | recovery of an I-block: the card ends where one delivery would have left it, and the answer is the one that delivery gave |
| IsoDepExactlyOnce.SendOther | transport/emrtd_isodep.c:296-323 | recovery of an R-block or of a grant of time ends the same way, although the block itself never goes twice |
| IsoDepExactlyOnce.GrantStage | tests/host/test_isodep.c:195-208 | each grant of time is followed by the next request or by the block that was waiting |
| IsoDepBounds.TransceiveBounded | transport/emrtd_isodep.c:483-550 | against any card, and after any ATS: the number of frames is bounded by 185 for each command block and 183 for each of at most 64 acknowledgements, and every frame with its CRC fits the size that the low four bits of T0 stand for, 16 to 256 bytes, or 256 when the ATS names none |
| IsoDepProtocol.AnnouncedIsStandard | transport/emrtd_transceiver.c:161-186 | the card's frame size after any ATS: 8 (f + 2) for f up to 4, 32 (f - 3) from 5 to 7, the f-th power of two from 8 to 12, and 256 from 13 to 15 |
| IsoDepBounds.SendBlockBounded | transport/emrtd_isodep.c:296-323 | against any card one block costs at most five frames, and loss is reported exactly when three of them were lost |
| IsoDepBounds.ExchangeBounded | transport/emrtd_isodep.c:331-375 | against any card one exchange costs at most 185 frames, and one that meets a sixty-first request for time fails |
| IsoDepBounds.ReceiveBounded | transport/emrtd_isodep.c:426-481 | against any card the bytes handed over fit the caller's buffer and at most 64 blocks are taken |
| IsoDepBounds.FailureNamed | transport/emrtd_isodep.c:483-550 | against any card: nothing to send or no room is refused without a frame; any other failure handed up is the failure of the last frame, or a breach of the protocol, or want of room for the answer |
| IsoDepBlocks.BuiltBlocksAreRecognised | transport/emrtd_isodep.c:76-103 | every control byte either side builds is read as the kind of block, with the number and the chaining bit, it was built for, and as no other kind |
| IsoDepBlocks.KindsBitByBit | transport/emrtd_isodep.c:76-103 | which bits of a control byte make it an I-block, an R-block, an R(NAK) or an S-block |
| IsoDepProtocol.AcknowledgedBy | transport/emrtd_isodep.c:526-542 | which bytes acknowledge a block and which say that it was never had: R(ACK) with the block's number or with the other, and a CID allowed |
| IsoDepReader.Port.SendRaw | transport/emrtd_isodep.c:252-270 | one frame out, one answer back, none longer than the receive buffer, and both on the record |
| IsoDepReader.Reader.ParseAts | transport/emrtd_isodep.c:185-247 | frame size, frame waiting time and start-up guard time kept are those the ATS announces - the size that of the standard's figures, at most 256 - for every ATS including one that promises more bytes than arrived; block number and activation stay |
| IsoDepReader.Reader.ReadInterface | transport/emrtd_isodep.c:204-238 | T0 and TB(1) are found behind TL and an optional TA(1), and only among bytes that both TL and the frame hold; the frame size is the figure that T0 stands for |
| IsoDepTiming.ComputeWaitingTime | transport/emrtd_isodep.c:106-118 | 4096 cycles doubled for each step of the index, never outside the reader's floor and ceiling |
| IsoDepTiming.ComputeGuardTime | transport/emrtd_isodep.c:134-156 | in 32 bit words, halved figure and halved divisor: the guard time rounded up to the millisecond, with its margin, for every index |
| IsoDepTiming.HalvedIsExact | transport/emrtd_isodep.c:143-155 | for every index halving rounds to the same millisecond and no intermediate value wraps |
| IsoDepTiming.WholeFigureWraps | transport/emrtd_isodep.c:143-151 | without halving the largest index wraps, and 655 milliseconds would come out instead of 4950 |
| IsoDepTiming.GuardCoversRequest | transport/emrtd_isodep.h:88-95 | the wait is never shorter than 4096 cycles of 13.56 MHz doubled for each step, nor four milliseconds longer |
| IsoDepTiming.AtsReadBack | transport/emrtd_isodep.c:204-238 | an ATS built with or without each of TA(1), TB(1) and TC(1) gives back its two indices, or their defaults |
| IsoDepReader.Reader.SendBlock | transport/emrtd_isodep.c:296-323 | the loop over recovery rounds computes SendBlock of the protocol, on any card |
| IsoDepReader.Reader.Exchange | transport/emrtd_isodep.c:331-375 | the loop over requests for time computes Exchange of the protocol, on any card |
| IsoDepReader.Reader.Activate | transport/emrtd_isodep.c:377-423 | RATS once, block number zero, and active exactly when a non-empty ATS came back |
| IsoDepReader.Reader.ReceiveInto | transport/emrtd_isodep.c:426-481 | the chain copied block by block into the caller's buffer is what Receive returns, on success every byte beyond its length is kept, and the block number is toggled per block |
| IsoDepReader.Reader.SendCommandBlock | transport/emrtd_isodep.c:504-530 | a block is built in the transmit buffer within its bounds and exchanged with the right recovery frame |
| IsoDepReader.Reader.Transceive | transport/emrtd_isodep.c:483-550 | one APDU in both directions: world, block number, error and received bytes are those of Transceive of the protocol, and on success the rest of the caller's buffer is kept |
| IsoDepReader.Reader.Deselect | transport/emrtd_isodep.c:552-561 | S(DESELECT) once, only when active, and inactive afterwards |
| IsoDepChip.Chip.ReceiveFrame | tests/host/test_isodep.c:142-267 | the card object, its fields changed frame by frame, computes the card's step for a frame that is delivered, dropped, or whose answer is lost |
| IsoDepChip.Chip.Send | tests/host/test_isodep.c:89-115 | a block is remembered for rule 11 before the wire may lose it |
| IsoDepChip.Chip.HandleI | tests/host/test_isodep.c:232-263 | rule D: any I-block toggles the number and is taken; the last of a chain is executed |
| IsoDepChip.Chip.HandleR | tests/host/test_isodep.c:210-230 | rules 11, 12, E and 13 |
| SmRefinement.SessionRefinesPlain | crypto/emrtd_sm.c:224-537 | over any number of commands the chip ends in the state, and the caller with the answers, that the commands in the clear would have given; both counters are their start plus 2n modulo 256 to the width of the block |
| SmRefinement.ExchangeRefinesPlain | sim/emrtd_sim.c:1030-1166 | one protected exchange hands the chip the command and the caller the answer, with both sessions stepped twice |
| SmRefinement.UnwrapInvertsEnvelope | sim/emrtd_sim.c:1030-1110 | for class bits clear and Le absent or 1 to 256, what the chip unwraps is the original header, data and Le, and the envelope asks for 256 bytes |
| SmRefinement.UnprotectInvertsWrap | crypto/emrtd_sm.c:373-537 | what the reader takes from the chip's wrapped answer is its data and status word, for every answer that fits |
| SmRefinement.AnswerWithinLe | crypto/emrtd_sm.c:346-359 | every answer the chip wraps is no longer than the outer Le it was asked with |
| SmRefinement.AnswerInBytes | sim/emrtd_sim.c:1122-1166 | a wrapped answer byte by byte: '87', '99', '8E' over the stepped counter, and SW |
| SecureMessaging.ProtectAllOrNothing | crypto/emrtd_sm.c:224-371 | a refusal leaves the session as it was; once the counter has moved neither the checksum buffer nor the encoder can refuse; and exactly when each happens |
| SecureMessaging.OverheadExact | crypto/emrtd_sm.c:204-222 | for Le 1 to 256 the command on the wire has a data field longer than the plain one by exactly the announced overhead, an Le of 256, and INS, P1 and P2 of the plain one |
| SecureMessaging.ProtectedInBytes | crypto/emrtd_sm.c:224-371 | every protected command byte by byte: class bits 0C, the header, '87' with the padding indicator, '97', '8E' over counter, filled header and objects, and an outer Le of one zero; read back it asks for 256 |
| SecureMessaging.InspectExact | crypto/emrtd_sm.c:380-482 | exactly which responses reach their checksum: length, tiling, the objects each once, the checksum last and of eight bytes, whole blocks of ciphertext that fit |
| SecureMessaging.AcceptedMeansAuthenticated | crypto/emrtd_sm.c:373-537 | any bytes that are accepted are covered bytes, then the only DO'8E' there is, then SW, and that object holds the checksum over the stepped counter and every covered byte |
| SecureMessaging.RejectedAs | crypto/emrtd_sm.c:373-537 | without a session, or before the checksum is reached, a refusal leaves the counter; from there on it has moved once and any failure is the session's |
| SecureMessaging.RefusedAs | crypto/emrtd_sm.c:224-290 | no session, an Le that is none, want of room: which of the three a command is refused for |
| SecureMessaging.DecryptInverts | crypto/emrtd_sm.c:89-137 | decryption with the session's cipher and IV undoes its encryption |
| SimChip.SimCipherIsSession | sim/emrtd_sim.c:464-514 | the chip's own cipher and initialisation vector give what the reader's give |
| SimChip.SimMacIsChecksum | sim/emrtd_sim.c:517-533 | and so does its own checksum |
| SmReader.Sm.Init | crypto/emrtd_sm.c:171-195 | the session opened is exactly the suite, keys and counter given, the counter zero when none is |
| SmReader.Sm.IncrementSsc | crypto/emrtd_sm.c:67-74 | the counter stepped in place is the session's next |
| SmReader.Sm.Mac | crypto/emrtd_sm.c:149-163 | the checksum of what the buffer holds, padded where it lies, or a refusal when the padding has no room |
| SmReader.Sm.WriteObjects | crypto/emrtd_sm.c:306-333 | DO'87' padded and encrypted in place and DO'97', written from a moving offset, are the objects of the envelope |
| SmReader.Sm.BuildMacInput | crypto/emrtd_sm.c:293-333 | counter, padded header and objects lie in one buffer as the checksum covers them |
| SmReader.Sm.Protect | crypto/emrtd_sm.c:224-371 | the bytes in the caller's buffer and the new session are Protect's; on a refusal buffer and session are untouched |
| SmReader.Gather | crypto/emrtd_sm.c:399-439 | the walk over a response's objects, left at the first that comes twice, finds what picking them from all nodes finds |
| SmReader.Sm.InspectResponse | crypto/emrtd_sm.c:380-482 | every check before the counter moves, in the code's order and with its errors |
| SmReader.Sm.Verify | crypto/emrtd_sm.c:373-506 | a response refused before its checksum leaves the counter alone; otherwise it is stepped once |
| SmReader.Sm.DecryptOver | crypto/emrtd_sm.c:516-529 | decrypted and unpadded into a buffer that may be the response itself; without a marker the plaintext is wiped |
| SmReader.Sm.Unprotect | crypto/emrtd_sm.c:373-537 | verify, then decrypt in place: the result is the same whether or not the output is the response buffer, nothing is written before the checksum matches, nothing beyond the cryptogram's length ever |
| Cipher.CbcRoundTrip | crypto/emrtd_sm.c:89-137 | CBC decryption undoes encryption for every permutation, IV and message |
| Cipher.CbcRoundTripBack | crypto/emrtd_sm.c:89-137 | and encryption undoes decryption |
| Cipher.TdesIsPermutation | crypto/emrtd_sm.c:99-111 | two key triple DES is a permutation with the inverse the code uses, whenever DES is |
| Cipher.TdesOfOneKey | crypto/emrtd_sm.c:99-111 | triple DES under one key twice over is single DES |
| Cipher.CbcByBlocks | crypto/emrtd_sm.c:76-137 | each ciphertext block, wherever it stands, is the cipher of the plaintext block exclusive-or the ciphertext block before it, the first of it the initialisation vector |
| Cipher.CbcDecryptInto | crypto/emrtd_sm.c:82-87 | decryption block by block, each read before it is written, into another buffer or the same one at a lower place gives the plaintext of the original bytes |
| Numbers.IncIsPlusOne | crypto/emrtd_sm.c:67-74 | the carry loop adds one modulo 256 to the width |
| Numbers.IncByAdds | crypto/emrtd_sm.c:67-74 | n steps add n modulo 256 to the width |
| Numbers.IncrementInPlace | crypto/emrtd_sm.c:67-74 | the loop over bytes from the right is that step and touches nothing beyond the width |
| Mac.PadRoundTrip | crypto/emrtd_mac.c:17-34 | unpadding returns what was padded, also for a message that itself ends in zeros or 80 |
| Mac.UnpadExact | crypto/emrtd_mac.c:24-34 | unpadding succeeds exactly on x, 80, zeros, and returns that x |
| Mac.PadOver | crypto/emrtd_mac.c:17-22 | padding where the message lies, and nothing else changed |
| Mac.UnpadLength | crypto/emrtd_mac.c:24-34 | the loop from the right finds the length unpadding names |
| Mac.CbcMacIsLastBlock | crypto/emrtd_mac.c:36-68 | the chaining value of the MAC loop is the last block CBC encryption would have written |
| Mac.RetailMacIsTripleOnLastBlock | crypto/emrtd_mac.c:36-68 | the chain runs under single DES and only the last block goes through triple DES |
| Mac.ComputeRetailMac | crypto/emrtd_mac.c:36-68 | the loop computes ISO/IEC 9797-1 algorithm 3, and refuses exactly data that is not whole blocks |
| Cmac.ShlIsDoublingModulo | crypto/emrtd_mac.c:71-78 | the byte and carry shift is doubling modulo 2^128 |
| Cmac.ShiftLeft | crypto/emrtd_mac.c:71-78 | the carry loop computes that shift |
| Cmac.Subkey | crypto/emrtd_mac.c:106-115 | a subkey is doubling in the field, section 2.3 of RFC 4493 |
| Cmac.CmacBlocks | crypto/emrtd_mac.c:117-153 | the block loop with its last block is section 2.4 of RFC 4493, for every message length |
| Cmac.SplitCmac | crypto/emrtd_mac.c:117-153 | section 2.4 of RFC 4493 for a message cut before its last block: that block, filled up if it is short and under the subkey that goes with that, on top of the chain before it |
| Cmac.ComputeCmac | crypto/emrtd_mac.c:80-163 | AES-CMAC truncated to the length asked for, for the key lengths of AES and no others |
| Tlv.WalkExact | protocol/emrtd_tlv.c:186-209 | the nodes a cursor returns tile a prefix of the buffer, and it is exhausted exactly when some tiling reaches the end |
| Tlv.Iter.Next | protocol/emrtd_tlv.c:186-205 | one step of the cursor is one step of the walk; a failed parse parks the cursor for good |
| Tlv.Find | protocol/emrtd_tlv.c:218-233 | the first node with the tag among the buffer's own |
| Tlv.FindRecursive | protocol/emrtd_tlv.c:235-269 | the first match of a depth first preorder walk cut at depth sixteen |
| Tlv.FirstTagIsFirst | protocol/emrtd_tlv.c:235-262 | what is found carries the tag, nothing before it does, and nothing is missed |
| Tlv.ReadTagAt | protocol/emrtd_tlv.c:52-89 | the loop over tag bytes reads the tag, with its limit of bytes |
| Tlv.ReadLengthAt | protocol/emrtd_tlv.c:100-131 | the loop over length bytes reads the length, refusing the indefinite form and more than four bytes |
| Tlv.TotalLengthOfPrefix | protocol/emrtd_tlv.c:271-292 | the length computed from a prefix is the whole file's exactly when the prefix holds the header, and zero otherwise |
| Tlv.HeaderPrefix | protocol/emrtd_tlv.c:134-158 | a header reads the same whatever follows it, and never before it is complete |
| Tlv.LengthRoundTrip | protocol/emrtd_tlv.c:345-391 | every length that can be written is read back, with the right number of bytes |
| Tlv.ObjectRoundTrip | protocol/emrtd_tlv.c:362-391 | an object that was written is the node read there, with its value |
| Tlv.TagRoundTrip | protocol/emrtd_tlv.c:52-89 | every tag of one to four bytes, as section 8.1.2 of ITU-T X.690 spells them, is read as the number its bytes spell |
| Tlv.TagExact | protocol/emrtd_tlv.c:52-89 | and whatever is read as a tag is one, byte for byte |
| Tlv.LengthExact | protocol/emrtd_tlv.c:100-131 | which bytes are a length and what it is: up to 127 itself, one to four bytes behind 81 to 84, 80 and the rest refused |
| Tlv.ReadUintExact | protocol/emrtd_tlv.c:294-318 | an integer is read exactly when its value fits 32 bits, however many zeros precede it |
| Tlv.ReadUintAt | protocol/emrtd_tlv.c:294-318 | the 32 bit accumulator never wraps |
| Apdu.EncodeRoundTrip | protocol/emrtd_apdu.c:36-105 | every command the encoder accepts, and exactly which those are, takes the bytes needed and is read back by the rules of section 5.1 of ISO/IEC 7816-4 |
| Apdu.EncodeInto | protocol/emrtd_apdu.c:36-105 | the bytes written through a moving position are the encoding; a refusal writes nothing |
| SimChip.ParseReadsShortCommands | sim/emrtd_sim.c:1170-1207 | the chip's parser is such a reader for every short command |
| ReadStream.WholeObjectRead | worker/emrtd_worker.c:1026-1064 | a file that begins with one object, on any chip that serves it and ends it honestly: a stream that is neither stopped nor failed gets the whole object if and only if the first answer of the traffic that had any data held the header; otherwise it gets that answer and no more |
| ReadStream.ServerRead | worker/emrtd_worker.c:963-1134 | on a chip that serves the file in pieces of any size, a stream nobody stops does not fail, and gets the whole object if and only if the first piece, of at most what was asked for, held the header |
| ReadStream.ShortFirstAnswerCutsFile | worker/emrtd_worker.c:1026-1064 | against a chip that gives one byte at a time, for a file holding a three byte object: the stream ends complete with one byte |
| ReadStream.HonestEnd | worker/emrtd_worker.c:963-1134 | for any file: unless it fails, a stream gets as many bytes as its first answer announced, or all the file has |
| ReadStream.ServedHead | worker/emrtd_worker.c:963-1134 | whatever has been got from a chip that serves a file is where that file begins, after every round |
| ReadStream.GoodChipNeverFails | worker/emrtd_worker.c:981-1019 | a chip that serves a whole object and always gives more of it is never asked past its end or out of reach, and no read of it fails |
| ReadStream.StreamAsks | worker/emrtd_worker.c:968-979 | every READ BINARY of a stream asks for at least one byte and no more than one frame carries |
| ReadStream.ReadBrings | worker/emrtd_worker.c:729-779 | one read adds to what was got what its last answer holds, and a 6CXX adds nothing |
| ReadStream.ReadLogShape | worker/emrtd_worker.c:729-779 | a read makes one exchange or two, each naming the same offset and at most one frame of data |
| ReadStream.FileServerIsHonest | sim/emrtd_sim.c:992-1023 | a chip that answers reads of a file in pieces of any size serves it and ends it honestly |
| ReadStream.LongAnswerInBytes | worker/emrtd_worker.c:700-721 | under the odd instruction the bytes are those behind '53' and its length, and an answer that begins otherwise is refused |
| FileReader.Worker.StreamFile | worker/emrtd_worker.c:948-1156 | on any chip the traffic is that of the stream, which ends as its last answer says unless a stop was asked for; hash, decoding buffer, export and verdict are all about exactly the bytes the stream got; on a storage card that takes everything the raw file is those bytes and the image file what follows the face; no percentage falls |
| FileReader.UnstoppedRead | worker/emrtd_worker.c:948-1156 | a read of a file that holds one object, from a chip that serves it in any pieces, with nobody asking for a stop, does not fail and gets the object exactly when the first piece held its header |
| FileReader.Worker.StreamLoop | worker/emrtd_worker.c:963-1134 | the loop: its rounds, its bytes and its end are those of the stream, each stop on record was asked for, and the bytes go to every place alike |
| FileReader.Worker.Round | worker/emrtd_worker.c:963-1024 | one round: a stop ends it cancelled, a full file complete, and otherwise one read of exactly what is missing, at most one frame, and what its answer comes to |
| FileReader.Worker.Receive | worker/emrtd_worker.c:981-1134 | one read on, in traffic and in bytes got, and the ending its answer calls for |
| FileReader.Worker.Take | worker/emrtd_worker.c:1062-1124 | one answer, cut to what is left of the file, goes to hash, buffer and export, and is reported once: it goes on exactly as the caller then says, or not at all once a stop is seen |
| FileReader.Worker.Report | worker/emrtd_worker.c:246-279 | nothing is reported once a stop is seen; otherwise the caller is told once, and its refusal is a stop |
| FileReader.Worker.Look | worker/emrtd_worker.c:1077-1107 | bytes are held back until the face is found, 512 are held, or the file ends; then all go to the export in order, the image armed first |
| FileReader.Worker.ReadBinaryAt | worker/emrtd_worker.c:729-779 | the short and the odd form, and one retry of a 6CXX at the length the chip named, cut to one frame |
| FileReader.Worker.ReadBinaryLong | worker/emrtd_worker.c:668-721 | past 32767 the offset travels in '54' and the bytes come back in '53'; past 65535 nothing is sent |
| FileReader.MatchMeansEqual | worker/emrtd_worker.c:869-909 | for a supported EF.SOD the verdict is Match exactly when it lists, for this group, SHA-256 of these bytes if its digests are 32 bytes long, SHA-1 if 20; with any other length never |
| FileReader.HonestSodDecides | worker/emrtd_worker.c:783-909 | an EF.SOD of either length whose first entry for the group has that length decides: Match if the entry is the digest of these bytes, Mismatch otherwise |
| FileReader.UndecidedMeans | worker/emrtd_worker.c:869-909 | the verdicts that decide nothing, and exactly when: nothing to compare with, a digest of no known kind or of another length than the entry, no entry for the group |
| FileReader.Worker.CheckHash | worker/emrtd_worker.c:869-909 | the verdict, and the two counters moved with it |
| FileReader.FindListed | protocol/emrtd_lds.c:868-878 | the first of at most sixteen listed hashes for a data group |
| FileReader.ParseBuffer.Append | worker/emrtd_worker.c:1063-1070 | the buffer holds everything offered, or it has overflowed and was offered more than it holds |
| FaceImage.HitIsFinal | protocol/emrtd_lds.c:292-339 | once some prefix yields a hit, every longer one yields the same offset and format |
| FaceImage.FindIsLeast | protocol/emrtd_lds.c:319-333 | a hit is the least place where a signature occurs whole, and without one no signature occurs |
| FaceImage.SignaturesInBytes | protocol/emrtd_lds.c:292-318 | which bytes begin a JPEG, a JP2 file and a JPEG 2000 codestream |
| FaceImage.FindImage | protocol/emrtd_lds.c:292-339 | the two nested loops compute the search |
| Export.Export.Write | worker/emrtd_export.c:311-349 | each file grows by exactly what the card took of its part of the chunk; the export fails exactly when one of the two writes was cut short, and then for good; until then the raw file is the stream and the image the stream from its offset |
| Export.Export.ArmImage | worker/emrtd_export.c:363-381 | only the first arming of a file counts, none after a failure, and the image is then open exactly when the card opened it |
| Export.Export.BeginFile | worker/emrtd_export.c:285-309 | a file is open and empty, with nothing armed, exactly when nothing failed before and the card opens it; otherwise the export has failed for good |
| Export.WindowOfStream | worker/emrtd_export.c:331-345 | cutting the image out chunk by chunk is cutting it out of the whole |
| FrameBudget.ChunkFits | worker/emrtd_worker.c:441-472 | an answer to a read of this size always fits the 253 bytes of the pollers' buffers, and with its three bytes of framing fits the frame size, 32 when none is given, if and only if that leaves room for any data |
| FrameBudget.ReadAnswerFits | transport/emrtd_transceiver.c:93-132 | the answer the chip really wraps, under either block size, fits one frame |
| FrameBudget.ChunkOf256 | transport/emrtd_transceiver.c:93-132 | with the reader's frame size of 256: 250 bytes in the clear, 224 under 3DES, 208 under AES |
| FrameBudget.ChunkInNumbers | worker/emrtd_worker.c:425-475 | the size of a read for every frame size and block size, in numbers |
| ReadRun.Run | worker/emrtd_worker.c:1749-1911 | however a read ends: the two counters are those of a recount; no percentage falls; no READ BINARY, EF.CardAccess included, asked for more than one frame; all the traffic is the opening and then, in order, that of each file reached: selected and streamed as its entry says when it was planned, none at all when it was absent, out of reach or deselected; the files not reached are untouched; what is present and what is hashed against are what EF.COM and EF.SOD decoded to; when files are left, a stop was asked for, no session was opened, or the last file's error ended the read |
| ReadRun.VerdictIsOfFile | worker/emrtd_worker.c:869-909 | when the chip served the file in that file's own leg and its first answer held the header, Match means exactly that EF.SOD lists, by SHA-256 or SHA-1 as the length of its digests says, the digest of the file's object |
| ReadRun.VerdictIsReadOut | worker/emrtd_worker.c:1220-1347 | every verdict in a read is about a data group whose SELECT was granted and whose stream did not fail, and about nothing but the bytes that stream got |
| ReadRun.NothingAfterLoss | worker/emrtd_worker.c:1732-1738 | once the link or the session is lost in an exchange, that exchange is the last of all, and its error is what ended the read |
| ReadRun.ReadDataGroups | worker/emrtd_worker.c:1681-1739 | the groups reached in order, each with the traffic it took; the loop stops early only at a stop, at a cancelled file, or at one that lost the link or the session, whose error and number are then the read's |
| ReadRun.ReadGroup | worker/emrtd_worker.c:1681-1731 | one group absent, out of reach or deselected without any traffic, or else selected and streamed as its entry says, right behind the traffic before it |
| ReadRun.Open | worker/emrtd_worker.c:1749-1841 | a session is opened exactly as access control answers to the bytes EF.CardAccess gave; otherwise a stop, the answer to the first command, or that refusal is the error; and the traffic is the SELECT, EF.CardAccess and the SELECT again, no more |
| OneFile.ReadFile | worker/emrtd_worker.c:1220-1347 | traffic, entry, export and error returned belong together: stopped before anything was sent, SELECT failed, SELECT refused, or all the traffic behind it that of one stream, whose bytes and end the entry is about; the file counts as done exactly when its SELECT was answered |
| OneFile.ReadSelected | worker/emrtd_worker.c:1258-1346 | entry, verdict and decoder's error are those of the bytes the stream got, kept only when they fit; only EF.COM changes what is present and only EF.SOD what is hashed |
| OneFile.DecodeKept | worker/emrtd_worker.c:1287-1314 | what overflowed the buffer is failed although read in full, and what fitted is decoded |
| OneFile.AccountsBounded | worker/emrtd_worker.c:869-909 | never more matches than comparisons, nor comparisons than files |
| OneFile.FileReadStill | worker/emrtd_worker.c:1220-1347 | what was said of a file stays true while later files are read |
| Transmission.Transmitter.Transmit | worker/emrtd_worker.c:485-600 | both buffers, session flag and session after one command are those of the line: the command in the clear or protected, a bare status word under a session ending it and wiping its keys, and otherwise the answer unprotected over itself |
| Transmission.SessionAnswers | worker/emrtd_worker.c:548-583 | with a session, whatever bytes arrive: an answer is handed up only under a checksum that verified, a bare two byte answer ends the session with its error, and nothing else ends it |
| Transmission.LineRefinesPlain | worker/emrtd_worker.c:485-600 | over a line whose two ends share a session, any command that fits is the plain command, and the session goes on |
| WireRead.NothingInTheClear | worker/emrtd_worker.c:548-578 | whatever is at the other end and whatever it answers: every command from the opening of the session to the end of the read goes out through the session |
| WireRead.EveryAnswerIsVerified | worker/emrtd_worker.c:580-600 | and every answer the read was given arrived under a checksum that verified in that session, at the counter it then had |
| ProtectedRead.StackRead | sim/emrtd_sim.c:961-1023 | through all the layers, an object whose header fits one piece is got whole if and only if its last piece begins where the even READ BINARY can name it; otherwise the read fails as unsupported, because the simulated document refuses the odd one |
| ProtectedRead.FileOverStack | sim/emrtd_sim.c:961-1023 | a file the document has not is entered as absent, and one that it has as what its stream got; neither loses the link or the session, and both ends stay in step |
| ProtectedRead.ProtectedRun | worker/emrtd_worker.c:1749-1911 | a whole read of the simulated document in session with the reader, when nobody asks for a stop: it reaches every file, ends without an error, and delivers every planned object within reach whole, hashed and decoded |
| CardAccess.ReadCardAccess | worker/emrtd_worker.c:1359-1445 | refused, it sends nothing more; granted, the rounds are a stream's up to its end unless a stop is seen, and buffer and exported file hold exactly what it got, cut to the buffer |
| ReadRun.PlanShrinks | worker/emrtd_worker.c:1667-1679 | what EF.COM announces never makes the plan longer than the default one |
| ReadRun.CountFiles | worker/emrtd_worker.c:1667-1679 | the loop counts EF.COM, EF.SOD and the data groups that are present, asked for and within reach: the cardinality of that set |
| Progress.PercentInNumbers | worker/emrtd_worker.c:281-294 | 25 before the first file and 90 after the last; a file begins at its share of the 65 between them and ends one file's share later |
| Progress.PercentGrows | worker/emrtd_worker.c:281-294 | more of a file never lowers the percentage |
| Progress.PercentWithinFile | worker/emrtd_worker.c:281-294 | nor does learning a file's size or finishing it |
| Progress.PercentReplanned | worker/emrtd_worker.c:1853-1868 | nor does replacing the plan by a shorter one after EF.COM |
| AccessSelection.WholeSearch | worker/emrtd_worker.c:1564-1662 | the drivers attempted are a prefix of the registry sorted stably by falling score without the unsupported ones, each at most once, and all of it when nothing ended the search; every attempt but the last failed on a chip that was still there and could be selected again, and a search that ended early opened, was stopped, or met one that was not |
| AccessSelection.HeldErrorReplacedOnce | worker/emrtd_worker.c:1600-1645 | over a whole search a held error is replaced at most once, and then only by what the first driver attempted said about the key |
| AccessSelection.ToldError | worker/emrtd_worker.c:1600-1645 | a search that opens nothing and is not cancelled reports the first attempt's error when that is a key verdict or nothing was held, and otherwise the first reason held |
| AccessSelection.OrderIsStableSort | worker/emrtd_worker.c:1587-1592 | the levels visited in turn are that stable sort, for a registry of any size |
| AccessSelection.Authenticate | worker/emrtd_worker.c:1587-1662 | the two loops with their early exits return the verdict of the search and the drivers it tried |
| AccessSelection.AuthenticatePinned | worker/emrtd_worker.c:1570-1582 | no other driver is attempted; the verdict and the attempt are those the automatic search would come to with that driver alone in the registry; an open session is its own |
| AuthenticatedSession.BacOpensSession | crypto/emrtd_bac.c:165-233 | after an honest run of BAC any number of commands through the session are as good as in the clear |
| AuthenticatedSession.PaceOpensSession | crypto/emrtd_pace.c:389-640 | and so after an honest run of PACE |
| BacAgreement.BacAgrees | sim/emrtd_sim.c:866-938 | same credentials, any state without a session, any four random values: the run succeeds and both sides hold the same keys and counter |
| AccessChip.BacKeysAre | crypto/emrtd_bac.c:73-113 | the keys of BAC come from the first sixteen bytes of SHA-1 over the printed characters: the encryption key with counter 1, the checksum key with counter 2 |
| Bac.HonestAnswerAccepted | crypto/emrtd_bac.c:165-233 | an honest answer opens the session of that chip's half of the secret |
| Bac.AcceptedIsHonest | crypto/emrtd_bac.c:165-233 | and no other bytes open one |
| Bac.RejectedBy | crypto/emrtd_bac.c:165-203 | an answer of another length than forty breaches the protocol; every other one that opens no session says that the key is wrong |
| Bac.MessageInBlocks | crypto/emrtd_bac.c:115-163 | E.IFD is RND.IFD, RND.IC and K.IFD under triple DES, block by block chained from zero, and M.IFD the Retail MAC over it and 80 and seven zeros |
| Bac.SessionInBytes | crypto/emrtd_bac.c:205-225 | the session's keys come from the halves of the secret exclusive-or, with the counters 1 and 2, and its counter begins with the last four bytes of RND.IC and then of RND.IFD |
| Bac.ChipRefuses | access/emrtd_access_bac.c:120-135 | a chip that answers the sealed message with any of 63XX says that the key is wrong; other words mean what they always do |
| Bac.NoChallenge | access/emrtd_access_bac.c:75-103 | without a challenge of eight bytes nothing more is sent, and the run ends with what was wrong |
| Bac.BuildExternalAuth | crypto/emrtd_bac.c:115-163 | E.IFD and M.IFD in the output buffer are the sealed message |
| Bac.Process | crypto/emrtd_bac.c:165-233 | the session object is written only after the checksum and both echoes are right |
| Bac.Authenticate | access/emrtd_access_bac.c:45-153 | credentials that cannot be used are refused before anything is sent and the session is left alone; then GET CHALLENGE, EXTERNAL AUTHENTICATE and their errors; a failure leaves no session |
| Credentials.LongNumbersAreRefused | protocol/emrtd_mrz.c:224-317 | of the document numbers accepted as entries, those of up to sixteen characters give a key and exactly the longer ones are refused for want of room |
| Credentials.EntriesInNumbers | access/emrtd_access.c:22-66 | the entries accepted: one to twenty capitals, digits or fillers, and two dates of six digits |
| Credentials.PasswordKeyIs | crypto/emrtd_pace.c:98-140 | the key of PACE's password: counter 3, over the CAN as typed or over SHA-1 of the printed characters |
| PaceAgreement.PaceAgrees | crypto/emrtd_pace.c:389-640 | same credentials, any nonce and ephemeral keys: the run succeeds if and only if the nonce maps to a generator at all, and then keys agree and both counters are zero; otherwise it is PaceFailed and neither side has a session |
| Pace.OnlyOnToken | crypto/emrtd_pace.c:547-640 | with any chip at all: a session is opened only when the token that came back is the checksum over the reader's own point under the session's key; its keys are those of the shared x coordinate with the counters 1 and 2, its counter is zero, and the reader's token was over the chip's point |
| Pace.GeneratorIs | crypto/emrtd_pace.c:494-545 | with any chip: the generator is what the decrypted nonce and the two points map to, and otherwise the run has failed as PACE |
| Pace.WrongToken | crypto/emrtd_pace.c:547-640 | with any chip: a point that does not decode, or a token that is not the one expected, is a failure of PACE |
| Pace.SetAtRefused | crypto/emrtd_pace.c:358-387 | a chip that does not take the protocol is asked nothing more |
| PaceAgreement.SomeNonceMayFail | crypto/emrtd_pace.c:541-545 | on a group of order five an honest run fails exactly when nonce and shared point cancel, and for all ephemeral keys there is such a nonce of any length |
| PaceAgreement.MapHonest | crypto/emrtd_pace.c:494-545 | nonce and mapping exchange leave both sides with the same generator |
| PaceAgreement.AgreeHonest | crypto/emrtd_pace.c:547-640 | key agreement and tokens leave both sides with the same session |
| PaceAgreement.TokenInputsAgree | crypto/emrtd_pace.c:150-189 | the reader's and the chip's own layout of the token input are the same bytes |
| Pace.TokenInputInBytes | crypto/emrtd_pace.c:150-189 | the token input in bytes: 7F49, the identifier behind 06 and the point behind 86 |
| PaceAgreement.AnswerIsRead | crypto/emrtd_pace.c:335-356 | the object the chip answers a round with is what the reader takes out of it |
| Pace.RunPace | crypto/emrtd_pace.c:389-673 | what the build cannot do is refused by name before anything is sent and the session is left alone; then the rounds compute the run, success leaves its session, and a failure of any kind leaves none |
| Pace.RefusedRound | crypto/emrtd_pace.c:257-270 | 63XX in answer to the token, and to nothing else, says that the key is wrong |
| Pace.PaceIo.RunRound | crypto/emrtd_pace.c:303-356 | one General Authenticate round: the object built in the send buffer, and the answer's object located in the receive buffer, with sizes and errors |
| Pace.PaceIo.BuildTokenInput | crypto/emrtd_pace.c:150-189 | the token input laid out in its buffer, refused exactly when malformed or too long |
| Pace.TokenInputFits | crypto/emrtd_pace.c:55-56 | the buffer has room for every identifier and point but the longest of both, and for all the curves there are |
| Pace.PaceIo.MakeToken | crypto/emrtd_pace.c:191-222 | the token over the buffer's content, padded where it lies for the Retail MAC |
| Pace.MakeTokens | crypto/emrtd_pace.c:575-607 | both tokens are made while the chip's point is still in the response buffer |
| AccessPort.Port.Send | transport/emrtd_transceiver.c:54-91 | serialise, exchange, decode; an answer without a status word or longer than the buffer is refused |
| AccessPort.AnswerTaken | transport/emrtd_transceiver.c:54-91 | an answer is taken exactly when it has two to 256 bytes, and any other is a breach of the protocol |
| Digests.AdjustedIsOdd | crypto/emrtd_kdf.c:15-27 | parity leaves the seven key bits alone and makes the number of ones odd |
| Digests.DerivedKey | crypto/emrtd_kdf.c:29-73 | a derived key is, byte by byte, the head of SHA-1 or SHA-256 over the secret and four bytes that end in the counter, as its suite asks; for triple DES the seven key bits of it, each byte with an odd number of ones |
| Digests.SessionKeysAre | crypto/emrtd_kdf.c:75-83 | the encryption key of a session has counter 1 and its checksum key counter 2 |
| CommandBytes.SelectFileSent | protocol/emrtd_files.c:14-40 | SELECT of every file, in bytes: EF.COM is 011E, EF.SOD 011D, data group n 0100 + n |
| CommandBytes.SelectApplicationSent | protocol/emrtd_apdu.c:141-151 | SELECT of the application, in bytes |
| CommandBytes.ReadBinarySent | protocol/emrtd_apdu.c:180-229 | READ BINARY in bytes: offset in P1 and P2 up to 15 bits, in '54' beyond, and the Le of either form |
| CommandBytes.BacSent | protocol/emrtd_apdu.c:161-178 | GET CHALLENGE for eight bytes and EXTERNAL AUTHENTICATE for forty, in bytes |
| CommandBytes.SetAtSent | crypto/emrtd_pace.c:358-387 | MSE:Set AT in bytes: the identifier in '80' and the password's reference in '83', 1 for the printed zone and 2 for the CAN |
| CommandBytes.GeneralAuthenticateSent | protocol/emrtd_apdu.c:243-257 | GENERAL AUTHENTICATE in bytes: an empty 7C or one with one object, and 10 in the class byte of a round that another follows |
| Errors.StatusInNumbers | emrtd_error.c:230-270 | which status words stand for which error, in numbers and with no others |
| Mrz.CheckDigitRanges | protocol/emrtd_mrz.c:57-75 | weighing stretches with one running weight is weighing them joined |
| Mrz.CheckDigitInNumbers | protocol/emrtd_mrz.c:22-83 | the check digit of a printable string is the last decimal digit of 7 A + 3 B + C, the plain sums of the values at positions 0, 1 and 2 modulo 3; nothing else has one |
| Mrz.ValuesInNumbers | protocol/emrtd_mrz.c:24-56 | the digits stand for 0 to 9, the letters for 10 to 35, the filler for 0 |
| Mrz.ReplacementDetected | protocol/emrtd_mrz.c:57-83 | replacing a character changes the digit exactly when the values differ modulo ten |
| Mrz.SwapDetected | protocol/emrtd_mrz.c:57-83 | swapping neighbours changes it exactly when they differ modulo five |
| MrzZone.BuiltZoneParses | sim/emrtd_sim.c:165-196 | the zone built for a passport parses to its number, dates, holder, type and states with every digit valid, for every number of one to nine characters without fillers |
| MrzLayouts.Td1Parses | protocol/emrtd_mrz.c:447-475 | the zone of an identity card laid out field by field is read back, every digit valid, for every number of up to twenty characters, those continued in the optional data included |
| MrzLayouts.Td2Parses | protocol/emrtd_mrz.c:406-446 | and that of the larger size, whose optional data is empty when a number goes on in it |
| MrzLayouts.Td3Parses | protocol/emrtd_mrz.c:373-405 | and a passport's, with any issuer, nationality and optional data |
| MrzLayouts.Td1InOrder | protocol/emrtd_mrz.c:447-475 | a card's zone is in order exactly when its four digits agree with the places they are printed for |
| MrzLayouts.Td2InOrder | protocol/emrtd_mrz.c:406-446 | and so for the larger size |
| MrzLayouts.Td3InOrder | protocol/emrtd_mrz.c:373-405 | and for a passport, whose optional data has a digit of its own |
| MrzLayouts.AlteredDate | protocol/emrtd_mrz.c:57-83 | two zones of one layout whose dates differ in one character of another value before the same digit are not both in order, whatever else differs |
| MrzZone.ParseZone | protocol/emrtd_mrz.c:491-541 | separators dropped, the length decides the layout, more than ninety characters are refused, and every field is where its layout has it |
| MrzNames.PrintedNamesRead | protocol/emrtd_mrz.c:131-199 | surname and given names of words parted by single spaces, printed with any padding, are read back |
| MrzNames.CopyName | protocol/emrtd_mrz.c:131-199 | the first run of two fillers parts the identifiers |
| MrzNames.CopyIdentifier | protocol/emrtd_mrz.c:158-199 | leading fillers dropped, inner ones spaces, cut to the room there is, trailing spaces dropped |
| MrzZone.CopyCompact | protocol/emrtd_mrz.c:111-122 | a field without its fillers, cut to the room there is |
| MrzZone.InformationIsPrinted | protocol/emrtd_mrz.c:224-317 | what is typed, in either case, gives the very characters the zone prints |

## Left out

- Waiting itself: what times the reader arms is in `IsoDepTiming`, but the block protocol has no clock; a timeout is one of the two ways a frame can be lost.
- CID and NAD are accepted in received blocks as the code does; the reader never sends them.
- IsoDepSession.ExactlyOnce: speaks of exchanges that begin in lockstep; nothing is said of an exchange after a failed one, and the code promises nothing there.
- IsoDepSession.LossTolerance: assumes an answer of at most 64 blocks that fits the caller's buffer, which is what the code can carry at all.
- SmRefinement.UnwrapInvertsEnvelope: Le above 256 in Secure Messaging is not part of the claim, because the chip's half reads only a one byte DO'97'.
- Failure of a cryptographic primitive or of a memory allocation, and NULL arguments: the primitives are total functions, and pointers are always there.
- mbed TLS: DES, AES, the digests, the curves and their domain parameters are abstract, with the laws written at `Cipher.Lawful`, `Digests.LawfulHashes` and `AccessChip.LawfulCurve`.
- Wiping of secrets and comparison in constant time: comparison is equality, and only wiping that leaves a visible result (the plaintext of a response without padding marker) is modelled.
- Exclusive or is defined bit by bit on numbers below 256; `&` and `|` with constants are bit vector operations.
- size_t is 32 bits wide where it matters, in the length of a TLV node and the parked cursor; other lengths are unbounded and bounded by their buffers.
- Parsing of EF.SOD, EF.COM and the data groups beyond their use here: `OneFile.Decoders` stands for it, and any result it may give is allowed.
- What access control exchanges during a whole read: there it is a parameter, a function of the bytes EF.CardAccess gave, and the run of the protocols is modelled on its own.
- Transmission.SessionAnswers: says that the checksum verified; a response that carries no DO'99' is given the outer status word, which no checksum covers, as the code does.
- ProtectedRead.ProtectedRun: the document is in session with the reader from the opening on, as `AuthenticatedSession` leaves the two; a file that does not begin with one object is read, but what its entry says is not part of the claim.
- An export that was never wanted behaves as one that failed from the start; directory names, the report and the trace are not modelled.
- Incremental hashing: a digest is the abstract function of the bytes fed in order, and feeding cannot fail.
- FrameBudget.ReadAnswerFits: counts answers that obey the Le asked for, as ISO/IEC 7816-4 has a chip do.
- AccessChip models the simulated chip until a session exists; from then on the chip is `SimChip`. Its frame size limits are left out (what fits them is in `FrameBudget`), and curves are those the build computes on, of at most 32 byte coordinates.
- The Diffie-Hellman and integrated mapping variants of PACE, which the reader refuses by name before any exchange; parsing of the announcement itself.
- PaceAgreement.PaceAgrees: the password's key is a parameter equal on both sides; that the reader derives it from its credentials is in `Pace.RunPace`.
- The type B transport, the pollers, threads, the user interface, settings, icons and scripts.
