# Verified models of the tablet's drivers and image tools

A Dafny 4.11 project beside the Samsung Galaxy Tab S9 port. `dafny verify dfyconfig.toml` checks all of it. It
models and proves properties of eleven components:

- **The K250A secure-element link** (`T1*.dfy`, `Star*.dfy`, `EseData.dfy`, `Kmem.dfy`): the T=1 block protocol
  of section 11.6 of ISO/IEC 7816-3, the APDU chain engine that drives it, and the heap list that collects the
  response. `T1.dfy` gives the driver as a value and its transitions; `T1Link.dfy` puts it opposite a conforming
  card on a channel that loses and corrupts blocks; `T1Session.dfy` strings exchanges together, up to a whole
  chain; `T1Failure.dfy` and `T1Ledger.dfy` add the exchanges that fail; `T1Answers.dfy` gives the bytes of every answer;
  `T1Progress.dfy` and `T1Completion.dfy` say when an exchange completes; `T1Cursor.dfy` and `T1Recovery.dfy` follow the
  I-block cursor and bound the retries; `T1Driver.dfy` is the object with its loops, tied to the transitions.
- **The SPSS transport** (`Glink*.dfy`, `Spcom*.dfy`): the shared byte ring, as an object and as two processes
  that interleave byte by byte; and the SPCOM channel protocol on its ioctl path: transaction ids, the shared
  lock handed from sender to receiver, client tables, control opens and pinned buffers.
- **Image writers** (`LittleEndian.dfy`, `ImageLayout.dfy`, `BootImage*.dfy`, `VendorBoot*.dfy`, `Bdf*.dfy`):
  boot images of header versions 0 to 2, vendor boot images of version 4, and board-2.bin.
- **Hardware interlocks** (`Sm5440*.dfy`, `Sm5714*.dfy`, `Panel*.dfy`, `SpHlosHeap*.dfy`): the charge pump, the
  power path, the panel's fingerprint mode, and memory shared with the secure processor.

How a component is laid out, one module a file: a module of value-level transitions (`…Spec`), a module with the
properties of every run or every interleaving (`…Runs`), and a module with the object, array or loop the source has,
whose methods are proved to compute those transitions. The environment is an input everywhere: answers of devices, bus failures, packets
and the scheduler's choices are parameters of a step, so a for-all statement over runs is a statement over all
environments. `Bytes.dfy` and `Options.dfy` hold shared definitions.

Where a promised property does not hold of the code, the model keeps the code, shows a concrete input, and proves when
it does hold:

- a shared SPCOM lock can be released twice by two get-message calls of one process
  (`SpcomLock.CheckIsSafeExactly`, `SpcomLock.DeinitIsSafeExactly`, `SpcomLock.TwoCollectorsReleaseAnothersLock`);
- a pump that cannot be switched off is still on when the fixed contract is requested
  (`Sm5440Runs.PumpParkedExactly`, `Sm5440Runs.FailedClearRequestsWhilePumping`);
- the thermal state is read and written by two threads without a common lock, and a failed read ends the follow-up
  (`Sm5714Runs.StopStepExactly`, `Sm5714Runs.HysteresisStepExactly`, and the counterexamples in `Sm5714Races.dfy`);
- board data that ends in an empty body is not read back (`BdfSpec.RoundTripExactly`);
- a swap of board data rewrites other entries, against `tools/bdftool.py:10-12`, unless they are canonical as they stand
  (`BdfBytes.OthersPreservedExactly`, `BdfBytes.FilePreservedExactly`, `BdfBytes.UnalignedIsRewritten`);
- a repeated ack keeps the T=1 receive loop alive, 48 rounds at a time (`T1Recovery.LoopLastsExactly`,
  `T1Recovery.StaleAckNeverEnds`);
- a T=1 driver whose first frame did not go out sends that APDU in place of the next one, and nothing at all if it was
  empty (`T1Failure.ExecutesAskedExactly`, `T1Failure.FirstRefusedStays`);
- an exchange can come to a point from which nothing completes it (`T1Completion.CompletableExactly`,
  `T1Completion.GrantLosesBlock`);
- an exchange that breaks off can leave the two ends out of step (`T1Failure.AgreeSurvivesExactly`), and can be reported
  as a success with a part of the response (`T1Failure.PartPassesForWholeExactly`,
  `T1Failure.FirstChunkPassesForResponse`).

## Model

| member | source | states |
|---|---|---|
| T1Link.ExactlyOnce | kernel/files/snvm/protocol/ese_iso7816_t1.c:78-456 | over every run of one exchange with losses, corruption, retransmissions and card repeats, the bytes the card accepted are a prefix of the APDU at a chunk boundary and the packets the host holds are a prefix of the card's response |
| T1Link.CompleteRun | kernel/files/snvm/protocol/ese_iso7816_t1.c:619-648 | a run whose last block is the expected unchained I-block, and only such a run, leaves the host with the whole response and the card with the whole APDU |
| T1Session.SessionExactlyOnce | kernel/files/snvm/protocol/ese_iso7816_t1.c:587-648 | over any number of exchanges, each with losses, repeats and retransmissions, the card executes every APDU exactly once and in order, and the driver hands over the card's response to each, in order |
| T1Session.ExchangeAgrees | kernel/files/snvm/protocol/ese_iso7816_t1.c:78-115 | a completed exchange delivers both ways and leaves both ends with the same next sequence number in each direction |
| T1Session.PlansAreCalledFor | kernel/files/snvm/sec_star.c:111-182 | the APDUs of exchanges that take each element in turn, again as long as its expectation says so, are those the chain calls for given the responses |
| T1Session.ChainExactlyOnce | kernel/files/snvm/sec_star.c:110-206 | a whole star_transceive chain over the lossy link, the exchanges built from the chain: the card executes exactly the APDUs the chain calls for, each as often as its expectation asks, and the reply is the card's responses joined, or an error if the exchanges end before the chain does |
| T1Failure.SendActsFor | kernel/files/snvm/protocol/ese_iso7816_t1.c:587-617 | a send between two calls acts as an idle driver's for the APDU it carries: the one given when idle, else the one it still holds; it fails by itself exactly when that is empty |
| T1Failure.FirstRefusedStays | kernel/files/snvm/protocol/ese_iso7816_t1.c:587-617 | after any number of sends whose frames the bus refused, the next one, whatever APDU it is given, offers the first APDU's frame again, and fails by itself exactly when that APDU was empty |
| T1Failure.ExecutesAskedExactly | kernel/files/snvm/protocol/ese_iso7816_t1.c:587-648 | a completed exchange executes the APDU asked for if and only if the driver was idle or held that same APDU |
| T1Failure.AgreeSurvivesExactly | kernel/files/snvm/protocol/ese_iso7816_t1.c:619-648 | after an exchange that broke off both ends still agree on the next numbers if and only if the card has taken the block under the host's cursor and the host the chunk the card was sending |
| T1Failure.IdleExactly | kernel/files/snvm/protocol/ese_iso7816_t1.c:254-456 | short of the end of the response the driver goes idle on a sound block exactly when a retry too many was needed or an S-block ends the exchange, and that moves no sequence number |
| T1Failure.PartPassesForWholeExactly | kernel/files/snvm/protocol/ese_iso7816_t1.c:619-648 | a part of the response is reported as success if and only if the driver gave up on a sound block while it held bytes |
| T1Failure.FirstChunkPassesForResponse | kernel/files/snvm/protocol/ese_iso7816_t1.c:286-295 | it happens with a conforming card, whatever the response of more than one chunk: its first chunk is repeated until the retries are spent, and the caller gets that chunk as the response |
| T1Ledger.EveryCallIsFaithful | kernel/files/snvm/protocol/ese_iso7816_t1.c:587-648 | over any number of calls, each of which may break off anywhere as long as both ends then agree: each executes a front of its own APDU and hands over a front of its own response, and a whole one all of both |
| T1Ledger.ResumesExactly | kernel/files/snvm/protocol/ese_iso7816_t1.c:619-648 | after a call, whole or broken off, the next one starts rested and in agreement if and only if no packet without a byte stays behind and each end has taken what the other sent |
| T1Ledger.UnfinishedApduGrows | kernel/files/snvm/protocol/ese_iso7816_t1.c:587-599 | a card that still waits for the rest of a broken APDU takes the next APDU's first block for it exactly when its number is the expected one |
| T1Link.StepKeeps | kernel/files/snvm/protocol/ese_iso7816_t1.c:458-648 | one round keeps host and card in step or ends the exchange, and the host then holds the whole response exactly if the expected unchained chunk arrived in that round |
| T1Link.RunKeeps | kernel/files/snvm/protocol/ese_iso7816_t1.c:458-648 | the in-step invariant over runs of any length |
| T1Link.ChunksPartition | kernel/files/snvm/protocol/ese_iso7816_t1.c:78-115 | the first k I-blocks carry exactly the first 254*k bytes of the APDU, and all of them carry all of it |
| T1Link.IFrameParses | kernel/files/snvm/protocol/ese_iso7816_t1.c:207-252 | the k-th I-frame parses back to its chunk, its alternating N(S) and the chain bit set on all but the last; it fits the 260-byte buffer and passes the LRC check |
| T1Link.RFrameParses | kernel/files/snvm/protocol/ese_iso7816_t1.c:180-205 | an R-frame parses back to the N(R) the host expects next |
| T1Link.SFrameParses | kernel/files/snvm/protocol/ese_iso7816_t1.c:127-178 | every S-frame without data parses back as an S-block |
| T1Link.IBlockKeeps | kernel/files/snvm/protocol/ese_iso7816_t1.c:263-295 | an I-block is taken exactly when it is the expected one; a duplicate changes no data |
| T1Link.RBlockKeeps | kernel/files/snvm/protocol/ese_iso7816_t1.c:296-387 | the send cursor moves exactly on the error-free R-block that acknowledges the block under it |
| T1Link.SBlockKeeps | kernel/files/snvm/protocol/ese_iso7816_t1.c:388-449 | an S-block other than a RESYNCH request moves neither cursor |
| T1Link.NoiseKeeps | kernel/files/snvm/protocol/ese_iso7816_t1.c:511-582 | silence, a wrong address or a bad LRC moves neither cursor |
| T1Link.TransmitKeeps | kernel/files/snvm/protocol/ese_iso7816_t1.c:598-616 | what is sent is the frame of the current state, and sending keeps the host's side of the invariant |
| T1Link.CardKeeps | kernel/files/snvm/protocol/ese_iso7816_t1.c:302-308 | the conforming card, which accepts only the expected N(S) and repeats its last answer otherwise, keeps its side of the invariant |
| T1Link.BeginKeeps | kernel/files/snvm/protocol/ese_iso7816_t1.c:587-599 | handing an APDU to an idle driver establishes the invariant |
| T1Cursor.CursorStep | kernel/files/snvm/protocol/ese_iso7816_t1.c:254-456 | through any event but a RESYNCH request, state agrees with the pending frame, the I-block cursor stays or advances exactly on its ack, and a retransmitted I-block is byte-identical |
| T1Cursor.CursorRun | kernel/files/snvm/protocol/ese_iso7816_t1.c:78-115 | over every run each I-block sent repeats the one before it or is the one that follows it |
| T1Answers.AnswerToNack | kernel/files/snvm/protocol/ese_iso7816_t1.c:314-368 | an R-block with error code 1 or 2 puts the last I-block on the wire again, byte for byte, if the host sent it last, or sent an error R-block in its place and the card names it; else an R-block, without an error code exactly if a new chunk was asked for last and the card does not name the I-block; else the S-block again; three times at most |
| T1Answers.AnswerToMissedStart | kernel/files/snvm/protocol/ese_iso7816_t1.c:369-377 | error code 3 brings the same frame again, whatever it was, three times at most |
| T1Answers.AnswerToAck | kernel/files/snvm/protocol/ese_iso7816_t1.c:302-313 | an ack of the last I-block brings the next one, 254 bytes further on, with the other N(S) and the chain bit exactly if more than 254 bytes are left; any other ack the same frame again |
| T1Answers.AnswerToChunk | kernel/files/snvm/protocol/ese_iso7816_t1.c:263-295 | a new chunk is kept and acknowledged with the number behind it, or ends the exchange; one the host has is refused with error code 2, three times at most |
| T1Answers.AnswerToS | kernel/files/snvm/protocol/ese_iso7816_t1.c:388-449 | a WTX request is granted, or brings a waiting S-block again; responses to RESYNCH and ABORT end the exchange; every other S-block brings the same frame again |
| T1Answers.AnswerToResynch | kernel/files/snvm/protocol/ese_iso7816_t1.c:396-404 | a RESYNCH request is answered, and both numbers are as in a new driver |
| T1Answers.AnswerToGarbage | kernel/files/snvm/protocol/ese_iso7816_t1.c:511-533 | a bad LRC is answered with error code 1 and a wrong address with 2, both naming the chunk awaited, twice at most |
| T1Answers.AnswerToSilence | kernel/files/snvm/protocol/ese_iso7816_t1.c:534-582 | silence brings the same frame again three times; behind a WTX or RESYNCH answer an error R-block, twice |
| T1Answers.PcbBytes | kernel/files/snvm/protocol/ese_iso7816_t1.c:127-205 | the PCB byte of every R- and S-frame the driver can build |
| T1Answers.SoundBlockClears | kernel/files/snvm/protocol/ese_iso7816_t1.c:511-519 | any sound block clears the counters of garbage and of silence |
| T1Answers.RBlockCounts | kernel/files/snvm/protocol/ese_iso7816_t1.c:302-387 | an error-free R-block clears the counter of recoveries, one with an error code counts one more, up to three |
| T1Answers.ChunkCounts | kernel/files/snvm/protocol/ese_iso7816_t1.c:269-295 | a new chunk clears it, a repeated one counts one more |
| T1Answers.NoiseCounts | kernel/files/snvm/protocol/ese_iso7816_t1.c:511-582 | garbage is counted up to two and silence up to three, each cleared when the driver gives up; a block of garbage breaks the silence |
| T1Answers.ResetForgets | kernel/files/snvm/protocol/ese_iso7816_t1.c:58-76 | a reset leaves an idle driver without a buffer, every number 1 and every counter zero; received packets stay |
| T1Answers.FirstNumberAfterReset | kernel/files/snvm/protocol/ese_iso7816_t1.c:58-94 | the first block behind a reset has number 0 and starts the APDU given, whatever came before |
| T1Progress.LosslessRunCompletes | kernel/files/snvm/protocol/ese_iso7816_t1.c:619-648 | once nothing more is lost, an exchange that is alive completes in exactly one round for each block either end still lacks, and one more if the card must first learn that the host has its chunk |
| T1Progress.EveryExchangeCanComplete | kernel/files/snvm/protocol/ese_iso7816_t1.c:587-648 | every exchange, whatever its lengths, completes over a lossless link in as many rounds as both messages have blocks, less one |
| T1Completion.CompletableExactly | kernel/files/snvm/protocol/ese_iso7816_t1.c:254-648 | at any point of any exchange, after any losses: some behaviour of card and link still completes it if and only if the card has the block under the host's cursor or is being sent it, or the host last sent that block or error R-blocks in its place and can still be nacked |
| T1Completion.GrantLosesBlock | kernel/files/snvm/protocol/ese_iso7816_t1.c:418-442 | it can be lost: a card that asks for more time before it has the first block never gets that block |
| T1Completion.NackedBlockArrives | kernel/files/snvm/protocol/ese_iso7816_t1.c:314-341 | a card that nacks the block under the cursor and hears the next round has exactly that chunk more |
| T1Recovery.FailingRoundDescends | kernel/files/snvm/protocol/ese_iso7816_t1.c:511-584 | every failing round lowers the retries left in the order recovery, nack, timeout, or ends the exchange |
| T1Recovery.StreakIsShort | kernel/files/snvm/protocol/ese_iso7816_t1.c:625-638 | fewer than 48 failing rounds in a row, from every driver state |
| T1Recovery.StreakBoundIsSharp | kernel/files/snvm/protocol/ese_iso7816_t1.c:625-638 | the bound is reached: some events keep the loop busy for exactly as many failing rounds as the counters leave |
| T1Recovery.OneUnit | kernel/files/snvm/protocol/ese_iso7816_t1.c:511-582 | there is always a failing event that costs exactly one unit |
| T1Recovery.CountersStayInRange | kernel/files/snvm/protocol/ese_iso7816_t1.c:286-387 | no event drives a retry counter past its limit |
| T1Recovery.StaleAckNeverEnds | kernel/files/snvm/protocol/ese_iso7816_t1.c:302-313 | why error-free R-blocks are outside that bound: an ack that names the block already sent can be repeated for any number of rounds without ending the loop |
| T1Recovery.StaleAckRound | kernel/files/snvm/protocol/ese_iso7816_t1.c:302-313 | one such round leaves state and last frame as they were |
| T1Recovery.LoopLastsExactly | kernel/files/snvm/protocol/ese_iso7816_t1.c:619-648 | how long the receive loop can be kept alive: n rounds, at most g of them not failing, are possible if and only if n is at most the retries left plus 48 for each of the g |
| T1Recovery.FruitfulRoundsBuyTime | kernel/files/snvm/protocol/ese_iso7816_t1.c:511-584 | over every surviving run and from every state with counters in range, the rounds are at most the retries left plus 48 for each one that does not fail |
| T1Driver.ComputeLrc | kernel/files/snvm/protocol/ese_iso7816_t1.c:34-43 | the loop computes the exclusive or of the range |
| T1Driver.CheckLrc | kernel/files/snvm/protocol/ese_iso7816_t1.c:45-56 | accepts exactly the blocks whose last byte is the LRC of the others |
| T1Lrc.XorBitExactly | kernel/files/snvm/protocol/ese_iso7816_t1.c:34-43 | the redundancy code is built from the exclusive or, bit by bit |
| T1Lrc.OneWrongByteNoticed | kernel/files/snvm/protocol/ese_iso7816_t1.c:45-56 | a sound frame in which any one byte is replaced by another is never sound |
| T1Driver.Protocol.ResetParams | kernel/files/snvm/protocol/ese_iso7816_t1.c:58-76 | idle, all counters zero, no buffer held, and every sequence number 1, so that the next I-block each way is number 0; received packets stay |
| T1Driver.Protocol.SetIFrame | kernel/files/snvm/protocol/ese_iso7816_t1.c:78-94 | the next frame is the first chunk: offset 0, at most 254 bytes, the chain bit exactly when more than 254 are left, N(S) the other one than last sent |
| T1Driver.Protocol.NextIFrame | kernel/files/snvm/protocol/ese_iso7816_t1.c:96-115 | the next frame is the chunk 254 bytes behind the last one sent, of the same buffer, with the other N(S) and the chain bit exactly when more than 254 bytes are left |
| T1Driver.Protocol.FinishRecovery | kernel/files/snvm/protocol/ese_iso7816_t1.c:117-125 | idle with the recovery counter cleared, nothing else |
| T1Driver.Protocol.DecodeIBlock | kernel/files/snvm/protocol/ese_iso7816_t1.c:263-295 | a new N(S) is taken: its bytes join the heap list, chained blocks are acknowledged and the last ends the exchange; a repeated one spends a recovery attempt on an R-block with an error code, or gives up after three |
| T1Driver.Protocol.DecodeRBlock | kernel/files/snvm/protocol/ese_iso7816_t1.c:296-387 | an error-free R-block for the next number moves to the next chunk, for the same number leaves the pending frame; what error codes 1, 2 and 3 make pending is what `T1Answers.AnswerToNack` and `T1Answers.AnswerToMissedStart` find on the wire |
| T1Driver.Protocol.DecodeSBlock | kernel/files/snvm/protocol/ese_iso7816_t1.c:388-449 | RESYNCH request: reset and answer; RESYNCH or ABORT response: idle; WTX request: answer, unless another S-block is waiting for its answer, which is then repeated; everything else changes no frame |
| T1Driver.Protocol.DecodeFrame | kernel/files/snvm/protocol/ese_iso7816_t1.c:254-456 | bits 7 and 6 of the PCB byte decide alone which of the three decoders takes the block |
| T1Driver.Protocol.PollAddress | kernel/files/snvm/protocol/ese_iso7816_t1.c:464-490 | up to a hundred polls of the address byte: no byte is silence; 0 is polled over; any other byte than the address, and a hundred zeros, are a bad address; behind the address stands a whole block |
| T1Driver.Protocol.Process | kernel/files/snvm/protocol/ese_iso7816_t1.c:458-585 | a sound block clears the timeout and nack counters and is decoded; a bad LRC or address asks for the block again, twice at most; silence repeats the last frame three times, or asks again behind a WTX or RESYNCH answer; the status is success exactly for a sound block |
| T1Driver.Protocol.Transmit | kernel/files/snvm/protocol/ese_iso7816_t1.c:598-616 | the pending frame becomes the last one; the bytes are those of the I-, R- or S-frame the state asks for, and it fails exactly when idle or when the I-frame has no byte or no buffer |
| T1Driver.Protocol.Send | kernel/files/snvm/protocol/ese_iso7816_t1.c:587-617 | an idle driver loads the APDU and offers its first chunk; any other offers its pending frame, whatever APDU it is given |
| T1Driver.Protocol.Receive | kernel/files/snvm/protocol/ese_iso7816_t1.c:619-648 | the loop goes round until the driver is idle; it hands over the packets joined and empties the list, whenever that is a byte at least, and reports success exactly if, besides, the last round did |
| T1Driver.Protocol.constructor | kernel/files/snvm/protocol/ese_iso7816_t1.c:726-752 | initial sequence numbers, idle state, empty list |
| StarSpec.AcceptedChain | kernel/files/snvm/sec_star.c:110-206 | for every chain, well formed or not, and every sequence of card responses the reply is each intermediate or "again" response without its last two bytes, then the final or first mismatching response whole; the call fails exactly when the link fails, or an element cannot be read or sent, before the chain is done |
| StarSpec.SizesRejectedExactly | kernel/files/snvm/sec_star.c:129-132 | the 32-bit check with its wrap-around rejects exactly the sizes that do not fit |
| StarSpec.NotAccepted | kernel/files/snvm/sec_star.c:112-165 | with an element in the chain that cannot be read or sent, a reply is only possible because the last response taken mismatches the element that asked for it |
| StarSpec.RunFromJoins | kernel/files/snvm/sec_star.c:111-203 | the same from any point of the chain, with what is stored already |
| StarEncoding.ChainReadsBack | kernel/files/snvm/sec_star.c:97-140 | reading the encoded commands gives them back: every chain of commands whose numbers fit their words, with every kind of expectation field |
| StarEncoding.MismatchExactly | kernel/files/snvm/sec_star.c:155-166 | a response is accepted if and only if it is some body with the expected suffix behind it, and the round is repeated exactly if bit 1 of the flag word is set |
| StarEncoding.SuffixStored | kernel/files/snvm/sec_star.c:168-198 | of such a response the body is stored, and the suffix but for its last two bytes |
| StarEncoding.ReplyIsBodies | kernel/files/snvm/sec_star.c:72-207 | the reply to an encoded chain: the bodies of the responses without their status words, in order, then the response that ended the chain whole |
| StarEncoding.RepliesExactly | kernel/files/snvm/sec_star.c:72-207 | there is a reply if and only if every command before the last one reached was answered as it expects, the last one was repeated only by its flag, and it ended the chain by a mismatch or as the last command; else the call fails with -5 |
| StarEncoding.RefusedAtOnceExactly | kernel/files/snvm/sec_star.c:91-108 | no command, one shorter than its count, and counts of 0 or above 257 are refused with -2, -3 and -4, and nothing else is |
| Star.ReadElementAt | kernel/files/snvm/sec_star.c:112-139 | reads and checks one element; cursor plus remaining size is conserved |
| Star.ExchangeOnce | kernel/files/snvm/sec_star.c:142-153 | one send and receive; a failed receive frees what it handed over |
| Star.StoreResponse | kernel/files/snvm/sec_star.c:168-198 | an intermediate response is stored without its status word or freed, a final one stored whole |
| Star.ExchangeElement | kernel/files/snvm/sec_star.c:141-182 | the "again" loop for one element: the response that ends it is the first that mismatches or does not ask for another round, every one before it is stored without its status word, and no buffer means that a send or receive failed |
| Star.RunChain | kernel/files/snvm/sec_star.c:111-199 | the chain loop from the first element: it fails exactly when an element cannot be read or exchanged, and otherwise the list holds the responses `StarSpec.AcceptedChain` describes |
| Star.Transceive | kernel/files/snvm/sec_star.c:72-207 | for every command and every sequence of responses the return code and the reply are those of `StarSpec.AcceptedChain`, and the only block that outlives the call is the reply |
| EseData.DataList.Store | kernel/files/snvm/protocol/ese_data.c:78-111 | appends one packet, copied or adopted; head size stays the sum of the node sizes |
| EseData.DataList.Append | kernel/files/snvm/protocol/ese_data.c:103-109 | walks to the tail and links the node there |
| EseData.DataList.Join | kernel/files/snvm/protocol/ese_data.c:25-44 | copies the packets one behind the other |
| EseData.DataList.Get | kernel/files/snvm/protocol/ese_data.c:113-151 | a fresh buffer with all packets joined and an empty list, or an error and an unchanged list when the total is zero |
| EseData.DataList.Delete | kernel/files/snvm/protocol/ese_data.c:153-175 | every node and buffer is freed exactly once |
| GlinkInterleaving.RefinesQueue | kernel/files/spu/qcom_glink_spss.c:61-175 | under every action of writer and reader, whatever stale snapshots they hold, the ring is an unbounded byte queue: publishing appends message and filler, advancing drops from the front, nothing else changes it |
| GlinkInterleaving.NextKeeps | kernel/files/spu/qcom_glink_spss.c:61-175 | every action keeps the ring in order; a copy in progress never lands on an unread byte |
| GlinkInterleaving.PeekReadsQueue | kernel/files/spu/qcom_glink_spss.c:76-94 | a peek within what the reader measured reads the queue at any later moment |
| GlinkInterleaving.StreamIsMessages | kernel/files/spu/qcom_glink_spss.c:154-175 | in every interleaving the published stream is exactly the messages in order, each with its filler |
| GlinkInterleaving.ReaderTakesStream | kernel/files/spu/qcom_glink_spss.c:76-109 | in every interleaving the bytes peeked before each advance, one after the other, are the stream between where the reader stood and where it stands |
| GlinkInterleaving.DeliveredInOrder | kernel/files/spu/qcom_glink_spss.c:61-175 | from the empty ring, whatever its memory holds, what the reader has taken is the start of the published messages, framed and in order |
| GlinkInterleaving.AvailMeasures | kernel/files/spu/qcom_glink_spss.c:61-132 | the two avail computations measure the stream exactly |
| GlinkPipe.NeverFull | kernel/files/spu/qcom_glink_spss.c:111-175 | a write within tx_avail leaves head aligned and below length, raises rx_avail by exactly the aligned size, and full is never taken for empty |
| GlinkPipe.ReserveHoldsReadNotify | kernel/files/spu/qcom_glink_spss.c:111-132 | the reserve always leaves room for the read-notify request |
| GlinkPipe.AlignedHead | kernel/files/spu/qcom_glink_spss.c:154-175 | rounding up the wrapped head is wrapping the rounded-up size |
| GlinkPipe.Published | kernel/files/spu/qcom_glink_spss.c:154-175 | moving the head puts the message behind what is queued |
| GlinkPipe.Pipe.RxAvailable | kernel/files/spu/qcom_glink_spss.c:61-74 | the number of queued bytes |
| GlinkPipe.Pipe.RxPeek | kernel/files/spu/qcom_glink_spss.c:76-94 | copies the queue's bytes, in one piece or two, and nothing else |
| GlinkPipe.Pipe.RxAdvance | kernel/files/spu/qcom_glink_spss.c:96-109 | drops exactly the bytes from the front |
| GlinkPipe.Pipe.TxAvailable | kernel/files/spu/qcom_glink_spss.c:111-132 | the writer's offer, with its reserve |
| GlinkPipe.Pipe.TxWriteOne | kernel/files/spu/qcom_glink_spss.c:134-152 | copies into the ring in one piece or two and touches nothing else |
| GlinkPipe.Pipe.TxWrite | kernel/files/spu/qcom_glink_spss.c:154-175 | header and data follow what is queued, the queue grows by exactly the aligned size |
| SpcomRxRuns.NeverStale | kernel/files/spu/spcom.c:520-602 | over every run of sends, receptions, timeouts, interruptions and wakeups with one outstanding transaction, a packet handed over carries the current id and, below 2^32 ids, answers the latest request |
| SpcomRxRuns.SleeperIsWoken | kernel/files/spu/spcom.c:3649-3691 | in every run a reader that sleeps on a channel holding a packet can come back at once, with that packet |
| SpcomRxRuns.AnswerWakesExactly | kernel/files/spu/spcom.c:3649-3691 | an answer that arrives while the reader sleeps wakes it and is handed over if and only if it answers the current request, which is the latest one while fewer than 2^32 ids have been drawn |
| SpcomRxRuns.WokenExactly | kernel/files/spu/spcom.c:3649-3691 | a reader that has just gone to sleep is woken by the packets that arrive if and only if one of them carries the current id |
| SpcomRxRuns.EveryPacketWakesServer | kernel/files/spu/spcom.c:3649-3691 | a server's sleeping reader is woken by every packet and comes back with the last of them |
| SpcomRxRuns.EnterExactly | kernel/files/spu/spcom.c:520-560 | a stored packet is handed over without waiting exactly if it has the current id; otherwise it is gone and the reader sleeps until it is woken |
| SpcomRxRuns.TransactionCompletes | kernel/files/spu/spcom.c:520-600 | at any point of any run at which nobody reads, a whole transaction can follow, whatever was left behind: the request draws the next id, its answer wakes the reader and is handed over, and the channel is free again |
| SpcomRxRuns.FirstPacketMakesServer | kernel/files/spu/spcom.c:3649-3691 | the first packet makes its channel a server under that packet's id; it can be read at once and answered under it |
| SpcomRxRuns.RolesAreTaken | kernel/files/spu/spcom.c:3649-3691 | who sends first is the client, under id 0x12345679; who asks for a request's size is a server |
| SpcomRxRuns.ClientKeeps | kernel/files/spu/spcom.c:520-602 | the client invariant is kept by every action |
| SpcomRxRuns.WorkerKeepsExactly | kernel/files/spu/spcom.c:3677-3688 | the worker keeps a packet exactly when its request is the current one up to a multiple of 2^32 ids |
| SpcomRxRuns.SecondRequestGetsFirstAnswer | kernel/files/spu/spcom.c:2334-2339 | why one outstanding transaction is needed: whatever the first answer is, a second request sent while a reader sleeps receives it |
| SpcomRxRuns.ReplyMatchesRequest | kernel/files/spu/spcom.c:3015-3027 | a server's reply carries the id of the request it last read |
| SpcomRxRuns.SameId | kernel/files/spu/spcom.c:2334-2339 | ids repeat exactly after 2^32 draws |
| SpcomRxRuns.DropsOnlyDelay | kernel/files/spu/spcom.c:3637-3702 | although the worker returns after a packet it drops, once it has been through the list every channel has seen all of its own packets, in the order they arrived, and nobody else's |
| SpcomRxRuns.DrainPerChannel | kernel/files/spu/spcom.c:3637-3702 | one run of the worker does to a channel what that channel's own packets among the handled ones do, in order |
| SpcomRxRuns.DrainStopsExactly | kernel/files/spu/spcom.c:3677-3702 | the worker stops behind the first packet its channel drops, and nowhere else |
| SpcomRx.RxChannel.BeginSend | kernel/files/spu/spcom.c:2309-2339 | a client's message carries a fresh id, a server's the id of the request it read; the packet waiting in the channel is untouched |
| SpcomRx.RxChannel.SignalRxDone | kernel/files/spu/spcom.c:3649-3691 | the channel ends up with the packet exactly if it has no role, is a server, or the ids agree; the buffer it held is freed, the new one is kept or left to the caller, and the channel stays consistent; the reader is woken exactly by a packet that is kept |
| SpcomRx.RxChannel.RxEnter | kernel/files/spu/spcom.c:529-548 | what is handed over without waiting belongs to the current id; it waits exactly if nothing is stored under that id, and whatever was stored is freed |
| SpcomRx.RxChannel.RxWake | kernel/files/spu/spcom.c:553-597 | only a completed wait with a packet hands anything over; after a timeout the channel drops every packet under the old id |
| SpcomRx.RxChannel.Consume | kernel/files/spu/spcom.c:581-597 | copies as much of the packet as fits, leaves the rest of the caller's buffer alone and frees the packet |
| SpcomRx.RxDevice.RpdevCallback | kernel/files/spu/spcom.c:3705-3750 | the message goes behind those still waiting, in a buffer of its own |
| SpcomRx.RxDevice.SignalRxDone | kernel/files/spu/spcom.c:3629-3702 | the worker's loop over the heap list changes the channels as the list-level run says and leaves the rest of the list; every live buffer stays on the list once or with one channel |
| SpcomLock.SerialisedRunIsSafe | kernel/files/spu/spcom.c:2309-2332 | from the initial state, as long as the releases of one process do not overlap, in every interleaving the shared lock is held exactly when it is spoken for and is never released twice or for another pid |
| SpcomLock.CheckIsSafeExactly | kernel/files/spu/spcom.c:3050-3055 | a successful check of get-message, made without the channel lock, can lead to a wrong unlock if and only if another thread of the same process is in the middle of a release |
| SpcomLock.DeinitIsSafeExactly | kernel/files/spu/spcom.c:2179-2184 | a release under the channel lock is wrong if and only if it overtakes a get-message call of its own process; two such releases never meet |
| SpcomLock.TwoCollectorsReleaseAnothersLock | kernel/files/spu/spcom.c:3050-3055 | whenever two get-message calls of one process race and another process takes the lock in between, this interleaving unlocks the lock that process holds |
| SpcomLock.StepKeeps | kernel/files/spu/spcom.c:2309-2404 | every serialised step keeps the handoff |
| SpcomClientsSpec.RegisterAdds | kernel/files/spu/spcom.c:2057-2107 | registering adds exactly that pid, unless the channel is full or it is a client already |
| SpcomClientsSpec.DeinitRemoves | kernel/files/spu/spcom.c:2148-2198 | releasing removes exactly that pid, discards the packet nobody has read, and gives the shared lock back exactly when that pid had it |
| SpcomClientsSpec.NumClientsIsCardinality | kernel/files/spu/spcom.c:2057-2107 | num_clients is the number of distinct nonzero pids |
| SpcomClientsSpec.AddClientCounts | kernel/files/spu/spcom.c:4087-4129 | an open adds one to that pid's count and to nobody else's; it fails exactly when the table is full |
| SpcomClientsSpec.RemoveClientCounts | kernel/files/spu/spcom.c:4131-4160 | a close takes one from that pid's count; it reports the last one exactly |
| SpcomDevice.ApplyKeeps | kernel/files/spu/spcom.c:2057-2198 | in every reachable state pids are distinct, num_clients counts them, and is_busy holds exactly when it equals max_clients |
| SpcomDevice.TableRefinesMultiset | kernel/files/spu/spcom.c:4087-4160 | over every run the control table is a multiset of opens |
| SpcomDevice.LastCloseReleases | kernel/files/spu/spcom.c:4059-4085 | after a pid's last control close it is in no open channel, owns no lock it held as a client and leaves no packet behind; everybody else is untouched |
| SpcomDevice.ActiveExactly | kernel/files/spu/spcom.c:2318-2406 | a sender becomes the active process exactly if there is none, and stays it until it is answered or no client any more |
| SpcomDevice.ActiveAlwaysHolds | kernel/files/spu/spcom.c:2172-2406 | over every run the shared lock is held exactly while an active process is recorded |
| SpcomClients.ClientChannel.constructor | kernel/files/spu/spcom.c:456-487 | a fresh channel has no clients and no lock held |
| SpcomClients.ClientChannel.Register | kernel/files/spu/spcom.c:2057-2107 | pid array, count and busy flag follow the set of clients, and the unchecked slot write stays in bounds |
| SpcomClients.ClientChannel.Deinit | kernel/files/spu/spcom.c:2148-2198 | pid array, count, busy flag, lock and unread packet follow the set of clients |
| SpcomClients.ControlTable.AddClient | kernel/files/spu/spcom.c:4087-4129 | one scan that remembers the entry of the process and the first free one: one more open of the process, or a new entry, or a refusal of a new process by a full table; no other entry changes |
| SpcomClients.ControlTable.RemoveClient | kernel/files/spu/spcom.c:4131-4160 | one open of the process fewer; the entry is cleared and the last close reported exactly when none is left |
| SpcomDmaBufRuns.RunConserves | kernel/files/spu/spcom.c:2742-2940 | over every run of lock, unlock, unlock-all and link removal the references held on each buffer equal the slots naming it, and no two slots of a channel name the same buffer |
| SpcomDmaBufRuns.ApplyKeeps | kernel/files/spu/spcom.c:2742-2940 | the same for each call, every early exit included |
| SpcomDmaBufRuns.OnlyOwnerFrees | kernel/files/spu/spcom.c:1213-1223 | a slot is freed only by its owner or by the removal of the sp_kernel link, and only in the channel named |
| SpcomDmaBufSpec.LockKeeps | kernel/files/spu/spcom.c:2742-2848 | a lock succeeds exactly when the process is known, the channel open, the buffer valid and not named yet and a slot free; other slots stay |
| SpcomDmaBufSpec.UnlockKeeps | kernel/files/spu/spcom.c:2859-2940 | an unlock succeeds exactly for the owner, a known process, and frees that one slot |
| SpcomDmaBuf.BufTable.Lock | kernel/files/spu/spcom.c:2742-2848 | process 0 is refused before the descriptor is looked up; after that the reference taken is kept exactly when a slot took the buffer, which is the first empty one |
| SpcomDmaBuf.BufTable.Unlock | kernel/files/spu/spcom.c:2859-2940 | the first slot with the buffer is emptied and its reference dropped exactly for its owner; the reference of the lookup is dropped in any case |
| SpcomDmaBuf.BufTable.UnlockAll | kernel/files/spu/spcom.c:2859-2940 | every slot the process owns and no other, with exactly their references |
| SpcomDmaBuf.BufTable.FreeIfOwned | kernel/files/spu/spcom.c:1199-1244 | process 0 and strangers are refused and nothing moves; the owner gets the slot emptied and its reference dropped |
| ImageLayout.PaddingReachesPageBoundary | tools/mkbootimg.py:92-99 | the bit masks of pad_file reach the boundary that the ceiling division computes, for every power of two |
| ImageLayout.SectionLands | tools/mkbootimg.py:365-369 | every padded section starts where a reader that rounds sizes up to pages expects it |
| ImageLayout.SectionsReadBack | tools/mkbootimg.py:365-369 | that reader recovers every section from any one on |
| ImageLayout.PadFileAppendsSection | tools/mkbootimg.py:365-369 | writing and padding on an aligned file appends exactly one section |
| ImageLayout.NumberReadsBack | tools/mkbootimg.py:127-131 | a packed number is read back from the offset of its field |
| LittleEndian.PackUnpack | tools/mkbootimg.py:127-131 | struct.pack of an unsigned number loses nothing that fits the width |
| LittleEndian.PackedByte | tools/mkbootimg.py:127-131 | byte i of a packed number is the number divided by 256 i times, modulo 256 |
| LittleEndian.UnpackPack | tools/bdftool.py:30-52 | a number read from bytes is written back as the same bytes |
| LittleEndian.MaskIsModulo | tools/mkbootimg.py:92-94 | masking with a power of two less one is the remainder |
| BootImageSpec.DtboOffsetIsWhereItLands | tools/mkbootimg.py:102-111 | for header versions 1 and 2, all sizes and allowed pages, the announced offset is the file position where the recovery DTBO is written, and its bytes are there |
| BootImageSpec.BootImageReadsBack | tools/mkbootimg.py:198-277 | a reader that follows the header recovers kernel, ramdisk, second, recovery DTBO and DTB |
| BootImageSpec.OldBootImageReadsBack | tools/mkbootimg.py:622-632 | for header version 0 a reader of three sections recovers kernel, ramdisk and second stage |
| BootImageSpec.HeaderTellsWhereToLoad | tools/mkbootimg.py:207-248 | in every header version the file holds at their offsets magic, page size, version, the load address of each part (zero for an absent one), board name, command line and identifier |
| BootImageSpec.LaterHeaderFields | tools/mkbootimg.py:250-274 | versions 1 and 2 announce the size of their header, and version 2 the 64-bit address of the DTB |
| BootImageSpec.WrittenExactly | tools/mkbootimg.py:198-277 | an image is written exactly if every number fits its field and, in version 2, there is a DTB; a missing DTB is the error exactly if the fields before it fit |
| BootImageSpec.ImageCarriesCommandLine | tools/mkbootimg.py:577-581 | joining the two zero-terminated fields of the finished image gives the command line back |
| BootImageSpec.HeaderSizeIsAnnounced | tools/mkbootimg.py:261-276 | the header is as long as its size field says and takes exactly one page |
| BootImageSpec.BootImageIsItsSections | tools/mkbootimg.py:622-632 | writing the parts in order is laying out the sections page by page |
| BootImageSpec.CommandLineReadsBack | tools/mkbootimg.py:577-581 | both parts of the split command line fit their fields, and joining them gives it back |
| BootImage.OutFile.Pad | tools/mkbootimg.py:92-94 | appends the masked number of zeros |
| BootImage.OutFile.WritePaddedFile | tools/mkbootimg.py:365-369 | nothing without input, else contents and padding |
| BootImage.WriteHeader | tools/mkbootimg.py:198-277 | the fields of the version in order, padded to a page; the first value that does not fit its field, or an empty DTB, is the error |
| BootImage.WriteData | tools/mkbootimg.py:622-632 | kernel, ramdisk, second stage and, by version, recovery DTBO and DTB, each padded to a page and absent without input |
| BootImage.WriteBootImage | tools/mkbootimg.py:658-666 | the file is header and sections, which `BootImageSpec.BootImageReadsBack` reads back, or the error of the header |
| VendorBootSpec.VendorBootReadsBack | tools/mkbootimg.py:149-195 | for every power-of-two page size and every table the builder can produce, a reader that rounds section sizes up recovers every fragment with type, name and board id, the DTB and the bootconfig |
| VendorBootSpec.HeaderTellsWhereToLoad | tools/mkbootimg.py:149-189 | the file holds at their offsets magic, version, page size, the load addresses of kernel, ramdisk, tags and DTB, the command line and the board name |
| VendorBootSpec.WrittenExactly | tools/mkbootimg.py:149-189 | an image is written exactly if every number of the header and of every fragment fits its field |
| VendorBootSpec.AcceptsExactly | tools/mkbootimg.py:321-346 | a fragment is accepted exactly if its stripped name is neither "default" nor used and its board id is sixteen 32-bit numbers; it is then the last entry, as given |
| VendorBootSpec.StrippedExactly | tools/mkbootimg.py:321-346 | a stripped name is the name up to its last byte that is not zero |
| VendorBootSpec.FragmentsPartitionTheSection | tools/mkbootimg.py:341-346 | offsets start at 0, are contiguous and sum to the total in the header |
| VendorBootSpec.AddKeepsSound | tools/mkbootimg.py:321-346 | no call, accepted or refused, breaks contiguity, the total, or the distinctness of names |
| VendorBootSpec.NamesIdentifyFragments | tools/mkbootimg.py:322-330 | names as read back are distinct and never the banned one |
| VendorBootSpec.HeaderLength | tools/mkbootimg.py:149-195 | the version 4 header is 2128 bytes |
| VendorBootSpec.TableLength | tools/mkbootimg.py:354-362 | the table is 108 bytes per entry |
| VendorBoot.TableBuilder.AddEntry | tools/mkbootimg.py:321-346 | a fragment is appended at the end of the ramdisk section and the total grows by it; a reserved or used name, or a board id that does not fit, is refused and no fragment moves; soundness is kept |
| VendorBoot.TableBuilder.WriteRamdisksPadded | tools/mkbootimg.py:348-352 | all fragments and the padding |
| VendorBoot.TableBuilder.WriteEntriesPadded | tools/mkbootimg.py:354-362 | all entries and the padding, or failure exactly if a value does not fit |
| VendorBoot.WriteVendorBoot | tools/mkbootimg.py:635-645 | header, ramdisk section, DTB, fragment table and bootconfig, each padded to a page, or None exactly if a value does not fit its field; `VendorBootSpec.VendorBootReadsBack` reads it back |
| BdfSpec.RoundTripExactly | tools/bdftool.py:19-56 | whatever can be printed reads back as it was if and only if neither the list nor a sublist ends in an empty body; otherwise exactly that tail is lost |
| BdfSpec.Align4ClearsLowBits | tools/bdftool.py:19-20 | rounding up is clearing the two low bits |
| BdfSpec.ElementReads | tools/bdftool.py:30-41 | a printed element is read back with its header, body and the start of the next |
| BdfSwap.SwapFrame | tools/bdftool.py:107-123 | a swap keeps order, identifiers and counts; it changes only data bodies of entries whose first name or base name matches, to the payload of the last match |
| BdfSwap.NothingMatchedExactly | tools/bdftool.py:124-125 | the command fails exactly when nothing matches |
| BdfSwap.SelectsExactly | tools/bdftool.py:112-118 | a target selects an entry exactly if it is its whole name, or what stands before the first variant mark of it |
| BdfNames.FirstNameCounts | tools/bdftool.py:59-66 | an entry's name is that of its first body with id 0 |
| BdfNames.NameExactly | tools/bdftool.py:59-66 | an ASCII body is its own characters, any other Python's literal |
| BdfNames.LiteralReadsBack | tools/bdftool.py:62-65 | that literal reads back as the bytes, so no two bodies share one; double quotes exactly around bytes with single ones only |
| BdfNames.LiteralIsPrintable | tools/bdftool.py:62-65 | it is printable ASCII, whatever the bytes |
| BdfNames.DataReplaced | tools/bdftool.py:118-123 | a swap replaces every body with id 1 and nothing else |
| BdfSwap.SwapIsIdempotent | tools/bdftool.py:112-123 | repeating a swap changes nothing |
| BdfSwap.SwappedFileReadsBackExactly | tools/bdftool.py:107-131 | the written file reads back as the swapped list if and only if no empty payload became the last body of an entry |
| BdfSwap.BaseNameEndsAtFirstMark | tools/bdftool.py:117 | the base name ends at the first variant mark, or is the whole name |
| BdfBytes.FilePreservedExactly | tools/bdftool.py:23-56 | a file with the right magic is written back byte for byte if and only if it is canonical: at both levels nothing is left over, every announced length with its padding fits, and padding is zero |
| BdfBytes.OthersPreservedExactly | tools/bdftool.py:10-12 | whenever a swap writes a file, all other entries keep their bytes if and only if each of them is canonical in the file read |
| BdfBytes.UnselectedKeepsBytesExactly | tools/bdftool.py:107-131 | the same for one entry that no swap selects |
| BdfBytes.FilesByEntries | tools/bdftool.py:23-56 | the file read is header, one chunk for each entry and at most eight bytes behind them; the file written is header and printed entries |
| BdfBytes.CanonicalByEntries | tools/bdftool.py:30-41 | the data is canonical if and only if every chunk is and nothing is left over |
| BdfBytes.CanonicalKeepsPromise | tools/bdftool.py:10-12 | in a canonical file the promise holds for every swap |
| BdfBytes.UnalignedIsRewritten | tools/bdftool.py:35-52 | an entry whose last body is announced without its padding satisfies every other condition and is not written back as it was |
| BdfBytes.UnalignedLengths | tools/bdftool.py:48-52 | its printed length is the announced one rounded up |
| BdfTool.ParseBody | tools/bdftool.py:35-40 | the inner parsing loop, on every input |
| BdfTool.ParseFile | tools/bdftool.py:23-42 | header and list, or the magic error |
| BdfTool.SerializeBody | tools/bdftool.py:48-52 | the inner printing loop, or failure when a number does not fit |
| BdfTool.SerializeFile | tools/bdftool.py:45-56 | the printed file, or failure when a number does not fit |
| BdfTool.SwapInPlace | tools/bdftool.py:112-123 | the list after the swap loop, and the number of swaps |
| BdfTool.SwapCommand | tools/bdftool.py:107-131 | the command from file to file |
| Sm5440Runs.PumpParkedExactly | kernel/files/sm5440_direct.c:378-527 | over every run of polls, suspends and resumes with any failures, a TCPM property was written while CHG_ON was commanded if and only if restore_switching once failed to clear it; until then active holds exactly when the pump is commanded on, and always exactly when the battery is handed over |
| Sm5440Runs.RestoreExactly | kernel/files/sm5440_direct.c:510-527 | restore_switching writes a property with the pump on exactly when one of the two register accesses of the clear fails |
| Sm5440Runs.FailedClearRequestsWhilePumping | kernel/files/sm5440_direct.c:724-731 | a concrete failing read that does so |
| Sm5440Runs.ApplyKeeps | kernel/files/sm5440_direct.c:691-854 | every entry point keeps the interlock, and the poll is scheduled exactly while not suspending |
| Sm5440Runs.SuspendParks | kernel/files/sm5440_direct.c:836-845 | every suspend ends with the battery handed back, and with the pump off as long as restore_switching has always been able to clear CHG_ON |
| Sm5440Runs.ParkStopsExactly | kernel/files/sm5440_direct.c:836-845 | parking an active pump leaves it commanded on if and only if both attempts to clear CHG_ON fail |
| Sm5440Runs.SuspendedTouchesNoDevice | kernel/files/sm5440_direct.c:822-829 | during a suspend nothing reaches a device |
| Sm5440Runs.NegotiationSettlesOnHighest | kernel/files/sm5440_direct.c:296-329 | the settled current is accepted and every higher ladder current was refused; refusal of the last one means the whole ladder is refused |
| Sm5440Runs.WalkDownPicksHighest | kernel/files/sm5440_direct.c:306-313 | the same for the walk alone |
| Sm5440Spec.TargetCarriesHeadroom | kernel/files/sm5440_direct.c:261-269 | the operating point is a whole number of steps, in range, and the smallest that carries twice the cell voltage and the cable drop unless a bound cuts it |
| Sm5440Spec.OperatingPointInNumbers | kernel/files/sm5440_direct.c:261-269 | the same in numbers: 320 mOhm and 200 mV on top of twice the cell voltage unless 10.5 V cuts it, and no smaller step of 20 mV from 8.2 V on carries that |
| Sm5440Runs.ActiveContractInNumbers | kernel/files/sm5440_direct.c:592-654 | over every run, while active: 1.8 to 5 A at 8.2 to 10.5 V in 20 mV steps, the chip's limit above that current by more than 250 mA and at most 300, 850 kHz |
| Sm5440Limits.LimitByCurrent | kernel/files/sm5440_direct.c:277-283 | for every current the chip's limit is within 300 mA above it, up to the 6.35 A of its register |
| Sm5440Limits.FrequencyByCurrent | kernel/files/sm5440_direct.c:368-376 | 450 kHz up to 1.1 A, 650 up to 1.7 A, 850 above |
| Sm5440Limits.PsyRetryExactly | kernel/files/sm5440_direct.c:241-254 | a property is written until the answer is not "try again", five times at most; the last answer is the result |
| Sm5440Limits.NegotiationAsks | kernel/files/sm5440_direct.c:296-329 | a contract ends with its voltage in microvolts accepted; a failure behind the programmable supply ends with the request for the fixed one |
| Sm5440Limits.RefreshExactly | kernel/files/sm5440_direct.c:340-360 | a refresh requests the voltage first exactly if the operating point is another one, remembers it exactly if accepted, then requests the current |
| Sm5440Limits.RefreshAsks | kernel/files/sm5440_direct.c:340-360 | a refresh that works ends with the contract's current in microamperes accepted |
| Sm5440Limits.EligibleExactly | kernel/files/sm5440_direct.c:656-668 | direct charging may start exactly with a source online, from 5 to below 90 percent, 10.0 to below 42.0 C and 3.5 to below 4.35 V |
| Sm5440Limits.HealthyExactly | kernel/files/sm5440_direct.c:752-775 | it goes on exactly below 90 percent and 45.0 C with CHG_ON and VBUSPOK set, at most 10.8 V on the bus, 4.45 V at the cell, and below 110.0 C in the chip, stated on the raw readings |
| Sm5440Limits.NoImmediateStop | kernel/files/sm5440_direct.c:656-775 | what may start is not stopped at once for its charge or temperature |
| Sm5440Limits.SuperviseKeepsExactly | kernel/files/sm5440_direct.c:752-793 | a supervision keeps charging exactly if all is well and the watchdog register can be read and written |
| Sm5440Limits.PumpOnExactly | kernel/files/sm5440_direct.c:384-412 | the pump is on exactly if CNTL5 was read and written and one of five reads shows VBUSPOK before a read fails |
| Sm5440Limits.SettledExactly | kernel/files/sm5440_direct.c:420-444 | the bus is settled exactly if a reading comes within 500 mV below the target before a reading fails |
| Sm5440Limits.HwInitExactly | kernel/files/sm5440_direct.c:534-590 | the chip is set up exactly if the reset ends within 255 polls and the thirteen writes and four reads behind it work |
| Sm5440Limits.BringUpExactly | kernel/files/sm5440_direct.c:610-643 | a contract is put to work only behind a chip that was set up, and with frequency, limit, watchdog and pump written |
| Sm5440Limits.RenegotiationExactly | kernel/files/sm5440_direct.c:457-474 | a refresh works exactly if the pump stops, the source takes the point, the bus settles and the pump starts again |
| Sm5440Limits.RefreshEveryFourth | kernel/files/sm5440_direct.c:740-742 | a new contract is refreshed by its fourth poll and every fourth from then on |
| Sm5440Limits.SwitchDecides | kernel/files/sm5440_direct.c:691-730 | an idle poll starts exactly if switched on, eligible and started without failure; an active one stops at once when switched off |
| Sm5440Limits.FailuresCounted | kernel/files/sm5440_direct.c:776-796 | failures in a row are counted up to five and forgotten by a poll that works |
| Sm5440Runs.LimitAboveContract | kernel/files/sm5440_direct.c:277-283 | the chip's own limit lies above the contract by at most 300 mA |
| Sm5440Runs.BackoffLadder | kernel/files/sm5440_direct.c:675-689 | delays never shrink, and the quiet period starts exactly at the fifth failure in a row |
| Sm5440.Direct.PsyRetry | kernel/files/sm5440_direct.c:241-254 | at least one and at most five attempts, each a property write, another exactly after the answer "try again"; the last answer is the result |
| Sm5440.Direct.NegotiatePps | kernel/files/sm5440_direct.c:296-329 | the current is walked down 250 mA at a time until it is not refused as invalid, then the voltage for it is requested; either failing returns to the fixed contract and its code is the result |
| Sm5440.Direct.RefreshPps | kernel/files/sm5440_direct.c:340-360 | the voltage is requested exactly if the operating point moved by 20 mV or more and remembered exactly if that worked; the current is requested every time |
| Sm5440.Direct.PumpOn | kernel/files/sm5440_direct.c:384-412 | success means that CHG_ON was written and one of five reads showed VBUSPOK; a failing write or read ends it with its code; no PD property is written |
| Sm5440.Direct.WaitVbusSettled | kernel/files/sm5440_direct.c:420-444 | success exactly if one of thirty readings comes within 500 mV below the target before a reading fails |
| Sm5440.Direct.RenegotiatePps | kernel/files/sm5440_direct.c:457-474 | the pump is off while the contract is refreshed and the bus settles, so no property is written with it on; success means the pump runs again |
| Sm5440.Direct.RestoreSwitching | kernel/files/sm5440_direct.c:510-527 | whatever fails, the battery is handed back and direct charging is over; the pump is still commanded on exactly if CHG_ON could not be cleared, which is remembered |
| Sm5440.Direct.Start | kernel/files/sm5440_direct.c:592-654 | between polls: success exactly if direct charging is active, with pump, battery, limit and frequency as the contract asks; otherwise everything is undone |
| Sm5440.Direct.Backoff | kernel/files/sm5440_direct.c:675-689 | the delay never shrinks, is more than the idle retry, and is five minutes exactly from the fifth failure in a row |
| Sm5440.Direct.Work | kernel/files/sm5440_direct.c:691-804 | supervise and every fourth time refresh while active, start when idle, enabled and eligible; the interlock `Parked` is kept and the next poll is scheduled unless suspending |
| Sm5440.Direct.OnSuspendPrepare | kernel/files/sm5440_direct.c:836-845 | after a poll under way has ended, direct charging is over, no poll is scheduled and the interlock is kept |
| SpHlosHeapRuns.PagesConserved | kernel/files/spu/qcom_sp_hlos_heap.c:219-365 | over every run each page is in exactly one of pool, live buffer and quarantine, the three add up to all pages, no page in the pool is visible to the secure processor, and mappings equal mapped buffers |
| SpHlosHeapRuns.AllocateExactly | kernel/files/spu/qcom_sp_hlos_heap.c:263-365 | an allocation succeeds exactly if arguments are allowed and everything is granted; the buffer is large enough and zeroed; otherwise the pool is as before unless a failed export could not be reclaimed |
| SpHlosHeapRuns.AllocatesLeastPages | kernel/files/spu/qcom_sp_hlos_heap.c:263-365 | the same on numbers of pages: the buffer is the run CMA offers, of the least number of 4 KB pages that hold the bytes, and is had exactly if that run lies in the pool and everything else is granted |
| SpHlosHeapRuns.MappingsCountExactly | kernel/files/spu/qcom_sp_hlos_heap.c:181-216 | a mapping counts exactly if the buffer is mapped or a new address was there; the address goes with the last unmapping; other buffers are not touched |
| SpHlosHeapRuns.ReleaseReturnsPagesExactly | kernel/files/spu/qcom_sp_hlos_heap.c:235-245 | a release returns the pages exactly when the secure-monitor call succeeds, and that fails only when the firmware says so |
| SpHlosHeapRuns.ApplyKeeps | kernel/files/spu/qcom_sp_hlos_heap.c:181-365 | every operation keeps partition, access and mapping count |
| SpHlosHeap.Heap.ClearPages | kernel/files/spu/qcom_sp_hlos_heap.c:301-306 | zeroes exactly the run |
| SpHlosHeap.Heap.Allocate | kernel/files/spu/qcom_sp_hlos_heap.c:263-365 | succeeds exactly if arguments are allowed and everything is granted; the new buffer object is large enough, zeroed, and its page array names its own pages only; a refusal leaves every buffer alone; ownership is kept |
| SpHlosHeap.Heap.Release | kernel/files/spu/qcom_sp_hlos_heap.c:219-248 | pages go to the pool exactly if the secure-monitor call succeeds, else to quarantine; the other buffers stay, and ownership is kept |
| SpHlosHeap.Buffer.constructor | kernel/files/spu/qcom_sp_hlos_heap.c:308-320 | the page array names the run in order |
| SpHlosHeap.Buffer.VmFault | kernel/files/spu/qcom_sp_hlos_heap.c:155-163 | a user mapping reaches exactly the pages below the page count, and only pages of the buffer |
| SpHlosHeap.Buffer.VMap | kernel/files/spu/qcom_sp_hlos_heap.c:181-204 | whoever maps the buffer while it is mapped gets the address the first one got; the count grows exactly on success |
| SpHlosHeap.Buffer.VUnmap | kernel/files/spu/qcom_sp_hlos_heap.c:206-217 | the address goes exactly with the last user |
| SpHlosHeap.Heap.Reclaim | kernel/files/spu/qcom_sp_hlos_heap.c:235-245 | pages the secure processor may still reach never go back to the pool |
| Sm5714Runs.OtgInterlockHolds | kernel/files/sm5714_battery.c:576-672 | in every interleaving Q4 is open while the boost runs or OTG is active, and outside critical sections the boost runs exactly while otg_active |
| Sm5714Runs.StopStepExactly | kernel/files/sm5714_battery.c:365-377 | a step breaks the thermal interlock if and only if it is one of three: the poll thread stores "stop" over a remembered "stop" with Q4 closed or about to be, its own reconfiguration cannot read the cable type, or another reconfiguration cannot read the temperature and goes by the state it loaded before "stop" was stored |
| Sm5714Runs.AtRestIsSafe | kernel/files/sm5714_battery.c:348-482 | in every interleaving without such a step, when nobody holds the lock and nothing is left to follow up, a closed Q4 means OTG off and thermal state not "stop" |
| Sm5714Runs.SlipNeedsInterference | kernel/files/sm5714_battery.c:1033-1036 | storing "stop" and going by a loaded state need another thread to change the thermal state in between |
| Sm5714Races.RaceLeavesQ4ClosedInStop | kernel/files/sm5714_battery.c:1033-1042 | a race, for all temperatures that fit it, that leaves Q4 closed in the "stop" state with nothing to follow up |
| Sm5714Races.FailedReadLeavesQ4ClosedInStop | kernel/files/sm5714_battery.c:365-369 | the same without a race, after a failed read of the cable type |
| Sm5714Races.NobodyRepairs | kernel/files/sm5714_battery.c:1033-1042 | no number of later polls changes that while the battery stays at 46.0 C or above |
| Sm5714Runs.HysteresisStepExactly | kernel/files/sm5714_battery.c:371-375 | a step brings "normal" back too early if and only if it is a stale store of "normal", by the poll thread or by configure_charging |
| Sm5714Runs.HysteresisHolds | kernel/files/sm5714_battery.c:319-346 | in every interleaving without a stale store, after a stored sample of at least 50.0 C "normal" needs a stored sample of at most 42.0 C |
| Sm5714Runs.StaleNeedsInterference | kernel/files/sm5714_battery.c:371-375 | either store is stale only if the thermal state changed after it was computed from; the poll thread's own configure_charging never is |
| Sm5714Races.PollStoresStaleNormal | kernel/files/sm5714_battery.c:1034-1035 | the poll thread computes "normal", another thread stops charging at 50.0 C, and the poll thread stores "normal" over it |
| Sm5714Races.ConfigureStoresStaleNormal | kernel/files/sm5714_battery.c:371-375 | the other way round: configure_charging stores "normal" over the poll thread's "stop", Q4 stays closed and nothing is left to follow up |
| Sm5714Runs.NormalNeedsCoolSample | kernel/files/sm5714_battery.c:319-346 | after a sample of at least 50.0 C, "normal" needs a later sample of at most 42.0 C |
| Sm5714.PollOnceKeeps | kernel/files/sm5714_battery.c:1016-1086 | an undisturbed poll keeps the interlocks, the hysteresis and the 2.1 A limit of the warm band, and cuts a battery of 50.0 C off in the same pass, provided the cable type can be read |
| Sm5714.ConfigureOnceKeeps | kernel/files/sm5714_battery.c:348-482 | the same for configure_charging, which closes Q4 only in a state that allows it |
| Sm5714.UpdateIsARun | kernel/files/sm5714_battery.c:1033-1042 | an undisturbed thermal update is the run of its steps |
| Sm5714.ConfigureIsARun | kernel/files/sm5714_battery.c:348-482 | undisturbed, configure_charging is the run of its steps |
| Sm5714.BoostStartIsARun | kernel/files/sm5714_battery.c:576-638 | undisturbed, starting the boost is the run of its steps |
| Sm5714.BoostStopIsARun | kernel/files/sm5714_battery.c:640-671 | undisturbed, stopping it is the run of its steps |
| Sm5714.HandOverIsARun | kernel/files/sm5714_battery.c:523-566 | undisturbed, handing the battery to the pump is the run of its steps |
| Sm5714Spec.LimitsAreSafe | kernel/files/sm5714_battery.c:387-436 | the programmed budget never exceeds the contract or the board, is reduced in the warm band, and is 500 mA for an unclassified source |
| Sm5714Spec.BudgetCaseByCase | kernel/files/sm5714_battery.c:393-436 | the budget in milliamperes for every contract, cable type, switch and thermal state |
| Sm5714Spec.InputRegisterExactly | kernel/files/sm5714_battery.c:304-307 | the input register holds the largest code up to 0x7F within the budget |
| Sm5714Spec.FastRegisterExactly | kernel/files/sm5714_battery.c:309-317 | the charge register holds the largest code from 7 to 0xE0 within the budget, and 7 below all of them |
| Sm5714Spec.HysteresisBands | kernel/files/sm5714_battery.c:319-346 | stop exactly from 50.0 C, or from 46.0 C for one who read stop first; normal exactly below 46.0 C and, for one who read stop first or reduced second, only at 42.0 C or below |
| Sm5714Spec.RegistersKeepTheBudget | kernel/files/sm5714_battery.c:304-317 | what the two current registers stand for is at most the budget and less than one step below it |
| Sm5714.Battery.ChargeThermalState | kernel/files/sm5714_battery.c:319-346 | the nested tests come to the hysteresis: stop from 50.0 C and reduced from 46.0 C on; stop gives way to reduced below 46.0 C, and normal takes 42.0 C or below |
| Sm5714.Battery.ConfigureCharging | kernel/files/sm5714_battery.c:348-482 | Q4, thermal state and both current registers follow from contract, cable type, switch and temperature; it succeeds exactly without OTG and with a readable cable type |
| Sm5714.Battery.Budget | kernel/files/sm5714_battery.c:388-436 | the branches compute the budget |
| Sm5714.Battery.SetPdContract | kernel/files/sm5714_battery.c:489-515 | refused and without effect exactly out of range; otherwise the contract is noted, and charging restarted exactly with a contract, VBUS and no direct charging |
| Sm5714.Battery.StoreFastCharge | kernel/files/sm5714_battery.c:1142-1161 | a change of the switch reconfigures charging, the same value does nothing |
| Sm5714.Battery.SetDirectCharge | kernel/files/sm5714_battery.c:523-563 | accepted exactly from 10.0 C to below 42.0 C with a readable sample; handing back restarts charging exactly with VBUS, and its result is that restart's |
| Sm5714.Battery.SetOtg | kernel/files/sm5714_battery.c:576-672 | the boost starts exactly without direct charging and with VBUS read as absent, and then Q4 is open; stopping it restarts charging exactly with VBUS, and its result is that restart's |
| Sm5714.Battery.PollWork | kernel/files/sm5714_battery.c:1016-1086 | thermal update, recovery and unplug in one pass |
| PanelRuns.PanelInterlocks | kernel/files/panel-samsung-ana38407.c:168-790 | over every interleaving with any bus failures fod_circle implies fod_mode implies enabled implies prepared, fingerprint mode never outlives its watchdog and a panel without power is never written to; with successful writes, while prepared the panel shows the user's brightness outside fingerprint mode and 1623 inside it, both register keys are locked, and circle and display are as the driver remembers |
| PanelRuns.NestedHolds | kernel/files/panel-samsung-ana38407.c:469-590 | the nesting, from every state that has it |
| PanelRuns.BrightnessFollows | kernel/files/panel-samsung-ana38407.c:651-665 | the brightness, from every state that has it |
| PanelRuns.BrightnessIsDeferred | kernel/files/panel-samsung-ana38407.c:651-665 | a brightness set in fingerprint mode is remembered and shown on leaving, as if set afterwards |
| PanelRuns.FailedEntryIsUndone | kernel/files/panel-samsung-ana38407.c:722-729 | a failed entry into fingerprint mode is undone to the last register, wherever it broke |
| PanelRuns.FailedCircleIsUndone | kernel/files/panel-samsung-ana38407.c:782-786 | a circle that could not be drawn is hidden again, wherever the drawing broke |
| PanelRuns.LeavingFodExactly | kernel/files/panel-samsung-ana38407.c:236-255 | leaving fingerprint mode restores the panel if and only if both registers were written, or the user's brightness is the sensor's |
| PanelRuns.FailedExitStaysBright | kernel/files/panel-samsung-ana38407.c:722-733 | a failing level key leaves the sensor's brightness on with no watchdog queued |
| PanelSpec.KeyLeftOpenExactly | kernel/files/panel-samsung-ana38407.c:168-196 | a fingerprint sequence leaves the register key open if and only if it broke after opening it |
| PanelSpec.FodSent | kernel/files/panel-samsung-ana38407.c:168-196 | what control, brightness and key hold after a sequence that breaks anywhere |
| PanelSpec.FodRegisters | kernel/files/panel-samsung-ana38407.c:168-196 | fingerprint mode sets control 0xE0 and brightness 1623, leaving it 0x28 and the user's brightness; the key is locked after both |
| PanelSpec.ModesExactly | kernel/files/panel-samsung-ana38407.c:698-790 | both modes follow their switches exactly in a lit panel and, when entered, with all writes out; the circle only within fingerprint mode |
| PanelSpec.WatchdogExactly | kernel/files/panel-samsung-ana38407.c:257-276 | the watchdog leaves its queue when it fires and both modes when it runs |
| PanelSpec.UserBrightnessExactly | kernel/files/panel-samsung-ana38407.c:651-656 | the brightness kept is the one asked for, cut to sixteen bits and then to 2047 |
| PanelSpec.CircleSentExactly | kernel/files/panel-samsung-ana38407.c:210-234 | the circle is as asked exactly if key and circle went out; the key stays open exactly if it was opened and could not be locked |
| PanelSpec.PrepareExactly | kernel/files/panel-samsung-ana38407.c:532-567 | the panel comes up exactly if the rails did and its last write went out, and has no power otherwise |
| PanelSpec.EnableExactly | kernel/files/panel-samsung-ana38407.c:469-495 | it lights up exactly if it is up and the sequence went out |
| PanelSpec.DisableExactly | kernel/files/panel-samsung-ana38407.c:497-519 | turned off it counts as dark whatever fails, and is dark exactly if the last write went out |
| PanelSpec.UnprepareExactly | kernel/files/panel-samsung-ana38407.c:569-590 | without power it is neither up nor lit and every register is as after a reset |
| PanelRuns.NoWatchdogInTheDark | kernel/files/panel-samsung-ana38407.c:497-519 | once the display is off and the watchdog cancelled none is queued before the display is back on |
| Panel.Ana38407.WriteFod | kernel/files/panel-samsung-ana38407.c:168-196 | succeeds exactly if the last write went out; then brightness, control and locked key are as the mode asks; the registers are those of the sequence up to its first failing write |
| Panel.DsiContext.WriteSeq | kernel/files/panel-samsung-ana38407.c:168-196 | after the first failing write of a sequence the panel receives nothing more of it |
| Panel.Ana38407.WriteFodCircle | kernel/files/panel-samsung-ana38407.c:210-234 | three writes of which the last, the lock, is made in any case; success is exactly all three |
| Panel.Ana38407.Cleanup | kernel/files/panel-samsung-ana38407.c:236-255 | both flags are cleared whatever fails; it succeeds exactly if every write did, and then a panel that showed what it should still does |
| Panel.Ana38407.Prepare | kernel/files/panel-samsung-ana38407.c:532-567 | succeeds exactly if the panel ends prepared; it then shows the user's brightness, dark and with locked keys |
| Panel.Ana38407.Enable | kernel/files/panel-samsung-ana38407.c:469-495 | succeeds exactly if the panel ends enabled, lit and with locked keys; nesting is kept |
| Panel.Ana38407.Disable | kernel/files/panel-samsung-ana38407.c:497-519 | the display counts as off and both modes as left whatever fails; success is exactly that every write went out, and the panel then is as the driver remembers |
| Panel.Ana38407.Unprepare | kernel/files/panel-samsung-ana38407.c:569-590 | power and with it every register goes whatever fails; nesting is kept |
| Panel.Ana38407.UpdateBacklight | kernel/files/panel-samsung-ana38407.c:651-665 | in fingerprint mode nothing is written; otherwise success means the panel shows the new value |
| Panel.Ana38407.StoreFodMode | kernel/files/panel-samsung-ana38407.c:698-738 | succeeds exactly in a lit panel whose writes go out; nesting is kept, and the panel shows what it should after success and after a failed entry that could be undone |
| Panel.Ana38407.StoreFodCircle | kernel/files/panel-samsung-ana38407.c:753-790 | a circle is only drawn in fingerprint mode; what the driver remembers of it is so after success and after a failed drawing that could be hidden |
| Panel.Ana38407.WatchdogWork | kernel/files/panel-samsung-ana38407.c:257-276 | both modes are left whatever fails; after success the panel shows the user's brightness |

## Left out

- Allocation failures, except in the heap shared with the secure processor.
- T=1: waiting times and the WTX counter; a bus error in the middle of a block; the resync, WTX and get-data entry points; S-frames with data; bytes past the end of an APDU buffer. One block is in flight at a time, as the half-duplex bus has it.
- T1Link.CardKeeps: the card is a model of what the driver relies on, not of the K250A's firmware.
- T1Link.ExactlyOnce: RESYNCH requests of the card reset both sides and are not part of an exchange.
- EseData: a buffer is filled when it is allocated and not written again; sizes are unbounded numbers. The null-pointer checks have no counterpart.
- Star: user-space copies, the device node and its locking; an expected-response field of one to three bytes always mismatches, as in the code, but the read of its flag word past the field is not modelled.
- Glink: memory barriers, doorbells and the intent protocol above the ring; head and tail are read and written whole.
- SpcomRxRuns.NeverStale: one connection, one outstanding transaction per channel and packets with a whole header; link removal and reconnection change the ids. The worker appears as one packet at a time, which `SpcomRxRuns.DropsOnlyDelay` justifies.
- SpcomRx: buffers are not zeroed before they are freed; a packet's header is read off when it is allocated.
- T1Session.SessionExactlyOnce: every exchange of the session completes; `T1Ledger.EveryCallIsFaithful` is the session in which they may break off.
- T1Ledger.EveryCallIsFaithful: a card drops the exchange the host gave up when the next one starts; `T1Ledger.UnfinishedApduGrows` says what one does that does not.
- T1Failure.ExecutesAskedExactly: the APDU buffer a driver still holds has been freed by star_dev_write; the model goes on with the bytes it had.
- SpcomLock: the older read and write character-device commands, and the link-removal path that aborts a waiter. A sender whose transmission fails keeps the lock because its result is overwritten; that is a state the model reaches by simply not releasing.
- SpcomDmaBufRuns.RunConserves: modify-buffer attachments, and references of clients that exit without a channel close. QTEE shared-memory files keep their slots at link removal, as in the code.
- BootImageSpec.DtboOffsetIsWhereItLands: header versions 3 and 4 write no recovery DTBO and are not modelled; nor are signing, SHA-1 and the packing of OS version and patch level (image id and OS word are parameters), and argument parsing. Numbers are packed little-endian, as on the hosts the tool runs on.
- VendorBootSpec.VendorBootReadsBack: header version 3, which has no table. A fragment's contents are taken to be the same when it is measured and when it is written.
- BdfTool: listing, checksums and dumping of entries; a payload file that cannot be opened.
- Sm5440Spec: register contents other than the pump, the limit and the frequency; an analogue reading is one answer, whichever of its two bytes fails. The chip's own clearing of CHG_ON appears as what it reads back, and its reset does not clear what the driver has commanded.
- Sm5440Runs.NegotiationSettlesOnHighest: the source's verdict on a current is a fixed function while it negotiates; how often it answers "try again" is arbitrary.
- SpHlosHeapSpec: attachments and cache maintenance; a secure-monitor call that fails is taken to have changed nothing.
- Sm5714Runs.AtRestIsSafe: register writes succeed and each is one step, MUIC routing and the float voltage aside; TCPM notifications, capacity and status reporting are left out. The current registers are followed in `Sm5714.dfy`, where nobody interferes. An open Q4 during direct charging is not claimed: configure_charging does not look at direct_charging.
- Panel: after a reset the panel is dark, its keys are locked and the circle is hidden; of the power-on sequence only the brightness block is modelled, the rest writes other registers and locks the keys it opens. DSC set-up, modes and regulators; display callbacks do not overlap each other.
- Touchscreen, pen, redriver, camera, fingerprint companion and the remaining SPU helpers, the GNOME extension, shell scripts and packaging: tables, wiring and user interface without a deep property.
