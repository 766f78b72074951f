# piHPSDR: proofs about its protocols, buffers and pools

piHPSDR is a program for software defined radios. Most of its state lives in small hand-written data structures that
several threads touch at once, or that two programs keep in step over a network. This project models them in Dafny
and proves what they are for, over all inputs, all runs and all interleavings.

| file | what it models |
|---|---|
| `BufferPool.dfy`, `PoolSchedule.dfy`, `PoolLedger.dfy` | the buffer pools: eight linked lists on the heap, the race between the one thread that allocates and the many that release, and who has which buffer |
| `MicRing.dfy` | the lock-free ring of microphone samples |
| `SideTone.dfy` | the CW side tone writer that drops or doubles samples in silence |
| `PreRoll.dfy` | the microphone buffer of the remote client that keeps half when it does not transmit |
| `VfoBatch.dfy`, `Words.dfy` | batched VFO updates and the integers of the wire |
| `WireFields.dfy` | the fields of VFO, AGC and band packets |
| `Frames.dfy`, `Sending.dfy`, `Receiving.dfy`, `Framing.dfy` | whole-packet sends under a mutex, chunked reads, framing by type, resynchronisation, and the two ends together |
| `DxSpot.dfy`, `SpotRing.dfy`, `SpotFile.dfy`, `SpotGroups.dfy`, `LineSplitter.dfy` | the DX cluster: ring and query, save and reload, grouping and click cache, line splitter |
| `Bootloader.dfy` | the firmware upload: host, link and device |
| `BandCycle.dfy` | band up and band down |
| `BoundedString.dfy` | bounded string copy and append |

Code that changes state in place is modelled by classes with fields and arrays and by methods with loops, and each
method is tied to a function of the old state. What the program promises is then proved about these functions: over
sequences of events for the threads and the protocols, over all inputs for the rest. System calls are parameters: a
list of replies says how many bytes each coming `send` or `recv` is willing to move, or that it fails. Time-outs,
packets that arrive, fill levels of the sound card and the filters of the user are parameters as well.

## What came out

* A pool never hands out a buffer twice, whatever is released in the middle of a scan. After `mark_p2buffers_free`
  some run does so if and only if some buffer was in use; the comment at src/buffer.c:191-194 asks for a little less.
  A buffer is in use exactly if it was handed out and has not come back since, and what has come back is used again
  before a list grows.
* The client gets the packets of the server whole and in lock order, if and only if no read needs more than nine
  calls of `recv`. The tenth call is an error even when it completes the read (src/client_server.c:124). A VFO, AGC or
  band packet arrives with its type, its header bytes and its fields, exactly if these fit.
* The resynchronisation at src/client_thread.c:927-938 goes back to no match at all on a mismatch, so it does not see
  a sync word behind a stray byte FA (`Receiving.WordMissed`). Behind bytes that it has passed and that end in n bytes
  FA after some byte that is neither FA nor AF, it sees the next sync word if and only if 3 divides n; so it never
  runs past a sync word behind a byte other than FA and AF, also after it has missed one. Behind any bytes that it
  has passed it misses at most the first packet, if this has no second sync word and ends in such a byte.
* In every run of the upload the host says a beginning of one script: two questions, the address if it is to be
  written, and with a file the erase command and the blocks; if it says that all is done, it has said all of it.
* The upload sends one block more than the file has, from beyond the buffer, because src/bootloader.c:482 tests `>`.
  The image is the padded file if and only if the test is `>=`. The host always ends; it can still finish if and only
  if its time-out has not run down, and it does finish if no 50 rounds of its loop go by without one in which the
  device empties its queue and the reply comes through.
* The packets of the remote microphone, the output of the side tone writer and the packets of a VFO tick are functions
  of what came in: samples and switch, samples and reported fill levels, knob turns.
* A batch of VFO steps is kept if and only if it fits in 16 bits; what is lost otherwise is a multiple of 65536.
* All spots survive saving and reloading if and only if the four text fields of each are non-empty and free of commas.
  A comment with a comma is cut there, and the rest of it is taken for the time; no other spot is affected.
* A panadapter of at most 1984 pixels never overflows the 64 entries of the click cache; any wider one can.
* The loops of `band_plus` and `band_minus` come to an end if and only if some band can be selected or the present one
  has a title.
* `newest_idx` names the newest spot of a group if and only if some time is positive or none is later than the first.

Where the comments of the source disagree with its code, the code is modelled: the fill level of the side tone is
adjusted at the 15th zero after a non-zero sample, not at the 16th (src/audio.c:372-384), and a click counts for y
from 18 to 40, not from 0 to 22 (src/dxcluster.c:945-948).

## Model

| member | source | states |
|---|---|---|
| BufferPool.LinkedIsAcyclic | src/buffer.c:59-66 | a list of buffers that ends has no buffer twice |
| BufferPool.AheadOnto | src/buffer.c:58 | eight consecutive requests go to the eight different lists |
| BufferPool.Sibling.Take | src/buffer.c:59-66 | the first free buffer of the list, and no other, becomes used; null exactly if there is none |
| BufferPool.Sibling.Link | src/buffer.c:69-76 | one new free buffer is put in front of the list |
| BufferPool.Sibling.Extend | src/buffer.c:68-78 | growth puts a whole bunch of new free buffers in front of an otherwise unchanged list |
| BufferPool.Sibling.Get | src/buffer.c:59-82 | one list serves a request: first fit, or the new head after growth; it grows exactly when no buffer was free |
| BufferPool.Pool.constructor | src/buffer.c:50-52 | eight empty lists; the first request goes to list 0 |
| BufferPool.Pool.Disjoint | src/buffer.c:50-83 | the eight lists share no buffer |
| BufferPool.Pool.Get | src/buffer.c:54-83 | a request is served by the next list in turn, the counter stays the total length, other lists are untouched |
| BufferPool.Pool.GetEight | src/buffer.c:181-184 | eight requests give a buffer from each list |
| BufferPool.Pool.Prealloc | src/buffer.c:175-188 | after preallocation each list has a free buffer |
| BufferPool.Pool.MarkAllFree | src/buffer.c:190-202 | every buffer of every list is free and the lists are as before |
| PoolSchedule.InitInv | src/buffer.c:135-137 | the empty pool satisfies the invariant, and the first get serves list 0 |
| PoolSchedule.StepInv | src/buffer.c:139-173 | each step of the allocator and each release keeps it: acyclic disjoint lists, exact counter, every buffer free or in use and not both, the scan has passed only buffers that were in use; what is released is free |
| PoolSchedule.RunInv | src/buffer.c:139-173 | every run keeps it |
| PoolSchedule.ExclusiveOwnership | src/buffer.c:139-173 | in every interleaving a buffer that is handed out was free and held by nobody, and no buffer is lost |
| PoolSchedule.GrowthBound | src/buffer.c:152-167 | with at most n buffers in use at once no list exceeds bunch * (n / bunch + 1) buffers, even with releases during a scan |
| PoolSchedule.PreallocStocks | src/buffer.c:175-188 | when eight gets are over and the buffers they gave have been released, every list has a free buffer, in every interleaving |
| PoolSchedule.EightGetsWithoutGrowth | src/buffer.c:139-151 | from any idle state where each list has a free buffer, eight gets allocate nothing, whatever is released meanwhile |
| PoolSchedule.EightGetsAfterPrealloc | src/buffer.c:175-188 | so after preallocation the next eight gets allocate nothing |
| PoolSchedule.MarkAllFreeNeedsIdlePool | src/buffer.c:190-202 | after marking all buffers free, some run hands out a buffer that is in use if and only if some buffer was in use; and the books are kept if and only if none was |
| PoolSchedule.MarkAllFreeCanHandOutTwice | src/buffer.c:190-202 | if the first buffer of the next list is in use, the very next get hands it out again |
| PoolLedger.HeldIsOwed | src/buffer.c:139-188 | over every run a buffer is in use if and only if it was before or was handed out, and has not been released since |
| PoolLedger.FreeIsNotOwed | src/buffer.c:139-188 | and it can be handed out if and only if it is not in use so |
| PoolLedger.ReleasedIsReused | src/buffer.c:145-151 | if some buffer of the list whose turn is next has come back and was not handed out again, the next get allocates nothing |
| PoolLedger.PreallocRuns | src/buffer.c:175-188 | from every idle state with nothing in use some run of eight gets and the release of what they gave ends with a free buffer in each list |
| PoolLedger.PreallocRunsAtStart | src/buffer.c:175-188 | in particular from the empty pool |
| MicRing.StoreKeepsHeld | src/audio.c:693 | the slot that is written holds no unread sample |
| MicRing.PublishAppends | src/audio.c:695 | advancing inpt appends the sample of its slot |
| MicRing.PublishDrops | src/audio.c:716 | advancing outpt drops the oldest sample |
| MicRing.ProducerInv | src/audio.c:690-696 | each access of the producer keeps the invariant; a sample is refused exactly when 8191 are held at the test |
| MicRing.ConsumerInv | src/audio.c:711-717 | each access of the consumer keeps it; it returns the oldest unread sample |
| MicRing.LockFreeFifo | src/audio.c:690-717 | over all interleavings, consumed samples and then the ring are the accepted samples in order, at most 8191 held |
| MicRing.AcceptedIsAdmitted | src/audio.c:690-696 | the accepted samples, and the one under way, are those samples of the sound card for which fewer than 8191 were unread at the test, in order |
| MicRing.ReadEnds | src/audio.c:711-717 | a read of a ring that is not empty ends after three accesses with the oldest sample, whatever the producer does |
| MicRing.WriteEnds | src/audio.c:690-696 | a sample for which there is room is accepted after four accesses, whatever the consumer does |
| MicRing.AudioData.Put | src/audio.c:690-696 | appends the sample if fewer than 8191 are held, else changes nothing |
| MicRing.AudioData.GetNextMicSample | src/audio.c:708-718 | takes the oldest sample, or gives silence |
| SideTone.AdjustedSampleEndsSilence | src/audio.c:371-384 | a dropped or doubled sample is the last of 15 zeros, dropped only above the high and doubled only below the low water mark |
| SideTone.CountMeansSilence | src/audio.c:372-375 | cwcount is below 16 between calls and counts zeros just seen |
| SideTone.SilenceIsUsed | src/audio.c:372-384 | in silence, whatever the card reports, the counter reaches 16 after as many zeros as it lacks |
| SideTone.CountIs | src/audio.c:372-375 | cwcount is the number of zeros at the end and of the sample before them, modulo 16 |
| SideTone.FillLevelIsCorrected | src/audio.c:371-430 | each call adds its sample to the output once, except for each 15th zero behind a sample and each 16th after that: it is left out if the card last reported more than 1104 frames and written twice if it reported less than 816 and two frames fit |
| SideTone.BlocksAreFull | src/audio.c:384-491 | every block for the sound card has 256 frames and fewer are pending between calls |
| SideTone.SideToneIntegrity | src/audio.c:315-493 | in an episode the non-zero samples handed on are the non-zero samples given in, in order |
| SideTone.AudioData.Put | src/audio.c:386-422 | one frame goes into the interleaved buffer, on one or two channels |
| SideTone.AudioData.Collect | src/audio.c:384-429 | as many copies as the adjustment says; the second only if there is room |
| SideTone.AudioData.Flush | src/audio.c:430-491 | a full buffer, and only a full one, goes out and its fill level is taken |
| SideTone.AudioData.TxAudioWrite | src/audio.c:315-495 | one call is one step of the episode; a new episode forgets pending frames; the card got 960 frames of silence and then the blocks of the episode |
| PreRoll.SentIsContiguous | src/client_thread.c:425-487 | the buffer holds the most recent samples; packets are the n samples before each sent full event; full events are n or n/2 apart |
| PreRoll.StreamIsMic | src/client_thread.c:460-487 | the stream these blocks are cut from is the sequence of samples |
| PreRoll.SentOnce | src/client_thread.c:460-487 | a later packet begins at or after the end of an earlier one, and right there at successive full events |
| PreRoll.FullsFollowSwitch | src/client_thread.c:464-484 | a full buffer is sent if and only if the transmitter wants audio at that sample |
| PreRoll.PacketsAreDue | src/client_thread.c:425-487 | the packets are, from samples and switch alone, the n samples up to each full moment at which audio is wanted; the next one is n samples later after a packet and n/2 later otherwise |
| PreRoll.TxAudio.PutSample | src/client_thread.c:460-486 | the array code: put the sample; when full send all and empty, or keep the second half |
| Words.Wrap | src/client_server.h:1126-1130 | a number in a signed word is unchanged exactly if it fits |
| Words.WrapLoses | src/client_server.h:1126-1130 | what a signed word loses is a multiple of its range |
| Words.LowLoses | src/client_server.h:1111-1118 | an unsigned word keeps the number up to a multiple of its range |
| Words.SignedLow | src/client_server.h:1145-1153 | the low bits read as a signed number give the wrapped number |
| VfoBatch.Conservation | src/client_thread.c:509-556 | asked = decoded + pending + a multiple of the word's range, over any interleaving of updates and ticks, for steps and Hz |
| VfoBatch.NoStepLost | src/client_thread.c:509-556 | asked = decoded + pending for steps if each batch fits in 16 bits |
| VfoBatch.NoHzLost | src/client_thread.c:509-556 | asked = decoded + pending for Hz as long as the sums stay within 64 bits, the width of accumulator and wire alike |
| VfoBatch.TickKeepsStepsIffFit | src/client_server.c:695-702 | a tick keeps the account of the steps if and only if they fit in a signed 16-bit word |
| VfoBatch.PendingIs | src/client_thread.c:509-520 | what is pending for a VFO is the sum of the steps and of the Hz since the last tick, and the rounding flag of the last move |
| VfoBatch.WireIs | src/client_thread.c:543-552 | over any run the wire carries for each tick and VFO the sum of the steps, if not zero, and the sum of the Hz with the flag of the last move, if the sum is not zero or the flag is set |
| VfoBatch.TickDecodes | src/server_thread.c:1317-1331 | the far end decodes from a tick what was pending, as a signed word |
| VfoBatch.Accumulators.UpdateVfoMove | src/client_thread.c:509-514 | adds to the pending Hz of one VFO and overwrites its rounding flag |
| VfoBatch.Accumulators.UpdateVfoStep | src/client_thread.c:516-520 | adds to the pending steps of one VFO |
| VfoBatch.Accumulators.Send | src/client_thread.c:543-552 | one VFO's pending numbers go out, each if it is due, and become zero |
| VfoBatch.Accumulators.CheckVfo | src/client_thread.c:532-556 | a tick sends what is pending for both VFOs |
| WireFields.BigEndianInverts | src/client_server.h:1102-1109 | big-endian bytes give back any number that fits |
| WireFields.BigEndianDigit | src/client_server.h:1102-1124 | the most significant byte comes first: the byte with k bytes behind it has the weight 256^k |
| WireFields.FieldRoundTrip | src/client_server.h:1102-1153 | a field comes out as it went in if and only if it is in the range of its kind |
| WireFields.PacketRoundTrip | src/client_server.h:178-191 | in a packed struct every field is received for itself; all come back if and only if each fits |
| WireFields.DoubleRoundTrip | src/client_server.h:1087-1100 | over the reals 0 <= x - from_double(to_double(x)) < 1e-10 for -9e8 <= x < 9e8, and the word is in range |
| WireFields.DoubleMonotone | src/client_server.h:1098 | to_double is monotone |
| WireFields.VfoRoundTrip | src/client_server.c:599-624 | decoding a VFO packet (src/client_thread.c:1351-1376) gives back all 18 fields if and only if seven fit in 64 and two in 16 signed bits and nine are bytes |
| WireFields.VfoLayout | src/client_server.h:662-685 | the body is the fields in the order of the struct, seven long, two short, nine bytes |
| WireFields.AgcLayout | src/client_server.h:836-851 | the body is the fields in the order of the struct, four reals, four short, two bytes |
| WireFields.BandLayout | src/client_server.h:267-286 | the body is the fields in the order of the struct, with the title between the numbers |
| WireFields.AgcRoundTrip | src/client_server.c:821-838 | decoding an AGC command (src/client_thread.c:1510-1531) gives the reals to 1e-10 and the integers exactly if and only if they fit |
| WireFields.TitleRoundTrip | src/client_thread.c:991 | the title comes back if and only if it has at most 15 characters and no NUL |
| WireFields.BandRoundTrip | src/client_server.c:253-273 | decoding a band packet (src/client_thread.c:978-1004) gives the calibration to 1e-10 and the rest exactly if and only if it fits |
| WireFields.BandArrives | src/client_thread.c:978-1004 | a packet whose fields fit replaces the record of its band, and no other, exactly when the client has the band and its stack is as long as the index; the number just behind the table passes the test |
| Frames.BodyIsStruct | src/client_server.h:267-851 | for every type the body length is the size of the struct, counted from its fields |
| Frames.VfoBody | src/client_thread.c:1351-1356 | the body length the client reads is that of the VFO struct |
| Frames.AgcBody | src/client_thread.c:1510-1518 | the body length the client reads is that of the AGC struct |
| Frames.BandBody | src/client_thread.c:978-981 | the body length the client reads is that of the band struct |
| Frames.SentIsPacket | src/client_thread.c:944 | sync word, to_16(type), six header bytes and a body make a packet for the client if and only if the body has the length of the type; the client then finds this type, these bytes and this body |
| Frames.VfoHeader | src/client_server.c:599-602 | the header of a VFO packet begins with FA FA AF AF 00 71 |
| Frames.ServedIff | src/client_server.c:114-140 | a transfer is served within so many calls exactly when some number of calls within the limit brings all bytes and none fails |
| Sending.Connection.SendTcp | src/client_server.c:148-176 | the packet goes out whole if and only if the socket is open and enough is accepted before an error; otherwise -1 and a beginning of it |
| Sending.StepExclusive | src/client_server.c:152-174 | at most one thread is between lock and unlock |
| Sending.StepInv | src/client_server.c:148-176 | each step of any thread keeps the stream a concatenation of what the calls left, in lock order, and the current beginning |
| Sending.RunInv | src/client_server.c:148-176 | so does every run, and only a failed send sets the error mark |
| Sending.CalledIsOrdered | src/client_server.c:148-176 | each call of send_tcp waits for the mutex or has one place in the lock order |
| Sending.WholePackets | src/client_server.c:148-176 | without errors the stream is whole packets in lock order and a beginning of the next, for all partial sends |
| Sending.EverythingGetsOut | src/client_server.c:148-176 | as long as no send has failed, some run without new calls ends with every thread back and all packets out in lock order |
| Sending.PacketGetsOut | src/client_server.c:148-176 | a thread can call send_tcp whatever the others do, and in some run its packet gets out |
| Receiving.NineCalls | src/client_server.c:114-140 | a read gets the next n bytes if and only if they are there and at most nine calls, none of them failing, bring them |
| Receiving.Client.RecvTcp | src/client_server.c:114-140 | the next n bytes if they are there and nine calls of recv bring them, else -1 |
| Receiving.StopsOnSync | src/client_thread.c:925-938 | when the resync loop stops, the last four bytes read are FA FA AF AF, whatever it had matched before |
| Receiving.ScanIs | src/client_thread.c:925-938 | the loop ends if and only if the input makes it stop and each byte arrives in time, and has read no byte more |
| Receiving.ScanEndsOnSync | src/client_thread.c:925-938 | the same of the loop with its reads: it ends right behind a sync word |
| Receiving.SeesWordIff | src/client_thread.c:933-937 | behind junk in which it does not stop it sees the next sync word if and only if the junk leaves nothing matched |
| Receiving.SeesWordBehindRun | src/client_thread.c:933-937 | behind bytes it has passed, ending in n bytes FA after a byte other than FA and AF, it does so if and only if 3 divides n |
| Receiving.NeverPast | src/client_thread.c:925-938 | the loop never runs past a sync word that follows a byte other than FA and AF or starts the scanned part |
| Receiving.WordMissed | src/client_thread.c:933-937 | in FA FA FA AF AF the sync word is not seen |
| Receiving.ReceivesPackets | src/client_thread.c:911-952 | from a stream of whole packets the client gets a prefix of them; all if and only if no read needs more than nine calls |
| Receiving.Resynchronises | src/client_thread.c:919-943 | behind a bad header and any bytes that the loop passes and that leave nothing matched it gets a prefix of the packets that follow; all if and only if no read needs more than nine calls |
| Receiving.EasilyOutOfStep | src/client_thread.c:925-938 | such bytes are all those without sync word, or passed by the loop, that end in a byte other than FA and AF and then n bytes FA, 3 dividing n |
| Receiving.FoundAfterMissed | src/client_thread.c:925-938 | for instance a missed sync word and what follows it |
| Receiving.MissesFirst | src/client_thread.c:919-943 | behind bytes it passes that leave something matched the client misses the first packet; if that one has no second sync word and ends in a byte other than FA and AF, it gets a prefix of the others, and all if and only if no read needs more than nine calls |
| Receiving.MissesOneAtMost | src/client_thread.c:919-943 | so behind any bytes it passes it gets a prefix of all packets or of all but the first |
| Receiving.Client.FindSync | src/client_thread.c:925-938 | the loop over single bytes |
| Receiving.Client.ReadHeader | src/client_thread.c:914-943 | a header, after resynchronisation if the sync bytes do not match |
| Receiving.Client.ReadOne | src/client_thread.c:911-1590 | a header and the body whose length its type decides |
| Receiving.Client.ClientTcpThread | src/client_thread.c:911-1590 | the loop collects the packets of the stream until a read fails |
| Framing.EndToEnd | src/client_server.c:114-176 | for any threads, interleaving and cuts without errors the client gets a prefix of the complete packets in lock order; all if and only if no read needs more than nine calls |
| Framing.GetsInOrder | src/client_server.c:114-176 | packet number i that the client gets is number i in the lock order |
| Framing.PacketArrives | src/client_thread.c:911-952 | if number i was sent with a type, header bytes and a body, the client reads this type, these bytes and this body |
| Framing.VfoPacketArrives | src/client_server.c:599-624 | of a sent VFO packet the client gets type 113, the header bytes and the body, and decodes all fields (src/client_thread.c:1351-1376) if and only if each fits |
| Framing.AgcPacketArrives | src/client_server.c:821-838 | the same of an AGC command (src/client_thread.c:1510-1531), the reals to 1e-10 |
| Framing.BandPacketArrives | src/client_server.c:253-273 | the same of a band packet (src/client_thread.c:978-1004), the calibration to 1e-10 |
| SpotRing.Modular | src/dxcluster.c:80 | the index steps of the model are those modulo 500 |
| SpotRing.Ring.Push | src/dxcluster.c:78-82 | the ring represents the last 500 pushed spots, the new one added |
| SpotRing.StopEarly | src/dxcluster.c:697 | stopping at max_out spots is no loss |
| SpotRing.Ring.QuerySpots | src/dxcluster.c:683-706 | the first max_out matching spots of the last 500 pushed, newest first |
| SpotRing.QueryAnswer | src/dxcluster.c:683-706 | the answer is, of the last 500 pushed, the spots with loHz <= freqHz <= hiHz that pass the filters, newest first, each once, and none left out unless max_out are reached |
| SpotFile.ScanIntInverts | src/dxcluster.c:580-582 | a printed number is read back up to the next non-digit |
| SpotFile.ParseInverts | src/dxcluster.c:629-631 | the line of a storable spot is scanned to this spot |
| SpotFile.ParsedIsStorable | src/dxcluster.c:580-583 | what the scan accepts has non-empty comma-free fields that fit their arrays |
| SpotFile.LineRoundTrip | src/dxcluster.c:580-588 | a saved spot is read back if and only if its four text fields are non-empty and comma-free |
| SpotFile.EmptyFieldFails | src/dxcluster.c:583 | a line with an empty field is skipped |
| SpotFile.BodyIsShortLine | src/dxcluster.c:578-579 | a saved spot is one line that the read buffer can hold |
| SpotFile.ReadFirst | src/dxcluster.c:579-590 | each line is read by itself, whatever follows |
| SpotFile.LongLineInPieces | src/dxcluster.c:576-579 | a longer line is read in pieces of 511 characters |
| SpotFile.FileRoundTrip | src/dxcluster.c:573-593 | of all received spots: each comes back as its own line is read; all come back unchanged if and only if each has four non-empty comma-free fields; of comma-free spots exactly those with four non-empty fields come back |
| SpotFile.SaveThenLoad | src/dxcluster.c:623-637 | the same of the ring before and after a restart |
| SpotFile.CommaInComment | src/dxcluster.c:580-582 | with clean fields otherwise, a comment is cut at its first comma, if anything stands before it, and what follows is taken for the time |
| SpotFile.CommaExample | src/dxcluster.c:580-588 | "CQ, up 5" comes back as "CQ" at the time 0 |
| SpotFile.Save | src/dxcluster.c:623-637 | the file has the ring's spots, oldest first |
| SpotFile.LoadLine | src/dxcluster.c:580-589 | one line adds its spot or nothing |
| SpotFile.Load | src/dxcluster.c:575-593 | loading pushes the spots of the lines in order |
| SpotGroups.Separation | src/dxcluster.c:835-846 | group anchors are pairwise more than 30 pixels apart and inside the window |
| SpotGroups.ApartBound | src/dxcluster.c:839-846 | points more than 30 apart in an interval of length w are at most (w + 30) / 31 |
| SpotGroups.GroupCount | src/dxcluster.c:834-856 | so many groups at most |
| SpotGroups.Conservation | src/dxcluster.c:834-856 | every spot in the window has one home group within 30 pixels, which holds the first 16 of its spots; other spots are in none |
| SpotGroups.EverySpotCounts | src/dxcluster.c:834-856 | so every spot in the window is in a group within 30 pixels, or was refused by one that holds 16 |
| SpotGroups.NewestIsMaximal | src/dxcluster.c:847-855 | newest_idx names a spot of maximal time if and only if some time is positive or none is later than the first |
| SpotGroups.FindHome | src/dxcluster.c:837-841 | the search gives the first group within 30 pixels |
| SpotGroups.DrawGroups | src/dxcluster.c:831-856 | the array code computes the layout |
| SpotGroups.ClickIsUnique | src/dxcluster.c:946-948 | at most one group is within reach of a click |
| SpotGroups.CacheDropsNone | src/dxcluster.c:858-876 | in at most 1984 pixels the cache keeps every group |
| SpotGroups.WiderWindowCanDrop | src/dxcluster.c:858-876 | in any wider window it can lose one |
| SpotGroups.ClickFindsGroup | src/dxcluster.c:937-959 | a click within reach of a drawn group gives the spots of this group |
| SpotGroups.ClickMisses | src/dxcluster.c:937-959 | a click is a miss if and only if y is outside 18 to 40 or it is more than 8 pixels from every group |
| SpotGroups.ClickCache.Fill | src/dxcluster.c:863-874 | as many groups as fit are copied, nothing else changes |
| SpotGroups.ClickCache.DrawSpots | src/dxcluster.c:796-876 | one receiver's half holds the entries of its picture, or the old ones if no spot is visible; the other half is unchanged |
| SpotGroups.ClickCache.HitTest | src/dxcluster.c:937-959 | the first entry within 8 pixels and 18 <= y <= 40 |
| LineSplitter.ChunkingIndependence | src/dxcluster.c:476-502 | the lines depend only on the concatenated bytes |
| LineSplitter.SplitterIsBatch | src/dxcluster.c:489-502 | they are the batch split at LF, without CR, cut at 1023 characters, empty ones dropped |
| LineSplitter.LinesOfStream | src/dxcluster.c:476-502 | both together for the read loop |
| LineSplitter.Worker.PullLines | src/dxcluster.c:488-502 | the array code feeds the bytes of one recv |
| Bootloader.PadContent | src/bootloader.c:351-354 | the file is padded in place with 0xFF to the next multiple of 256 |
| Bootloader.FrameIsUnderstood | src/bootldrsim.c:222-264 | the device decodes the frame of a command (src/bootloader.c:500-565) as this command with this block |
| Bootloader.FrameBytes | src/bootloader.c:500-565 | the frame byte by byte: addresses, mark, command code, data |
| Bootloader.SendRawData | src/bootloader.c:536-565 | the frame carries the 256 bytes from ptr |
| Bootloader.StepInv | src/bootloader.c:378-494 | every step of host, link and device keeps the invariant of the protocol |
| Bootloader.UploadInOrder | src/bootloader.c:378-494 | the blocks programmed or under way are the first ones of the buffer; no program command before the erase reply |
| Bootloader.FinishedImage | src/bootloader.c:481-487 | at the end the device has the padded file, and one block more with the test of the source |
| Bootloader.ImageIsFileIffNotStrict | src/bootloader.c:482 | the image is the padded file if and only if the test is `>=` |
| Bootloader.StepBurns | src/bootloader.c:378-494 | each round of the host loop uses up a measure of phase, blocks left and time-out |
| Bootloader.HostTerminates | src/bootloader.c:378-494 | the host loop ends: its rounds are bounded by the time-outs and the blocks |
| Bootloader.SaysScript | src/bootloader.c:378-494 | in every run the commands sent are a beginning of: read MAC, read IP, write IP if asked for, and with a file erase and the blocks; all of it when the host finishes |
| Bootloader.GivesUpAfter | src/bootloader.c:384-429 | if nothing comes, the host gives up in the 18000th round of waiting for the erase reply and in the 50th for any other |
| Bootloader.CanFinishIff | src/bootloader.c:378-494 | from a reachable state the host can still finish if and only if its time-out has not run down |
| Bootloader.UploadCompletes | src/bootloader.c:378-494 | for every file some run finishes, with the image of FinishedImage under either test |
| Bootloader.QueueIsShort | src/bootloader.c:382-416 | never more than two commands wait for the device |
| Bootloader.RoundInTime | src/bootloader.c:417-429 | a round in which the device empties its queue and the reply arrives ends a wait; any other takes one from the time-out or begins a wait |
| Bootloader.HostProgram.Loop | src/bootloader.c:378-494 | the loop of main with the two switches returns, for any delays; if it finishes an upload the device has the image; the commands sent are a beginning of the script, and all of it if it finishes; and it finishes, rather than timing out, if among any 50 rounds there is one in which the device empties its queue and its reply arrives |
| Bootloader.RoundInv | src/bootloader.c:378-494 | a round of the loop keeps the invariant of the protocol and uses up the measure |
| BandCycle.UpDown | src/band.c:715-755 | on the selectable bands a step down undoes a step up |
| BandCycle.DownUp | src/band.c:715-755 | and a step up undoes a step down |
| BandCycle.Walk | src/band.c:715-734 | k steps up have visited exactly the k selectable bands up to the present one |
| BandCycle.WholeCycle | src/band.c:715-734 | a cycle visits every selectable band and ends where it began |
| BandCycle.OncePerCycle | src/band.c:715-734 | no band twice in a cycle |
| BandCycle.SearchEnds | src/band.c:718-733 | the loop, round by round, comes to an end if and only if some band is selectable or the present one has a title, upwards and downwards |
| BandCycle.NeverFound | src/band.c:718-733 | otherwise it never does, and the VFO stays |
| BandCycle.SearchLands | src/band.c:718-733 | a search that is over has left the VFO on the first band where it can end |
| BandCycle.StepsCancel | src/band.c:715-755 | from a selectable band the two functions go to selectable bands and cancel out |
| BandCycle.Vfo.BandPlus | src/band.c:715-734 | the code ends in the state of the model after some number of rounds, on the first band above at which the search ends |
| BandCycle.Vfo.BandMinus | src/band.c:736-755 | the same downwards |
| BoundedString.TruncationIsReported | STUFF/mystring.c:88-118 | the copy is NUL-terminated, is the text cut at size - 1, and is all of it exactly when the returned length is less than the size |
| BoundedString.CopyThenAppend | STUFF/mystring.c:54-118 | copying one string and appending another is copying their concatenation |
| BoundedString.AppendedText | STUFF/mystring.c:54-86 | an append gives the text that was there and what fits of the other, all of it exactly when the sum of the lengths is less than the size |
| BoundedString.CopyLeavesRest | STUFF/mystring.c:88-118 | the bytes behind the NUL of the copy and those beyond the size stay as they were |
| BoundedString.AppendLeavesRest | STUFF/mystring.c:54-86 | the same of an append, which also leaves the text before it |
| BoundedString.Strlcpy | STUFF/mystring.c:94-118 | the destination is the bounded copy, its tail unchanged; the result is strlen(src) |
| BoundedString.FindEnd | STUFF/mystring.c:61-64 | the end of dst, not beyond its size |
| BoundedString.AppendText | STUFF/mystring.c:73-82 | what fits is appended, the rest of src walked over, nothing else changed |
| BoundedString.Strlcat | STUFF/mystring.c:54-86 | the destination is the bounded concatenation; the result is min(dsize, strlen(dst)) + strlen(src) |

## Left out

- Memory order: `MicRing`, `PoolSchedule` and `Sending` interleave single accesses; the barriers of the source are taken to give this order.
- Pools on the heap: `BufferPool` runs without interference, and the interleaving is modelled on values in `PoolSchedule`; the METIS, P2 and the three SATURN pools differ only in the bunch size, which is a parameter.
- Out of memory: the source ends the program there.
- IEEE rounding: `to_double` and `from_double` are modelled over the reals, as are samples; the sound card formats are left out.
- Pixel positions: the grouping takes integer pixels; the conversion from Hz in floating point is left out.
- VfoBatch.NoStepLost: the accumulator does not overflow in the model; it is an `int` in the source.
- VfoBatch.NoHzLost: the accumulator does not overflow in the model; it is a `long long` in the source, where the sums would overflow before the wire cuts them.
- BandCycle.Vfo.BandPlus: it requires that the search ends, since the loop goes on for ever otherwise (`BandCycle.NeverFound`); `BandCycle.SearchEnds` says when that is. `vfo_id_band_changed` selects the band or leaves the old one, by a fixed set of bands.
- BandCycle.Vfo.BandMinus: as for BandPlus.
- Receiving.Client.RecvTcp: nothing is said about how many bytes a failed read has taken, since the caller closes the connection.
- Sending.Connection.SendTcp: a send that keeps accepting nothing would loop forever in the source; here the list of replies ends, and the end is an error.
- What the client does with a packet (src/client_thread.c:957-1590): only the length of its body matters here, and for VFO, band and AGC packets the fields.
- Packet kinds whose two sides disagree about a field (memory, band stack, radio, ADC): their lengths are in the framing, their fields are not modelled.
- The server's side of the receive loop (src/server_thread.c), UDP packets, Opus and the ping in `check_vfo`.
- PreRoll.SentIsContiguous: a packet that is sent is taken to arrive; an Opus frame that fails to encode is dropped by the source.
- Spot filters: `spot_passes_filters` is an arbitrary predicate in the query.
- Spots on the wire: `parse_spot_line` and the database are left out; the reload takes fields within the limits of `DX_SPOT`.
- Line splitter: the stop flag and NUL characters inside a line, which would cut the string that is handed on.
- Number scanning: `sscanf` beyond the range of `long long`.
- Bootloader.HostProgram.Loop: rounds are counted, not milliseconds; packets that are not for the boot loader count as none.
- Bootloader: the link neither loses nor reorders packets, and the device answers honestly; the simulator's timer that closes its file, its reply padding and its stored IP address are left out.
- `audio_write`, `get_band_from_frequency`, menus, drawing, filters of the receiver and access control: easy members, constant tables or calls into code outside the repository.
