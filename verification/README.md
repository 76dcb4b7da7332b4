# Verified models of the lua-mumble client core

Dafny models of the parts of the client where a mistake is hard to see: the crypt state of
the UDP channel, the threads of the audio engine, the byte buffer with its variable-length
integers and voice packets, and the linked lists behind users and channels. Each operation
that changes state is a method proved against a specification function or an abstract value;
what the program promises is then proved about that specification, over all inputs and all
runs.

`dafny verify dfyconfig.toml` checks everything.

## What is modelled

**Block mode** (`Bytes`, `Gf128`, `Words64`, `Words32`, `Ocb2`, `Ocb2Meaning`, `OcbCode`). `Gf128` reads a
block as a polynomial over GF(2) and shows that doubling is multiplication by x modulo
x^128 + x^7 + x^2 + x + 1; `Words64` and `Words32` show that the in-place word code of the two
builds computes exactly that on the bytes in memory. `Ocb2` is the reference: every ciphertext
block, the checksum, the padded last block and the tag in closed form (OCB 2.0, mechanism 1 in
clause 6 of ISO/IEC 19772:2009, with the counter-measure of section 9 of eprint 2019/311).
`Ocb2Meaning` states what that is without its definitions, as equations over the inverse cipher
and over polynomials that one ciphertext and tag fulfil. `OcbCode` walks the buffers with a running mask and checksum, as the program does, and is proved
equal to the reference. The block cipher is an abstract pair `E`, `D`; it is invertible where a
lemma needs it.

**Nonce tracking** (`NonceTracker`, `LossAccounting`, `IvBytes`, `NonceCode`, `Packets`,
`CryptState`, `CryptExchange`). The receiver is followed with an unwrapped integer counter over
arbitrary runs, from any content of the replay table, between two changes of the nonce.
`IvBytes` and `NonceCode` are the byte loops with carry and borrow and the five branches;
`CryptState` is the object itself, whose `Decrypt` is tied to the step of the tracker;
`CryptExchange` sends a message through two such objects.

**Audio threads** (`Ring`, `RingCalls`, `RingCode`, `Reclaim`, `ReclaimRuns`, `ReclaimCalm`,
`ReclaimInputs`, `ReclaimCourses`, `ReclaimRest`, `Pipeline`, `PipelineRuns`, `Resample`). Each is a state
machine whose steps are the single atomic accesses, sample copies and mutex sections, or smaller
ones; an execution is any interleaving of them. The main thread may stop and play streams in the
middle of its work on a pinned one, and transmit or disconnect with an item of the pipeline in hand,
as hooks do. `RingCode` is the code of both ring calls, uninterrupted and in place; `Resample` is
the size arithmetic that decides how much is handed to the ring. Where a property of `Reclaim` is
false as it stands, `ReclaimRuns` and `ReclaimCalm` give the exact condition and `ReclaimInputs` a
course from the start to a state that shows it. `RingCalls`, `ReclaimCourses`, `ReclaimRest` and
`PipelineRuns` say where the steps lead: what whole calls do, and that either side can always finish.

**Byte buffer and codecs** (`ByteBuffer`, `VarInt`, `VarIntNumber`, `VarIntCode`, `VoicePacket`,
`VoiceNumber`, `VoiceTransmit`). The buffer means a byte string with a read position. Its growth is
followed through an account of the bytes all resizes have moved. `VarIntNumber` and `VoiceNumber` say
what stands on the wire as numbers in base 256.

**Lists and tables** (`Wrappers`, `LinkedList`, `LinkQueue`, `Directory`). Pointer structures on the heap,
with a ghost spine that gives their contents.

## What the proofs bring to light

- The window of the receiver is meant to reach from 29 back to 128 forward. It does exactly when
  the low byte of the stored counter is below 128: otherwise the difference is -128, which
  neither adjustment of `mumble/ocb.c:179-182` touches, and the packet is refused
  (`NonceTracker.FullWindowIff`, `NonceTracker.StepOf128Refused`).
- `uiLost` is decremented only while it is greater than one. So it differs from the number of
  packets missing by an excess that is known exactly (`LossAccounting.LostIsExact`): one too many
  once a late packet has filled the only gap left, and one too few for each late packet from before
  the start of the run that meets a counter above one. Runs for both are
  `LossAccounting.CatchingUpOvercounts` and `LossAccounting.EarlyPacketUndercounts`.
- A packet sealed under a nonce of the window is delivered if and only if the replay check lets
  it pass and its padded last block does not collide with the mask in the first fifteen bytes
  (`Packets.EndToEnd`). The replay check can refuse a packet never seen
  (`Packets.UnseenIsRefused`); with a table as it is at the start and a counter whose second byte is
  zero and whose low byte is below 128, one lost packet makes it refuse all that follow it in the window
  (`Packets.FilledSlotsStall`, `Packets.OneLossStalls`).
- An error of the encoder is not noticed: `voicepacket_setframe` refuses the length, the result
  is ignored, and a packet of the header alone goes out; the sender's own hooks then read the
  rest of the frame from what the buffer held before (`VoicePacket.SendLegacyAudio`).
- A pin attempt is never rolled back: both threads look for streams in the list under the mutex
  that a stop needs to unlist them, so the second test of `sound_try_pin` never fires
  (`Reclaim.RollbackNeverRuns`).
- A replayed stream keeps its old reference and drops one entry from the reclaim list. A stream
  stopped twice has two, and the one left behind can release it while it is pinned: exactly the
  plays that leave an entry behind allow that (`ReclaimCalm.PinnedReleaseIff`,
  `ReclaimCalm.ReleasedAtZero`).
- The buffer thread may still look at a stream after its reference was released: exactly when it is
  busy with the stream at the release, or a second entry is left
  (`ReclaimRuns.TouchedAfterReleaseIff`).
- An audio event whose hook disconnects may still queue an item, which then is never freed; nothing
  else is ever left over (`Pipeline.AllFreedIff`).
- The guard of the buffer's reads is right exactly when head and size do not wrap
  (`ByteBuffer.GuardIsRightIff`).
- A frame that a script transmits with one of the older codecs gets its flag in the lowest bit
  (`mumble/client.c:272`), while the parser looks at the highest: it reads back as it was meant
  exactly for odd lengths below 128 in the middle of speech (`VoiceTransmit.OldFrameReadsBackIff`).
- The target of a received packet is shifted out altogether (`mumble/mumble.c:266`); it comes through
  exactly when it is zero in its five bits (`VoiceTransmit.TargetComesThroughIff`).
- For the prefix 0xF8 the reader reports a size without the prefix byte, while the read head
  does move over it; failed reads of several bytes leave the read head moved
  (`VarInt.RoundTrip`, `VarIntCode.ReadVarInt`).
- The two varint writers agree on a value if and only if it is not one of the negative values
  (`VarInt.PlainAgreesIff`).
- The bound of three bytes moved per byte of capacity gained is met with equality when growing
  from 3 to 4 (`ByteBuffer.GrowthBoundIsTight`).

Where comments in the program and its code differ, the code is followed.

## Model

| member | source | states |
|---|---|---|
| Gf128.DoubleIsTimesX | mumble/ocb.c:274-279 | As polynomials, doubling a block is multiplication by x, reduced by the modulus exactly when the top coefficient was set |
| Gf128.ReducedProductIsUnique | mumble/ocb.c:274-279 | No other polynomial of degree below 128 is the product up to a multiple of the modulus, by any polynomial whatever |
| Gf128.DoubleIsLinear | mumble/ocb.c:274-279 | Doubling distributes over XOR |
| Gf128.TripleIsTimesXPlusOne | mumble/ocb.c:281-286 | Tripling is multiplication by x + 1: the doubled block plus the block |
| Gf128.HalveUndoesDouble | mumble/ocb.c:274-279 | Doubling has a left inverse on all blocks |
| Gf128.DoubleUndoesHalve | mumble/ocb.c:274-279 | and it is a right inverse too, so doubling is a permutation of the blocks |
| Gf128.DoubleIsInjective | mumble/ocb.c:274-279 | Different blocks have different doubles, so the masks never merge |
| Gf128.PolyDeterminesBlock | mumble/ocb.c:264-279 | A block is determined by its polynomial, so statements about polynomials fix every bit |
| Words64.DoubledMemory | mumble/ocb.c:247-255 | The words stored by the doubling statements of the 64-bit build are, as bytes in memory, the doubled block |
| Words64.XOR | mumble/ocb.c:268-272 | The in-place XOR of two 64-bit words is the byte-wise XOR of the blocks in memory |
| Words64.S2 | mumble/ocb.c:274-279 | The in-place doubling on byte-swapped 64-bit words leaves the doubled block in memory |
| Words64.S3 | mumble/ocb.c:281-286 | The in-place tripling on byte-swapped 64-bit words leaves the tripled block in memory |
| Words32.DoubledMemory | mumble/ocb.c:257-262 | The same for the words of the 32-bit build |
| Words32.XOR | mumble/ocb.c:268-272 | The in-place XOR of four 32-bit words is the byte-wise XOR of the blocks |
| Words32.S2 | mumble/ocb.c:274-279 | The in-place doubling on four byte-swapped 32-bit words leaves the doubled block, so both builds agree |
| Words32.S3 | mumble/ocb.c:281-286 | The in-place tripling on four 32-bit words leaves the tripled block |
| Ocb2.BlocksRoundTrip | mumble/ocb.c:396-405 | Opening any number of sealed full blocks under the same masks gives the plaintext blocks back |
| Ocb2.BlocksRoundTripBack | mumble/ocb.c:346-360 | Sealing any number of opened full blocks gives the ciphertext blocks back |
| Ocb2.LastRoundTrip | mumble/ocb.c:363-373 | The receiver recomputes exactly the padded last block of the sender, for every length up to sixteen |
| Ocb2.OpenSealed | mumble/ocb.c:388-432 | For every cipher, nonce and text, opening a sealed text gives text and tag back, and reports success if and only if the padded last block does not collide with the mask |
| Ocb2.OcbRoundTrip | mumble/ocb.c:314-380 | With the counter-measure on, sealing always succeeds, the tags agree, and the text comes back unchanged, or with the low bit of the first byte of its all-zero second-to-last block set |
| Ocb2.HardenedIsSafe | mumble/ocb.c:323-344 | What is really sealed never has the shape of the attack, and hardening again changes nothing |
| Ocb2.SealOpened | mumble/ocb.c:388-432 | Every ciphertext is the sealing of what it opens to, with the same tag: under one nonce the mode is a bijection of texts of each length |
| Ocb2Meaning.PowerIffMask | mumble/ocb.c:346-349 | A block is the mask of a place if and only if its polynomial is that power of x times the encrypted nonce, up to any multiple of the modulus |
| Ocb2Meaning.LengthBlockIsBinary | mumble/ocb.c:364-365 | The block with the length has, as polynomial, the binary exponents of eight times the number of bytes |
| Ocb2Meaning.SealIsTheStandard | mumble/ocb.c:314-380 | A ciphertext and tag are what sealing gives if and only if, through the inverse cipher and polynomials alone, every full block decrypts to the text under its power of x, the last bytes differ from the text by the front of a pad that decrypts to the next power plus the length in bits, and the tag decrypts to x + 1 times that power plus the sum of all blocks, the last completed by the rest of the pad |
| Ocb2Meaning.OpenIsTheStandard | mumble/ocb.c:388-432 | Opening gives the text and tag for which the same equations hold, and no other |
| Ocb2Meaning.OpenReports | mumble/ocb.c:418-425 | Opening reports success exactly when the completed last block differs from the last power of x somewhere in its first fifteen bytes |
| Ocb2Meaning.HardenedIff | mumble/ocb.c:323-344 | A text is changed if and only if the fifteen bytes from the start of its second-to-last block are zero; the first of them becomes one |
| Ocb2Meaning.SealHardens | mumble/ocb.c:326-344 | With the counter-measure the changed text is sealed; without it the text itself, and failure is reported exactly when it would have been changed |
| Ocb2Meaning.OneByteSealed | mumble/ocb.c:363-377 | Every byte of ciphertext and tag for one text, nonce and permutation |
| OcbCode.FirstBytesAreZero | mumble/ocb.c:328-332 | ORing fifteen bytes together finds exactly the blocks that start with fifteen zero bytes |
| OcbCode.CheckAttack | mumble/ocb.c:326-344 | The check before the last turn of the loop flips or fails exactly on the attack's shape, by the caller's flag |
| OcbCode.SealStep | mumble/ocb.c:346-356 | One turn writes the sealed block, also when a bit is flipped in the masked copy and in the checksum only, and touches nothing else of the buffer |
| OcbCode.SealLoop | mumble/ocb.c:318-361 | The loop with its running mask and checksum leaves the reference's blocks, mask and checksum, and fails exactly on a suspicious text without the flag |
| OcbCode.SealFinish | mumble/ocb.c:363-377 | Padding, last block and tag are those of the reference, which `Ocb2Meaning.SealIsTheStandard` settles |
| OcbCode.OcbEncrypt | mumble/ocb.c:314-380 | Ciphertext in place, tag and result are those of the reference for every length, nonce and flag, so the ones that fulfil the equations of `Ocb2Meaning.SealIsTheStandard`; the rest of the destination is untouched |
| OcbCode.OpenStep | mumble/ocb.c:397-404 | One turn writes the opened block and adds it to the checksum |
| OcbCode.OpenLoop | mumble/ocb.c:392-405 | The loop leaves the reference's plaintext blocks, and the checksum of what it wrote |
| OcbCode.OpenFinish | mumble/ocb.c:407-431 | Last bytes, collision test and tag are those of the reference, which `Ocb2Meaning.OpenIsTheStandard` and `Ocb2Meaning.OpenReports` settle |
| OcbCode.OcbDecrypt | mumble/ocb.c:388-432 | Plaintext in place, tag and result are those of the reference for every ciphertext, so the ones that fulfil the equations of `Ocb2Meaning.OpenIsTheStandard`; the rest of the destination is untouched |
| NonceTracker.OffsetFindsWindow | mumble/ocb.c:163-212 | The offset is found if and only if it leads to the counter of the window with that low byte |
| NonceTracker.OffsetIsNone | mumble/ocb.c:210-212 | No offset is found if and only if no counter of the window has that low byte |
| NonceTracker.FullWindowIff | mumble/ocb.c:178-182 | The window reaches from 29 back to 128 forward if and only if the low byte of the counter is below 128 |
| NonceTracker.StepOf128Refused | mumble/ocb.c:178-182 | A concrete counter from which the step of 128 is refused |
| NonceTracker.WindowByDistance | mumble/ocb.c:163-212 | Which distance is understood from each of the 256 possible ones: -29 to -1 and 1 to 127 always, 128 by the low byte of the counter, no other |
| NonceTracker.StepKeepsInv | mumble/ocb.c:147-245 | Every packet, accepted or not, keeps the invariant: all accepted counters lie at most 29 before the start and up to now, they are distinct, and those from 29 back still show in their slots |
| NonceTracker.NoReplay | mumble/ocb.c:175-229 | Over any run and any initial table no counter is accepted twice, and no 128-bit nonce either before the counter has gone round |
| NonceTracker.VerdictUnwrapped | mumble/ocb.c:163-224 | What an accepting verdict says of the unwrapped counter: it is in the window, has the packet's byte, passed the replay check unless next, and was authentic |
| LossAccounting.GoodPlusMissing | mumble/ocb.c:231-243 | Accepted packets plus missing counters equal the distance travelled plus the packets from before the start |
| LossAccounting.LostIsExact | mumble/ocb.c:238-243 | After every run `uiLost` is the number missing plus the excess: one more for each late packet of the run that meets a counter of one or less, one less for each packet from before the run that meets more |
| LossAccounting.LossAccounting | mumble/ocb.c:184-243 | After any run from zero counters `uiGood` and the missing counters account for the distance, and `uiLost` is exactly the number missing and the excess, which is at most one and falls below zero by at most the packets from before the start |
| LossAccounting.ExcessIsCatchingUp | mumble/ocb.c:238-243 | Without packets from before the start the excess is one if a late packet ever filled the only gap left, and zero otherwise |
| LossAccounting.CatchingUpOvercounts | mumble/ocb.c:238-243 | A run of two packets after which nothing is missing and `uiLost` is one |
| LossAccounting.EarlyPacketUndercounts | mumble/ocb.c:238-243 | A run of two packets, one from before the start, after which two counters are missing and `uiLost` is one |
| LossAccounting.LateIsBehind | mumble/ocb.c:231-237 | After every run `uiGood` has grown by the accepted packets and `uiLate` by those of them whose counter lies behind the start or behind one accepted before |
| IvBytes.IncrementAddsOne | mumble/ocb.c:131-134 | Incrementing bytes until one does not become zero adds one to the little-endian number, modulo its size |
| IvBytes.DecrementTakesOne | mumble/ocb.c:195-197 | Decrementing bytes until one was not zero takes one from the little-endian number, modulo its size |
| IvBytes.LittleEndianOfValue | mumble/ocb.c:131-134 | The bytes of the number a byte string stands for are that string |
| IvBytes.ValueOfLittleEndian | mumble/ocb.c:131-134 | and the number those bytes stand for is the number |
| IvBytes.IncrementFrom | mumble/ocb.c:169-171 | The carry loop from any byte on increments that part of the array in place |
| IvBytes.DecrementFrom | mumble/ocb.c:195-197 | The borrow loop from any byte on decrements that part of the array in place |
| NonceCode.BranchesFindWindow | mumble/ocb.c:163-212 | The five branches compute the offset of the window for every counter and byte |
| NonceCode.Moved | mumble/ocb.c:165-209 | Replacing the low byte and adding the branch's carry or borrow to the rest moves the 128-bit number by the offset, modulo 2^128 |
| NonceCode.NextIv | mumble/ocb.c:163-174 | In order: the stored number goes up by one modulo 2^128 |
| NonceCode.OtherIv | mumble/ocb.c:175-212 | Out of order: the stored number moves by the offset, with the late, lost and restore values of its direction, or is untouched when there is none |
| Packets.EndToEnd | mumble/ocb.c:128-245 | A packet sealed under a nonce of the window is accepted if and only if the replay check passes and it does not collide; then the sender's text is delivered up to the announced bit, and otherwise the receiver is unchanged |
| Packets.DeliveredIff | mumble/ocb.c:147-245 | Whatever bytes arrive, a text is delivered if and only if they carry the low byte, the three tag bytes and the ciphertext of its sealing under a counter of the window that passes the replay check and does not collide |
| Packets.RefusedUnmoved | mumble/ocb.c:220-224 | Bytes that deliver nothing leave the receiver as it was |
| Packets.OtherTagRefused | mumble/ocb.c:222-224 | A genuine packet with any other value in one of its three tag bytes is refused and leaves the receiver as it was |
| Packets.PacketLayout | mumble/ocb.c:131-143 | What the sender makes carries the sealing of the hardened text under the nonce that reads, little-endian, as the counter |
| Packets.InOrderDelivery | mumble/ocb.c:128-245 | With equal counters any sequence of packets that arrives complete and in order, without collision, is delivered whole; nothing counts as late or lost and the counters agree again |
| Packets.ReceiveIsStep | mumble/ocb.c:147-245 | Receiving any byte string is one step of the tracker on the event it brings, or none when it is shorter than four bytes; text is delivered exactly when the verdict accepts |
| Packets.ReceiveAllIsRun | mumble/ocb.c:147-245 | Receiving any sequence of byte strings is the tracker's run on the events met, and the nonces that opened packets are the accepted counters modulo 2^128 |
| Packets.NoNonceOpensTwice | mumble/ocb.c:175-229 | Whatever byte strings arrive, fewer than about 2^121 of them, no two are accepted under the same 128-bit nonce |
| Packets.ReceivedLoss | mumble/ocb.c:231-243 | After any byte strings received from zero counters, `uiGood` of the receiver accounts for what is missing and `uiLost` is exactly what is missing and the excess |
| Packets.ReceivedLate | mumble/ocb.c:231-237 | After any byte strings received `uiGood` has grown by the nonces opened and `uiLate` by the counters accepted behind an earlier one or the start |
| Packets.UnseenIsRefused | mumble/ocb.c:214-217 | A receiver and a packet never seen that the replay check refuses, whatever the key and the text |
| Packets.RefusedIff | mumble/ocb.c:214-217 | A packet of the window, not the next one and without collision, is refused if and only if its slot already shows its second byte |
| Packets.FilledSlotsStall | mumble/ocb.c:214-217 | A low byte below 128 and slots that hold the second byte of the counter put all counters from two to 128 ahead into that case |
| Packets.OneLossStalls | mumble/ocb.c:159-224 | In that state, once the next packet is lost, any number of packets up to 128 ahead in any order deliver nothing and leave the receiver as it was |
| CryptState.Crypt.constructor | mumble/ocb.c:27-41 | Key, nonces, replay table and counters start at zero |
| CryptState.Crypt.SetKey | mumble/ocb.c:67-78 | Installs key and nonces if and only if all three are sixteen bytes; the replay table and the counters stay either way |
| CryptState.Crypt.Encrypt | mumble/ocb.c:128-145 | Moves the sending counter up by one modulo 2^128 and leaves the packet of that counter in the buffer, with the layout of `Packets.PacketLayout`; it cannot fail |
| CryptState.Crypt.Replayed | mumble/ocb.c:214 | True exactly when the slot of the stored nonce already holds its second byte |
| CryptState.Crypt.Locate | mumble/ocb.c:159-218 | Moves the stored nonce to the one the byte names, or leaves it as it was when none is near enough or the replay check stops it |
| CryptState.Crypt.Record | mumble/ocb.c:226 | Changes exactly the slot of the stored nonce, to its second byte |
| CryptState.Crypt.Count | mumble/ocb.c:231-243 | The three counters after one accepted packet, with the guards against going below zero |
| CryptState.Crypt.Commit | mumble/ocb.c:226-243 | Slot, counters and the nonce put back for a late packet make up the tracker's accepting step |
| CryptState.Crypt.Decrypt | mumble/ocb.c:147-245 | State, result and text are those of the tracker on this packet, for every byte string, so a text comes out exactly under the condition of `Packets.DeliveredIff`; any failure leaves nonce, table and counters as they were |
| CryptState.Crypt.Unseal | mumble/ocb.c:220-224 | True exactly when the packet opens under the stored nonce and its three tag bytes agree; the text is then the opened one |
| CryptState.Crypt.StepOther | mumble/ocb.c:175-212 | Moves the stored nonce by the branch's offset and nothing else of the state, or changes nothing when there is none |
| CryptState.LocatedPacket | mumble/ocb.c:220-224 | A packet that was located is accepted exactly when it is authentic under the nonce found, and changes nothing otherwise |
| CryptExchange.NextIsDelivered | mumble/ocb.c:128-245 | With equal counters the next packet is accepted whatever the replay table holds, modulo 2^128 included |
| CryptExchange.Exchange | tests/crypt.lua:13-30 | One message through the encrypting and the decrypting object with the same key and matching nonces: the text arrives, up to the announced bit, the nonces match again, and nothing counts as late or lost |
| Ring.StepKeepsInv | mumble/audio.c:69-119 | Every atomic step of writer or reader keeps the invariant of the ring |
| Ring.SlotsAreDisjoint | mumble/audio.c:79-119 | Slots being written and slots being read are disjoint, across the wrap-around |
| Ring.RingIsSafe | mumble/audio.c:69-119 | At every moment of every interleaving the samples read are a prefix of the samples written, `used` is their difference and at most the size, and no slot is read while it is written |
| Ring.MeasuredWriteFits | mumble/audio.c:526-551 | A write made for a space measured earlier is never cut short, whatever the reader did in between |
| Ring.FramesStayWhole | mumble/audio.c:654-676 | When callers ask for whole stereo frames and the size is even, head, tail, used and every count stay even in all interleavings |
| RingCalls.ReadTakesOldest | mumble/audio.c:100-119 | In every interleaving a whole read takes exactly the oldest samples: as many as it asked for, or all that were published when it looked |
| RingCalls.WriteAddsWhatFits | mumble/audio.c:79-98 | In every interleaving a whole write adds the front of its source: all of it, or as much as was free when it looked |
| RingCalls.MeasuredSpace | mumble/audio.c:73-77 | The space measured is the size less the samples written and not yet read |
| RingCalls.ReadCanFinish | mumble/audio.c:100-119 | From wherever it stands a read can finish by its own steps, with the writer stopped anywhere, and then has taken the oldest samples |
| RingCalls.WriteCanFinish | mumble/audio.c:79-98 | From wherever it stands a write can finish by its own steps, with the reader stopped anywhere, and then has added what fits |
| RingCode.WriteExtends | mumble/audio.c:79-98 | The two runs of a write extend the contents of the ring by the source |
| RingCode.ReadTakes | mumble/audio.c:100-119 | The two runs of a read are the oldest samples of the ring |
| RingCode.SampleRing.RingWrite | mumble/audio.c:79-98 | Appends as many samples as fit and says how many |
| RingCode.SampleRing.RingRead | mumble/audio.c:100-119 | Takes the oldest samples, as many as asked for or there are |
| Reclaim.StepKeepsInv | mumble/audio.c:12-67 | Every step of pin, unpin, stop, clean, play and replay by either thread, from hooks under a pin too, keeps counts, references, lists and lock consistent, for any number of streams |
| Reclaim.RollbackNeverRuns | mumble/audio.c:19-25 | The test after the increment never finds the stream reclaimed |
| Reclaim.ListedIsLive | mumble/audio.c:328-352 | In every interleaving a listed stream is never marked reclaimed |
| Reclaim.ReleasedOnce | mumble/mumble.c:2044-2049 | In every interleaving, replays included, a released reference is the registered one of that very, stopped stream, with it all references of the stream are given back, and the pins left are the buffer thread's |
| Reclaim.ReferencesAreConserved | mumble/audio.c:269-299 | The references taken for a stream over any number of plays are those given back and the one it may hold |
| Reclaim.NeverForgotten | mumble/audio.c:33-67 | A stopped stream without pins waits in the reclaim list under its reference or a thread is dealing with it; when both threads rest, every reference taken for it was given back or waits in the list |
| ReclaimCalm.ReleasedAtZero | mumble/audio.c:47-67 | As long as every play leaves no old entry of its stream behind, listed or on its way, a reference is released at use count zero only |
| ReclaimCalm.PinnedReleaseIff | mumble/audio.c:282-285 | With both threads at rest and a stream listed, some further course releases a reference of it while it is pinned if and only if an old entry of it is left in the reclaim list |
| ReclaimInputs.OldEntryIsLeft | mumble/audio.c:346-351 | A course from the start to such a state: played, stopped twice, played again |
| ReclaimRuns.UnexposedStays | mumble/audio.c:12-67 | Once no thread is busy with a stream and no list leads to it, no step touches it, and nothing leads to it again without a new stop or play |
| ReclaimRuns.TouchedAfterReleaseIff | mumble/audio.c:33-45 | A stream is touched after its reference was released, on some further course, if and only if at the release the buffer thread was busy with it or a second entry was left |
| ReclaimInputs.ReleasedUnderUnpin | mumble/audio.c:33-35 | A course from the start on which the stream is released between the decrement and the next load of the buffer thread, which then touches it |
| ReclaimRuns.SavedNodeStaysIff | mumble/audio.c:986-999 | The list node that the main thread saves across a hook is in the list all the time if and only if no stop takes its stream out meanwhile, whatever both threads do |
| ReclaimCourses.EitherPins | mumble/audio.c:12-29 | Either thread, walking the list, pins any listed stream: it ends at work on it with one more use, and nothing else changed |
| ReclaimCourses.EitherUnpins | mumble/audio.c:33-45 | Either thread ends its work with one use less, and puts the stream in the reclaim list exactly when it was the last use of a stopped stream with a reference put aside |
| ReclaimCourses.StopGoesThrough | mumble/audio.c:328-352 | A whole stop, from outside or from within work on a pinned stream: unlisted, marked, its reference put aside, queued exactly when unpinned, and back where it was called |
| ReclaimCourses.PlayGoesThrough | mumble/audio.c:269-299 | A whole play: the reference put aside is taken back with one entry of it dropped, or a new one is registered, and the stream is listed under it |
| ReclaimRest.ComesToRest | mumble/audio.c:12-67 | Whatever both threads are in the middle of, their own next steps lead to rest with the mutex free: no deadlock |
| ReclaimRest.EverythingIsGivenBack | mumble/audio.c:47-67 | From every reachable state the threads can come to rest and clean; then no stream is in use and every reference taken has been given back but those of streams not stopped |
| Pipeline.StepKeepsInv | mumble/audio.c:811-969 | Every push, test and take of both threads, every step of shutdown, and shutdowns and transmissions from hooks with an item in hand, keep order and memory accounting |
| Pipeline.OrderIsKept | mumble/audio.c:879-969 | At every moment, through shutdown from wherever it is called, what was queued, in increasing sequence, is exactly what was sent, is going out, was dropped from or waits in the send queue, is in the encoder, was dropped from or waits in the encode queue, in this order; nothing is dropped before the encode thread was joined; and a thread that has looked never takes the front of an empty queue, even when its pop is not one atomic step; that what waits is sent is `PipelineRuns.AllCanBeSent` |
| Pipeline.FreedExactlyOnce | mumble/audio.c:879-916 | Each allocated item is held or freed, never both and never twice, and at the end all are freed but what was made after the shutdown |
| Pipeline.AllFreedIff | mumble/audio.c:1007-1110 | At the end all items are freed if and only if no audio event went on to encode after a hook of it had disconnected |
| Pipeline.LateItemStays | mumble/audio.c:1007-1110 | A run on which the item of such an event is left in the queue that was cleaned before |
| PipelineRuns.ItemIsSent | mumble/audio.c:1117-1132 | From every running state with an item waiting, the send event takes the front, sends it, frees it and changes nothing else |
| PipelineRuns.ItemIsSubmitted | mumble/audio.c:918-938 | An event that encodes puts one item with the next number, modulo 2^32, at the end of the encode queue |
| PipelineRuns.NumberIsSkipped | mumble/client.c:255-318 | After a transmission from a hook the next item carries the number after the next |
| PipelineRuns.ItemIsEncoded | mumble/audio.c:945-968 | The waiting encoder moves the front of the encode queue to the end of the send queue |
| PipelineRuns.EncoderCatchesUp | mumble/audio.c:940-969 | While the client runs, from wherever it stands, the encoder alone brings every queued item to the send queue, in order |
| PipelineRuns.AllCanBeSent | mumble/audio.c:918-969 | From every reachable running state the threads can go on until everything made is sent, in order, and freed |
| PipelineRuns.EncoderExits | mumble/audio.c:838-846 | Told to stop, from wherever it stands, the encoder exits after at most one more item taken from the queue, and loses none |
| PipelineRuns.QueuesAreCleaned | mumble/audio.c:879-916 | Cleaning up frees every item of both queues, in order |
| PipelineRuns.ShutdownEnds | mumble/audio.c:903-916 | Every shutdown begun can go on to where it was called from, with both queues empty and all freed that is not in hand there |
| PipelineRuns.CanEnd | mumble/audio.c:903-916 | From every reachable state a shutdown can be gone through to the end, with everything freed but what was made late |
| Resample.OutputFits | mumble/audio.c:432-497 | For every rate, room and number of frames really read, the output frames asked of the resampler are at most the frames of room |
| Resample.InputFramesIs | mumble/audio.c:441-443 | The frames read for the room are the room times the rate over 48000, rounded down, at every rate |
| Resample.OutputFramesIs | mumble/audio.c:475 | The frames asked of the resampler are the frames read times 48000 over the rate, rounded up, at every rate |
| Resample.ProducedSamplesFit | mumble/audio.c:526-551 | The room is half the samples measured, in frames; what is produced for it is a whole number of stereo frames that fits |
| Resample.SameRateIsExact | mumble/audio.c:438-475 | At 48 kHz the frames read and produced are exactly the room |
| ByteBuffer.BufferIsFifo | mumble/buffer.c:98-140 | Over any run without flip and reset, what was read followed by what is unread is what was unread before followed by what was written |
| ByteBuffer.ReadIsPrefixOfWritten | mumble/buffer.c:98-140 | From a fresh buffer all bytes read are a prefix of all bytes written |
| ByteBuffer.ReadIsAllOrNone | mumble/buffer.c:135-140 | A read takes the oldest unread bytes, as many as asked for, or none and changes nothing |
| ByteBuffer.BytesStay | mumble/buffer.c:98-152 | Without packing and reset the bytes in the buffer are all that were there and all that were written |
| ByteBuffer.FlipStartsOver | mumble/buffer.c:116-118 | After any writes, reads and flips of a fresh buffer and one more flip, reading starts over with the first byte ever written |
| ByteBuffer.ResetForgets | mumble/buffer.c:111-114 | After a reset only what is written later is ever read |
| ByteBuffer.GuardIsRightIff | mumble/buffer.h:29-30 | The guard of the reads tells whether the bytes are there if and only if the 64-bit sum of head and size does not wrap |
| ByteBuffer.GuardMisses | mumble/buffer.h:29-30 | Heads and a size on which the guard passes and the bytes are not there |
| ByteBuffer.GrowthIsGeometric | mumble/buffer.c:36-51 | The capacity chosen suffices, is below twice the need, and gains at least a third of the old capacity |
| ByteBuffer.LeastThatWillDo | mumble/buffer.c:36-51 | The capacity chosen is the least of one and a half times the old one, twice it, and one and a half times the need, that suffices |
| ByteBuffer.GrowthBoundIsTight | mumble/buffer.c:36-51 | A run that meets the bound of the account with equality, so the factor three cannot be lowered |
| ByteBuffer.GrowthIsAmortised | mumble/buffer.c:36-64 | Over any run the old capacities of all resizes add up to at most three times the capacity gained, and the capacity is the initial one or below twice the highest write head |
| ByteBuffer.FreshBufferGrowth | mumble/buffer.c:16-64 | So for every buffer created with some capacity and every run on it: three bytes moved at most for each byte gained, and the capacity the initial one or below twice the highest write head |
| ByteBuffer.Buffer.constructor | mumble/buffer.c:16-25 | An empty buffer of the given capacity with nothing moved yet |
| ByteBuffer.Buffer.Resize | mumble/buffer.c:53-64 | A block of any new size that keeps as many of the old bytes as it has room for; the old capacity is added to the bytes moved |
| ByteBuffer.Buffer.Adjust | mumble/buffer.c:36-51 | Always leaves room and keeps the contents; capacity, bytes moved and highest write head become exactly what the account says |
| ByteBuffer.Buffer.WriteBytes | mumble/buffer.c:128-133 | Appends the bytes at the write head and leaves the read head, and charges the account exactly as the amortised bound counts it |
| ByteBuffer.Buffer.ReadBytes | mumble/buffer.c:135-140 | For every 64-bit size: all bytes asked for, from the read head, and past them, or none and stays, free of charge; a fault, reported as such, exactly when the sum of head and size wraps |
| ByteBuffer.Buffer.WriteByte | mumble/buffer.c:142-146 | Appends one byte, charged in the same way |
| ByteBuffer.Buffer.ReadByte | mumble/buffer.c:148-152 | Delivers one byte or none |
| ByteBuffer.Buffer.PackBytes | mumble/buffer.c:98-109 | Moves the unread bytes to the front, in place and overlapping, and loses none |
| ByteBuffer.Buffer.ResetHeads | mumble/buffer.c:111-114 | Empties the buffer: both heads at the start |
| ByteBuffer.Buffer.FlipHeads | mumble/buffer.c:116-118 | Puts the read head back to the start and leaves the write head, so everything is unread again |
| VarInt.PlainRoundTrip | mumble/buffer.c:189-232 | Values written without a sign form read back, with whatever follows them left alone |
| VarInt.RoundTrip | mumble/buffer.c:163-313 | Every 64-bit value reads back, the read head moves over exactly its bytes, and the reported size leaves out a negating prefix |
| VarInt.PrefixFree | mumble/buffer.c:163-233 | No encoding is the beginning of another one |
| VarInt.StreamRoundTrip | mumble/buffer.c:163-313 | Any sequence of values written one after the other reads back, and the read head ends where the writing ended |
| VarInt.WriterIsShortest | mumble/buffer.c:163-310 | No byte string the reader fully reads, with any nesting of negations, is shorter than what the writer makes of its value |
| VarInt.ComplementCostsOne | mumble/buffer.c:166-187 | Complementing a value lengthens its encoding by at most one byte |
| VarInt.PlainAgreesIff | mumble/audio.c:121-160 | The writer without negative forms gives the bytes of the other one if and only if the value is not a negative one of that writer |
| VarIntNumber.NumberCounts | mumble/buffer.c:163-310 | The number of a word used below is the right one: zero for zero, and one more for the next word |
| VarIntNumber.PlainOnTheWire | mumble/audio.c:121-160 | The bytes written, read as one number in base 256, are the value plus the prefix of its size, and the size is that of its range |
| VarIntNumber.OnTheWire | mumble/buffer.c:163-233 | Every value is written as the bytes that say its number: 0xFC plus the distance for the last four, 0xF8 and the complement for the last 2^32, the number plus its prefix for the others |
| VarIntNumber.AssembledNumber | mumble/buffer.c:235-310 | The first byte announces the length by its range, and the bytes read as their number in base 256 less the prefix |
| VarIntNumber.DecodedNumber | mumble/buffer.c:235-313 | What any byte string reads as, by the number of its first byte: value, size and bytes taken, also when it is cut short, and the complement behind a negating prefix |
| VarIntCode.WriteVarInt | mumble/buffer.c:163-233 | Appends the encoding, the bytes of `VarIntNumber.OnTheWire`, to the buffer and returns its length, charged as one write, or as two where a negating prefix goes first |
| VarIntCode.ReadVarInt | mumble/buffer.c:235-313 | Value, size and read head are those of the reference decoder, as `VarIntNumber.DecodedNumber` gives them, on the unread bytes, for arbitrary bytes; it ends and never passes the write head |
| VoicePacket.GetOfPlain | mumble/audio.c:162-209 | The array reader gives back every value the array writer stores, and the bytes to skip |
| VoicePacket.SetVarInt | mumble/audio.c:121-160 | Overwrites exactly the bytes of the encoding, those of `VarIntNumber.PlainOnTheWire`, at its place in the array |
| VoicePacket.GetVarInt | mumble/audio.c:162-209 | Reads what stands at an offset of the array, the number of `VoiceNumber.GotNumber`, with the bare negating prefix read as minus one |
| VoiceNumber.GotNumber | mumble/audio.c:162-209 | What the array reader makes of any bytes, by the number of the first: the number in base 256 less its prefix and the bytes to skip, or minus one for the negating prefix |
| VoicePacket.Packet.constructor | mumble/audio.c:211-219 | A packet over the caller's buffer, empty |
| VoicePacket.Packet.SetHeader | mumble/audio.c:221-233 | Puts header byte and sequence at the start of the buffer, once: the codec in the upper three bits, the target in the lower five; a second call is refused and changes nothing |
| VoicePacket.HeaderBits | mumble/audio.c:229 | For every codec and target the first byte holds the codec above and the target below |
| VoicePacket.Packet.SetFrame | mumble/audio.c:235-260 | Puts frame header and payload after the header; all three errors in their order, each changing nothing |
| VoiceNumber.FrameHeaderIs | mumble/audio.c:246-253 | Opus carries the whole frame header as a variable-length integer, the three older codecs its value modulo 256 in one byte, no other codec any |
| VoicePacket.BuildOpus | mumble/audio.c:739-749 | For every result of the encoder the buffer starts with what the sender builds, announced as Opus for the target: the whole packet, or the bare header when the result is not a length from 1 to 8191 |
| VoiceNumber.HeaderIsNumber | mumble/audio.c:739-743 | The frame header is the payload length, and 8192 more on the last frame |
| VoiceNumber.SequenceKept | mumble/audio.c:221-230 | The sequence number keeps its 32 bits when it is widened |
| VoiceNumber.OpusOnTheWire | mumble/audio.c:121-260 | Every byte of an Opus packet as numbers: 128 plus the target modulo 32, sequence, length with the end flag, payload |
| VoicePacket.ParseFrame | mumble/mumble.c:1500-1517 | Sequence, flag, length and payload position of any codec, read at an offset of the array |
| VoiceNumber.HeaderMeans | mumble/mumble.c:1515-1516 | Of a frame header from anywhere, the length is the number modulo 8192 and the speech goes on exactly when the bit above is clear |
| VoiceNumber.ParsedNumbers | mumble/mumble.c:1500-1517 | The parsed frame of any codec from any bytes, by the numbers in it |
| VoiceTransmit.TargetComesThroughIff | mumble/mumble.c:247-266 | The codec of a header byte always comes through on receipt; the target, shifted by 0x1F, only when its low five bits are zero |
| VoiceTransmit.OldFrameReadsBackIff | mumble/client.c:266-281 | A frame transmitted by a script with an older codec reads back with its length and flag if and only if the length is odd and below 128 and the speech goes on |
| VoiceTransmit.OpusFrameReadsBack | mumble/client.c:266-281 | With Opus every length from 1 to 8191 and the flag read back |
| VoicePacket.HeaderRecovered | mumble/mumble.c:1515-1516 | Length and flag come out of the sixteen-bit frame header independently of each other |
| VoicePacket.FramingRoundTrip | mumble/audio.c:121-260 | For every 32-bit sequence, flag and Opus payload of 1 to 8191 bytes, parsing the packet recovers sequence, length, flag and payload, whatever bytes follow |
| VoicePacket.BuiltParses | mumble/audio.c:739-769 | Whatever the encoder returned and whatever stood in the buffer, what was built can be parsed, and gives the sequence, and for a good length the flag, length and payload |
| VoicePacket.SendLegacyAudio | mumble/audio.c:739-769 | What goes out is announced as Opus for the target, and what the sender's own hooks parse from the buffer it has just filled is what was sent; packets above 1024 bytes are not sent; after an encoder error a bare header is sent, and only the sequence read back is its own |
| LinkedList.RemoveFirstAt | mumble/util.c:305-331 | Removing takes out exactly the first entry that matches and keeps the order of the rest; finding returns that entry |
| LinkedList.LinkList.Add | mumble/util.c:295-303 | A new node in front of the list |
| LinkedList.LinkList.Remove | mumble/util.c:305-331 | The two-pointer walk unlinks the first match, and only it, from the heap list |
| LinkedList.LinkList.Get | mumble/util.c:388-396 | The walk returns the data of the first match, or nothing |
| LinkQueue.Queue.Push | mumble/util.c:240-255 | Appends at the rear, also to an empty queue |
| LinkQueue.Queue.Pop | mumble/util.c:257-272 | Takes the oldest element; the queue stays well formed when it becomes empty, and an empty one is left alone |
| Directory.AgreeRemoves | mumble/mumble.c:1241-1250 | Dropping an id from list and table keeps them in agreement, each id listed once |
| Directory.FoundIsTabled | mumble/util.c:388-396 | In agreement, walking the list finds exactly what the table holds |
| Directory.Client.Get | mumble/mumble.c:1163-1219 | Returns the tabled object of an id, or creates one and puts the same object into both; agreement is kept |
| Directory.Client.Remove | mumble/mumble.c:1304-1313 | Drops the id from both and nothing else; agreement is kept |
| Directory.Client.Find | mumble/util.c:388-396 | Walking the list gives the same answer as the table, in every reachable state |

## Left out

- AES, the OpenSSL contexts and `crypt_genKey`'s random bytes: foreign code. The cipher is an abstract pair of functions per key, invertible where needed.
- The masks inside the two passes of the block mode are block values; the word code they call is proved separately to compute the same bytes, on a little-endian host.
- `crypt_setRawKey`, `crypt_setEncryptIV`, `crypt_setDecryptIV` and the getters: copies of bytes.
- The counters `uiGood`, `uiLate`, `uiLost` and the heads of the byte buffer are unbounded; 2^64 packets or written bytes are not reached. Sizes asked of a read may be any 64-bit number.
- What a read beyond the buffer copies: only that it happens is modelled.
- NonceTracker.NoReplay: speaks of one run between two changes of key or nonce, because those leave the table and the counters alone and start a new count.
- CryptState.Crypt.Decrypt: source, destination and the object's own arrays are distinct, as all callers make them.
- Weak memory: atomics are sequentially consistent in the state machines.
- Ring reset while a call is in flight, and a ring with several readers or writers: the program has one of each per stream.
- The sound's own mutex, and the order in which the threads walk the list: leaving them out only allows more interleavings.
- When Lua collects a stream object: the model says which accesses can follow the release of the registry reference, not when the memory goes. A stop or a play by a script needs the object and so comes before that.
- Reclaim.ReleasedOnce: does not say that the use count is zero, because replays that leave an old entry behind break that; `ReclaimCalm.ReleasedAtZero` and `ReclaimCalm.PinnedReleaseIff` give the exact condition.
- Failure to allocate a work item or a queue node of the pipeline, and connecting again from within a hook.
- Resample.OutputFits: exact rational arithmetic stands for the program's doubles. The resampler is taken to make at most the frames asked for.
- Failure of `malloc` and `realloc`, `buffer_shrink`, `luabuffer_seek` and the number and string accessors of the buffer: seek may set the heads anywhere, and shrinking can leave the write head beyond the capacity.
- VoicePacket.GetVarInt: reads as far as the first byte announces, and the caller has to have those bytes; the program does not look either.
- VoicePacket.SendLegacyAudio: the frame header is modelled after it has been cut to sixteen bits at the call; the payload that the hooks record is left out. The socket, the tunnel and the hooks are left out.
- LinkedList.LinkList.Remove: indices are unbounded integers, and freeing a node is dropping it. Removal by data and clearing walk the same nodes.
- LinkQueue.Queue.Push: the element is a value; copying its bytes to the heap is left out. The audio queues have the same pointers and are the same class.
- Directory.Client.Get: users and channels share one class with an id and a name; the Lua registry and the other fields are left out.
- Mixing, fades, bandwidth adjustment, speaking hooks, ping statistics, protobuf handlers, sockets and timers: plumbing, floating point or easy members.
