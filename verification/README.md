# WireGuard for FreeBSD, verified

A Dafny model of the hard core of the WireGuard kernel module for FreeBSD, with proofs.

- **Cryptography** (`src/crypto.c`). X25519 in ten limbs of 26 and 25 bits, Poly1305 in five limbs
  of 26 bits, ChaCha20-Poly1305 on flat buffers and on mbuf chains, BLAKE2s and HMAC. Each is
  proved equal to a specification over integers and byte strings written from RFC 7748, RFC 8439,
  RFC 7693 and RFC 2104, with every 32- and 64-bit intermediate proved in range.
- **Sessions** (`src/wg_noise.c`). The replay window, the send counter under concurrent callers,
  the keypair slots with the index table and reference counts, and the four handshake functions
  over the verified primitives, proved equal to the pattern IKpsk2 of the Noise Protocol Framework
  and put together to two sides that finish with matching keys and indices.
- **Packets, peers and timers** (`src/if_wg.c`). The serial and parallel queues, the lifetime of a
  peer and the shutdown of its timers, as state machines whose steps are single critical
  sections, loads and stores, with results over every interleaving.
- **Rate limiting** (`src/wg_cookie.c`). The hashed token-bucket table with garbage collection,
  against a table that never forgets.

## How it is written

Limbs and words are integers of a subset type (`byte`, `u32`, `u64` in `Machine.dfy`), so that every
value bound to one is proved in range; where the code relies on wrap-around the reduction is written
out. Bitwise operators are recursive functions on naturals, with lemmas for the masks in use.
Buffers, tables and objects that the code changes in place are arrays and classes whose methods are
proved against a specification function; concurrent protocols are functions on states, with a step
for each atomic action and theorems over all sequences of steps. In these machines a step that is
not possible in a state is skipped.

`Sessions.dfy` gives what each function on remotes and keypairs does to values and proves what every
run keeps; `NoiseLocal.dfy` is the mutable state with its hash table, each method proved to take
that step. `SessionSteps.dfy` says what a step means to one remote and one keypair. In the same way the critical sections on the queues of `WgQueue.dfy` are proved to take the
steps of `PacketQueues.dfy`.

The model is of the 64-bit configuration (`__LP64__`, `src/wg_noise.c:29-31`).

Where the code and its own comment differ, the code is modelled: `src/wg_cookie.c:440-443` says that a
request is blocked when the tokens are at most the cost, and the code allows it when they are equal.

## Assumptions

- Except for the send counter, each public function of `src/wg_noise.c` is one atomic step. Slots and
  index table are guarded by separate locks (`src/wg_noise.c:607-642`), and states between the two
  are not visible in the model. The unlocked scan that precedes the locked one when an index is
  drawn (`src/wg_noise.c:389-393`) is not modelled apart from it.
- X25519 commutes (a hypothesis of the handshake results, `Handshake.Commutes`).
- A rate-limiting table serves one address family (`src/wg_cookie.c:73-75`), so keys that the code compares
  on their first 12 or 16 bytes are compared whole.
- Time does not run backwards, where the rate limiter's results say so.
- An epoch wait ends only after every section that was open when it began, and an epoch callback
  runs only after its object has no reference left.

## Model

| member | source | states |
|---|---|---|
| `Field25519.FeAdd` | src/crypto.c:1149-1181 | tight limbs to loose limbs, the value is the exact sum, no 32-bit limb wraps |
| `Field25519.FeSub` | src/crypto.c:1191-1223 | tight limbs to loose limbs, the value is the difference plus 2p, no limb goes below zero |
| `Field25519.CarryChain` | src/crypto.c:1301-1345 | ten column sums become tight limbs of the same value modulo p, with no 64-bit overflow on the way |
| `Field25519.MulColumns` | src/crypto.c:1233-1300 | the hundred products, grouped as in the code, give the schoolbook columns with the upper nine folded in by 19, and leave room for a carry in 64 bits |
| `Field25519.ProductValue` | src/crypto.c:1233-1300 | for all limbs, the product of two values is the low columns plus 19 times the high ones plus a multiple of p |
| `Field25519.FeMul` | src/crypto.c:1233-1346 | for all loose inputs the result is tight and is the product modulo p |
| `Field25519.SqrColumns` | src/crypto.c:1364-1421 | the shortened squaring sums are the same folded columns |
| `Field25519.FeSqr` | src/crypto.c:1364-1467 | for all loose inputs the result is tight and is the square modulo p |
| `Field25519.FeMul121666` | src/crypto.c:1554-1667 | for all loose inputs the result is tight and is 121666 times the input modulo p |
| `FieldBytes.FeFromBytes` | src/crypto.c:954-975 | any 32 bytes become tight limbs whose value is the little-endian number modulo 2^255 |
| `FieldBytes.SubBorrow` | src/crypto.c:1004-1024 | the 32-bit subtraction with wrap-around, masked, is exact with its borrow |
| `FieldBytes.AddCarry` | src/crypto.c:982-1002 | the addition with carry at 25 or 26 bits is exact |
| `FieldBytes.CMov` | src/crypto.c:1026-1030 | the mask selects the second value exactly when the condition is not zero |
| `FieldBytes.FeFreeze` | src/crypto.c:1032-1085 | for all tight limbs, the result is the representative in [0, p) with canonical limbs |
| `FieldBytes.FeToBytes` | src/crypto.c:1087-1123 | the 32 bytes are the little-endian encoding of the value modulo p |
| `FieldBytes.Reencode` | src/crypto.c:954-1123 | decode then encode is the encoding of the input modulo 2^255 modulo p |
| `FieldBytes.Redecode` | src/crypto.c:954-1123 | encode then decode is the least representative of the same field element |
| `X25519.LadderStep` | src/crypto.c:1714-1773 | one step on limbs is the step of section 5 of RFC 7748 on field elements, limbs stay tight |
| `X25519.SameCoefficient` | src/crypto.c:1714-1773 | BB + 121666 E equals AA + 121665 E for all field elements |
| `X25519.AppendOnes` | src/crypto.c:1479-1527 | n squarings and a product append n ones to the exponent |
| `X25519.Invert` | src/crypto.c:1479-1527 | the addition chain raises to exactly p - 2 = 2^255 - 21 |
| `X25519.CondSwap` | src/crypto.c:1541-1551 | the xor swap under a mask exchanges all ten limbs or none |
| `X25519.Clamp` | src/crypto.h:100-104 | the two byte masks give the number that decodeScalar25519 prescribes |
| `X25519.LeBit` | src/crypto.c:1714-1773 | bit j of byte i is bit 8 i + j of the scalar |
| `X25519.RunLadder` | src/crypto.c:1714-1773 | the loop with its deferred swaps computes the loop of section 5 of RFC 7748 on all 255 bits |
| `Rfc7748.LazySwapsAreEager` | src/crypto.c:1714-1773 | deferring every swap to the next step computes the same ladder as swapping back at once, for all bit strings |
| `X25519.Curve25519` | src/crypto.c:1676-1786 | for every scalar and point the 32 bytes are X25519 of RFC 7748; the result is true exactly when they are not all zero |
| `Poly1305Limbs.InitR` | src/crypto.c:250-272 | the five masks on overlapping loads give the clamped key of section 2.5 of RFC 8439, with limb bounds |
| `Poly1305Limbs.AddBlock` | src/crypto.c:274-356 | adding a block to the limbs adds its number, with the 2^128 bit as asked, within bounds |
| `Poly1305Limbs.MulReduce` | src/crypto.c:274-356 | multiplication and the partial carry give the product modulo 2^130 - 5 and carried limbs; no d, c or h0 + 5 c overflows |
| `Poly1305Limbs.FullCarry` | src/crypto.c:358-439 | one carry pass brings every limb below 2^26 with the same value modulo 2^130 - 5 |
| `Poly1305Limbs.Reduce` | src/crypto.c:358-439 | the masked selection gives the residue in [0, 2^130 - 5) |
| `Poly1305Limbs.PackWords` | src/crypto.c:358-439 | shifting and or-ing limbs into words is exact modulo 2^128 |
| `Poly1305Limbs.Emit` | src/crypto.c:358-439 | the tag is ((h mod p) + nonce) mod 2^128 |
| `Poly1305.AccAppend` | src/crypto.c:274-356 | absorbing whole blocks and then the rest is absorbing the concatenation, for all messages |
| `Poly1305.BlocksCore` | src/crypto.c:274-356 | for any number of blocks the limbs stay carried and stand for the polynomial modulo 2^130 - 5 |
| `Poly1305.Context.constructor` | src/crypto.c:441-452 | a fresh context for the key that has absorbed nothing |
| `Poly1305.Context.Update` | src/crypto.c:454-486 | the context has absorbed what it had plus the input; fewer than 16 bytes stay in the buffer |
| `Poly1305.Context.Final` | src/crypto.c:488-504 | the tag of everything absorbed, padding the last partial block |
| `Poly1305.PaddedBlock` | src/crypto.c:488-504 | a 1 byte and zeros after a partial block read as the number with 256^length added |
| `Poly1305.MacChunks` | src/crypto.c:454-504 | any sequence of chunks gives the tag of the concatenation |
| `ChaCha20.QuarterInPlace` | src/crypto.c:80-89 | eight updates of array words one after the other are the quarter round of section 2.1 of RFC 8439 on four values, for any four distinct words |
| `ChaCha20.DoubleRoundInPlace` | src/crypto.c:91-103 | the eight quarter rounds one after the other on one array are the quarter round on the four columns of the matrix and then on its four wrapping diagonals, each taken by itself |
| `ChaCha20.InitLayout` | src/crypto.c:151-167 | the starting state in bytes is the constant of RFC 8439, the key, a zero counter of 8 bytes and the 64-bit nonce, little-endian |
| `ChaCha20.StatesDiffer` | src/crypto.c:151-183 | states of different keys, nonces or blocks modulo 2^32 differ |
| `Machine.RolRotates` | src/crypto.c:61-69 | the shifts and the or of rol32 and ror32 put the high part of the word below its low part, for every distance |
| `ChaCha20.TwentyRounds` | src/crypto.c:93-117 | any number of double rounds in place is that many column and diagonal rounds |
| `ChaCha20.Context.Block` | src/crypto.c:169-183 | the copy, rounds and addition loops give the key stream block of the state, and the 32-bit block counter advances by one and wraps |
| `ChaCha20.Context.Crypt` | src/crypto.c:185-201 | also in place, the output is the input under the key stream, nothing beyond the length is written, the counter advances by the blocks used |
| `ChaCha20.XorStreamTwice` | src/crypto.c:185-201 | the same key stream twice gives the text back |
| `ChaCha20.XorStreamAppend` | src/crypto.c:185-201 | a stream over two pieces continues where the first ended |
| `Aead.OpenSeal` | src/crypto.c:509-588 | opening what was sealed gives the message, for all keys, nonces, data and messages |
| `Aead.OpenOnlySealed` | src/crypto.c:544-588 | a text opens if and only if it is the sealing of some message, namely of the one it opens to |
| `Aead.StatesApart` | src/crypto.c:509-588 | the states that the one-time key and the message blocks are made from, within one message of the admitted length or across two keys or nonces, coincide only if key, nonce and block are the same |
| `Aead.WrittenIsCipher` | src/crypto.c:185-201 | with the 32-bit length of chacha20, every byte is enciphered if and only if the message is below 2^32 bytes |
| `Aead.Encrypt` | src/crypto.c:509-542 | also in place, ciphertext and tag are those of section 2.8 of RFC 8439 below 2^32 bytes, and exactly what is written above |
| `Aead.Decrypt` | src/crypto.c:544-588 | succeeds if and only if the last 16 bytes are the recomputed tag; then the plaintext is written, otherwise nothing |
| `Aead.RoundTripInPlace` | src/crypto.c:509-588 | encrypting and decrypting in one buffer gives every message below 2^32 bytes back, and what was in the buffer in between is the sealed text |
| `AeadMbuf.FlattenSnoc` | src/crypto.c:618-648 | appending a piece to a chain appends its bytes to the packet |
| `AeadMbuf.CryptPiece` | src/crypto.c:618-648 | one mbuf, from any position in a key stream block, is the key stream continued |
| `AeadMbuf.CryptChain` | src/crypto.c:618-648 | for every chain the contents become the key stream over the concatenation, and the tag input is the ciphertext in either direction |
| `AeadMbuf.TrimTail` | src/crypto.c:607-612 | the packet without its last n bytes, across as many mbufs as they span |
| `AeadMbuf.CryptMbuf` | src/crypto.c:590-666 | for every split, encrypting leaves the flat sealing with empty associated data or its prefix that fits, decrypting accepts exactly the packets the flat form opens and then holds their plaintext |
| `Blake2s.IncrementCounter` | src/crypto.c:742-747 | the carry into the second word is right for every count |
| `Blake2s.CounterValue` | src/crypto.c:742-747 | the two words hold a count if and only if together they are the count modulo 2^64 |
| `Blake2s.ParamWord` | src/crypto.c:760-776 | the three fields of the parameter word do not overlap, so or-ing them adds them |
| `Blake2s.InitialValue` | src/crypto.c:719-722 | the eight constants are the first 32 bits of the fractions of the square roots of the first eight primes |
| `Blake2s.BlockOfWords` | src/crypto.c:788-789 | the sixteen words of a block, serialized, are the block |
| `Blake2s.RoundInPlace` | src/crypto.c:800-823 | the eight G one after the other on one array are G on the four columns and then on the four diagonals, as in section 3.2 of RFC 7693 |
| `Blake2s.CompressBlock` | src/crypto.c:786-840 | one block through arrays, rounds in place and the final xor is the compression function F of RFC 7693, with the finalization word inverted |
| `Blake2s.ChainThenLast` | src/crypto.c:778-841 | hashing is chaining whole blocks and then one last block, which may be full |
| `Blake2s.Compress` | src/crypto.c:778-841 | any number of blocks, each moving the counter first |
| `Blake2s.State.Init` | src/crypto.c:749-764 | a fresh state with the initial value of section 2.5 of RFC 7693 |
| `Blake2s.State.Update` | src/crypto.c:843-865 | the state has absorbed what it had plus the input; a block is held back as soon as there is one and the counter is the number of bytes compressed |
| `Blake2s.State.Final` | src/crypto.c:867-876 | the digest of everything absorbed per section 3.3 of RFC 7693 |
| `Blake2s.Start` | src/crypto.c:760-776 | a key enters as a block of its own |
| `Blake2s.HashChunks` | src/crypto.c:843-890 | any sequence of chunks, with any key, gives the digest of the concatenation |
| `Blake2s.MaskTwice` | src/crypto.c:892-926 | xor with both masks turns the inner key into the outer key |
| `Blake2s.ComputeHmac` | src/crypto.c:892-926 | HMAC as RFC 2104 defines it, for keys of any length |
| `ReplayWindow.Receiver.constructor` | src/wg_noise.c:811-854 | a fresh window has accepted nothing |
| `ReplayWindow.Receiver.NonceCheck` | src/wg_noise.c:811-854 | accepts a nonce if and only if it is below the limit, was not accepted before and is at most the window size below the highest accepted; then exactly it is added |
| `ReplayWindow.RingAhead` | src/wg_noise.c:830-842 | clearing the words between the old and the new top, all 128 if further, keeps the ring and the set in step |
| `ReplayWindow.RingMark` | src/wg_noise.c:844-849 | setting one bit adds one nonce: no two words in the window share a slot |
| `ReplayWindow.AcceptedAre` | src/wg_noise.c:811-854 | the set after a run holds exactly the nonces that passed |
| `ReplayWindow.NoReplay` | src/wg_noise.c:811-854 | no nonce passes twice in any run |
| `ReplayWindow.LateButFresh` | src/wg_noise.c:811-854 | a nonce not seen before and within the window of all before it passes, in any order of arrival |
| `ReplayWindow.PassesExactly` | src/wg_noise.c:811-854 | in every run a nonce passes if and only if it is below 2^64 - 8130, has not passed before, and nothing that passed is more than 8128 above it |
| `ReplayWindow.LargestWindow` | src/wg_noise.c:27-37 | 8192 - 64 is the largest window for which 128 words suffice |
| `ReplayWindow.CheckRun` | src/wg_noise.c:811-854 | the ring decides every nonce of every run as the set does |
| `SendCounter.InvStep` | src/wg_noise.c:792-809 | every atomic step keeps that a caller overshoots at most once |
| `SendCounter.Safety` | src/wg_noise.c:792-809 | with at most COUNTER_WINDOW_SIZE + 2 callers every schedule hands out 0, 1, 2 and so on, all below the limit, and no fetch returns a wrapped value |
| `SendCounter.Wraps` | src/wg_noise.c:792-809 | one caller more and there is a schedule that hands out nonce 0 twice |
| `SendCounter.SafeExactly` | src/wg_noise.c:792-809 | no schedule repeats a nonce if and only if there are at most COUNTER_WINDOW_SIZE + 2 callers |
| `SendCounter.ExpireStops` | src/wg_noise.c:580-596 | after an expiry, in any state and every schedule, at most as many nonces are still handed out as callers had seen kp_can_send true and not fetched |
| `Sessions.DropPending` | src/wg_noise.c:767-784 | dropping a keypair that left its slot takes out its index and its slot reference and nothing else |
| `Sessions.RotateKeeps` | src/wg_noise.c:599-629 | all three rotations keep slots distinct, of their own remote and in their roles |
| `Sessions.TakeIndexKeeps` | src/wg_noise.c:631-642 | the new keypair takes over the index of its remote's handshake, which ends |
| `Sessions.BeginSessionKeeps` | src/wg_noise.c:647-676 | a new session keeps the invariant |
| `Sessions.BeginSessionShape` | src/wg_noise.c:647-676 | the new keypair has the two indices of the handshake and is found under the local one |
| `Sessions.KeypairsClearKeeps` | src/wg_noise.c:560-578 | clearing the three slots keeps the invariant |
| `Sessions.ReceivedWithKeeps` | src/wg_noise.c:724-747 | promoting the next keypair keeps the invariant if it has been proved to work |
| `Sessions.IndexRemoveKeeps` | src/wg_noise.c:443-455 | a remote leaves the table exactly when its handshake dies |
| `Sessions.IndexInsertKeeps` | src/wg_noise.c:377-406 | a remote enters the table under an index nobody uses |
| `Sessions.AcquireKeeps` | src/wg_noise.c:678-722 | taking a reference to a keypair found in the table or in a slot |
| `Sessions.ReleaseKeeps` | src/wg_noise.c:760-765 | giving a reference back; the last one releases |
| `Sessions.ExecKeeps` | src/wg_noise.c:377-784 | every run of operations keeps the invariant |
| `Sessions.Reachable` | src/wg_noise.c:377-784 | in every reachable state slots are pairwise distinct, a keypair is in the table iff it is in a slot of its remote, a remote iff its handshake is not dead, and counts are slot reference plus holders |
| `Sessions.ReleasedOnce` | src/wg_noise.c:749-765 | over every run a keypair is released at most once, and released exactly when no slot and no holder has it |
| `Sessions.IndexUnique` | src/wg_noise.c:377-435 | over every run local indices are unique among live keypairs and handshakes, two remotes in handshake included, and lookup finds each keypair under its own |
| `Sessions.ResponderWaits` | src/wg_noise.c:699-747 | over every run a keypair made as responder is returned for sending only after a nonce under it passed |
| `Sessions.SessionsOverlap` | src/wg_noise.c:599-645 | over every run, after a session begins exactly two keypairs can be found: the new one, and the newest before it for the initiator or the current one for the responder; for the initiator the new one is what noise_keypair_current returns, for the responder r_current stays |
| `Sessions.FirstPacketPromotes` | src/wg_noise.c:724-747 | over every run, the first good packet under r_next makes it current and keeps the one before as previous; any other packet moves nothing |
| `Sessions.ExpireStops` | src/wg_noise.c:580-596 | over every run, after expiry nothing is handed out for sending to that remote until a new session begins with it |
| `SessionSteps.StepEffect` | src/wg_noise.c:377-784 | what each operation does to every remote, every keypair and the references of callers, and that it does nothing else: a new keypair may send and has accepted nothing, clearing empties all three slots, expiry stops the next and the current keypair, a good packet notes its nonce |
| `SessionSteps.CurrentAfter` | src/wg_noise.c:580-747 | over every run, what noise_keypair_current returns after a step: the new keypair once an initiator begins a session, the promoted keypair after the first good packet under it, nothing after expiry or clearing, and in every other case, steps of other remotes included, what it returned before |
| `SessionSteps.FoundAfter` | src/wg_noise.c:560-747 | over every run, which keypairs noise_keypair_lookup finds after a step: a new session leaves itself and one older keypair of the remote, a promotion the promoted and the former current one, clearing none, and every other step what was found before |
| `IndexTable.Table.Find` | src/wg_noise.c:678-697 | walking one bucket finds exactly what the map holds |
| `IndexTable.Table.Draw` | src/wg_noise.c:387-402 | draws until an index is free |
| `IndexTable.Table.Insert` | src/wg_noise.c:403-404 | adds one index to the map and to its own bucket; the lists of all other buckets are unchanged |
| `IndexTable.Table.Remove` | src/wg_noise.c:443-455 | removes one index |
| `IndexTable.Table.Supplant` | src/wg_noise.c:638-642 | a node takes the place of another with the same index |
| `NoiseLocal.Local.KeypairDrop` | src/wg_noise.c:767-784 | the step Drop of the specification, on the table and the records |
| `NoiseLocal.Local.RotateIn` | src/wg_noise.c:599-629 | the step Rotate, drop by drop |
| `NoiseLocal.Local.InsertIndex` | src/wg_noise.c:631-642 | the step TakeIndex |
| `NoiseLocal.Local.BeginSession` | src/wg_noise.c:647-676 | keeps the invariant and takes the step BeginSession |
| `NoiseLocal.Local.IndexInsert` | src/wg_noise.c:377-406 | keeps the invariant and inserts under a free index that was drawn |
| `NoiseLocal.Local.IndexRemove` | src/wg_noise.c:443-455 | keeps the invariant; says whether there was anything to remove |
| `NoiseLocal.Local.KeypairsClear` | src/wg_noise.c:560-578 | keeps the invariant and takes the step KeypairsClear |
| `NoiseLocal.Local.Deliver` | src/if_wg.c:1715-1724 | keeps the invariant and takes the step Deliver; reports the handshake complete exactly when a decrypted packet with a fresh nonce met the next keypair |
| `NoiseLocal.Local.KeypairLookup` | src/wg_noise.c:678-697 | returns the keypair of that index with a new reference, or nothing |
| `NoiseLocal.Local.KeypairCurrent` | src/wg_noise.c:699-715 | returns the current keypair with a new reference; an expired one stops sending |
| `NoiseLocal.Local.KeypairRef` | src/wg_noise.c:717-722 | keeps the invariant and takes one more reference |
| `NoiseLocal.Local.ExpireCurrent` | src/wg_noise.c:580-596 | keeps the invariant, ends the handshake and stops the next and the current keypair from sending |
| `NoiseLocal.Local.KeypairPut` | src/wg_noise.c:760-765 | keeps the invariant; releases at the last reference |
| `Handshake.DeriveKeys` | src/wg_noise.c:1194-1235 | the shared buffer yields the three keys of the HKDF chain |
| `Handshake.BaseIsNine` | src/crypto.h:91-98 | public keys are made from the base point 9 of RFC 7748 |
| `Handshake.DecryptEncrypt` | src/wg_noise.c:1307-1327 | a sealed handshake field opens to what was sealed |
| `Handshake.InitiationAgrees` | src/wg_noise.c:942-1041 | whenever an initiation could be made the responder opens it, learns sender and timestamp, and has the same chaining key and hash |
| `Handshake.ResponseAgrees` | src/wg_noise.c:1076-1172 | whenever a response could be made the initiator accepts it and has the same chaining key |
| `NoiseFramework.KdfIsHkdf` | src/wg_noise.c:1194-1235 | the key derivation is the HKDF of the Noise Protocol Framework with one, two and three outputs |
| `NoiseFramework.CreateInitiationIs` | src/wg_noise.c:942-995 | for all inputs, refusals included, the initiation is the message that the Noise Protocol Framework writes for the tokens e, es, s, ss with the timestamp as payload, from the protocol name and prologue of WireGuard, and leaves the same chaining key and hash |
| `NoiseFramework.ConsumeInitiationIs` | src/wg_noise.c:997-1042 | for all messages it opens exactly if the framework reads e, es, s, ss and the payload, with the same sender, timestamp, chaining key and hash |
| `NoiseFramework.CreateResponseIs` | src/wg_noise.c:1076-1112 | for all inputs the response is the message the framework writes for e, ee, se, psk with an empty payload, and leaves the same chaining key and hash; the preshared key goes into both |
| `NoiseFramework.ConsumeResponseIs` | src/wg_noise.c:1127-1172 | for all messages it opens exactly if the framework reads e, ee, se, psk and the empty payload under the preshared key, with the same chaining key and hash |
| `NoiseFramework.SessionKeysAreSplit` | src/wg_noise.c:663-671 | the two transport keys are those of Split, crossed between initiator and responder |
| `Endpoint.Endpoint.CreateInitiation` | src/wg_noise.c:942-995 | a message exactly when there is an identity, the timer has expired and no shared secret is null; then the remote waits under a fresh index. Without identity or before the timer no record changes; otherwise only the handshake state of this remote |
| `Endpoint.Endpoint.ConsumeInitiation` | src/wg_noise.c:997-1074 | accepted exactly when it opens, its timestamp is later than the last and it does not come too soon; then the remote is responder under a fresh index and knows the other's. All records afterwards are given: refused, nothing changes but a later timestamp that came too soon |
| `Endpoint.Endpoint.CreateResponse` | src/wg_noise.c:1076-1125 | a message exactly when the remote is responder and no shared secret is null; then a keypair with the responder's keys is in place. Of all records only the handshake state of this remote changes |
| `Endpoint.Endpoint.ConsumeResponse` | src/wg_noise.c:1127-1191 | accepted exactly when a remote waits under that index and the message opens; then a keypair with the initiator's keys is in place. Of all records only the handshake state of that remote is cleared |
| `Endpoint.Exchange` | src/wg_noise.c:942-1191 | an undisturbed handshake stops exactly where the initiation cannot be made, is too old or comes too soon, or the response cannot be made; otherwise it ends with each side's send key the other's receive key, indices crossed, and lookup of a data message's index finding the matching keypair. The two sides stay configured for the next one, other peers are untouched, and the responder has the later timestamp |
| `Endpoint.LaterTransitive` | src/wg_noise.c:1048-1051 | byte-wise comparison orders timestamps |
| `Endpoint.LaterIsGreater` | src/wg_noise.c:1048-1051 | a timestamp is later if and only if it is the greater number, the first byte counting most |
| `Endpoint.AcceptedExactly` | src/wg_noise.c:1043-1063 | an initiation that opened is accepted if and only if its sender is known, its timestamp is the greater number and it does not come too soon |
| `Endpoint.FirstAccepted` | src/wg_noise.c:1048-1051 | of a peer just configured every timestamp but zero is accepted |
| `Endpoint.AwaitedExactly` | src/wg_noise.c:1139-1181 | in every state of the table, a response is for the remote that waits as initiator under exactly the index it names, and opens for it |
| `Endpoint.StaysUsed` | src/wg_noise.c:1048-1051 | an initiation whose timestamp was noted stays so while timestamps grow and peers stay configured |
| `Endpoint.NoInitiationTwice` | src/wg_noise.c:997-1074 | in every run of handshake operations and new peers, two initiations that are accepted are different messages |
| `Endpoint.Operate` | src/wg_noise.c:942-1191 | every sequence of operations takes one side through the steps of the specification, from its state before to its state after, each verdict is exactly whether an initiation was accepted there, and no two accepted ones are the same message |
| `PacketQueues.StepKeeps` | src/if_wg.c:1888-1944 | every critical section and state store keeps the invariant |
| `PacketQueues.InOrder` | src/if_wg.c:1888-1944 | in every interleaving packets leave a peer's serial queue in the order they entered, and both queues match their counters and limits |
| `PacketQueues.LeavesAlone` | src/if_wg.c:1918-1930 | a packet is dequeued only when no producer or worker holds it, and none ever does again |
| `PacketQueues.FreedOnce` | src/if_wg.c:1662-1788 | in every interleaving an accepted packet is in one place or has been freed exactly once |
| `PacketQueues.RoomDecides` | src/if_wg.c:1888-1916 | in every interleaving a packet is refused or given up for lack of room only when the queue in question holds 1024 |
| `PacketQueues.Outcome` | src/if_wg.c:1888-1944 | in every interleaving a packet found crypted was finished by a worker with success, one found dead was finished without success or had no room on the parallel queue, and no packet has two outcomes |
| `PacketQueues.LeavesWithOutcome` | src/if_wg.c:1918-1930 | what leaves a serial queue is crypted if a worker finished it with success and dead otherwise |
| `PacketQueues.Drains` | src/if_wg.c:1662-1788 | from every reachable state, without a new packet, some schedule empties all queues, delivers every packet in order and frees each exactly once |
| `WgQueue.Queue.InsertTail` | src/if_wg.c:1888-1916 | appends below the limit, otherwise changes nothing |
| `WgQueue.Queue.EnqueueHandshake` | src/if_wg.c:1811-1826 | a handshake packet is queued, or freed exactly when 4096 are waiting |
| `WgQueue.Queue.RemoveHead` | src/if_wg.c:1932-1944 | takes the first packet, if any |
| `WgQueue.Queue.DequeueSerial` | src/if_wg.c:1918-1930 | takes the first packet exactly when it is no longer uncrypted |
| `WgQueue.SerialSection` | src/if_wg.c:1888-1904 | the first critical section of wg_queue_both takes the step EnqueueSerial of the interleaving model |
| `WgQueue.ParallelSection` | src/if_wg.c:1905-1915 | the second takes the step InsertParallel |
| `WgQueue.TakeSection` | src/if_wg.c:1932-1944 | takes the step TakeParallel exactly when it is possible |
| `WgQueue.DequeueSection` | src/if_wg.c:1918-1930 | takes the step DequeueSerial exactly when it is possible |
| `WgQueue.Queue.PushStaged` | src/if_wg.c:1841-1858 | keeps the last 128 packets; what is freed is the rest, in order |
| `WgQueue.Queue.EnlistStaged` | src/if_wg.c:1860-1866 | a whole list pushed keeps the last 128 of everything |
| `WgQueue.Queue.SendFails` | src/if_wg.c:2034-2068 | what could not be sent goes back behind whatever arrived in between, and the last 128 of all are kept |
| `PeerLifetime.NothingLeft` | src/wg_noise.c:478-496 | a remote without references has no keypair and no packet anywhere |
| `PeerLifetime.EmptyAtDestruction` | src/if_wg.c:467-492 | in every schedule both serial queues are empty when the deferred destructor runs, and stay so |
| `PeerLifetime.CanBeFreed` | src/wg_noise.c:478-496 | from every reachable state, giving references back is enough to reach the destructor: no cycle of references keeps a peer |
| `Timers.StepKeeps` | src/if_wg.c:966-1187 | every load, store, reset, stop and epoch step keeps the invariant |
| `Timers.NothingPending` | src/if_wg.c:973-997 | in every schedule, from the return of wg_timers_disable until the next enable no callout is pending and no handler is about to reset one |
| `Timers.ResetsAfterStore` | src/if_wg.c:973-997 | the stops are needed: in some schedule a callout is reset after the store of false, when nothing was pending, and is pending when the wait is over |
| `Timers.PendingWithoutWait` | src/if_wg.c:973-997 | without the wait some schedule leaves a callout pending after the last stop |
| `Timers.SafeExactly` | src/if_wg.c:973-997 | no schedule leaves a callout pending after shutdown if and only if the shutdown waits |
| `RateLimit.Refilled` | src/wg_cookie.c:24-32 | a forgotten key would be full again, since a bucket fills in less than ELEMENT_TIMEOUT |
| `RateLimit.Pay` | src/wg_cookie.c:444-459 | refill capped at TOKEN_MAX without 64-bit overflow, allowed exactly when it covers the cost |
| `RateLimit.Table.Allow` | src/wg_cookie.c:409-486 | decides and records like the table that never forgets, except that a new key is refused at capacity |
| `RateLimit.Table.Gc` | src/wg_cookie.c:382-407 | removes exactly the entries older than the timeout, or all; schedules itself when any remain |
| `RateLimit.Table.GcCallout` | src/wg_cookie.c:361-366 | collection leaves the table that never forgets as it is; a non-empty table has a collection pending |
| `RateLimit.Table.Deinit` | src/wg_cookie.c:351-359 | nothing left, nothing pending |
| `RateLimit.Serve` | src/wg_cookie.c:368-486 | every event of every run, with requests and collections in any order, is decided by the room in the table and the tokens of the table that never forgets, which is: a request passes if and only if there is room and its key stays within five at once and twenty per second since every event before; and the requests allowed to any key in any span, times INITIATION_COST, are at most TOKEN_MAX plus the span |
| `RateLimit.NeverForgets` | src/wg_cookie.c:382-486 | a key whose own requests all found room is decided as by a table without limit and without collection |
| `RateLimit.Conservation` | src/wg_cookie.c:409-486 | in every run, what the code let a key spend plus what it has left is at most a full bucket plus the time since |
| `RateLimit.RateBound` | src/wg_cookie.c:24-32 | for every run, key and span, the requests the code allows times INITIATION_COST are at most TOKEN_MAX plus the span, also when the table is or was full |
| `RateLimit.AllowedExactly` | src/wg_cookie.c:409-486 | in every run a request that there is room for is refused if and only if, counting from some earlier event, the requests of its key would exceed five at once and twenty per second |
| `RateLimit.SteadyPasses` | src/wg_cookie.c:24-32 | a request that comes a twentieth of a second or more after the one before of its key is never refused for lack of tokens |
| `RateLimit.InTable` | src/wg_cookie.c:382-407 | which keys the table holds after every run: those with a request that there was room for, at most a second before every collection since |

## Left out

- Sockets, ioctl and nvlist configuration, interface cloning, jails and vnets, module load and unload.
- The allowed-IP radix tree: it is the kernel's own, and longest-prefix matching could only be assumed.
- SipHash, arc4random, clocks and the mbuf allocator: arbitrary functions or parameters (`hash`, `draws`, `now`, `room`).
- Allocation failures, interface counters, debug output and wiping of memory, except that a finished handshake clears its state.
- XChaCha20, cookies and their MACs: no new kind of argument over what is here.
- Cryptographic strength, side channels, primality of 2^255 - 19 and the group law of the curve.
- Scheduling of the grouptasks: that a consumer is woken after a packet is finished is a liveness question and is not stated. When the parallel queue is full the packet is marked dead without waking the consumer (`src/if_wg.c:1907-1911`).
- noise_keypair_decrypt's own limit on the receive counter and on a keypair's age (`src/wg_noise.c:916-939`), and padding of packets (`src/if_wg.c:1491-1506`): they bear on none of the results.
- The 32-bit configuration of the counters.
- NoiseLocal.Local.RotateIn: the stores to the three slots are made together before the drops; under r_keypair_mtx their order among the drops is not visible to another operation.
- Handshake.CreateInitiation: the four message computations are functions on values; the class Endpoint stores what they leave in r_handshake, also when they stop early.
- NoiseLocal.Local.ReceivedWith: for a keypair under which a nonce has passed, which is what its only caller wg_deliver_in ensures; NoiseLocal.Local.Deliver has no such condition.
- PeerLifetime.dfy and Sessions.dfy are two separate models of the keypair reference counts: the first adds packets, the remote's own count and the epoch, the second the slots and the index table. There is no theorem between them.
- Endpoint.NoInitiationTwice: peers are added but not removed; a peer that is removed and configured again starts with timestamp zero, as in the source.
- Timers.StepKeeps: handlers are not told apart; any section that saw p_enabled true may reset any callout, which covers each of them.
- Rfc7748.X25519: the specification is the integer ladder, not scalar multiplication on the curve.
