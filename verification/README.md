# Torfoil: a verified model

Torfoil is a BitTorrent client for a game console. This project models its engine and the
protocols under it in Dafny, and proves what the engine relies on:

- **Downloading** (`Card`, `PieceCache`, `WriterQueue`, `Download`). Files on the card, the
  block-granular piece cache above them, the queue of the writer thread, and the engine that ties
  them to the request allocator. The card is an environment: `Files.works` says of every operation
  whether the card carries it out, and `Sound(from, to)` that it carried out a whole stretch. Over
  every interleaving of the engine's steps with the writer's, if late blocks repeat their pieces and
  the card works, every piece held is on the card with its right hash, whatever false blocks came
  before (`Download.EveryHeldPieceGood`, `Download.Run`). The cases below show what else can happen.
- **Requests** (`PickerState`, `PickRules`, `PiecePicker`, `PickerRuns`, `Bitfield`). The allocator
  that chooses blocks, its agreement of block states, counters and request table, and that a piece
  is reported full exactly when its last block comes, and once (`PickerRuns.FilledIff`, `FilledOnce`).
- **Peers** (`PeerFraming`, `PeerConnection`). Framing, the poll loop, and that what is handled
  depends on the bytes and not on the reads that brought them.
- **The tunnel** (`Noise`, `WireGuard`, `ReplayWindow`, `Tunnel`, `SessionSecrets`, `WireAead`). The
  WireGuard handshake and transport over abstract primitives, what goes into the keys, the replay
  window, and whole conversations.
- **Cryptography** (`Field25519`, `X25519`, `MontgomeryLadder`, `CurveMultiples`, `Poly1305`, `Aead`,
  `Sha1`, `Blake2s`). Limb arithmetic with every overflow excluded, refining RFC 7748 and RFC 8439; the
  ladder as multiplication by the scalar's number, over a field that is one because 2^255 - 19 is a
  prime (`Primes`, `Certificate`, `FieldUnits`); and the streaming hashes.
- **Formats** (`Bencode`, `BencodeParser`, `BencodeSpans`, `Metainfo`, `UrlText`, `Magnet`,
  `Galois`, `ReedSolomon`, `QrBlocks`). Round trips, extents, and the error-correcting code of the
  QR encoder.
- **Scheduling** (`Scheduler`). Which torrents may download at a time.

`Arith`, `Bits`, `Bytes`, `Words`, `Counting` and `Options` hold what these share. Objects that the
code updates in place are classes; loops are loops; the functions they are proved against are
independent definitions with lemmas of their own.

`dafny verify dfyconfig.toml` checks everything.

## What the proofs show about the code

Where the code does not do what one would expect, the model keeps the code and states exactly when
it does:

- A piece checked on the spot is marked as held before its commit, and stays marked if the commit
  fails (`source/bt/session.cpp:546-562`). `Download.Torrent.CommitHeld` and `OnPeerBlock` confine
  the damage to that piece, with the torrent Failed, and `Download.CommitCanLose` shows it happen. A
  later piece can still turn the torrent to Seeding (`FinishPiece`).
- A block that arrives late, for a piece that is done or with the writer, is stored before the
  picker filters it. In a fresh buffer it hides the verified bytes, and `close` writes it over them,
  unless it repeats them: `Download.LateBlockHarmlessIff`, `Download.Torrent.Close`. The ghost sets
  `damaged` and `shadowed` name the pieces this has happened to, and every contract bounds their growth.
- A buffered write that does not end where a block ends hides bytes of the card:
  `PieceCache.BufferWriteRefinesIff`, `PieceCache.UnshapedWriteCanFail`.
- Dropping a request at an unaligned offset frees a block but leaves its key in the table:
  `PickerState.DropInvIff`. The callers only use aligned offsets.
- The sum of the file lengths can wrap around 64 bits and still be accepted: `Metainfo.AcceptedIsValid`,
  `Metainfo.WrappedOffsets`.
- A response to the handshake is mixed into the transcript before it is authenticated, so a refused one
  with the index of the initiation makes the true one fail: `WireGuard.RefusedThenAnother`,
  `WireGuard.ForgeryCanCost`. The transport in use is not affected.
- The 32-bit block counter comes round to block 0, which gives the key of the tag, in texts longer than
  64 * (2^32 - 1) bytes: `Aead.KeySeparationIff`. No packet is that long.
- `INT64_MIN` is written by the encoder and refused by the decoder: `Bencode.NumberRead`.
- For the last 64 values of the 64-bit counter the replay check wraps: `ReplayWindow.PassesAtTheTopIff`.
- A torrent paused by the user while Failed becomes Seeding when its last piece comes in:
  `Scheduler.CompletionHonoursPauseIff`.
- With a saturated availability counter a candidate is never chosen: `PiecePicker.Picker.ChooseRarest`.

## Model

| member | source | states |
|---|---|---|
| Download.Torrent.OnPeerBlock | source/bt/session.cpp:493-532 | Keeps integrity for every block and every card, the writer thread taking turns in between: the damaged pieces grow at most by the piece named, and only if the block does not repeat what a completed piece holds or the card refuses part of that piece's commit (phase Failed, piece marked held). Says which blocks are ignored, which make the torrent Failed, and, on a card that works, what the picker, the buffers, the writer's queue and the phase become; a full piece is queued, with exactly its assembled bytes, if and only if the writer runs and the block completes the piece in memory; otherwise it is checked on the spot and, with the rest of its bytes backed, held if and only if those bytes have its hash |
| Download.Torrent.FinishPiece | source/bt/session.cpp:536-574 | The exact phase, picker state and count of corrupt pieces after a check or a report; the piece joins the damaged ones if and only if its commit failed, and no other piece suffers |
| Download.Torrent.CommitHeld | source/bt/session.cpp:546-562 | The piece is marked as held before the commit: it is good afterwards, or damaged, according to whether every operation of the commit succeeded; on a card whose next operation fails and takes nothing it is good exactly if it was good before |
| Download.CommitCanLose | source/bt/session.cpp:546-562 | Such a card exists: a torrent of one byte, stored in memory with the right hash, is held without the byte once its commit has failed |
| Download.Torrent.CollectWrittenPieces | source/bt/session.cpp:576-581 | Exactly the pieces reported as written become held, integrity is kept with no use of the card, and the phase becomes Failed or Seeding only for a failed write or a full torrent |
| Download.Torrent.WriterStep | source/bt/piece_writer.cpp:77-111 | One step of the writer thread: integrity is kept whatever the card does, other pieces on the card are untouched, what was backed stays backed, and the report says what happened |
| Download.Torrent.BlockStored | source/bt/session.cpp:515-532 | From the stored block on: the picker hears of it, and a full piece is queued if and only if the writer runs and the piece is wholly in memory, whatever turns the writer takes before and during the check |
| Download.Torrent.CheckNow | source/bt/session.cpp:528-532 | The synchronous path: the piece becomes held only with its right hash, and exactly then when it is wholly buffered, or backed by buffer and card on a card that works |
| Download.Torrent.HandOver | source/bt/session.cpp:518-532 | A full piece goes to the writer exactly when the writer runs and the piece is wholly in memory; otherwise it is checked on the spot |
| Download.Torrent.Close | source/bt/storage.cpp:279-284 | Closing writes what the store presented: on a card that works a piece ends up good exactly when its presented bytes have its hash; completed pieces neither damaged nor shadowed keep their bytes even if the card fails |
| Download.Torrent.SteadyShows | source/bt/storage.cpp:451-482 | The bytes presented of every completed piece, neither damaged nor shadowed, are those on the card and have its hash |
| Download.LateBlockHarmlessIff | source/bt/storage.cpp:373-402 | A block put into a fresh buffer over a finished piece is harmless if and only if it repeats the bytes of the piece |
| Download.OtherStepsKeep | source/bt/session.cpp:474-491 | Choking, requesting, expiring and peers coming or going keep every held and every awaited piece |
| Download.Run | source/bt/session.cpp:493-581 | Every interleaving of blocks, true or false, with the writer thread, collecting, requesting, dropping, expiring, peers and the stop, on any card, is a run of the steps described; integrity stands at the end; and if late blocks repeated their pieces and the card worked, every piece held is on the card with its hash |
| Download.EveryHeldPieceGood | source/bt/session.cpp:493-581 | At every moment of every run in which blocks for completed pieces repeat them and the card works, every piece held is on the card with the right hash, however many false blocks came for pieces not completed |
| Download.HeldIsGood | source/bt/session.cpp:493-581 | The same for one piece: only the blocks that come for it need repeat it once it is completed, and the card need work only while one of them is handled |
| Download.HeldIsShown | source/bt/storage.cpp:451-482 | If such blocks also repeat what the writer is about to write and end where a block or the piece ends, the store shows a completed piece as it is on the card |
| Download.HarmIsNamed | source/bt/session.cpp:493-581 | Over every run, only pieces that blocks came for are damaged or shadowed |
| Download.OneContent | source/bt/session.cpp:493-581 | A piece about which nobody lies, on a card that works while its blocks come, is never harmed, and once completed card and store have exactly what was sent, unless the run itself turned up a second content with the hash |
| Download.HonestRepeats | source/bt/session.cpp:493-515 | A true block for a completed piece, or for one the writer is about to write, repeats the bytes that are there |
| Download.Torrent.RequestBlocks | source/bt/session.cpp:765-778 | Asking a peer for blocks changes the picker by exactly the requests returned and keeps integrity |
| Download.Torrent.DropRequest | source/bt/session.cpp:485-491 | A request lost to a choke frees its block and keeps integrity |
| WriterQueue.PieceWriter.Submit | source/bt/piece_writer.cpp:39-58 | Appends one job at the end of the outstanding pieces, keeping the byte count exact and within the budget, a single larger piece aside |
| WriterQueue.PieceWriter.Next | source/bt/piece_writer.cpp:77-90 | Takes the oldest job, or returns exactly when nothing is left to do after a stop; nothing outstanding is lost |
| WriterQueue.PieceWriter.Work | source/bt/piece_writer.cpp:92-110 | One result per job: HashFailed exactly when the bytes do not have the piece's hash, else Written exactly when no operation of the card failed, and then the card holds these bytes; no other piece changes |
| WriterQueue.PieceWriter.TakeResults | source/bt/piece_writer.cpp:60-65 | Every piece ever queued is taken exactly once, in order: taken followed by outstanding is always what was queued |
| WriterQueue.PieceWriter.LeftOver | source/bt/piece_writer.cpp:17-37 | Once the loop has returned no job is left, so the branch for jobs left over is never taken |
| PieceCache.Storage.WriteBlock | source/bt/storage.cpp:451-482 | Which blocks are buffered (aligned, not empty, a buffer present or affordable); the result is true if and only if the block fits and no operation of the card failed; block-shaped writes act on the flat array that buffers and card present, other pieces and their buffers are untouched, and a failed write has put a prefix of the data on the card |
| PieceCache.BufferWriteRefinesIff | source/bt/storage.cpp:461-478 | A buffered write acts as a write of the flat array if and only if the rest of its last block was buffered already or reads the same on the card |
| PieceCache.ShapedWriteRefines | source/bt/storage.cpp:461-478 | Every aligned write that ends where a block or the piece ends acts on the flat array |
| PieceCache.UnshapedWriteCanFail | source/bt/storage.cpp:461-478 | For every other aligned write there are a card and a buffer on which it hides bytes of the card |
| PieceCache.DirectWriteRefinesIff | source/bt/storage.cpp:481-481 | A write past a buffer acts on the flat array if and only if the buffer holds no differing byte there |
| PieceCache.Storage.BufferFor | source/bt/storage.cpp:373-402 | Finds the piece's buffer, creates one exactly when the size and memory limits allow, and changes no presented byte |
| PieceCache.Storage.WriteThrough | source/bt/storage.cpp:484-521 | Success if and only if the card carried out everything; a prefix of the data, all of it on success, is on the card at the piece's place and nothing else changed |
| PieceCache.Storage.FlushRuns | source/bt/storage.cpp:406-431 | Writes exactly the present blocks, run by run; on failure each byte is the old or the buffered one |
| PieceCache.Storage.CommitPiece | source/bt/storage.cpp:433-441 | After success the card alone holds what the store presented; after failure each byte is the old or the presented one; the buffer is gone either way |
| PieceCache.Storage.DiscardPiece | source/bt/storage.cpp:443-449 | Only the refused piece goes back to what the card holds |
| PieceCache.Storage.TakeCompletePiece | source/bt/storage.cpp:539-550 | Gives the bytes of the piece exactly when every block of it is buffered, and takes the buffer away |
| PieceCache.Storage.WritePiece | source/bt/storage.cpp:560-562 | Success if and only if the card worked, and then the card holds exactly these bytes; other pieces are untouched |
| PieceCache.Storage.VerifyPiece | source/bt/storage.cpp:564-595 | The answer is whether the presented bytes of the whole piece (PiecesTile, PiecesJoin) have its hash, the same from memory, after flushing a partial buffer, and from the card, whenever the bytes are backed and the card works; it never says yes wrongly, and presents the same bytes afterwards |
| PieceCache.PiecesJoin | source/bt/storage.cpp:564-595 | The pieces that are read, stored and checked, put one after the other, are the whole flat array |
| PieceCache.Storage.Close | source/bt/storage.cpp:279-284 | On a card that works the card ends up holding what was presented; on any card each byte is the old or the presented one |
| Card.SpansOf | source/bt/storage.cpp:329-371 | The slices handed out are in order, within their files and cover exactly the range; ranges past the end are refused |
| Card.FirstFile | source/bt/storage.cpp:334-349 | Binary search: the first file that ends after the position |
| Card.Files.EvictIfNeeded | source/bt/storage.cpp:300-316 | With all handles in use the one used least recently is closed, otherwise none; the count of open handles is exact |
| Card.Files.Acquire | source/bt/storage.cpp:318-327 | At most eight handles are open; success if and only if the card opened the file |
| Card.Files.EnsureAllocated | source/bt/storage.cpp:259-277 | The file reaches the needed size, never past its final length nor a whole 32 MiB step beyond the need, reading as before |
| Card.Files.Write | source/bt/storage.cpp:484-521 | Across any number of files: success if and only if the range is inside the torrent and no operation failed; the flat stream has a prefix of the data spliced in, all of it on success |
| Card.Files.Read | source/bt/storage.cpp:523-537 | Success if and only if the range is inside, every byte of it is allocated and no operation failed, and then the flat stream's bytes |
| Card.WriteThenRead | source/bt/storage.cpp:484-537 | On a card that works every range inside the torrent is written and read back unchanged across file boundaries |
| Metainfo.ReadFiles | source/bt/metainfo.cpp:43-71 | Offsets and total are the prefix sums of the lengths modulo 2^64 |
| Metainfo.ContiguousIff | source/bt/metainfo.cpp:43-71 | The files lie end to end if and only if the sum of the lengths does not reach 2^64 |
| Metainfo.AcceptedIsValid | source/bt/metainfo.cpp:18-94 | What the checks accept is a usable geometry if and only if the sum does not reach 2^64 |
| Metainfo.WrappedOffsets | source/bt/metainfo.cpp:43-94 | Three lengths that wrap are accepted with one 16-byte piece although the first file reaches past the end |
| Metainfo.PiecesTile | source/bt/metainfo.cpp:122-126 | The pieces tile the stream: the first starts at 0, each ends where the next starts, the last ends at the end, and every piece but the last has the full length |
| PiecePicker.Picker.Pick | source/bt/piece_picker.cpp:133-203 | At most max requests, each an eligible block of a piece the peer has and we lack, each once, earliest blocks first; open pieces first, then the rarest of the sampled candidates in turn; table and block states change by exactly these requests; if fewer than max are returned and no counter is saturated, no free block is left in any piece the peer could give |
| PiecePicker.Picker.ChooseRarest | source/bt/piece_picker.cpp:170-194 | The rarest of the first 256 candidates from the cursor, the first of equals; none only if every sampled candidate's counter is saturated |
| PickRules.WorkConserved | source/bt/piece_picker.cpp:133-203 | Exhausted open pieces and nothing to open mean that no free block remains in any piece the peer has, we lack, and that is open or of positive availability, unless a counter is saturated |
| PickRules.ExtentsTile | source/bt/piece_picker.cpp:87-90 | The requests of a piece's blocks follow one another without gap or overlap and end where the piece ends |
| PiecePicker.Picker.OnBlockReceived | source/bt/piece_picker.cpp:205-227 | A block of an open piece is in afterwards and its key is gone from the table of requests, no other block of the piece and no other key has changed, and the answer is yes if and only if it was the last one missing; in every case the new state keeps the agreement of block states, counters and table |
| PickerState.FullIff | source/bt/piece_picker.cpp:205-227 | The answer is true if and only if this block is the one that completes the piece |
| PickerState.BlockCounts | source/bt/piece_picker.cpp:205-227 | An aligned block of an open piece comes in: it is done, no longer asked for, and no other block, piece, request, held piece or count changes |
| PickerState.RefusedStartsOver | source/bt/piece_picker.cpp:244-262 | After a failed check every block of the piece is free to be asked for again, with no request of it left, and nothing else has changed |
| PickerState.BytesDoneIff | source/bt/piece_picker.cpp:244-262 | The bytes counted as done reach the total if and only if every piece is held |
| PiecePicker.Picker.OnRequestDropped | source/bt/piece_picker.cpp:229-242 | The new state; the invariant is kept for the aligned offsets the callers use |
| PickerState.DropInvIff | source/bt/piece_picker.cpp:229-242 | For any offset: the invariant survives if and only if the offset is aligned or names no pending block of an open piece |
| PiecePicker.Picker.OnPieceVerified | source/bt/piece_picker.cpp:244-262 | Held with its bytes counted, or reset to free blocks with its requests forgotten |
| PiecePicker.Picker.ExpireRequests | source/bt/piece_picker.cpp:264-288 | Exactly the requests older than the timeout, in 64-bit arithmetic, are freed and counted, in whatever order the table is walked |
| PickerRuns.StepKeepsSettled | source/bt/piece_picker.cpp:205-288 | Over every step, only a failed check takes back a complete piece |
| PickerRuns.FilledOnce | source/bt/piece_picker.cpp:205-262 | Over every run, two reports that the same piece is full have a failed check of it between them |
| PickerRuns.FilledIff | source/bt/piece_picker.cpp:205-262 | Over every stretch of a run in which a piece is open and not refused, it is reported full if and only if each of its blocks was in at the start or has come since |
| PickRules.EndgameIff | source/bt/piece_picker.cpp:126-131 | The endgame begins exactly when fewer than one piece in fifty is missing |
| Bitfield.Bits.Set | source/bt/piece_picker.cpp:32-45 | Changes one bit, most significant first, and keeps the count exact |
| Bitfield.MaskOrder | source/bt/piece_picker.cpp:32-45 | The first bit of a byte is the one of weight 128, each next one has half the weight of the one before, and the padding masks are the lowest bits |
| Bitfield.Bits.FromBytes | source/bt/piece_picker.cpp:47-65 | Accepted if and only if the length is right and every padding bit is zero; then the bits of the bytes, with their count |
| PeerFraming.SplitGoesOn | source/bt/peer.cpp:472-490 | Parsing may stop anywhere and go on with what was left and what came later |
| PeerFraming.SplitFrames | source/bt/peer.cpp:85-91 | The receiver recovers exactly the framed messages |
| PeerConnection.Connection.Flush | source/bt/peer.cpp:93-114 | Sends exactly what the calls to send take, in the order queued; closes if and only if one of them fails |
| PeerConnection.Connection.OnPoll | source/bt/peer.cpp:505-557 | Received grows by exactly the bytes of the first eight reads up to one that yields none, sent by exactly what the calls to send take; phase and handled messages are then the outcome of all bytes received; every failing branch |
| PeerConnection.Run | source/bt/peer.cpp:505-557 | Over every run of reads, however they cut the stream and even if the connection closes on the way, phase and handled messages are the outcome of the concatenation |
| PeerConnection.OutcomeUnique | source/bt/peer.cpp:258-285 | A stream of bytes has one outcome, so two runs over the same bytes handle the same messages and end in the same phase |
| PeerConnection.OutcomeStays | source/bt/peer.cpp:472-490 | Bytes after the ones that closed the connection change nothing |
| PeerConnection.FramesHandled | source/bt/peer.cpp:472-490 | Of a framed sequence of messages a prefix is handled at any time, and all of them once all bytes are in |
| PeerConnection.Connection.BufferBounded | source/bt/peer.cpp:530-540 | The input buffer stays below its limit, so the branch that closes for a full buffer is never taken |
| PeerConnection.GreetingAcceptedIff | source/bt/peer.cpp:116-125 | The 68-byte greeting that is sent for one torrent is accepted by a connection exactly if that is for the same torrent; of the eight reserved bytes only the bit for extended messages is set, and the last 20 are the sender |
| WireGuard.Peer.MakeInitiation | source/net/wg/wireguard.cpp:208-269 | The 148-byte message and transcript of section 5.4.2 of the WireGuard paper; refused if and only if a shared secret is zero |
| WireGuard.Peer.ConsumeResponse | source/net/wg/wireguard.cpp:271-341 | Accepted if and only if it is expected and authenticates; then fresh keys, counter and window. A refused one leaves the transport as it was, and the handshake too unless it named the index of the initiation: then transcript and remote index are those it led to |
| WireGuard.RefusedThenAnother | source/net/wg/wireguard.cpp:271-341 | After a refused response another one is accepted if and only if it authenticates against the transcript that was left: the initiation's if the refused one was addressed elsewhere, otherwise the one it spoiled |
| WireGuard.ForgeryCanCost | source/net/wg/wireguard.cpp:280-325 | There are a lawful set of primitives, a true response and a forged one with the same header such that the true one, accepted by itself, is refused after the forged one |
| WireGuard.Peer.DeriveTransportKeys | source/net/wg/wireguard.cpp:343-366 | The two keys of the transcript, crossed between initiator and responder; the send counter and the window start over |
| WireGuard.Peer.Encapsulate | source/net/wg/wireguard.cpp:382-410 | Sends if and only if established, not expired and with room; the counter used is recorded and steps by one modulo 2^64 |
| WireGuard.NoncesDistinct | source/net/wg/wireguard.cpp:400-406 | Two messages under one key share a counter if and only if their distance is a multiple of 2^64 |
| WireGuard.Peer.Decapsulate | source/net/wg/wireguard.cpp:412-463 | Delivers if and only if the message is well formed, its counter passes and it authenticates; a counter never passes twice and a refused message moves nothing |
| ReplayWindow.AcceptAdds | source/net/wg/wireguard.cpp:448-459 | The 64-bit window stands for the set of accepted counters, and accepting adds one |
| ReplayWindow.NeverTwice | source/net/wg/wireguard.cpp:420-433 | An accepted counter never passes again, over the whole 64-bit range |
| ReplayWindow.PassesIff | source/net/wg/wireguard.cpp:420-433 | Below the last 64 counters, what passes is exactly what is new and less than 64 behind |
| ReplayWindow.PassesAtTheTopIff | source/net/wg/wireguard.cpp:420-433 | In the last 64 counters the sum wraps: they pass if and only if everything seen lies below the wrapped bound |
| WireGuard.Peer.ConsumeInitiation | source/net/wg/wireguard.cpp:467-508 | The responder accepts if and only if both sealed parts open, and learns transcript, initiator and index |
| WireGuard.Peer.MakeResponse | source/net/wg/wireguard.cpp:510-550 | The response message, and the responder's keys, crossed |
| Noise.InitiationParts | source/net/wg/wireguard.cpp:208-260 | The first message is laid out as in section 5.4.2 of the WireGuard paper: type, zeros, sender, ephemeral key and the two sealed fields, each read back from its place |
| Noise.ResponseParts | source/net/wg/wireguard.cpp:510-545 | The second message is laid out as in section 5.4.3: type, zeros, sender, receiver, ephemeral key and sealed payload |
| WireGuard.DataOpens | source/net/wg/wireguard.cpp:395-406 | A data message is type, zeros, receiver, counter, low byte first, and the sealed packet, and opens to the packet |
| Tunnel.Exchange | source/net/wg/wireguard.cpp:208-341 | Two peers that know each other's keys complete the handshake if and only if no shared secret is zero, and then hold crossed equal keys and each other's index. The keys are the first and second output of the key derivation from the left fold of it, starting at the hash of the construction, over the initiator's ephemeral key, two secrets, the responder's ephemeral key, two more secrets and the preshared key; the transcript hash is the fold over identifier, keys and sealed fields in the order of section 5.4 of the WireGuard paper |
| Noise.HandshakeFolds | source/net/wg/wireguard.cpp:208-325 | Both handshake messages together amount to these two folds, whatever the primitives are |
| Noise.KdfIsHkdf | source/net/wg/wireguard.cpp:34-67 | The three outputs of the key derivation are the first three blocks of the expansion of RFC 5869, section 2.3 |
| SessionSecrets.EachSecretMatters | source/net/wg/wireguard.cpp:238-317 | For each of the four shared secrets and for the preshared key there are lawful primitives under which a change of it alone changes both transport keys |
| Tunnel.Deliver | source/net/wg/wireguard.cpp:412-463 | Under any order, loss and repetition of the messages, each delivery gives its packet exactly if it is the first of it and not too old |
| Tunnel.Converse | source/net/wg/wireguard.cpp:208-463 | From the first handshake message to the last packet: what arrives is what was sent, each packet at most once |
| WireAead.CipherIsLawful | source/net/wg/chacha20poly1305.c:289-339 | The construction opens what it seals, which is what the handshake needs of its cipher |
| WireAead.NoncesEqualIff | source/net/wg/chacha20poly1305.c:341-345 | The nonce is four zero bytes and the counter, low byte first; two counters have the same nonce if and only if they are equal modulo 2^64 |
| Poly1305.Context.constructor | source/net/wg/chacha20poly1305.c:97-110 | Limbs and pad of the clamped key |
| Poly1305.ClampIsMask | source/net/wg/chacha20poly1305.c:97-110 | Clamping the key is the mask of RFC 8439, section 2.5.1, on the number it spells |
| Poly1305.Context.Blocks | source/net/wg/chacha20poly1305.c:112-167 | The 26-bit limb arithmetic absorbs each block as (acc + block) * r modulo 2^130 - 5, without overflow |
| Poly1305.Context.Update | source/net/wg/chacha20poly1305.c:169-193 | Feeding data in any pieces equals feeding the concatenation |
| Poly1305.Context.Finish | source/net/wg/chacha20poly1305.c:195-270 | The 16 bytes are the tag of RFC 8439, section 2.5, of everything fed in |
| Poly1305.TagIsPolynomial | source/net/wg/chacha20poly1305.c:195-270 | The tag is the polynomial in r whose coefficients are the blocks, the first block at the highest power, modulo 2^130 - 5, plus s, modulo 2^128 |
| Aead.ChaCha20Xor | source/net/wg/chacha20poly1305.c:63-82 | The exclusive-or of the input with the key stream, block by block, the 32-bit counter wrapping |
| Aead.Encrypt | source/net/wg/chacha20poly1305.c:289-310 | Ciphertext and tag of the construction of RFC 8439, section 2.8: byte k is exclusive-ored with byte k % 64 of the block with counter 1 + k / 64 modulo 2^32, and the tag is that of the padded data under the first 32 bytes of block 0 |
| Aead.TagFromBlockZero | source/net/wg/chacha20poly1305.c:292-307 | The tag depends on no other block of the key stream than the one with counter 0 |
| Aead.KeySeparationIff | source/net/wg/chacha20poly1305.c:63-82 | The ciphertexts of all n-byte texts are independent of block 0, whose first bytes are the key of the tag, if and only if n is at most 64 * (2^32 - 1); after that the 32-bit counter comes round to it |
| Aead.MacDataEnds | source/net/wg/chacha20poly1305.c:282-287 | The authenticated data is whole blocks and ends with both lengths, low byte first, modulo 2^64 |
| Aead.MacDataInjective | source/net/wg/chacha20poly1305.c:276-307 | No two pairs of associated data and ciphertext, of lengths below 2^64, give the same authenticated data |
| Aead.Decrypt | source/net/wg/chacha20poly1305.c:312-339 | Succeeds if and only if the tag is right, and writes plaintext only then |
| Aead.OpenInvertsSeal | source/net/wg/chacha20poly1305.c:289-339 | Opening inverts sealing, and a ciphertext opens under exactly one tag |
| Field25519.Car25519 | source/net/wg/x25519.c:15-24 | One carry pass with floor division of signed limbs: the same field element, each limb carried into the next and the top carry folded back times 38, no 64-bit overflow |
| Field25519.ThirdPass | source/net/wg/x25519.c:15-24 | From a reduced vector one more pass gives digits in 0..65535 |
| X25519.MaskedSwap | source/net/wg/x25519.c:28-35 | The mask built from the bit exchanges or keeps one pair of words |
| X25519.Sel25519 | source/net/wg/x25519.c:28-35 | The two vectors are exchanged or kept |
| X25519.Pack25519 | source/net/wg/x25519.c:37-60 | The 32 bytes are the canonical value below 2^255 - 19 |
| X25519.Unpack25519 | source/net/wg/x25519.c:62-65 | The digits of the point with its top bit dropped |
| X25519.FAdd | source/net/wg/x25519.c:67-69 | Sum modulo p, within the limbs a product may take |
| X25519.FSub | source/net/wg/x25519.c:71-73 | Difference modulo p, within the limbs a product may take |
| Field25519.FMul | source/net/wg/x25519.c:75-85 | Product modulo p of any limbs within 2^26, reduced, every 64-bit step free of overflow |
| MontgomeryLadder.FInverse | source/net/wg/x25519.c:92-100 | The 254 squarings and their products compute the power p - 2, which is the inverse modulo p, and 0 for 0 |
| Certificate.PrimeP | source/net/wg/x25519.c:92-100 | 2^255 - 19 is a prime, which is why that power inverts |
| MontgomeryLadder.LadderStep | source/net/wg/x25519.c:118-142 | Swap, the field operations and swap back are one differential double-and-add of RFC 7748, section 5 |
| MontgomeryLadder.LoopUnroll | source/net/wg/x25519.c:118-142 | The code's two swaps per bit and the lazy single swap of RFC 7748 go through the same states |
| CurveMultiples.ScalarMultiply | source/net/wg/x25519.c:102-149 | For every scalar and point the 32 bytes are X25519(scalar, point) of RFC 7748, and the number they spell is the affine coordinate of the multiple of the point by the clamped scalar, multiples being defined by number, by doubling and adding, without reference to the loop |
| CurveMultiples.LoopHolds | source/net/wg/x25519.c:118-142 | If the registers hold, up to a common factor, the multiples by the bits of k above t and by one more, then after the rest of the loop they hold the multiples by k and by k + 1 |
| CurveMultiples.SmallOrderGivesZero | source/net/wg/x25519.c:102-149 | For the points 0, 1 and -1 modulo p every scalar gives zero, which the callers refuse |
| CurveMultiples.ClampedNumber | source/net/wg/x25519.c:106-109 | The clamped scalar is 2^254 plus eight times the bits in between: a multiple of 8 from 2^254 up to below 2^255 |
| CurveMultiples.DecodedNumber | source/net/wg/x25519.c:62-65 | The point is read modulo 2^255 |
| CurveMultiples.DoubleIsTangent | source/net/wg/x25519.c:118-142 | Doubling is the tangent construction on y^2 = x^3 + 486662 x^2 + x modulo p |
| CurveMultiples.SumIsChord | source/net/wg/x25519.c:118-142 | Differential addition is the chord construction on that curve: given the coordinate of the difference of two points it gives the coordinate of their sum |
| Sha1.Hasher.Update | source/util/sha1.cpp:63-89 | Feeding data in any pieces equals feeding the concatenation, the bit count exact modulo 2^64 |
| Sha1.Hasher.Finish | source/util/sha1.cpp:91-114 | The chaining value over the padded message of FIPS 180-4, section 5.1.1 |
| Sha1.PadShape | source/util/sha1.cpp:91-114 | The padding is that of FIPS 180-4, section 5.1.1: the byte 0x80, the fewest zeros, and the length in bits modulo 2^64, high byte first, to whole blocks |
| Sha1.PadInjective | source/util/sha1.cpp:91-114 | Two messages below 2^64 bits with the same padding are the same |
| Sha1.DigestOfPieces | source/util/sha1.cpp:63-114 | Any sequence of pieces gives the digest of their concatenation |
| Blake2s.State.Increment | source/net/wg/blake2s.c:44-47 | The two-word counter is exact modulo 2^64 |
| Blake2s.State.Update | source/net/wg/blake2s.c:115-143 | Feeding in any pieces; the buffer is never emptied while it may be the last block |
| Blake2s.State.Final | source/net/wg/blake2s.c:145-155 | The hash of RFC 7693, section 3.3: the last block padded, flagged and counted exactly |
| Blake2s.HashOfPieces | source/net/wg/blake2s.c:97-155 | Keyed or not, any sequence of pieces gives the hash of their concatenation |
| Blake2s.ParameterWord | source/net/wg/blake2s.c:97-103 | The exclusive-ors give the parameter word of RFC 7693, section 2.5: output length, key length, fanout 1, depth 1, one byte each |
| Galois.GaloisTables.constructor | source/util/qr.cpp:14-30 | The tables hold the powers of 2 and their logarithms, 2 having order 255 |
| Galois.GaloisTables.Product | source/util/qr.cpp:37-41 | The table product is the product of the field with the polynomial 0x11d |
| ReedSolomon.GeneratorPoly | source/util/qr.cpp:44-55 | The in-place growth gives the product of the first n root factors |
| ReedSolomon.GeneratorRootsIff | source/util/qr.cpp:44-55 | The generator vanishes at a value if and only if it is one of the first n powers of 2 |
| ReedSolomon.Remainder | source/util/qr.cpp:335-351 | The shift register divides: data times x^n is quotient times generator plus remainder |
| ReedSolomon.RemainderUnique | source/util/qr.cpp:335-351 | That remainder is the only one |
| ReedSolomon.CodewordVanishes | source/util/qr.cpp:335-351 | Data followed by remainder vanishes at every root of the generator |
| QrBlocks.Codewords | source/util/qr.cpp:397-418 | For every version, each block read back from the interleaved codewords is its slice of the stream with its remainder, and their number is the version's |
| QrBlocks.LaneVanishes | source/util/qr.cpp:397-418 | Every block read back from the symbol vanishes at the roots of its generator |
| Bencode.RoundTrip | source/bt/bencode.cpp:126-177 | Decoding a printed tree at any place gives it back with its extents, or fails if and only if it exceeds the limits of depth, of string length or of 64-bit magnitude; dictionaries printed out of order or with a key twice come back sorted with the first of equal keys |
| Bencode.TextOf | source/bt/bencode.cpp:126-147 | Every text that decodes is the printing of a tree with its entries as they stand in the text |
| Bencode.PlacedInOrder | source/bt/bencode.cpp:105-124 | A dictionary printed in order keeps its entries one for one |
| Bencode.EmplaceKeepsFirst | source/bt/bencode.cpp:105-124 | After an insertion a key finds what it found before, or the new value if it found nothing and is the new key |
| Bencode.LessIff | source/bt/bencode.cpp:105-124 | The order of the keys is: a proper prefix first, otherwise the first character that differs decides |
| Bencode.NumberRead | source/bt/bencode.cpp:40-70 | A printed number reads back if and only if its magnitude is at most 2^63 - 1; so the smallest 64-bit number does not |
| Bencode.ReencodesIff | source/bt/bencode.cpp:126-177 | Re-encoding what was decoded reproduces the source bytes if and only if every dictionary printed there has its keys strictly increasing |
| BencodeSpans.SpanDecodesAlone | source/bt/bencode.cpp:126-147 | The recorded extent of any nested value, taken alone, decodes to that value and leaves nothing over |
| BencodeParser.Parser.ReadNumber | source/bt/bencode.cpp:40-70 | The loop accepts, rejects and advances as the grammar's numbers do, without 64-bit overflow |
| BencodeParser.Parser.Parse | source/bt/bencode.cpp:126-147 | The recursive parser with its cursor decodes exactly the value function |
| BencodeParser.Bdecode | source/bt/bencode.cpp:243-250 | One value from the start; bytes after it are tolerated |
| BencodeParser.DecodesEncoding | source/bt/bencode.cpp:243-254 | bdecode inverts bencode, exactly within the decoder's limits |
| UrlText.DecodeEncode | source/util/bytes.cpp:94-137 | url_decode inverts url_encode on every byte string |
| UrlText.EncodePlain | source/util/bytes.cpp:94-111 | Encoded text never holds a separator |
| UrlText.FromHex | source/util/bytes.cpp:55-64 | Accepted if and only if of the right length and all hexadecimal; then the bytes it spells |
| UrlText.HexIsHex | source/util/bytes.cpp:45-53 | What to_hex writes spells its bytes |
| UrlText.HexValIff | source/util/bytes.cpp:26-31 | A character has a hexadecimal value exactly if it is the digit for it in lower or upper case; lower case is written |
| UrlText.Split | source/util/bytes.cpp:228-241 | Parts without the separator whose joining gives the text |
| UrlText.SplitUnique | source/util/bytes.cpp:228-241 | There is only one such way to cut |
| Magnet.ParseMagnet | source/bt/magnet.cpp:16-66 | Accepted if and only if the trimmed link has the scheme, no parameter is refused and a hash was given; the link is what the parameters leave in turn |
| Magnet.ReadBack | source/bt/session.cpp:1035-1042 | parse_magnet reads back what magnet_for writes, for all names, hashes and trackers, the empty trackers aside |
| Scheduler.Session.UpdateQueue | source/bt/session.cpp:1263-1289 | The limit is kept, and reached unless nobody waits; the earliest waiters are promoted, the latest holders put aside, nothing else changes, and a second call changes nothing |
| Scheduler.SwitchesKeepOk | source/bt/session.cpp:858-880 | Every switch keeps: a torrent the user paused pulls nothing, and no slot is held while queued |
| Scheduler.ResumeReturnsToQueue | source/bt/session.cpp:109-120 | Resuming a queued torrent gives it back to the queue |
| Scheduler.GoesOn | source/bt/session.cpp:858-880 | A torrent resumed by the user fetches its metadata, checks, downloads or seeds, according to what it has, and takes a slot in the first and third case |
| Scheduler.PromotedGoesOn | source/bt/session.cpp:858-880 | So does one that the queue lets go on |
| Scheduler.Session.CheckDone | source/bt/session.cpp:298-304 | After the check: Queued, Seeding or Downloading, exactly |
| Scheduler.Session.Complete | source/bt/session.cpp:568-573 | The last piece makes the torrent Seeding; the user's pause is honoured if and only if it was not set |
| Scheduler.CompletionHonoursPauseIff | source/bt/session.cpp:568-573 | The only way past the pause is a torrent paused while Failed whose last piece then comes in |
| Scheduler.Session.Fail | source/bt/session.cpp:511-512 | The slot is given back, and no pause or queue switch revives the torrent |

## Left out

- The block function of ChaCha20 and the compression functions of SHA-1 and BLAKE2s: parameters of the model, since nothing proved depends on their rounds.
- Secrecy: the handshake is proved to agree and to deliver, over primitives that open what they seal and a Diffie-Hellman function that commutes; nothing is said about an attacker.
- PieceCache.Storage.VerifyPiece: on a card that fails, or for bytes never written, a correct piece may be refused; the contract then only excludes a wrong yes, as the code does.
- Card.Files.Write: buffering inside the C library is not modelled; a write reaches the card in the call that makes it, so an error that only a later flush reports is not.
- Storage: creating, preallocating and renaming files (`Storage::open`), the scan of existing data, and resume files.
- PieceCache.Storage.Close: the closing of the handles after the flush; the contract is about the bytes.
- WriterQueue.PieceWriter.Submit: locks, condition variables and the order of wake-ups; each critical section is one step, and waiting is the step's precondition.
- Download.Torrent.OnPeerBlock: a late block that does not repeat a completed piece may leave it damaged or shadowed, because the code stores it. The writer thread steps between the store of a block, its check and what follows, and while the queue is full, but not inside one call to the store, which is one step; messages to the peers, rates and log lines are not modelled.
- PeerConnection.Connection.OnPoll: what the handler of a message does (replies, extensions, metadata exchange) is one parameter that says whether it closes the connection; replies queued from inside a poll and the extended handshake are not modelled, nor are timeouts.
- WireGuard.Peer.MakeInitiation: timers for rekeying and keep-alive, cookie replies, and the comparison of timestamps by a responder; the random values are parameters.
- CurveMultiples.ScalarMultiply: that the multiples form a group, so that two parties' multiples commute, is not proved; the multiples are defined by doubling and differential addition, which are proved to be the tangent and the chord of the curve. The points of order 8 are not among those shown to give zero.
- The primitives of the handshake are functions of a record; its mac and hash are not tied to the BLAKE2s of this project.
- Magnet.ParseMagnet: base32 hashes and the exact length go through two abstract readers.
- Metainfo.AcceptedIsValid: names, paths and the table of hashes, and the reading of the dictionary itself.
- QrBlocks.Codewords: modules, masks, format bits and the packing of the text into the stream.
- Scheduler.Session.UpdateQueue: adding and removing torrents by command, and the announcing to trackers.
- Tracker, DHT, peer exchange, search, TLS, HTTP, JSON, archives and the user interface: easy or outside the core.
