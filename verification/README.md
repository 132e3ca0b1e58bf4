# A verified model of the torrent client

This project models, in Dafny 4.11, the parts of a BitTorrent client in C++ whose correctness is
not visible in any single function: how pieces lie over files, how a download becomes bytes on
disk that match their hashes, how the DHT routing table splits, what bencoded text loads to, how
the UDP tracker client gives up, how jobs are queued and erased, and what travels between peers.

Each component has two layers. The imperative layer has the classes, loops and in-place updates of
the C++ code: `TorrentFilesManager`, `MasterPeer`, `PeerClient`, `Downloader`, `Kbucket`,
`RouteTable`, `UdpRequester`, `AsyncWorker`, the bencode streams, the message buffers. Every method
there is proved equal to a specification function or predicate. The mathematical layer states what
those functions mean: refinement of one flat byte string, invariants of all runs, round trips,
conservation, bounds that are reached.

## The components

* **Storage** (`Pieces`, `Layout`, `FillFiles`, `Storage`, `DiskFiles`, `BlockReads`,
  `FilesManager`). The files of a torrent, laid end to end, are one flat byte string, and piece p is its window `[p * L, p * L + len)`.
  `fill_files` cuts the files into segments; they tile every file exactly once. Writing a piece
  changes that window only, although the code may write past the declared end of a file, and
  reading a block returns the slice of the flat string, although in single-file mode the length is
  computed by a subtraction that wraps. `ReadAfterWrite` puts the two together, and `BlockReads` says
  how far a read goes that was asked to leave its piece.
* **Requests and assembly** (`Requests`, `Assembly`, `Arrivals`, `Peers`, `Interest`). The batched
  request loop and the cancel loop, out-of-order assembly, blocks that were not cut as requested, piece
  selection and request marks, and what a neighbour is told of our interest.
* **Downloads** (`Downloads`, `Lifecycle`, `Handlers`, `Completion`, `Marks`). The worker's job and uploads on real files,
  and the whole download as a machine over many peers, worker steps and uploads in any
  interleaving: a piece that counts as done is on disk with the bytes its hash promises, and what is
  sent for a request comes from such content exactly if the request is proper. `Handlers` has the
  handlers of a peer and the worker's job act on the objects, and proves that they leave them in the
  state the machine's steps lead to. `Completion` constructs, from any disk, a run after which the
  files are the promised content, and `Marks` says which pieces can be asked for again.
* **Routing table** (`Distance`, `Routing`, `Buckets`). `BucketDistance` in its wrapping arithmetic,
  buckets as ranges of the XOR metric, splits that lose and copy nothing (BEP 5, section "Routing
  Table").
* **Bencode** (`Numerals`, `Bencode`, `BencodeMaps`, `BencodeRoundTrip`, `BencodeStreams`,
  `InfoHash`). Printer and loader on streams (BEP 3, section "bencoding"), exactly when loading
  undoes printing and when printing undoes loading, and what text the info-hash is taken of.
* **UDP tracker** (`UdpTracker`, `UdpPromises`, `UdpRequesters`). The connect and announce retry
  machine (BEP 15) against an outside world that picks every reply, error and timeout, and exactly
  which events make it answer or give up.
* **Worker** (`AsyncQueue`, `AsyncRuns`, `AsyncWorkers`). The queue with its index of iterators, and
  all runs of callers and threads; each method of the object is a step of a run.
* **Wire and trackers** (`Bitfields`, `Messages`, `MessageBuffers`, `BitfieldExchange`,
  `BestTracker`). The bitfield as bytes, framing and byte order (BEP 3, section "peer messages"), and
  the choice of the best tracker. `Formats` spells out frames and texts byte by byte.

`Common` holds optional values, machine words and a little arithmetic.

## What turned out to hold only under a condition

For each of these the code is kept as it is, and the condition is proved to be exact.

* The length of the last piece is recorded as 0 if a single file is a whole number of pieces long,
  or if the last file ends on the first piece boundary it reaches (`LastSizeLost`, with examples in
  `LostLastSizes`). Such a piece has no slot for any block, gets one request for no bytes, and is
  never done in any run (`LostIsNeverDone`).
* Writing a piece byte by byte stays inside its vectors exactly if its blocks are as long as the
  first one, then one is no longer, then all are empty (`AlwaysIndexable`). Blocks of 1 and of 2^14
  bytes complete a piece of 2^14 + 1 bytes with the right hash and are not like that
  (`UnevenBlocks`). If two blocks came for one slot, what is hashed is shorter than the piece
  (`ArrivedComplete`).
* In the end game a peer whose piece is done elsewhere never goes on to another piece by itself: it
  tries to request before the posted cancel has dropped the piece. It then asks for more of the
  dropped piece exactly if that has more than 150 blocks and its batches did not end with it
  (`DroppedAsksAgain`).
* A piece whose requests are sent in several batches gets requests past its end, unless it is a
  whole number of full batches of 150 blocks (`ResumptionIsExact`).
* A piece whose connection is lost while it is downloaded keeps its request mark: it is never asked
  for again, in any run, before the end game begins (`OrphansStay`), and one lost connection is
  enough for that (`PieceOrphaned`). A choke, a timeout and a wrong hash do free it (`ChokeFrees`,
  `TimeOutFrees`, `WrongHashFrees`).
* A peer may ask for a block that leaves its piece, and the code reads on. The bytes sent lie in the
  piece, and are the ones its hash was checked for, exactly if `begin + length` is not beyond the
  piece, or `begin` is inside it and the recorded size of its last segment ends with it, as in the
  first of several pieces of a single file (`FetchedStaysInside`, `UploadsAreGenuine`); an empty
  request is answered with nothing. `ReadPastThePiece` and
  `ImproperRequestIsAnswered` give requests that are answered with other bytes.
* A bencoded tree loads back as it was, and leaves what follows, exactly if it holds no empty
  string and no empty key, or is nothing but an empty string with nothing behind it
  (`RoundTripExactly`): after an empty string the loader swallows one character more. Printing is
  injective and prefix-free all the same (`PrefixFree`).
* Text that loads is printed back as it was exactly if it is canonical or `0:` with nothing behind
  it (`ReprintsCanonicalText`). The text hashed for the info-hash is the text in the file exactly if
  that text is canonical (`InfoHashedText`); without an `info` entry the code hashes the text `i0e`.
  `OtherTextHashed` gives a file of which other text is hashed.
* A node kicked right after it was inserted stays in the table exactly if the insertion split the
  last bucket and the node shares more bits than the old bucket stands for (`KickUndoesInsert`);
  eight insertions lead to a table with such a node (`StrandedNode`).
* A well-formed announce reply gives back its peers exactly if it has at most 246 and no address
  starts with a zero byte (`ReplyRoundTrip`). At most 1500 bytes are read: if none of the first 247
  addresses starts with a zero byte, the scan runs past the end of what was read (`ReplyScan`,
  `TooManyPeers`).
* `Erase` with a number whose job has started is harmless unless the number was handed out again
  (`EraseChangesOnlyQueued`, `LateEraseHitsAnotherJob`).
* A port message is never understood by the receiver, and nothing is read after a keep-alive
  (`DecodeBody`, `StreamArrives`).
* A blank neighbour refuses our bitfield exactly if the conversion of the piece count to `float`
  rounds it up by a byte or more, and otherwise learns it exactly if no bit is set behind the bytes
  sent (`BitfieldSent`). Up to 2^24 pieces these are all bytes; below 2^26 at most one is missing, of
  which counts is said in `BytesToSendExactly`.

## Assumptions

* Messages carry 32-bit numbers (`Word32`).
* Metainfo: positive file lengths, distinct paths, a total below 2^63, as many hashes as the total
  needs, piece length positive. The disk is a map from paths to byte strings; SHA-1 is any function.
* Posted handlers and a worker's check-and-write are atomic steps. Sockets, timers, random choice and
  the liveness of DHT nodes are parameters or nondeterministic events.
* The cancel that `cancel_piece` posts follows before anything else of the same peer; the peers hear
  of a finished piece when it is set.
* In the runs of `Lifecycle` a received block answers an outstanding request of the active piece:
  right length, empty slot. What other blocks do is the subject of `Arrivals`.
* The end game starts at `ready * 100 >= 92 * count`, the percentage taken exactly.
* Bytes of a character stream are characters with codes 0 to 255.

## Model

| member | source | states |
|---|---|---|
| Pieces.Size | src/BitTorrent/Primitives/Piece.h:35-42 | The size is the length of the concatenated blocks |
| Pieces.AtIsConcat | src/BitTorrent/Primitives/Piece.h:33-33 | If the blocks are regular, at every index below the size the subscripts are in range and the byte is that byte of the concatenation |
| Pieces.AlwaysIndexable | src/BitTorrent/Primitives/Piece.h:33-33 | All indices below the size have subscripts in range exactly if the blocks are full ones, one no longer, then empty ones |
| Layout.EveryByteOnce | src/BitTorrent/TorrentFilesManager.cpp:66-121 | Each byte of each file lies in exactly one segment of exactly one piece |
| Layout.HeldOffset | src/BitTorrent/TorrentFilesManager.cpp:99-114 | A byte in a segment has the same global offset counted in pieces and counted in files |
| Layout.ChainSorted | src/BitTorrent/TorrentFilesManager.cpp:99-114 | Segments of a piece are sorted by where they begin in it and do not overlap |
| FillFiles.FillSingle | src/BitTorrent/TorrentFilesManager.cpp:66-72 | The table is complete; the recorded last size is the last piece's length, or 0 exactly when the length is a multiple of the piece length |
| FillFiles.FillFile | src/BitTorrent/TorrentFilesManager.cpp:97-116 | Cutting one file keeps the cursor equal to the bytes laid out, all earlier pieces full, and returns the cursor to 0 only on an exact fit |
| FillFiles.FillMulti | src/BitTorrent/TorrentFilesManager.cpp:74-121 | The table is complete: every piece is a chain of segments as long as the piece; the last size is lost exactly on the stated condition |
| FillFiles.CursorZero | src/BitTorrent/TorrentFilesManager.cpp:102-108 | The cursor falls to 0 exactly when the files so far end on the first boundary their last file reaches |
| FillFiles.LostLastSizes | src/BitTorrent/TorrentFilesManager.cpp:66-121 | A torrent of one file and one of two whose last size is recorded as 0 |
| Storage.SingleRead | src/BitTorrent/TorrentFilesManager.cpp:161-162 | The unsigned subtraction wraps, gives 0 or is large enough, so all of the asked length is read |
| Storage.ReadLenExact | src/BitTorrent/TorrentFilesManager.cpp:156-168 | In range, a segment yields the rest of its file or the rest of the block, in both modes |
| Storage.WriteLenExact | src/BitTorrent/TorrentFilesManager.cpp:137-138 | The bytes sent to a segment, cut at the declared end of its file, are the segment |
| Storage.WriteRun | src/BitTorrent/TorrentFilesManager.cpp:136-140 | Bytes written past the declared end of a file change no byte of the flat string |
| Storage.DiskWrittenIsSplice | src/BitTorrent/TorrentFilesManager.cpp:129-141 | The disk after all segments, spilled bytes included, is the old flat string with the piece spliced in |
| Storage.WriteSegments | src/BitTorrent/TorrentFilesManager.cpp:124-142 | The segments are written one after the other, spilled bytes included, up to the first whose file is missing; if none is, the flat string changes in the window of the piece and nowhere else |
| Storage.UpperBound | src/BitTorrent/TorrentFilesManager.cpp:148-150 | The search finds the last segment that begins at or before the block |
| Storage.ReadIsSlice | src/BitTorrent/TorrentFilesManager.cpp:156-168 | The read loop collects one slice of the flat string across segments |
| Storage.ReadSegments | src/BitTorrent/TorrentFilesManager.cpp:144-170 | What is read for any begin and length; inside the piece it is the asked slice of the flat string |
| Storage.ReadAfterWrite | src/BitTorrent/TorrentFilesManager.cpp:124-170 | After a write of piece p, every block of p reads as written and every block of another piece as before |
| DiskFiles.FlatIsEndToEnd | src/BitTorrent/TorrentFilesManager.cpp:58-64 | The flat string is the files one behind the other, each at its declared length |
| DiskFiles.PutRangeIs | src/BitTorrent/TorrentFilesManager.cpp:136-140 | Writing replaces the file's bytes from the offset on, fills a gap with zeros, and keeps the rest |
| DiskFiles.FileSliceIs | src/BitTorrent/TorrentFilesManager.cpp:156-168 | Reading takes the file's own bytes from the offset on |
| BlockReads.SingleUncut | src/BitTorrent/TorrentFilesManager.cpp:161-162 | After the first piece of a single file every read yields all it was asked for, wherever it begins |
| BlockReads.ReadEnds | src/BitTorrent/TorrentFilesManager.cpp:156-168 | Otherwise a read ends where it was asked to end or where the recorded size of the last segment ends |
| BlockReads.FetchedLength | src/BitTorrent/TorrentFilesManager.cpp:144-170 | How many bytes come back for any begin inside the piece and any length, and that some come back from anywhere |
| BlockReads.FetchedStaysInside | src/BitTorrent/TorrentFilesManager.cpp:144-170 | The bytes lie in the window of the piece exactly on the stated condition, and then they are the flat string's |
| BlockReads.ReadPastThePiece | src/BitTorrent/TorrentFilesManager.cpp:161-162 | Two pieces of 16 bytes: a block of 32 asked of the second is completed with what lies behind it |
| FilesManager.TorrentFilesManager.constructor | src/BitTorrent/TorrentFilesManager.cpp:14-44 | All files are there, those that were are kept, and the layout is complete |
| FilesManager.CreatedLength | src/BitTorrent/TorrentFilesManager.cpp:58-64 | A file that was not there is created at its length |
| FilesManager.TorrentFilesManager.WritePieceToFile | src/BitTorrent/TorrentFilesManager.cpp:124-142 | On the object: the new disk, how the call ends, and the flat disk with the piece spliced in |
| FilesManager.TorrentFilesManager.ReadPieceBlockFromFile | src/BitTorrent/TorrentFilesManager.cpp:144-170 | On the object: what is read for any begin and length; in-range blocks are slices of the flat disk |
| Requests.SendBatch | src/Network/BitTorrent/PeerClient.cpp:214-223 | The loop sends, cut to 32 bits, the tiling of the bytes that seem to remain, at most 150 blocks |
| Requests.SendCancels | src/Network/BitTorrent/PeerClient.cpp:259-264 | The loop takes back, cut to 32 bits, the tiling of the whole piece |
| Requests.TilingBlocks | src/Network/BitTorrent/PeerClient.cpp:204-218 | A tiling has as many blocks as the piece has slots, aligned, each starting where the one before ends |
| Requests.TilingOnce | src/Network/BitTorrent/PeerClient.cpp:216-223 | Every byte is in exactly one request, and none is longer than 2^14 or leaves the piece |
| Requests.RequestsFit | src/Network/BitTorrent/PeerClient.cpp:433-441 | The cut to 32 bits changes no request of a piece exactly if its index is below 2^32 and its length at most that |
| Requests.FirstBatch | src/Network/BitTorrent/PeerClient.cpp:214-268 | One call covers the piece, and matches the cancels, exactly up to 150 blocks; beyond, it sends the first 150 full ones |
| Requests.ResumptionIsExact | src/Network/BitTorrent/PeerClient.cpp:209-223 | However often it resumes, requests stay inside the piece exactly for at most 150 blocks or whole batches; then all of it is covered |
| Requests.EmittedIsTiling | src/Network/BitTorrent/PeerClient.cpp:209-223 | The first call and k more send the blocks from the first byte up to the cursor, in order, each once |
| Assembly.StoreFills | src/BitTorrent/Primitives/BittorrentStrategy.cpp:260-263 | A new block fills its slot, and the counter stays the number of filled slots |
| Assembly.CompleteWhenFull | src/BitTorrent/Primitives/BittorrentStrategy.cpp:266-266 | The counter reaches the block count exactly when every slot is filled |
| Assembly.AnyOrder | src/BitTorrent/Primitives/BittorrentStrategy.cpp:260-270 | Blocks in any order: complete exactly at the last one, and then the concatenation is the piece |
| Assembly.SortChangesNothing | src/BitTorrent/TorrentFilesManager.cpp:205-206 | Any sort by begin leaves an assembled piece as it is |
| Assembly.CompleteIsAssembled | src/BitTorrent/Primitives/BittorrentStrategy.cpp:257-270 | Whatever the bytes, a completed piece is uniform, of full length and in order |
| Arrivals.ArrivedComplete | src/BitTorrent/Primitives/BittorrentStrategy.cpp:257-270 | Whatever blocks came: if the sorted content has the length of the piece, each slot got exactly one, the sort changed nothing, and it can be written exactly if the blocks are regular |
| Arrivals.UnevenBlocks | src/BitTorrent/TorrentFilesManager.cpp:136-140 | Two blocks of other lengths than requested complete a piece with the right content, and writing it leaves the vectors |
| Peers.MasterPeer.ChoosePiece | src/BitTorrent/Primitives/BittorrentStrategy.cpp:208-229 | The pick is missing here, held there and not requested; none exactly if there is none; it is marked outside end game |
| Peers.PeerClient.TryToRequestPiece | src/Network/BitTorrent/PeerClient.cpp:176-226 | What is sent, chosen, marked and remembered in every case; a first call and k more have sent exactly the requests of the first call and k resumptions |
| Peers.PeerClient.ResumedSends | src/Network/BitTorrent/PeerClient.cpp:208-223 | Going on sends exactly what one more call adds, from the cursor on |
| Peers.ChokedAsksNothing | src/Network/BitTorrent/PeerClient.cpp:190-190 | A peer that has choked us is asked for nothing and gets no piece |
| Interest.AskedKeepsKnown | src/Network/BitTorrent/PeerClient.cpp:183-191 | The neighbour knows of our interest before it is asked for anything, and is told that there is none exactly if all pieces are done |
| Interest.DroppedKeepsKnown | src/BitTorrent/Peer.cpp:197-208 | What the end game makes a peer send keeps that |
| Peers.PeerClient.CancelPiece | src/Network/BitTorrent/PeerClient.cpp:256-268 | The active piece is dropped and its requests are taken back; another piece is left alone |
| Peers.EveryByteCancelled | src/Network/BitTorrent/PeerClient.cpp:256-268 | Every byte of the piece is taken back in exactly one cancel message |
| Peers.PeerClient.CancelAndTryAgain | src/BitTorrent/Peer.cpp:197-208 | The attempt to request again goes on with the piece, then the posted cancel drops it and takes back its requests; another piece is left alone |
| Peers.DroppedAsksAgain | src/BitTorrent/Peer.cpp:197-208 | The peer is left without a piece, and something is requested exactly if the piece has more than 150 blocks and its batches did not end with it |
| Requests.CursorMeets | src/Network/BitTorrent/PeerClient.cpp:208-211 | After k resumptions the cursor is at the end of the piece exactly if one batch is enough or it is a whole number of full ones, all sent |
| Peers.PeerClient.OnChoked | src/BitTorrent/Primitives/BittorrentStrategy.cpp:55-62 | The active piece is dropped and its mark released |
| Peers.PeerClient.OnWaitTimeout | src/Network/BitTorrent/PeerClient.cpp:107-126 | The mark is released, the piece gone on with, and then dropped unless the peer has choked us |
| Peers.PeerClient.OnPieceBlock | src/BitTorrent/Primitives/BittorrentStrategy.cpp:231-276 | Which blocks disconnect, are ignored, cancel, are stored or complete the piece, and what is requested next, after a completed piece too |
| Peers.PeerClient.ClearAndTryRequest | src/Network/BitTorrent/PeerClient.cpp:169-174 | The piece is dropped and a new one looked for |
| Downloads.Downloader.ArePieceValid | src/BitTorrent/TorrentFilesManager.cpp:172-176 | The hash of the concatenated blocks is compared with bytes 20p to 20p + 20 of the metainfo |
| Downloads.Downloader.SetPiece | src/BitTorrent/TorrentFilesManager.cpp:218-221 | One bit is set, peers interested in us are told, the count grows, the end game may begin, and in it every peer with the piece drops it |
| Downloads.Downloader.DownloadPiece | src/BitTorrent/TorrentFilesManager.cpp:202-216 | Every set bit keeps standing for hashed bytes on disk; what a good piece changes here and at every peer, and that a bad one changes nothing but its request mark |
| Downloads.Downloader.OnRequest | src/BitTorrent/Primitives/BittorrentStrategy.cpp:105-117 | A request is answered exactly if the piece is done, and with content of its hash exactly if the request is proper |
| Downloads.JobInThreeSteps | src/BitTorrent/TorrentFilesManager.cpp:202-216 | The effect of the three steps of a write job on the machine: piece on disk and counted if its hash is right, mark released either way |
| Downloads.SelectionIsChoice | src/BitTorrent/Primitives/BittorrentStrategy.cpp:208-229 | The machine may select a piece exactly if the chooser may pick it |
| Handlers.Received | src/BitTorrent/Primitives/BittorrentStrategy.cpp:231-276 | On the objects the handler is the machine's step, and after the last block the piece is queued and the next one selected |
| Handlers.Tried | src/Network/BitTorrent/PeerClient.cpp:183-207 | Looking for a new piece is the machine's selection, or no step |
| Handlers.Choked | src/BitTorrent/Primitives/BittorrentStrategy.cpp:55-62 | Being choked is the machine's step |
| Handlers.Cancelled | src/Network/BitTorrent/PeerClient.cpp:256-268 | Taking back the active piece is the machine's step |
| Handlers.CancelledInEndGame | src/BitTorrent/Peer.cpp:197-208 | So is what the end game posts to a peer with the piece |
| Handlers.TimedOut | src/Network/BitTorrent/PeerClient.cpp:107-126 | Waiting in vain is the step that releases the mark and then the one that drops the piece |
| Handlers.Uploaded | src/BitTorrent/TorrentFilesManager.cpp:187-200 | The object sends the bytes that the machine records for the request, and nothing exactly where the machine does nothing |
| Handlers.Worked | src/BitTorrent/TorrentFilesManager.cpp:202-216 | The job on the objects leaves them in the state after the machine's three steps of it, and every peer whose active piece it was without it in the end game |
| Lifecycle.StepKeeps | src/BitTorrent/TorrentFilesManager.cpp:172-221 | Every step of every peer and worker keeps the invariant of the download, also with a lost last size |
| Lifecycle.WriteKeepsVerified | src/BitTorrent/TorrentFilesManager.cpp:208-210 | Writing a checked piece leaves every checked piece checked |
| Lifecycle.DoneIsOnDisk | src/BitTorrent/Torrent.cpp:257-260 | In every reachable state the bytes on disk of a done piece, its full window or what is left of the last, have bytes 20p to 20p + 20 of the metainfo as hash |
| Lifecycle.HashesAreThePieces | src/BitTorrent/TorrentFilesManager.cpp:172-176 | The hashes of all pieces, 20 bytes each, make up the metainfo's string |
| Lifecycle.LostIsNeverDone | src/Network/BitTorrent/PeerClient.cpp:197-223 | In every run a piece whose length was recorded as 0 has no slot, gets one request for no bytes, and is not done |
| Lifecycle.EndGameIsOn | src/BitTorrent/Primitives/BittorrentStrategy.cpp:190-204 | In every run the end game is on exactly from 92 percent of the pieces on |
| Lifecycle.UploadsAreGenuine | src/BitTorrent/TorrentFilesManager.cpp:187-200 | In every run the bytes sent for a request are part of content with the right hash exactly if the request does not leave its piece or is cut at its end |
| Lifecycle.UploadsAreComplete | src/BitTorrent/TorrentFilesManager.cpp:187-200 | In every run a request inside its piece is answered in full, with that stretch of content whose hash is the piece's |
| Lifecycle.AnswerIsExact | src/BitTorrent/Primitives/BittorrentStrategy.cpp:105-117 | The same of one answer, for any begin and length |
| Lifecycle.ImproperRequestIsAnswered | src/BitTorrent/TorrentFilesManager.cpp:195-196 | If the last segment of a done piece does not end with it, the request of one byte more is answered with other content |
| Lifecycle.StepMoves | src/BitTorrent/Primitives/BittorrentStrategy.cpp:190-229 | No step takes back a piece, an upload or the end game; a piece given to a peer is one that the peer has and we do not, and a logged selection is of one without a mark |
| Lifecycle.OnlyGrows | src/BitTorrent/Torrent.cpp:252-260 | The set of done pieces only grows, and the end game never ends |
| Lifecycle.SelectionsAreSeparated | src/BitTorrent/Primitives/BittorrentStrategy.cpp:208-229 | Outside end game, between two selections of a piece its mark was taken away |
| Lifecycle.NotPending | src/BitTorrent/Peer.cpp:146-159 | A selected piece without a mark was unmarked after its selection |
| Completion.CanComplete | src/BitTorrent/TorrentFilesManager.cpp:202-221 | From any disk some run makes every piece done that can be, with the promised content on disk |
| Completion.PieceFetched | src/Network/BitTorrent/PeerClient.cpp:176-226 | A piece that is not marked can be fetched from any idle peer, and the flat disk then has it spliced in |
| Marks.ChokeFrees | src/BitTorrent/Primitives/BittorrentStrategy.cpp:55-62 | After a choke every other idle peer with the piece may be asked for it |
| Marks.TimeOutFrees | src/Network/BitTorrent/PeerClient.cpp:115-117 | After a timeout too, while the first peer still has it |
| Marks.WrongHashFrees | src/BitTorrent/TorrentFilesManager.cpp:211-214 | After a wrong hash every idle peer with the piece may be asked for it |
| Marks.DisconnectOrphans | src/Network/BitTorrent/PeerClient.cpp:41-51 | A lost connection leaves the mark of its piece, with nobody at work on it |
| Marks.OrphansStay | src/BitTorrent/Primitives/BittorrentStrategy.cpp:208-229 | Such a piece is neither asked for nor done in any run before the end game begins |
| Marks.PieceOrphaned | src/Network/BitTorrent/PeerClient.cpp:41-51 | For every piece that can be fetched some run with one lost connection leads there |
| Distance.BucketDistance | src/DHT/Kbucket.cpp:145-154 | The counter ends at 159 minus the shared bits, wrapped below zero for equal identifiers |
| Distance.DistanceGivesSharedBits | src/DHT/RouteTable.cpp:53-53 | 159 minus the distance, in the same arithmetic, is the number of shared bits; 160 exactly for equal identifiers |
| Distance.DistanceIsLog | src/DHT/Kbucket.cpp:145-154 | The distance is k exactly if the XOR of the identifiers is in [2^k, 2^(k+1)) |
| Routing.BucketRange | src/DHT/RouteTable.cpp:46-55 | The lookup sends an identifier to bucket i exactly if its XOR distance is in the range of i; a split cuts the last range in two |
| Routing.SplitOk | src/DHT/Kbucket.cpp:79-98 | After a split the old bucket shares exactly its number of bits, the new one more |
| Routing.SplitConserves | src/DHT/Kbucket.cpp:87-95 | A split loses and copies no node |
| Routing.InsertConserves | src/DHT/RouteTable.cpp:11-20 | An insertion adds the node once, exactly when it stores it, and takes away none but dead nodes |
| Routing.InsertStores | src/DHT/RouteTable.cpp:11-20 | A node is turned away exactly if its bucket is full of live nodes and a split is not possible or brings nothing |
| Routing.KickTakesOne | src/DHT/RouteTable.cpp:22-26 | A kick takes exactly one node out, with the identifier, if the lookup's bucket has one, and otherwise changes nothing |
| Routing.RefreshTakesDead | src/DHT/Kbucket.cpp:127-143 | A refresh takes the dead nodes of its bucket away and nothing else |
| Routing.RunOk | src/DHT/RouteTable.cpp:11-67 | In every run: at most 159 buckets, each of at most 8 nodes that share at least the bucket's number of bits |
| Routing.KickUndoesInsert | src/DHT/RouteTable.cpp:15-26 | Exactly when kicking a node that was just inserted takes it out again |
| Routing.StrandedNode | src/DHT/RouteTable.cpp:16-18 | A table that eight insertions lead to and a ninth node that cannot be kicked |
| Buckets.Kbucket.UpdateNodes | src/DHT/Kbucket.cpp:127-143 | The dead are erased and the others stay in their order |
| Buckets.Kbucket.AddNode | src/DHT/Kbucket.cpp:35-45 | A node is added if there is room, or room after the dead are gone |
| Buckets.Kbucket.Kick | src/DHT/Kbucket.cpp:72-77 | The first node with the identifier is erased, and no other |
| Buckets.Kbucket.SplitTheBucket | src/DHT/Kbucket.cpp:79-98 | The nodes are parted by their shared bits, in order |
| Buckets.RouteTable.FindBucket | src/DHT/RouteTable.cpp:46-55 | The index is the bucket of the shared bits, or the last; the first lookup creates a bucket |
| Buckets.RouteTable.InsertNode | src/DHT/RouteTable.cpp:11-20 | The object does what the table function says, other buckets untouched |
| Buckets.RouteTable.TryToSplit | src/DHT/RouteTable.cpp:61-67 | The last bucket is split if it may be, and nothing else changes |
| Buckets.RouteTable.KickNode | src/DHT/RouteTable.cpp:22-26 | The lookup's bucket loses the node with the identifier |
| Numerals.ScanDigits | src/utils/bencode_lib.cpp:54-67 | Reading the digits of a printed number gives the number |
| Numerals.ScanMinimal | src/utils/bencode_lib.cpp:54-67 | A numeral without superfluous leading zeros prints as it was read |
| Numerals.LessIs | src/utils/bencode_lib.cpp:22-35 | A key is less than another exactly if at the first difference it ends or has the lower character |
| BencodeMaps.CollectedAscending | src/utils/bencode_lib.cpp:22-35 | Entries with ascending keys are collected as they come |
| BencodeMaps.CollectedIsAscending | src/utils/bencode_lib.cpp:22-35 | Whatever the order of the entries, the map iterates in ascending order |
| BencodeMaps.LookupCollected | src/utils/bencode_lib.cpp:30-30 | Of several entries with one key the first is kept |
| BencodeRoundTrip.LoadStrOfCode | src/utils/bencode_lib.cpp:50-61 | A printed non-empty string loads back and leaves what follows |
| BencodeRoundTrip.RoundTrip | src/utils/bencode_lib.cpp:6-100 | A tree loads back from its text and leaves exactly what follows, if no string is empty or the loader has no gap |
| BencodeRoundTrip.RoundTripExactly | src/utils/bencode_lib.cpp:6-100 | With the loader as it is, that holds exactly if no string and no key is empty, or the tree is an empty string and nothing follows |
| BencodeRoundTrip.PrefixFree | src/utils/bencode_lib.cpp:73-100 | No two trees have texts of which one begins the other |
| BencodeRoundTrip.LoadedIsWellFormed | src/utils/bencode_lib.cpp:6-71 | Whatever text is loaded, the tree has 64-bit numbers and ascending keys |
| BencodeRoundTrip.LoadConsumes | src/utils/bencode_lib.cpp:6-71 | A loaded tree has used up at least its own text and one character for each empty string |
| BencodeRoundTrip.NumbersThatLoad | src/utils/bencode_lib.cpp:63-71 | A printed number loads exactly if it is from -2^63 to 2^63 - 1 |
| BencodeStreams.Input.LoadStr | src/utils/bencode_lib.cpp:50-61 | Reading the length, copying all but taking the last character, and a last get give the string and what is left |
| BencodeStreams.Input.LoadNode | src/utils/bencode_lib.cpp:6-20 | The stream loader is the loader function, also where it fails |
| BencodeStreams.Input.LoadArray | src/utils/bencode_lib.cpp:37-48 | The loop fills the array up to the closing character |
| BencodeStreams.Input.LoadDict | src/utils/bencode_lib.cpp:22-35 | The loop emplaces the pairs up to the closing character |
| BencodeStreams.Output.MakeSerialize | src/utils/bencode_lib.cpp:73-100 | The stream gets exactly the text of the tree appended |
| InfoHash.StrictIsCode | src/utils/bencode_lib.cpp:73-100 | Whatever a strict decoder accepts is the printed text of its result |
| InfoHash.CodeIsStrict | src/utils/bencode_lib.cpp:73-100 | Every printed tree without empty strings is accepted by the strict decoder |
| InfoHash.ReprintsCanonicalText | src/utils/bencode_lib.cpp:6-100 | For every text that loads: printing what was loaded gives back the text exactly if it is canonical or is `0:` |
| InfoHash.ValueIsLoaded | src/BitTorrent/Torrent.cpp:27-30 | The value under a key is the tree loaded from that entry's text |
| InfoHash.HashedText | src/BitTorrent/Torrent.cpp:23-34 | Loading the file, taking `info` and printing it gives the text that is hashed |
| InfoHash.InfoHashedText | src/BitTorrent/Torrent.cpp:27-34 | For every file that loads: the hashed text is the file's own `info` text exactly if that is canonical; without it, `i0e` |
| InfoHash.OtherTextHashed | src/BitTorrent/Torrent.cpp:27-34 | A file whose `info` is not canonical, and what is hashed in its place |
| InfoHash.InfoEntriesHashed | src/BitTorrent/Torrent.cpp:23-34 | The entries of `info`, in whatever order they stand in the file, are hashed as the map orders them |
| InfoHash.SortedInfoHashed | src/BitTorrent/Torrent.cpp:27-34 | A file with `length` before `name` is canonical, and exactly its text is hashed |
| InfoHash.UnsortedInfoHashed | src/BitTorrent/Torrent.cpp:27-34 | A file with `name` before `length` is not, and the sorted text is hashed |
| UdpTracker.HandleKeeps | src/Network/BitTorrent/TrackerRequester.cpp:277-447 | Every event keeps the invariant and counts (endpoints, connects, announces, phase) down |
| UdpTracker.SendsAreBounded | src/Network/BitTorrent/TrackerRequester.cpp:277-447 | At most 4 connects and 12 announces an endpoint and 48 events an endpoint and one, whatever happens |
| UdpTracker.BoundsAreReached | src/Network/BitTorrent/TrackerRequester.cpp:277-447 | For every number of endpoints some run sends exactly that much |
| UdpTracker.NeverStuck | src/Network/BitTorrent/TrackerRequester.cpp:277-434 | The machine waits for something exactly until it has stopped |
| UdpTracker.PromiseSetOnce | src/Network/BitTorrent/TrackerRequester.h:65-72 | The promise is set at most once; after the stop exactly once unless somebody disconnected first |
| UdpTracker.ReplyRoundTrip | src/Network/BitTorrent/TrackerRequester.cpp:403-423 | A well-formed reply gives back its peers, whatever lies behind the buffer, exactly if there are at most 246 and no address starts with 0 |
| UdpTracker.ReplyScan | src/Network/BitTorrent/TrackerRequester.cpp:221-243 | The scan yields the peers before the first address with a leading 0, and runs past the end exactly if none of the first 247 has one |
| UdpTracker.TooManyPeers | src/Network/BitTorrent/TrackerRequester.cpp:403-404 | A reply with 247 peers and no leading 0, on which the scan runs past the end of what was read |
| UdpPromises.PromiseMeans | src/Network/BitTorrent/TrackerRequester.cpp:221-447 | In every run the promise holds peers exactly if an accepted reply with them came while it was unset, and an exception exactly if the requester gave up then |
| UdpPromises.HandlePromises | src/Network/BitTorrent/TrackerRequester.cpp:277-447 | Which single events set the promise, and to what |
| UdpPromises.PeersArrive | src/Network/BitTorrent/TrackerRequester.cpp:403-423 | The run with an accepted connect and an accepted reply with 1 to 246 peers, none with a leading 0, ends with exactly these peers |
| UdpPromises.ShortSendsGiveUp | src/Network/BitTorrent/TrackerRequester.cpp:277-386 | A send that is cut short forfeits the attempts left |
| UdpPromises.OtherReplies | src/Network/BitTorrent/TrackerRequester.cpp:310-423 | A reply that is too short or has another transaction or action only starts the delay, and no other does |
| UdpPromises.DisconnectSilences | src/Network/BitTorrent/TrackerRequester.h:65-72 | After a disconnect the promise is never set, and one during a delay ends all sending |
| UdpRequesters.UdpRequester.DoTryConnect | src/Network/BitTorrent/TrackerRequester.cpp:277-309 | The wrapping counter, its reset and the next endpoint do what the machine says |
| UdpRequesters.UdpRequester.DoTryAnnounce | src/Network/BitTorrent/TrackerRequester.cpp:358-386 | The announce counter, its reset and the fall back to a connect do what the machine says |
| UdpRequesters.UdpRequester.OnEvent | src/Network/BitTorrent/TrackerRequester.cpp:277-447 | The handlers of the object are the transitions of the machine, and set the promise exactly on the stated events |
| AsyncWorkers.AsyncWorker.Enqueue | src/utils/async_worker.cpp:37-50 | The first drawn number not in use is taken, and the call is the machine's step; while all are in use nothing changes |
| AsyncWorkers.AsyncWorker.Erase | src/utils/async_worker.cpp:52-59 | The call is the machine's step, through the index |
| AsyncWorkers.AsyncWorker.Take | src/utils/async_worker.cpp:20-34 | A turn of a worker is the machine's step, and the callback is the one enqueued with the ticket |
| AsyncWorkers.IndexHoldsQueued | src/utils/async_worker.cpp:40-45 | The index holds exactly the queued numbers, each with its own node |
| AsyncQueue.WithoutIsExact | src/utils/async_worker.cpp:57-58 | Erasing by number removes that job and no other |
| AsyncRuns.StepKeeps | src/utils/async_worker.cpp:20-59 | Every step keeps the books: each ticket once in line or erased, the line in order |
| AsyncRuns.EveryJobOnce | src/utils/async_worker.cpp:20-59 | In every run each job is in exactly one of queued, started, erased; none starts twice; starts are in order of enqueueing |
| AsyncRuns.ErasedNeverStarts | src/utils/async_worker.cpp:52-59 | An erased job never starts, whatever follows |
| AsyncRuns.OnlyItsNumberErasesAJob | src/utils/async_worker.cpp:52-59 | A queued job stays or starts unless its own number is erased |
| AsyncRuns.QueueDrains | src/utils/async_worker.cpp:20-35 | Left alone, the workers start all that is queued, in order |
| AsyncRuns.StopStops | src/utils/async_worker.cpp:20-35 | From a stop to the next start no job starts, whatever else is done |
| AsyncRuns.EraseChangesOnlyQueued | src/utils/async_worker.cpp:55-56 | An erase does nothing exactly if no queued job has the number |
| AsyncRuns.LateEraseHitsAnotherJob | src/utils/async_worker.cpp:40-42 | A run in which an erase that comes late removes another caller's job |
| Bitfields.ReverseByteReverses | src/utils/auxiliary.cpp:117-122 | Bit k of the reversed byte is bit 7 - k |
| Bitfields.GetCast | src/utils/bitfield.cpp:19-24 | The bytes hold the bits in wire order and zeros behind them |
| Bitfields.ReceiveBitfield | src/Network/BitTorrent/PeerClient.cpp:557-579 | Too many bytes are refused; otherwise exactly the sent bits are added |
| Bitfields.MergedGrows | src/Network/BitTorrent/PeerClient.cpp:566-577 | No known bit is lost, the sent ones are there, and the order of messages does not matter |
| Bitfields.BytesToSendExactly | src/Network/BitTorrent/PeerClient.cpp:425-425 | For every count: when the float ceiling is the number of bytes, when it is less, and when it is more |
| Bitfields.BitfieldArrives | src/Network/BitTorrent/PeerClient.cpp:557-579 | From the first bytes of a cast a blank neighbour learns exactly our bits if and only if none is set behind them |
| Bitfields.BitfieldSent | src/Network/BitTorrent/PeerClient.cpp:419-431 | The same of what is sent, for every count, and that it is refused exactly if the count is rounded up by a byte or more |
| BitfieldExchange.Exchange | src/Network/BitTorrent/PeerClient.cpp:419-431 | Packed, framed, read and taken apart on hosts of either byte order, the bitfield is refused or learned on exactly those conditions |
| Bitfields.FromBytes | src/utils/bitfield.cpp:5-17 | The constructors hold the bits of the bytes in wire order |
| Bitfields.BytesRoundTrip | src/utils/bitfield.cpp:5-24 | The cast of bits made from bytes is those bytes |
| Messages.ValueOfBig | src/Network/Primitives/Message.h:72-121 | A number written in network order reads back |
| Messages.DecodeBody | src/Network/BitTorrent/PeerClient.cpp:478-664 | Every message but a port is understood as sent; a port is refused |
| Messages.StreamIsRead | src/Network/BitTorrent/PeerClient.cpp:127-167 | Concatenated frames are read one by one up to the first keep-alive or port |
| Messages.StreamArrives | src/Network/BitTorrent/PeerClient.cpp:127-167 | Everything arrives and reading goes on exactly if there was no keep-alive and no port |
| Messages.AnyFrameIsRead | src/Network/BitTorrent/PeerClient.cpp:127-167 | Any frame, of whatever type and content, ends the connection if it is refused and is otherwise followed by the rest |
| Messages.PartIsReadAlike | src/Network/BitTorrent/PeerClient.cpp:127-167 | What was read from a part of the bytes is the beginning of what will have been read |
| Formats.PlainFrames | src/Network/BitTorrent/PeerClient.cpp:357-407 | The bytes of the frames of keep-alive, choke, unchoke, interested and not interested |
| Formats.RequestFrames | src/Network/BitTorrent/PeerClient.cpp:433-466 | The bytes of the frames of request and cancel |
| Formats.PieceFrame | src/Network/BitTorrent/PeerClient.cpp:443-452 | The bytes of the frame of a piece block |
| Formats.HaveFrame | src/Network/BitTorrent/PeerClient.cpp:409-417 | The bytes of the frame of a have |
| Formats.BitfieldFrame | src/Network/BitTorrent/PeerClient.cpp:419-431 | The bytes of the frame of a bitfield |
| Formats.RequestsAreCut | src/Network/BitTorrent/PeerClient.cpp:433-466 | The four bytes of a field hold what the 32-bit parameter leaves of a begin or length |
| Formats.Ports | src/Network/BitTorrent/PeerClient.cpp:468-475 | A port in two bytes is understood, one in eight as it is sent here is refused |
| Formats.RefusedBodies | src/Network/BitTorrent/PeerClient.cpp:478-664 | Which bodies are refused and which are unknown, by their type and length |
| Formats.BigOfBytes | src/Network/Primitives/Message.h:72-121 | Four bytes in network order, the highest first, for messages and tracker replies alike |
| Formats.CompactPeer | src/Network/BitTorrent/TrackerRequester.cpp:228-243 | A compact peer is four bytes of address and two of port |
| Formats.FirstPieceIsHighBit | src/utils/bitfield.cpp:19-24 | Pieces 0 and 2 of three are the byte 0xA0 |
| Formats.BencodedTexts | src/utils/bencode_lib.cpp:73-100 | The text of a number, a string, an array and a dictionary |
| Formats.LenientNumber | src/utils/bencode_lib.cpp:64-71 | A number with other characters around it, white space and a plus sign loads |
| Formats.LenientText | src/utils/bencode_lib.cpp:50-61 | So does a string with white space before and another character after its length |
| Formats.Spaces | src/utils/bencode_lib.cpp:54-67 | The characters skipped before a number have the codes 9 to 13 and 32 |
| MessageBuffers.SendingPeerMessage.Put | src/Network/Primitives/Message.h:112-122 | What is appended is in network order on hosts of either byte order |
| MessageBuffers.SendingPeerMessage.EncodeHeader | src/Network/Primitives/Message.cpp:53-59 | The first four bytes become the length of the rest |
| MessageBuffers.ReceivingMessage.Get | src/Network/Primitives/Message.h:72-81 | The next bytes are read as a number in network order on either host, and the cursor moves |
| MessageBuffers.SendMessage | src/Network/BitTorrent/PeerClient.cpp:342-472 | The bytes sent are the frame of the message |
| MessageBuffers.SendKeepAlive | src/Network/BitTorrent/PeerClient.cpp:357-363 | A keep-alive is a frame of length zero |
| MessageBuffers.HandleResponse | src/Network/BitTorrent/PeerClient.cpp:478-664 | Taking the body apart by cursor is the decoding |
| MessageBuffers.ReadMessages | src/Network/BitTorrent/PeerClient.cpp:127-167 | The header and body loop is the reading of the stream |
| BestTracker.Torrent.TryConnectBest | src/BitTorrent/Torrent.cpp:122-145 | The first answer with the most peers is kept, the loop throws exactly if all failed, and the list is reordered as stated |
| BestTracker.ArrangedStep | src/BitTorrent/Torrent.cpp:128-140 | Each splice moves the visited tracker to the front and leaves those not yet visited in their places |
| BestTracker.ReorderedIsPermutation | src/BitTorrent/Torrent.cpp:128-140 | The list keeps its trackers; the best one is in front if any had peers, otherwise nothing moved |

## Left out

- Sockets, resolvers, timers, strands and futures: they are events, parameters or atomic steps here.
- The HTTP tracker client, URLs, logging, profiling and the command-line programs: plumbing.
- File creation beyond "a missing file appears at its declared length", and SHA-1 itself.
- `FindNearestList`: its loop runs over a two-element list of iterators, and its bit order differs from that of the distance.
- `Ping` callbacks: the function they are handed to returns at once, so liveness is a set given to each operation.
- `UploadBlock` and `CancelBlock` bookkeeping: the key is a moved-from request and the test is inverted, so no invariant holds that a reader could use.
- The launch policy that takes any tracker's answer, and a torrent that starts completed.
- The DHT protocol messages and the node client.
- Protocol state checked while a message is handled (interest, choking, index ranges): outside the decoding modelled in `Messages`; request handling is a step of `Lifecycle`.
- Bencoded text that is malformed or ends early: the model says that loading fails where the library loops for ever or returns what a failed stream left; a length with a minus sign counts as such.
- Messages.DecodeBody: fields fit their 32-bit types and a body its 32-bit length; the truncation of longer ones is not described.
- BitfieldExchange.Exchange: the message fits its 32-bit length; memory behind the cast is any bytes, enough of them.
- Peers.PeerClient.OnPieceBlock: a block that is not ignored while no piece is active, or with no slot, is not described, as the code has no defined behaviour there; what is posted after a completed piece follows at once.
- Lifecycle.DoneIsOnDisk: runs in which blocks come that answer no outstanding request are not described; `Arrivals` says what such blocks do to a piece.
- BencodeStreams.Input.LoadNode: malformed text is one failure, as said above.
- MessageBuffers.HandleResponse: the checks of protocol state are left out, as said above.
- Exclusive ownership of a piece across a timeout: the mark is released before the requests are taken back, so two peers may work on it; only the trace property above is claimed.
- The destruction of an `AsyncWorker`.
- The field that records a node's shared bits for display.
