# ChainDB in Dafny

ChainDB keeps signed hash chains in key-value databases, one database per chain, and serves them over a
request socket. This project models the part that has to be right for a chain to be worth anything:

- `Wire`, `Records`: the two stored messages in Protocol Buffers wire format (Protocol Buffers Encoding
  guide, sections "Base 128 Varints" and "Length-Delimited Records"), with proto3 defaults left out.
- `Grammar`: the bytes that are such a message, said without a decoder; the decoder accepts exactly these.
- `Names`, `Layout`: keys, paths, and what one chain database holds as bytes. A `size_t` is a 64-bit
  number that wraps.
- `Storage`: a disk of databases with locks, and the handle that a session opens. The database library
  appears through its contract only. A disk has a budget of faults that calls may meet at any point, and
  it is faithful (a write reported as failed was not applied) or not. Every bound on faults is covered;
  with no faults left the methods are proved to do exactly what they should.
- `Chains`, `Managers`, `Handlers`, `Servers`: the program's classes as classes, their loops as loops.
- `Crypto`, `Sha256`: hashing and signing as parameters. The hash is any total function to 32 bytes. The
  only law is that a signature made with an accepted key verifies under its public key; the law is shown
  to be consistent. Theorems about equal hashes compute the two colliding inputs from the chains at hand,
  since "some collision exists" would be true of every hash.
- `Validity`, `Verdicts`: what the verifier accepts, as a recursive predicate, as the loop of
  `verifyChain`, and as a statement about stored bytes.
- `Meaning`: what every read, append, creation and verdict comes to in the stored entries, both ways.
- `StoredChain`, `Runs`: the abstract machine on lists of blocks, and runs of calls of which any may fail.
- `Sessions`: clients interleaved session by session, and the proviso under which nobody disturbs anybody.
- `Races`: interleavings without the proviso, the exact guard of a commit, and the two ways to break a chain.
- `Answers`: what the answer to each request means, from the message to the stored entries, and when success
  is due. `Handler.HandleMessage` gives one such handling, and success exactly when it is due if nothing fails.
- `StopHandshake`: the worker, the flag and the callers of `stop`, with the answers to all requests.

Nonces and private keys are inputs of the calls and may be missing.

Three findings are stated as lemmas. Interleaved calls can break a chain: by two appends
(`Races.RaceBreaksChain`), or by an append around a removal and a new creation (`Races.RecreateBreaksChain`).
`Races.InterleavingExact` gives the condition: all chains stay honest if and only if every commit that takes
effect follows the tip and is signed with the key that the chain has at that moment. At index 2^64 - 1 the
index of an append wraps (`Layout.WalkTerminatesExactly` and `StoredChain.AppendWraps`), which is why runs are
taken to be shorter than 2^64 - 1 calls. `verifyChain` never looks at the stored `prev_hash`
(`Verdicts.StoredPrevHashIgnored`), so a verified chain is pinned down up to that field only.

`dafny verify dfyconfig.toml` checks the project.

## Model

| member | source | states |
|---|---|---|
| Sha256.GetHash | src/Crypto/SHA256.cpp:29-53 | the streaming loop hashes the concatenation of the pieces |
| Sha256.GetHashN | src/Crypto/SHA256.cpp:55-75 | the n-fold hash for every n >= 1, and the 2^64-fold one for n = 0, where the bound wraps |
| Meaning.HashTimesAdds | src/Crypto/SHA256.cpp:55-75 | hashing a times and then b times is hashing a + b times, and once is the hash |
| Sha256.SplitIrrelevant | src/Crypto/SHA256.cpp:39-45 | cutting the same stream into other pieces gives the same hash |
| Crypto.GenesisPreimageInjective | src/Storage/Manager.cpp:84-88 | equal header preimages have equal data and keys |
| Crypto.BodyPreimageInjective | src/Storage/Manager.cpp:117-121 | equal body preimages have equal previous hash, nonce and data |
| Crypto.BlockPreimageInjective | src/Storage/Manager.cpp:137-142 | equal block preimages have equal previous hash, nonce, data and signature |
| Wire.VarintRoundTrip | src/Storage/Chain.cpp:98-99 | a base 128 varint decodes to its number, in no more bytes than allowed |
| Wire.FieldsRoundTrip | src/Storage/Block.cpp:95-105 | any list of records decodes to itself, in order |
| Records.HeaderRoundTrip | src/Storage/Chain.cpp:94-143 | unpacking a packed header gives it back, for all 64-bit versions and indices |
| Records.BlockRoundTrip | src/Storage/Block.cpp:77-150 | unpacking a packed block gives it back |
| Records.HeaderWidthsChecked | src/Storage/Chain.cpp:111-143 | a message made of any encodable records is taken as a header exactly when both key widths are right |
| Records.BlockWidthsChecked | src/Storage/Block.cpp:98-150 | a message made of any encodable records is taken as a block exactly when the four widths are right |
| Records.SmallRecordsPack | src/Storage/Chain.cpp:203-215 | packing cannot fail while the payload leaves 200 bytes below the message limit |
| Records.HeaderOnTheWire | proto/storage.proto:29-35 | field numbers, order and omission of defaults in the bytes of every header |
| Records.BlockOnTheWire | proto/storage.proto:37-43 | field numbers, order and omission of defaults in the bytes of every block |
| Grammar.DecodesExactly | src/Storage/Chain.cpp:115-118 | for any bytes at all: they parse into these records iff they are these records of the grammar, one after the other; overlong and truncated varints and unknown fields included |
| Grammar.HeaderUnpacksExactly | src/Storage/Chain.cpp:111-143 | any bytes are read as this header iff they are a message in which the last record of each field has its value, the key widths included |
| Grammar.BlockUnpacksExactly | src/Storage/Block.cpp:98-150 | any bytes are read as this block iff they are a message in which the last record of each field has its value, the widths included |
| Names.DecimalRoundTrip | src/Storage/Chain.cpp:356-359 | the decimal text of a number determines it |
| Names.BlockNamesDistinct | src/Storage/Chain.cpp:356-359 | different indices have different block keys |
| Names.BlockNameIsNotHeader | include/Storage/Protocol.h:30-31 | no block key is the header key |
| Names.StoragePathsDistinct | src/Storage/Manager.cpp:304-309 | in one storage directory different chain ids have different paths |
| Names.DecimalText | src/Storage/Chain.cpp:356-359 | the text of a number is its decimal digits, the highest first and without zeros in front |
| Names.StoragePathText | src/Storage/Manager.cpp:304-309 | the path is the directory, one slash unless it is empty or ends in one, the number and the suffix |
| Layout.BlocksUpToElements | src/Storage/Chain.cpp:283-301 | reading blocks 1 to n succeeds iff each can be read, and yields them in order |
| Layout.WalkIsShort | src/Storage/Chain.cpp:283-301 | below index 2^64 - 1 the loop makes at most index + 1 tests |
| Layout.WalkTerminatesExactly | src/Storage/Chain.cpp:283-301 | the loop is left iff the index is not the last one or some block name cannot be read |
| Meaning.FindBlockExactly | src/Storage/Chain.cpp:227-265 | getBlock yields a block iff it is stored under its number, between 1 and the index of a stored header of version 1 |
| Meaning.StoredBlocksExactly | src/Storage/Chain.cpp:267-304 | getBlocks yields a list iff its elements are the blocks stored under 1 to the index of a stored header of version 1, below the last index |
| Meaning.AnyVersionIsRead | src/Storage/Chain.cpp:311-328 | a stored header of any version is read back |
| Meaning.BatchEntry | src/Storage/Storage.cpp:152-180 | the last pair of a batch with a key decides the entry of that key |
| Meaning.BatchKeeps | src/Storage/Storage.cpp:152-180 | a key that the batch does not name keeps its entry, or stays absent |
| Meaning.AppendExactly | src/Storage/Chain.cpp:183-225 | an append yields a database iff that is the old one with the next index in its header and the block under that index, and both records fit a message |
| Meaning.CreatedExactly | src/Storage/Chain.cpp:154-181 | a creation yields a database iff the public key can be computed, the header fits a message, and the database is that header alone |
| Meaning.NewDbExactly | src/Storage/Manager.cpp:40-66 | with 200 bytes to spare below the message limit a creation fails only for want of a key |
| Meaning.BuildBlockExactly | src/Storage/Manager.cpp:117-155 | a block is missing iff its body cannot be signed; else its five fields are spelled out in concatenations |
| Meaning.PrevExactly | src/Storage/Manager.cpp:80-107 | the hash to follow is the double hash of the stored header data and keys for index 0, else the hash stored in the last block |
| Meaning.AddBlockExactly | src/Storage/Manager.cpp:68-166 | addBlock yields a block and a database iff the block is made from what is stored and the database is the old one with it appended |
| Validity.ValidPointwise | src/Storage/Manager.cpp:209-266 | the recursive validity is the check at every index against the predecessor's stored hash |
| Validity.ValidPrefix | src/Storage/Manager.cpp:209-266 | every prefix of a valid list is valid |
| Validity.BuiltBlockExtends | src/Storage/Manager.cpp:109-155 | a block built on the tip keeps the list valid when the header's keys match |
| Validity.TipCommitment | src/Storage/Manager.cpp:209-266 | two accepted chains with one tip hash are the same chain, header data and keys included, or the walk back computes two colliding inputs |
| Validity.EditDetected | src/Storage/Manager.cpp:227-264 | replacing a block under the same hash, or any block before the last, is noticed or computes a collision |
| Validity.LastBlockEdit | src/Storage/Manager.cpp:234-264 | the last block can be replaced under a new hash exactly by a properly made one |
| Validity.FieldEditDetected | src/Storage/Manager.cpp:227-264 | replacing one of nonce, data, signature, hash anywhere is rejected or computes a collision; the hash alone is always rejected |
| Validity.PrevHashEditIgnored | src/Storage/Manager.cpp:227-232 | replacing a stored previous hash leaves the verdict as it was |
| StoredChain.StateRoundTrip | src/Storage/Chain.cpp:217-219 | reading the stored layout of a chain gives the chain |
| StoredChain.FindBlockIsElement | src/Storage/Chain.cpp:227-265 | getBlock(i) is the i-th element for 1 <= i <= n and nothing otherwise |
| StoredChain.StoredBlocksIsList | src/Storage/Chain.cpp:267-304 | getBlocks yields the whole list, and its loop ends, also at the last index |
| StoredChain.AppendIsSnoc | src/Storage/Chain.cpp:183-225 | the batch adds one element at the end and overwrites none; it is missing only if a record does not pack |
| StoredChain.AppendWraps | src/Storage/Chain.cpp:199-222 | at index 2^64 - 1 an append sets the index to zero and the chain reads as empty |
| StoredChain.HonestAddBlock | src/Storage/Manager.cpp:68-166 | one addBlock on an honest chain appends the returned block, which carries the given data and nonce, and the chain stays honest, previous hashes included |
| StoredChain.CreatedIsHonest | src/Storage/Chain.cpp:154-181 | a created database is the honest empty chain |
| Verdicts.AcceptsExactly | src/Storage/Manager.cpp:189-269 | the verdict is yes iff the header is of the supported version, below the last index, and every block's signature and hash fit its place, written out in concatenations |
| Meaning.AcceptsIsSound | src/Storage/Manager.cpp:189-269 | the verdict is yes iff a header of version 1 is stored and every block up to its index has the hash and the signature its place demands |
| Verdicts.HonestAccepted | src/Storage/Manager.cpp:189-269 | every honest chain is accepted |
| Verdicts.PrefixAccepted | src/Storage/Manager.cpp:189-269 | lowering the stored index keeps an accepted database accepted |
| Verdicts.AppendAccepted | src/Storage/Manager.cpp:68-166 | one addBlock on any accepted database with matching keys keeps it accepted, with one more block |
| Verdicts.EditReadsBack | src/Storage/Chain.cpp:267-304 | overwriting the bytes of one block replaces exactly that element |
| Verdicts.StoredEditDetected | src/Storage/Manager.cpp:227-264 | replacing one field of one stored block makes the verdict no, or a collision is computed |
| Verdicts.StoredPrevHashIgnored | src/Storage/Manager.cpp:227-232 | replacing a stored previous hash never changes the verdict |
| Verdicts.StoredTipCommitment | src/Storage/Manager.cpp:189-269 | two accepted databases with one tip hash hold the same header and chain, or a collision is computed; unequal lengths always give one |
| Storage.Handle.constructor | src/Storage/Storage.cpp:48-52 | a new handle is closed |
| Storage.Handle.Create | src/Storage/Storage.cpp:62-86 | a new empty database, opened and locked; fails on an open handle, an existing database or a locked path |
| Storage.Handle.Open | src/Storage/Storage.cpp:88-110 | locks an existing, unlocked database; fails otherwise |
| Storage.Handle.Close | src/Storage/Storage.cpp:112-125 | releases an open handle, fails on a closed one |
| Storage.Handle.Release | src/Storage/Storage.cpp:54-60 | the destructor releases the lock of an open handle |
| Storage.Handle.Get | src/Storage/Storage.cpp:127-150 | the stored value or nothing |
| Storage.Handle.Set | src/Storage/Storage.cpp:152-180 | the batch is applied as a whole or not at all; on a faithful disk a failure means not at all |
| Storage.Handle.Remove | src/Storage/Storage.cpp:182-193 | the database is gone, also if there was none; fails while a handle has it open |
| Chains.Chain.constructor | src/Storage/Chain.cpp:145-148 | a chain is its path; nothing is opened |
| Chains.Chain.Create | src/Storage/Chain.cpp:154-181 | the new chain, or nothing, or an empty database without header; every handle released |
| Chains.Chain.AddBlock | src/Storage/Chain.cpp:183-225 | header bumped and block stored together or neither; succeeds exactly when it can if nothing fails; every handle released |
| Chains.Chain.GetBlock | src/Storage/Chain.cpp:227-265 | the block at an index between 1 and the stored index, under the version check |
| Chains.Chain.GetBlocks | src/Storage/Chain.cpp:267-304 | appends exactly the stored blocks in order to the caller's list, or reports failure after some leading ones; the wrapping loop ends |
| Chains.Chain.Remove | src/Storage/Chain.cpp:306-309 | removes the database, also a missing one |
| Chains.Chain.GetHeader | src/Storage/Chain.cpp:311-328 | the stored header of any version |
| Chains.Chain.CheckedHeader | src/Storage/Chain.cpp:330-354 | the stored header of the supported version |
| Managers.Manager.constructor | src/Storage/Manager.cpp:31-34 | a manager is its storage directory |
| Managers.Manager.CreateChain | src/Storage/Manager.cpp:40-66 | one creation step, made exactly when the path is free and the keys and header can be made |
| Managers.Manager.PreviousHash | src/Storage/Manager.cpp:80-107 | the double hash of the header for an empty chain, else the last block's hash |
| Managers.Manager.Assemble | src/Storage/Manager.cpp:117-155 | the block with signature over the body hash and hash over body and signature |
| Managers.Manager.AddBlock | src/Storage/Manager.cpp:68-166 | its three sessions together are one append step with the returned block; a null result leaves a faithful disk unchanged |
| Managers.Manager.VerifyChain | src/Storage/Manager.cpp:189-269 | true only for accepted databases, and for all of them when no read fails |
| Managers.Manager.CheckBlocks | src/Storage/Manager.cpp:209-268 | the indexed loop decides the recursive validity |
| Managers.Manager.CheckBlock | src/Storage/Manager.cpp:236-265 | the body of the loop checks signature and hash |
| Managers.Manager.GetBlock | src/Storage/Manager.cpp:168-173 | the chain's block |
| Managers.Manager.GetBlocks | src/Storage/Manager.cpp:175-180 | the chain's blocks |
| Managers.Manager.RemoveChain | src/Storage/Manager.cpp:182-187 | one removal step |
| Managers.Manager.GetChainHeader | src/Storage/Manager.cpp:271-284 | the stored header of any version |
| Managers.Manager.GetChainInfo | src/Storage/Manager.cpp:286-302 | version and index of the stored header |
| Runs.StepRefines | src/Storage/Manager.cpp:40-187 | every call, failing or not, is a step of the machine on lists of blocks, and leaves honest files |
| Runs.RunRefines | src/Storage/Manager.cpp:40-187 | every run of calls is the run of the same calls on lists |
| Runs.RunStaysHonest | src/Storage/Manager.cpp:40-166 | after any calls with any failures all files are honest and the indices have room for the calls left |
| Runs.RunsVerify | src/Storage/Manager.cpp:189-269 | from no files, after any calls with any failures, every database is an empty one or an accepted chain |
| Runs.HonestReadable | src/Storage/Chain.cpp:199-222 | under any crash or fault a chain with index n has exactly blocks 1 to n readable, each carrying the hash before it |
| Runs.AppendOnly | src/Storage/Chain.cpp:183-225 | without a removal the earlier list is a prefix of every later one, data and keys stay, and the index counts the steps that changed the chain |
| Runs.OtherChainsUntouched | src/Storage/Manager.cpp:304-309 | a call on one chain id leaves every other id's database alone |
| Sessions.HonestSigns | src/Storage/Manager.cpp:109-155 | a block made from what is stored follows the tip and is properly signed |
| Sessions.SessionSparesOther | src/Storage/Manager.cpp:68-166 | what a waiting client has read still fits the chain after a session that spares it |
| Sessions.StepKeepsInv | src/Storage/Manager.cpp:68-166 | one session that respects the proviso keeps all chains honest and all waiting clients up to date |
| Sessions.InterleavingsStayHonest | src/Storage/Manager.cpp:68-166 | every interleaving that respects the proviso keeps every chain accepted at every point |
| Sessions.VerificationSucceeds | src/Storage/Manager.cpp:193-207 | a verification that can read says yes, however many appends land between its two sessions |
| Races.StoredAppend | src/Storage/Chain.cpp:183-225 | any block at all, appended to a stored list, leaves a stored list with that block at its end |
| Races.InterleavingsStayStored | src/Storage/Chain.cpp:199-222 | in every interleaving, races included, each database with index n keeps exactly the blocks 1 to n |
| Races.CommitExact | src/Storage/Chain.cpp:183-225 | after a commit of any well-made block the verifier accepts exactly when the signature is by the present key if the block follows the present tip; if not, acceptance computes a collision |
| Races.CommitHonestExactly | src/Storage/Chain.cpp:183-225 | a commit of a well-made block leaves an honest chain iff the block follows the tip and is signed with the present key |
| Races.StepHonestExactly | src/Storage/Manager.cpp:68-166 | from honest files any session of any client leads to honest files iff it is guarded |
| Races.UnguardedCommitRejected | src/Storage/Manager.cpp:68-166 | a commit that takes effect unguarded leaves a chain that is rejected, or computes a collision |
| Races.InterleavingExact | src/Storage/Manager.cpp:68-166 | over every interleaving, all chains are honest at every point iff every commit that takes effect passes the guard |
| Races.InterleavingVerdicts | src/Storage/Manager.cpp:189-269 | every chain is accepted while commits are guarded; after the first unguarded one a chain is rejected, or a collision is computed |
| Races.RespectfulIsGuarded | src/Storage/Manager.cpp:68-166 | interleavings that respect the proviso are guarded throughout |
| Races.RaceIsPossible | src/Storage/Manager.cpp:68-166 | two appends can both read one tip and both commit; the first commit breaks the proviso |
| Races.RaceBreaksChain | src/Storage/Manager.cpp:68-166 | after such a race the chain holds both blocks and is rejected, or a collision is computed |
| Races.RecreateIsPossible | src/Storage/Manager.cpp:40-187 | a chain can be removed and created anew between the sessions of an append, which then commits |
| Races.RecreateBreaksChain | src/Storage/Manager.cpp:40-187 | then the new chain holds the old chain's block and is rejected, or a collision is computed, unless the very same empty chain came back |
| Handlers.Handler.constructor | src/Handler.cpp:32-36 | a handler is its manager and password |
| Handlers.Handler.HandleMessage | src/Handler.cpp:42-106 | gate, limits and dispatch: one call and a fitting answer, success exactly when possible if nothing fails |
| Handlers.Handler.MakeStatus | src/Handler.cpp:326-350 | a status without payload; as a refusal, a fitting answer that changes nothing |
| Handlers.Handler.HandlePing | src/Handler.cpp:108-113 | success and no effect |
| Handlers.Handler.CheckAuth | src/Handler.cpp:352-372 | accepts exactly the salted hash of the password |
| Handlers.Handler.HandleCreateChain | src/Handler.cpp:115-132 | refuses long data, else one creation |
| Handlers.Handler.HandleRemoveChain | src/Handler.cpp:134-144 | one removal |
| Handlers.Handler.HandleAddBlock | src/Handler.cpp:146-169 | refuses long data, else one append, answered with its block |
| Handlers.Handler.HandleGetBlock | src/Handler.cpp:171-189 | answered with the stored block |
| Handlers.Handler.HandleGetBlocks | src/Handler.cpp:191-212 | answered with the stored blocks in order |
| Handlers.Handler.HandleVerifyChain | src/Handler.cpp:214-224 | success only for an accepted chain |
| Handlers.Handler.HandleGetChainHeader | src/Handler.cpp:226-260 | answered with the stored header |
| Handlers.Handler.HandleGetChainKeys | src/Handler.cpp:262-288 | answered with the stored keys |
| Handlers.Handler.HandleGetChainInfo | src/Handler.cpp:290-311 | answered with id, version and index |
| Answers.SaltText | include/Defs.h:54 | the salt put before the password, byte by byte |
| Answers.EarlierPartsDecide | src/Handler.cpp:64-79 | ping, creation, removal, append: the first of them that is present is handled as if it were alone |
| Answers.LaterPartsDecide | src/Handler.cpp:80-104 | without these, the first present of the read parts, in the order of the source, is handled as if it were alone |
| Answers.RefusalsExactly | src/Handler.cpp:42-106 | DATA_ERROR iff the message does not parse or an admitted creation or append has more than 8192 bytes; NOT_AUTHORIZED iff it fails the gate; NOT_SUPPORTED iff it is admitted without any part |
| Answers.PingAnswer | src/Handler.cpp:108-113 | an admitted ping succeeds and changes nothing |
| Answers.CreateAnswer | src/Handler.cpp:115-132 | success means exactly the asked chain, with its data and key pair; within the limit it is due iff the path is free and there is a key |
| Answers.RemoveAnswer | src/Handler.cpp:134-144 | success means that the asked chain is gone and nothing else; it is always due |
| Answers.AddAnswer | src/Handler.cpp:146-169 | success means that the answered block was made from data, nonce and stored chain and is stored there, and nothing else changed; due iff such a block can be made |
| Answers.BlockAnswer | src/Handler.cpp:171-189 | the payload is the block stored under the asked number in the asked chain; due iff there is one |
| Answers.BlocksAnswer | src/Handler.cpp:191-212 | the payload is the list of the stored blocks of the asked chain; due iff they can be read below the last index |
| Answers.VerifyAnswer | src/Handler.cpp:214-224 | success is given only, and is due exactly, when every block of the asked chain has the hash and the signature its place demands |
| Answers.HeaderAnswer | src/Handler.cpp:226-260 | the payload is the stored header of the asked chain, of any version; due iff there is one |
| Answers.KeysAnswer | src/Handler.cpp:262-288 | the payload is the stored private and public key of the asked chain; due iff there is a header |
| Answers.InfoAnswer | src/Handler.cpp:290-311 | the payload is the asked id with the stored version and index; due iff there is a header |
| RequestRuns.RefusalsAndReadsChangeNothing | src/Handler.cpp:42-106 | refusals and reads leave the files unchanged, and so does a failed append or removal on a faithful disk |
| RequestRuns.SuccessIsDone | src/Handler.cpp:115-169 | success of a mutating request means that its list operation happened |
| RequestRuns.RequestRunIsRun | src/Handler.cpp:42-106 | a sequence of requests is a run of manager calls |
| RequestRuns.StepKeepsIndexRoom | src/Storage/Chain.cpp:199 | each call takes at most one index, whoever wrote the files before |
| RequestRuns.RequestsStaySmall | src/Handler.cpp:119-153 | from no files, no stored payload ever exceeds the limit of 8192 bytes |
| RequestRuns.SmallAppendSucceeds | src/Storage/Manager.cpp:109-163 | below the limit an append to an honest chain is missing only for want of a nonce, or of a signature of the hash over tip, nonce and data |
| RequestRuns.HonestWalkEnds | src/Storage/Chain.cpp:283-301 | on honest files the getBlocks loop always ends |
| Servers.Server.constructor | src/Network/Server/Server.cpp:35-41 | the flag starts set |
| Servers.Server.Stop | src/Network/Server/Server.cpp:52-55 | clears the flag |
| Servers.Server.Serve | src/Network/Server/Server.cpp:118-121 | one message handled extends the run of requests by one exchange |
| Servers.Server.Process | src/Network/Server/Server.cpp:62-148 | the messages taken are handled one after the other as a run of requests, for every finite history of polls and stops, on files of any origin with room for them; if nothing fails, each succeeds that can |
| Servers.StopBounds | src/Network/Server/Server.cpp:88-142 | nothing is handled after a stop that came before a turn, and at most that turn's message after one within it |
| Servers.QuietTurnsTakeAll | src/Network/Server/Server.cpp:88-142 | while there is no stop, broken poll or unsent reply, every message that arrives is handled, idle polls or not |
| Servers.TakenExactly | src/Network/Server/Server.cpp:88-142 | handled are exactly the arrivals before the first turn with a stop, broken poll or unsent reply, and the one in it unless the stop came first |
| StopHandshake.CommitIsAddBlock | src/Storage/Manager.cpp:68-166 | three sessions of one worker are one addBlock call |
| StopHandshake.ServerIsSequential | src/Network/Server/Server.cpp:88-143 | whatever stops and sessions interleave, files and answers are those of a sequential run of the handler on the messages received, in their order |
| StopHandshake.WorkIsHandled | src/Network/Server/Server.cpp:118-121 | a session that finishes a request completes exactly one handling of it, answer included |
| StopHandshake.ServerIsRespectful | src/Network/Server/Server.cpp:88-143 | the sessions of every server run are an interleaving that respects the proviso |
| StopHandshake.ServerKeepsChains | src/Network/Server/Server.cpp:88-143 | every chain is honest and accepted at every point of every server run |
| StopHandshake.StopIsHonoured | src/Network/Server/Server.cpp:52-55 | a stop is never lost, the worker makes at most six more moves, and at most one more request is served |
| StopHandshake.WorkerStaysUp | src/Network/Server/Server.cpp:88-143 | without a stop, a failed start or poll, or an unsent reply the worker is never done |
| StopHandshake.NextMessageIsTaken | src/Network/Server/Server.cpp:88-104 | unless stopped, a worker that starts, has replied or waited in vain can take any next message |
| StopHandshake.AnswerCanSucceed | src/Handler.cpp:44-66 | pings and refusals can be answered |
| StopHandshake.ReadCanSucceed | src/Handler.cpp:171-311 | every read that can find something can be answered with it |
| StopHandshake.CreateCanSucceed | src/Storage/Manager.cpp:40-66 | every possible creation can complete in a worker's session |
| StopHandshake.RemoveCanSucceed | src/Storage/Manager.cpp:182-187 | every removal can complete in a worker's session |
| StopHandshake.AddCanSucceed | src/Storage/Manager.cpp:68-166 | every possible append can complete in a worker's three sessions |
| StopHandshake.VerifyCanSucceed | src/Storage/Manager.cpp:189-269 | every accepted chain can be found so in a worker's two sessions |

## Left out

- Hash, signature and random number internals: parameters of the model; a hash that cannot be computed is not modelled, so the branches after a null hash do not occur.
- LevelDB and RocksDB internals: the model has atomic batches, exclusive opening and all-or-nothing destruction; a database destroyed halfway is not modelled.
- Process crashes are modelled by calls that stop after any outcome of their one write; a lock that outlives its process is not.
- Header and Block objects are values: `setIndex` replaces the caller's own copy, so shared pointers to one header are not captured.
- Deprecated groups in the wire format are refused by the decoder, where the library skips them.
- Storage.Handle.Open: a session on a locked database fails; in `Sessions` that is a session that gives up, and sessions are otherwise indivisible.
- Chains.Chain.GetBlocks: requires that the loop ends, since otherwise the source does not return; `Layout.WalkTerminatesExactly` says when.
- Managers.Manager.GetBlocks: requires that the loop over this chain ends, as above.
- Managers.Manager.VerifyChain: requires that the loop over this chain ends, as above.
- Handlers.Handler.HandleMessage: requires that the loop over the requested chain ends, as above.
- Handlers.Handler.HandleGetBlocks: requires that the loop over this chain ends, as above.
- Handlers.Handler.HandleVerifyChain: requires that the loop over this chain ends, as above.
- Handlers.Handler.MakeStatus: the message text of a status is not modelled, since nothing depends on it.
- Runs.RunsVerify: runs are shorter than 2^64 - 1 calls, since the index of an append wraps after that.
- Sessions.InterleavingsStayHonest: holds under the proviso; without it the property is false, and `Races.InterleavingExact` gives the exact condition.
- Servers.Server.Process: follows one finite history of polls and stops, with room for its requests below the last index; a run without end is covered by its prefixes, and stops at any moment by `StopHandshake`.
- Servers.Server.Serve: requires room below the last index, so that every loop over blocks ends.
- Starting, joining and restarting the worker thread, socket calls and message buffers: the model has one worker and the results of its polls.
- Parsing of requests and serialising of responses: a request is a value that may be missing, a response a value; a response too large to serialise is not modelled.
- Key material wiping, logging, profiling, command line, signals and the client: no effect on the chains.
