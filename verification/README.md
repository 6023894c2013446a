# A verified model of the message relay's payment and storage core

The relay stores messages for recipients, some of them paid for with a BEEF (a transaction with its
ancestors and merkle proofs). This project models the parts of it where the hard promises live and
proves those promises for every input, every run and every answer the outside world may give.

* **The payment door.** A payment at rest is read over as many requests as it takes: structure, then
  scripts, then the merkle roots. Each request may pause between elements, between two inputs of one
  transaction or between two header lookups, and saves a cursor with the stamp of the object it read.
  `Verifier` is the streaming reader and its slices, `HeaderRoots` the asking of roots, `PaymentDoor` one
  request, `DoorWords` the one unsliced pass and what its words mean, `DoorRuns` whole runs: sliced reading
  comes to the word of an unsliced one, a `Verified` is earned on one upload, every pending answer moves, and
  the door served request after request makes such runs.
* **The bytes.** `ByteCodec`, `RawTransaction`, `SavedState`, `Base64`, `PaymentBytes`, `TxText` and `Spool`:
  the parsers and printers beside the door, with round trips in both directions where the code has both.
* **Ownership and fees.** `Ownership.Relay` holds the bucket, the rows, the fee ledger and the owed
  announcements; its operations are the hand-off, a whole send, the drain, the re-ask and the reclaims.
  Its invariant is that no name dangles and that the fee ledger is what a legal history of events made
  it; `FeeLedger` proves what every legal history keeps; `ReclaimProtocol` takes one reclaim apart, step by
  step, against everything else that touches its key.
* **The archive.** `Archive`, `ArchiveRuns`, `ArchiveConsumer` and `ArchiveDelivery`: an at-least-once queue that
  may repeat, reorder and rebatch versioned changes, planned on possibly stale reads of the batch's own ids, and
  still converges; what is acknowledged is archived.
* **Acknowledgment and retention.** `LikePrefix` and `Retention`: the prefix pattern, SQLite's matcher for it,
  and the chunked statements of an acknowledgment.
* **Loops.** `FanOut` (windows of concurrent pushes and one retry), `OutputRouting` (which output serves
  whom), `SendBudget` (windows of sends and bytes).

## What the model assumes

* An object's stamp (its etag and size) determines its bytes. A door run is given a function from stamps to
  what the reader finds in the bytes.
* bsv-rs (script execution, merkle proofs, the BEEF decoder, the cursor's own bytes) is not part of this
  model: its streaming verifier is a deterministic machine over elements and inputs whose cursor names the
  place reached. A root and a header's answer are compared as hashes.
* Stores, queues, wallet-infra, the broadcaster, hubs, the header service and clocks answer anything; each
  answer is a parameter or a nondeterministic choice. In `Ownership` a write may be taken, refused, or taken
  and answered as an error. While a store is `steady` it answers every call and takes every write; contracts
  then say exactly when an operation refuses. A door's write taken but answered as an error is the same run
  with its answer lost.
* Integers are unbounded except where the code's width shows: heights cast to 32 bits, 64-bit saturation in
  the slice counters, the back-off and `encoded_len`, the 16-bit part number, `usize` in the spool and the
  raw-transaction reader, the 32-bit attempts.

## Where the code and its comments part

* That a reclaim and a send always see one another (src/handoff.rs:958-960): a name that loses its object was
  made too late for the reclaim to see, and its send sees the claim exactly while the claim has not been cleared
  and is five minutes old or less, until another reclaim claims the key (`ReclaimProtocol.LostNameSees`). A claim
  whose clearing failed is still seen. `ReclaimProtocol.NeitherSeesTheOther` is a run where neither sees.
* A hub is told that D1 holds its message, at that version or later (src/archive.rs:309-312). In a run, where
  reads may be stale, a report without a collision is so exactly in these cases: the read held the id, and the
  batch's highest version of it is the holder's or D1 was there already; or the read did not hold it, and no
  other recipient's row has come since (`ArchiveRuns.ReportSoundInRun`, from `Archive.ReportSoundExactly` for
  any read at all). Both kinds of failure are shown: `Archive.ReportUnsound`, `ArchiveRuns.ReportUnsoundStale`.
* An insert and its body-less acknowledgment in one batch, nothing archived before, archive an empty body
  (`ArchiveRuns.BodyKeptExactly`, `ArchiveRuns.BodyLost`); over a run the body is there exactly when it was at
  the start or some pass wrote it (`ArchiveRuns.BodySurvivesExactly`).
* A send is told its fee is deferred also when the ledger's insert was ignored: the fee is then owed as this
  payment's only if the row there was open and of the same upload (`FeeLedger.DeferralOwesExactly`;
  `FeeLedger.DeferralOwesNothing` is a history after which nothing is owed).
* LIKE folds ASCII case, so the class the statements mark is wider than `retains`
  (`LikePrefix.ClassIsRetainedExactly`, `LikePrefix.ClassIsWider`); a retained box is still never deleted from.
* `encoded_len` saturates its product and then adds without saturating, so near 2^64 it falls below the text
  (`TxText.WriteText`, `TxText.LengthReckoned`); part numbers wrap past 65,535 (`Spool.NumberedInOrder`).
* A header that cannot be answered, with more heights beyond it than lookups, pauses the door where it began.
  That and having no lookup are the only ways to stand still (`DoorRuns.PendingMoves`; `DoorRuns.PendingStuck` is
  an upload and a request that do).
* A budget's window holds while no sweep drops the window between two sends charged to it, whatever the clock
  does, and only then (`SendBudget.WithinExactly`); a clock that goes back past a sweep breaks it
  (`SendBudget.BackwardsBreaksTheBudget`).
* A multipart upload that fails to be created or completed is not aborted, as one is whose source or part fails
  (`Spool.PutInParts`).
* An output tagged for a recipient but without an `outputIndex` may also be handed to another
  (`OutputRouting.DisjointExactly`, `OutputRouting.UnindexedServesTwo`).

## Model

| member | source | states |
|---|---|---|
| Verifier.MicroIsLater | src/beef_door.rs:410-472 | one input or one element more moves the cursor strictly on, ran only spends the work budget allows, and leaves the rest of the pass to come to the same end |
| Verifier.LaterTransitive | src/beef_door.rs:410-472 | readings resumed one from another compose into one |
| Verifier.RunToTheEnd | src/beef_door.rs:420-473 | an unsliced pass that is not refused ends with every element read, its subject the last raw transaction, its roots those carried, every spend allowed |
| Verifier.WholeExactly | src/beef_door.rs:420-473 | a reading comes to its end if and only if the stream has no flaw and, where scripts run, each of those ahead ends well within the work budget and no transaction ahead overpays |
| Verifier.StoppedAt | src/beef_door.rs:420-473 | a reading that is refused came to the place that refuses it: a script past the budget or by its own word, an overpaying transaction, or the flaw at the end, everything before it allowed |
| Verifier.Since.Spent | src/beef_door.rs:395-399 | a slice whose inputs or weight are used up is spent, whatever the clock reads |
| Verifier.Since.SpentAnother | src/beef_door.rs:404-408 | one more input and its weight are counted, saturating at 64 bits, before the slice is asked |
| Verifier.StepUntil | src/beef_door.rs:439-461 | one element under a slice: a pause has at least one input run and is a place of the unsliced pass; a step, an end and a refusal are that pass's own |
| Verifier.Read | src/beef_door.rs:420-473 | a reading from any cursor, however its chunks and slices fall, ends with the verdict of the unsliced pass or at a strictly later place of it; with no slice it never pauses, with a steady source it never fails |
| HeaderRoots.RootsSorted | src/beef_door.rs:864-869 | the roots of a reading are ascending and are the same set: sorted, each once |
| HeaderRoots.AscendingUnique | src/beef_door.rs:864-869 | that list is the only ascending one with those roots, so any sort gives it |
| HeaderRoots.RootsWord | src/beef_door.rs:888-953 | the asking loop, answers kept by height, comes to the word said of the whole list (first mismatch, first failure, all carried, or lookups spent), asks for exactly the heights on the way to it, for no more than the lookups given, and for all of those when it says they are spent |
| HeaderRoots.RootsSayOne | src/beef_door.rs:888-953 | that word is unique: no two answers fit one request |
| HeaderRoots.NoHeightTruncated | src/beef_door.rs:905-912 | checking the last height checks them all: no height asked was truncated to 32 bits |
| HeaderRoots.CarriedUpTo | src/beef_door.rs:912-953 | every root before the place a request stops at was asked for and carried in that request |
| HeaderRoots.StuckExactly | src/beef_door.rs:912-918 | spent lookups pause where they began if and only if there were none, or the root there could not be answered |
| PaymentDoor.Door.DoorAtRest | src/beef_door.rs:1309-1415 | one request from the saved state (or from the start when its stamp is another's) does a turn of the door: phases in order, output judged under this request's terms, state saved or cleared with the answer, at most its lookups made and all of them before it pauses at the roots; it faults only when the store fails |
| PaymentDoor.OutputWordExactly | src/beef_door.rs:775-800 | the output pays if and only if there is a subject, its output is there, carries the terms' script and holds enough; and each of the four refusals is said just when its own condition fails first |
| PaymentDoor.TurnLeaves | src/beef_door.rs:1335-1415 | a pending answer reports exactly the state it saved, a verdict clears the state but for a root no header answered for, a fault keeps it |
| PaymentDoor.Door.AskRoots | src/beef_door.rs:1391-1415 | the last phase: the paying output known or judged again, the roots from the place saved on, the state kept at the place of a failed lookup |
| PaymentDoor.Door.Pause | src/beef_door.rs:1335-1356 | a pause saves the state it answers with, or faults and keeps the state before |
| PaymentDoor.Door.Finish | src/beef_door.rs:1357-1360 | a verdict clears the state, or faults and keeps it |
| DoorWords.VerifyInline | src/beef_door.rs:1044-1078 | the inline door always answers, and with the word of the unsliced pass (structure, output, scripts, every root), which means what it says of the bytes |
| DoorWords.WholeSaysOne | src/beef_door.rs:1044-1078 | the unsliced pass has one word |
| DoorWords.WholeMeans | src/beef_door.rs:1044-1078 | what each word of the pass says of the object's own elements: `Verified` that the last raw transaction pays the script of the terms enough at their index, every script passes in the budget and every root is below 2^32 and carried; each refusal the first check that fails, the lowest contradicted or unanswered root included |
| DoorWords.MeansWhole | src/beef_door.rs:1044-1078 | and only then: a word whose meaning holds is the word of the pass |
| DoorWords.PassesAgree | src/beef_door.rs:1363-1390 | the structure pass and the script pass of one object come to the same subject and the same roots |
| DoorRuns.RootsResumed | src/beef_door.rs:888-953 | roots asked in several requests of one steady header service come to the word of asking them at once |
| DoorRuns.SlicedEqualsWhole | src/beef_door.rs:1309-1415 | for requests on an unchanging object with fixed terms and a header service that answers, or fails to answer, alike for each height, however they overlap and wherever each pauses, every state saved is a part of the unsliced pass and every verdict is its verdict, a lookup that could not answer included |
| DoorRuns.SlicedMeans | src/beef_door.rs:1309-1415 | so a verdict of any such request means what it says of the upload, and no other word would |
| DoorRuns.RunIsOverlap | src/beef_door.rs:1309-1334 | requests served one after another are a case of that |
| DoorRuns.VerifiedIsEarned | src/beef_door.rs:1320-1415 | however requests overlap, the object replaced and the header service changing or failing at will, a `Verified` is about one upload without a flaw, whose every script ends well within the budget of a request on it, whose last raw transaction pays the script of the answering request's terms enough at their index, and whose every root is below 2^32 and was asked for by a request on that upload and answered with that very hash |
| DoorRuns.PendingMoves | src/beef_door.rs:1356-1415 | a pending answer leaves strictly less work (phases, elements and inputs, roots) if and only if the request did not begin at a root it cannot get past: no lookup to make, or a header service that cannot answer for that root; there it comes back to its own state |
| DoorRuns.PendingRunShrinks | src/beef_door.rs:1356-1415 | over any run of pending answers the work ahead falls by at least one a request, but for the requests so stuck |
| DoorRuns.AnsweredMoves | src/beef_door.rs:912-919 | a request with a lookup and a header service that answers for the upload's own roots is never stuck |
| DoorRuns.PendingRunEnds | src/beef_door.rs:1356-1415 | so a run of such requests, all pending, is no longer than the work the object holds |
| DoorRuns.PendingStuck | src/beef_door.rs:912-919 | an upload of two roots, one lookup and an unanswered first height, whose request comes back to the state it began from |
| DoorRuns.ServeAll | src/beef_door.rs:1289-1415 | the door served any requests one after the other, each in its own slice, makes a run of the kind all of these are about, with no fault while its store is steady |
| ByteCodec.LittleEndianRead | src/beef_door.rs:1180-1192 | a number written little-endian is read back modulo the width it was written in |
| ByteCodec.LittleEndianWritten | src/beef_door.rs:1199-1205 | bytes read as a number are the bytes that number is written as |
| ByteCodec.Places | src/beef_door.rs:1199-1205 | the numbers of two, four and eight bytes are the sums of their bytes at their places, the least first |
| ByteCodec.CompactRead | src/beef_door.rs:726-741 | a CompactSize written in any of its widths is read back, and what follows it is left |
| ByteCodec.CompactWritten | src/beef_door.rs:726-741 | a CompactSize read was written so in some width |
| ByteCodec.CompactSays | src/beef_door.rs:726-741 | which bytes a count is read from, by its leading byte, and the number they say, for any bytes |
| RawTransaction.Skip | src/beef_door.rs:745-748 | a skip succeeds exactly when the bytes are there, whatever the machine's word |
| RawTransaction.Varint | src/beef_door.rs:726-741 | the moving reader takes the number and stands where the rest begins |
| RawTransaction.SkipSlots | src/beef_door.rs:751-761 | the counted inputs or outputs are passed, each round taking at least nine bytes, whatever the count claims |
| RawTransaction.RawTxLen | src/beef_door.rs:744-764 | the answer is the length of the printed transaction the bytes start with, exists only when they start with one, and takes at most a ninth as many rounds as there are bytes |
| RawTransaction.TxRead | src/beef_door.rs:744-764 | every printed transaction, followed by anything, is read to its end |
| RawTransaction.TxPrinted | src/beef_door.rs:744-764 | whatever is read is a printed transaction followed by the rest |
| RawTransaction.OneInOneOut | src/beef_door.rs:744-764 | the places of every field of a transaction of one input and one output with scripts of any length below 253 |
| RawTransaction.OnePrefix | src/beef_door.rs:768-772 | a stream starts with at most one transaction's bytes, so cutting the tail at the answer is well defined |
| RawTransaction.NoProperPrefix | src/beef_door.rs:744-764 | no proper prefix of a printed transaction is answered |
| RawTransaction.AnswerStays | src/beef_door.rs:744-764 | an answer never changes when bytes are appended |
| SavedState.ReadBack | src/beef_door.rs:1180-1214 | a saved state is read back as it was if and only if its etag's length fits 32 bits and its cursor is one taken today (not `BSC2`) |
| SavedState.ReadWasWritten | src/beef_door.rs:1198-1214 | any bytes read as a state are exactly the bytes that state is written as |
| SavedState.Layout | src/beef_door.rs:1180-1192 | where each field lies: `RMBD2`, a byte of phase, eight of size, eight of roots asked, four of the etag's length, the etag, the cursor |
| Base64.DecodeEncode | src/beef_door.rs:216-224 | base64 of bytes decodes to them (section 4 of RFC 4648, padded) |
| Base64.AlphabetIs | src/beef_door.rs:216-224 | the symbols are those of table 1 of RFC 4648 |
| Base64.Vectors | src/beef_door.rs:216-224 | the one-, two- and three-byte vectors of section 10 of RFC 4648 |
| Base64.EncodeDecode | src/beef_door.rs:216-224 | text that decodes is the encoding of what it decodes to: no second spelling |
| Base64.DecodeSplit | src/beef_door.rs:216-224 | cut at a group, text decodes in two as in one |
| Base64.EncodeJoins | src/handoff.rs:560-569 | whole groups encode apart as they do together |
| PaymentBytes.LengthIsFull | src/beef_door.rs:192-200 | a carrier's length, reckoned from its text, is the length of its full decode |
| PaymentBytes.HexDigits | src/beef_door.rs:158-170 | the digits are the ten and the six letters in either case, written in small ones, and nothing else is a digit |
| PaymentBytes.HexPair | src/beef_door.rs:207-215 | a pair of digits is one byte, its first the high half |
| PaymentBytes.BytesAreSlice | src/beef_door.rs:207-227 | in all three shapes the bytes from any place, at most so many, are that slice of the full decode |
| PaymentBytes.Of | src/beef_door.rs:158-189 | a carrier is taken if and only if its whole text decodes, though no decoded byte is kept |
| PaymentBytes.OfBase64 | src/beef_door.rs:171-187 | checking the text a stretch of groups at a time decides as decoding it whole |
| PaymentBytes.CarrierChunks.Next | src/beef_door.rs:246-250 | each chunk is the next slice, 64 KiB or what is left, and the end comes only when all is handed out |
| PaymentBytes.AllChunks | src/beef_door.rs:245-251 | the chunks from any place concatenate to the rest of the full decode |
| TxText.ArrayText | src/handoff.rs:537-548 | the array text of any chunking reads back to the bytes, within four characters a byte |
| TxText.HexText | src/handoff.rs:549-555 | the hex text of any chunking reads back to the bytes, two characters a byte |
| TxText.Base64JsonText | src/handoff.rs:556-571 | the base64 text of any chunking, groups carried over between chunks, reads back to the bytes |
| TxText.WriteText | src/handoff.rs:529-593 | any shape's text reads back to the object's bytes, and is within `encoded_len` if and only if that sum fits 64 bits |
| TxText.TextIsBracketed | src/handoff.rs:529-571 | a text that reads back is between its shape's own brackets: a list's, a string's, or those of an object with the one field `beef` |
| TxText.DecimalIs | src/handoff.rs:537-548 | a byte of the array is written in its decimal digits |
| TxText.LengthReckoned | src/handoff.rs:587-593 | `encoded_len` is the sum (four characters a byte and two, two a byte and two, or four for three bytes and twelve) while it fits 64 bits, and wraps below twelve beyond |
| Spool.PutInParts | src/beef_upload.rs:315-356 | the parts concatenate to the source's stream, all but the last exactly 8 MiB; it fails when the source breaks, with a steady store only then, and a failure aborts the upload if and only if it is the source's or a part's |
| Spool.SpoolBytes | src/beef_upload.rs:288-356 | what is stored in one put or in parts is the stream, whole and in order; a broken source stores nothing and a steady store stores any other |
| Spool.NumberedInOrder | src/beef_upload.rs:338-341 | parts are numbered one by one if and only if there are at most 65,535 |
| Spool.StoreChunks.Next | src/beef_upload.rs:180-199 | a body that ends short of what is due is a failure, never an end |
| Spool.ReadAll | src/beef_upload.rs:173-200 | an object is read to its end exactly when its body is unbroken and no shorter than due |
| FeeLedger.BackoffIs | src/handoff.rs:633-637 | a minute doubling to the eleventh attempt and a day from the twelfth, and the product never nears 64 bits, for any attempt count |
| FeeLedger.BackoffGrows | src/handoff.rs:633-637 | the wait never falls, is at least a minute and at most a day |
| FeeLedger.OwedBelowCeiling | src/handoff.rs:1210-1220 | in every history an open row has fewer than thirty attempts |
| FeeLedger.TryUsesUp | src/handoff.rs:1195-1229 | one recorded try uses up at least one of the tries left and sets a wait out of the waits left: settled leaves no row, an end an ended one, a put-off one more attempt due exactly its back-off after the try, and the thirtieth put-off an ended row |
| FeeLedger.EventUsesUp | src/handoff.rs:1193-1232 | and so does every other event that opens no new life: it gives back neither tries nor waits |
| FeeLedger.WaitsFromDoubling | src/handoff.rs:633-637 | the waits left from any attempt up to the eleventh are the telescoped doubling and eighteen days |
| FeeLedger.LifeIsBounded | src/handoff.rs:1193-1232 | over any life of a fee in any legal history the drain records at most thirty tries, and the waits they set sum to at most 1,678,020 seconds |
| FeeLedger.OpenFee | src/handoff.rs:1193-1232 | an open fee counts its recorded tries, has waited exactly what they set (1,678,020 seconds less the waits left), and is not due before all of that has passed since its deferral |
| FeeLedger.ThirtyPutOffs | src/handoff.rs:1193-1232 | the thirtieth put-off of a life ends the fee, after waits of exactly 1,678,020 seconds and no sooner than that after the deferral |
| FeeLedger.TriesApart | src/handoff.rs:1215-1220 | after a recorded put-off no try of the same life comes sooner than its back-off |
| FeeLedger.CeilingEnds | src/handoff.rs:1210-1214 | after thirty recorded tries the fee is settled or ended |
| FeeLedger.EndedForGood | src/storage.rs:63-71 | an ended row stays as it is, no send re-opens it and it is never tried again |
| FeeLedger.SettledIsOver | src/storage.rs:63-83 | a settled fee's key is not tried again until a send defers there anew |
| FeeLedger.DeferralOwesExactly | src/handoff.rs:882-914 | a deferral owes this payment's fee if and only if the ledger held no row at the key, or an open one of the same upload; a new row has no attempts and is due at once |
| FeeLedger.DeferralOwesNothing | src/handoff.rs:882-914 | a legal history whose second deferral owes nothing: the drain had ended the first |
| Ownership.AfterTriesAt | src/handoff.rs:1193-1232 | after a drain each tried key's row is what its own row and outcome say (gone, ended, or one more attempt due its back-off later), and every other key's row is as it was |
| Ownership.TallySums | src/handoff.rs:1193-1232 | the fees gone, open and ended after a drain sum to the fees it took |
| Ownership.Relay.Reclaim | src/handoff.rs:962-967 | only an unnamed object goes; deleted means gone and unnamed, not deleted means named, and a steady store always decides; no name is left dangling |
| Ownership.Relay.ReclaimClaimed | src/handoff.rs:973-990 | whichever of its looks and stamps fails, only an unnamed object goes and a steady store decides |
| Ownership.Relay.Locate | src/handoff.rs:643-702 | the bytes are found at the sender's key or the relay's spool and are the ones the door read; a steady store refuses exactly when they are unreadable, missing or changed |
| Ownership.Relay.Spool | src/handoff.rs:721-729 | the request's bytes are put at rest under the relay's own key and nowhere else, and nothing is put when they are at rest already |
| Ownership.Relay.OweAnnounce | src/handoff.rs:768-804 | an announcement is owed after its bytes are at rest; one already owed at the key stays as it is |
| Ownership.Relay.DeferFee | src/handoff.rs:853-916 | a fee is deferred after its bytes are at rest, the ledger's rows the old ones and this key's as it was or new, and ends at once only (with a steady ledger, exactly) under a standing word that the bucket cannot be read |
| Ownership.Relay.TakeFee | src/handoff.rs:808-917 | the fee is recorded now exactly when it fits, reads back and wallet-infra accepts; a refusal reclaims the relay's own spool and names nothing |
| Ownership.Relay.PutAtRest | src/handoff.rs:721-806 | the bytes are at rest before a row or an owed announcement names them; an announcement is owed just when a broadcaster that was asked of a judged payment did not take it |
| Ownership.Relay.HandOff | src/handoff.rs:643-945 | for every answer of the stores: nothing dangles, the sender's upload is untouched, only the relay's own unnamed spool goes; the fee is recorded now if and only if it is owed, the bytes are at most 1,048,576, read back, and wallet-infra accepts; an announcement is owed if and only if one was refused, at the kept key with its etag; what is kept and why, and the rows and events each ledger took; steady stores refuse exactly an unlocated payment or one wallet-infra declines |
| Ownership.Relay.ForgetUnnamed | src/handoff.rs:1101-1120 | nothing goes while a row or a deferred fee of this send names it or the sender may send again; otherwise a steady store deletes it exactly when nothing names it |
| Ownership.Relay.StoreRows | src/routes/send_message.rs:736-824 | the rows stored name the kept object and no other, a fault may have stored one, earlier rows stay, and it fails if and only if some row is not taken or its id is there already |
| Ownership.Relay.Send | src/routes/send_message.rs:690-859 | a whole send, hand-off then rows then what nothing names: every new row's object is there, every object gone is unnamed, a refused announcement is owed at the kept key and any other leaves the announcements as they were, and a deferral is in the ledger's history |
| Ownership.Relay.TryFee | src/handoff.rs:1153-1182 | a fee is settled exactly when the verified upload is there, the bucket is named, the arguments parse and wallet-infra accepts; it ends exactly when one of the first three fails or wallet-infra cannot read the bucket; only a store that does not answer puts it off otherwise |
| Ownership.Relay.Arm | src/handoff.rs:1196-1229 | the row and the count of the arm a try's outcome takes: none and settled; ended and ended, the thirtieth put-off too; one more attempt, due its back-off later, and put off |
| Ownership.Relay.DrainOne | src/handoff.rs:1195-1229 | one due fee's outcome, as its object and wallet-infra's answer decide it, is written to its own row and its arm counted, its object goes only when settled and unnamed, and the word on the bucket is recorded or cleared with it |
| Ownership.Relay.DrainFees | src/handoff.rs:1193-1232 | every fee taken is tried once with the outcome its object and wallet-infra's answer decide, each row is the one its outcome leaves, the counters kept arm by arm are the rows left gone, open and ended and sum to the fees taken, and a ledger that stops leaves a prefix |
| Ownership.Relay.ReaskAnnounces | src/handoff.rs:1267-1307 | a row goes only when the broadcaster took the verified bytes, with steady stores exactly then, and is counted accepted; any other has one attempt more, is due exactly its back-off later and is counted put off |
| Ownership.Relay.ReclaimReleased | src/handoff.rs:1019-1035 | a key is forgotten only once decided (its object is there if and only if something names it); put off are the keys that stay, deleted those forgotten whose object is gone, named the others |
| Ownership.Relay.ReclaimMinted | src/handoff.rs:1061-1090 | a key with a reading pending keeps its object and waits an hour more, one forgotten is decided; put off are the keys still waiting, deleted those forgotten whose object is gone, named the others |
| Ownership.Relay.ReleaseRow | migrations/0004_beef_key.sql:28-36 | a row deleted or retired names nothing and its key is released |
| Ownership.Relay.Serve | src/handoff.rs:643-1307 | any operations in any order: after each, every key named by a live row, an open fee or an owed announcement has its object |
| ReclaimProtocol.StepKeeps | src/handoff.rs:962-990 | every step of a reclaim or of anything beside it keeps: names of a source read twice are younger than that read, made under the claim |
| ReclaimProtocol.AlwaysInv | src/handoff.rs:962-990 | so in every state of every run |
| ReclaimProtocol.DeletePromises | src/handoff.rs:973-990 | a delete takes only names written after the second look read their source, under the claim, and bytes other than those stamped came after the last stamp |
| ReclaimProtocol.SeenExactly | src/handoff.rs:962-999 | between one claim and the next a send that asks sees the claim if and only if it has not been cleared, a failed unclaim included, and is five minutes old or less |
| ReclaimProtocol.LostClaimStays | src/handoff.rs:962-966 | a claim written and answered as an error is cleared by nobody: until the next one it is seen just while it is five minutes old or less, with no reclaim under way |
| ReclaimProtocol.LostNameSees | src/handoff.rs:956-999 | a name that loses its object was written after the second look read its source, under that reclaim's claim, and whoever asks before the next claim sees it exactly so long |
| ReclaimProtocol.NeitherSeesTheOther | src/handoff.rs:956-961 | a run in which a row is named before the delete, the object goes, and the send that asks after the let-go sees no claim |
| Archive.Plan | src/archive.rs:201-233 | the map built in one pass holds the earliest highest version of each id, and every verdict is the one that best decides |
| Archive.VerdictsAre | src/archive.rs:212-233 | each verdict from the messages alone: applied just when it is the earliest highest version of its id and what was held is its recipient's at a lower one; a repeat, a collision just when the row held, or else the message the id is judged by, is another's |
| Archive.BestExists | src/archive.rs:201-211 | every id of a batch has one best message |
| Archive.WrittenRow | src/archive.rs:290-306 | a written pass moves a row by at most one upsert |
| Archive.ArchiveBatch | src/archive.rs:268-306 | the batch is planned against what was read, and all of its messages that apply are written, or none |
| Archive.PassRow | src/archive.rs:268-308 | the row a pass leaves is the best's upsert when it applies and what was there otherwise |
| Archive.PassLeaves | src/archive.rs:56-68 | that row written out: made, or its recipient's older one moved with its acknowledgment and a body kept, or left as it was |
| Archive.WrittenForward | src/archive.rs:56-68 | whatever the plan and whoever sent the messages, no row is lost or changes hands, no version falls, no acknowledgment is cleared |
| Archive.ReportSoundExactly | src/archive.rs:309-330 | whatever the plan was made on, a message reported without a collision is held as reported if and only if its recipient's row stood there, or the batch's best is its recipient's and applies to no other's row |
| Archive.ReportSoundBehind | src/archive.rs:309-330 | on a read behind the table: of a held id, if and only if the best is the holder's or the table stood there; of another, if and only if no other's row has come |
| Archive.ReportUnsound | src/archive.rs:309-330 | the batch for which it is not |
| ArchiveRuns.RunForward | src/archive.rs:268-308 | over any run, with stale reads and lost passes, rows only move forward |
| ArchiveRuns.Converges | src/archive.rs:56-68 | after any deliveries, repeated, reordered, rebatched, planned on stale reads, the row stands at the highest version delivered and is acknowledged if and only if it began so or an acknowledgment was delivered |
| ArchiveRuns.ReportSoundInRun | src/archive.rs:268-330 | that condition for every report of every landed pass of every run, with any recipients and any stale reads |
| ArchiveRuns.ReportUnsoundStale | src/archive.rs:309-330 | a two-pass run on stale reads whose second report is not so |
| ArchiveRuns.ReportsSound | src/archive.rs:309-330 | with one recipient to an id every message reported is held at its version or a newer one |
| ArchiveRuns.ArchiveIsInTurn | src/archive.rs:268-308 | and the row, body included, is the one left by upserting each delivered message in turn, when a body is omitted only once the row is archived |
| ArchiveRuns.BodyKeptExactly | src/archive.rs:56-68 | one pass, on any read that holds no row the table lacks, keeps an id's body if and only if its row was there or the batch's best carries it |
| ArchiveRuns.BodySurvivesExactly | src/archive.rs:56-68 | over any run the archive holds an id's body if and only if it began with it or some pass wrote it |
| ArchiveRuns.BodyLost | src/archive.rs:201-233 | the batch that archives an empty body where upserts in turn keep it |
| ArchiveConsumer.DoneByRecipient | src/archive.rs:313-330 | the reports are the batch partitioned by recipient, in order, recipients as they appear, each collision marked |
| ArchiveConsumer.ReportsAre | src/archive.rs:313-330 | a recipient is told of exactly its own messages, in order, each marked a collision if and only if the row held, or else the message the id is judged by, is another's |
| ArchiveConsumer.BodiesInHub | src/archive.rs:334-346 | the index lists partition the body-less messages by recipient, in order |
| ArchiveConsumer.PlacesAre | src/archive.rs:334-346 | a recipient's list holds exactly its body-less messages, ascending |
| ArchiveConsumer.FillBodies | src/archive.rs:429-463 | the indices stay aligned with the messages while bodies are filled, and each message gone or unreadable is settled once |
| ArchiveConsumer.Consume | src/archive.rs:406-510 | every message of a batch is settled exactly once on every path: acknowledged when malformed, when its hub answered without its body or when the pass is written, retried when its hub could not be read or the pass is not written |
| ArchiveConsumer.KeptAre | src/archive.rs:409-475 | the pass is, in the queue's order, exactly the whole messages whose body came along, is not awaited or is held by a hub that answered, the last with that very body |
| ArchiveDelivery.Handle | src/archive.rs:406-510 | one delivery end to end: messages settled, the kept ones planned on reads of their own ids and written or not, each hub told of its own messages when the write is known |
| ArchiveDelivery.HandleAll | src/archive.rs:406-510 | deliveries so handled one after another, on reads as stale as they come and with writes that fail or land unanswered, make a run of the kind the archive's theorems are about |
| ArchiveDelivery.AckedIsArchived | src/archive.rs:268-510 | in any such run a whole message of a one-recipient id that is acknowledged, other than one whose hub answered without its body, is archived at its version or a newer one, and stays so |
| LikePrefix.EscapeLikePrefix | src/retention.rs:114-123 | the escaped pattern accepts exactly the texts that begin with the prefix up to ASCII case |
| LikePrefix.LikeIsPrefix | src/retention.rs:105-123 | so for any prefix, whatever `%`, `_` or backslash it holds |
| LikePrefix.FoldIs | src/retention.rs:105-123 | two characters match if and only if they are one and the same or one ASCII letter in its two cases |
| LikePrefix.ClassIsFoldedPrefixes | src/retention.rs:99-143 | the statements' class is the boxes beginning with a prefix up to case, and holds every box `retains` accepts |
| LikePrefix.ClassIsRetainedExactly | src/retention.rs:99-143 | the class is `retains` on every box if and only if the prefixes are closed under ASCII case |
| LikePrefix.ClassIsWider | src/retention.rs:99-143 | a box LIKE accepts and `retains` does not |
| Retention.AckStatements | src/retention.rs:243-267 | the statements built, run in order on any table, are one mark and one delete of the id set; an asked row stays if and only if its box is there and its type matches a pattern; and each statement binds at most 100 values if and only if there is nothing to do or at most 98 prefixes |
| Retention.BindsFit | src/retention.rs:220-228 | that bound of every statement, both ways |
| Retention.StatementsAreFull | src/retention.rs:226-265 | every statement but the last of its half binds a hundred values or, past ninety-eight prefixes, one id: no more statements than the limit takes |
| Retention.StatementsAdd | src/retention.rs:185-213 | a statement for some ids and then one for others is one for all: the same rows, the same count |
| Retention.EachIsOne | src/retention.rs:255-265 | the marks of every chunk are one mark, and so for the deletes |
| Retention.ChunkedIsAtOnce | src/retention.rs:243-267 | for any id list, repeats included, the plan's table and change count are those of one mark and one delete |
| Retention.MarkedOrGone | src/retention.rs:171-213 | each asked row is marked or deleted, never both, by its box alone; every other row is as it was |
| Retention.KeptExactly | src/retention.rs:160-213 | an asked row is kept, and then marked, if and only if its box is there and its type begins with a retained prefix up to ASCII case |
| Retention.ChangesAre | src/retention.rs:185-194 | the change count is the asked rows not already marked |
| Retention.AgainIsNothing | src/retention.rs:181-194 | the same acknowledgment again changes nothing and counts nothing |
| Retention.RetainedIsKept | src/retention.rs:160-170 | a row in a box the relay retains is never deleted by an acknowledgment |
| FanOut.JoinWindow | src/lib.rs:1815-1842 | every push of a window lands in its own slot, whatever order they resolve in, and no other slot changes |
| FanOut.DriveWindows | src/lib.rs:1848-1867 | the pushes made are a prefix of those asked, at most `width` in flight at any moment, each under a clock read before the deadline, stopping short only once it is read spent and only after whole windows of `width` |
| FanOut.FanOutWith | src/lib.rs:1873-1904 | first attempts cover a prefix, second ones a prefix of exactly those of it that timed out, ascending, each slot holds its last attempt's outcome, and `Skipped` means never pushed |
| FanOut.TimedOutsAre | src/lib.rs:1896-1899 | the retried are each once, ascending, and exactly those whose slot holds a timeout |
| FanOut.TallyOf | src/lib.rs:1792-1809 | each count is how often its outcome occurs, and the five sum to the outcomes |
| OutputRouting.Route | src/payments.rs:274-396 | the loops compute the routing, and its refusal of a recipient left without outputs is never given |
| OutputRouting.RoutedIsMixed | src/payments.rs:317-390 | routing with no tag at all is the mixed routing too |
| OutputRouting.ServesEvery | src/payments.rs:274-396 | it succeeds if and only if the outputs that remain cover the recipients no tag names, and then its keys are exactly the recipients, each with an output of the payment |
| OutputRouting.ServedByTag | src/payments.rs:340-346 | a recipient some output is tagged for gets exactly the outputs tagged for it, in order |
| OutputRouting.ServedInOrder | src/payments.rs:347-375 | among distinct recipients the ones no tag names get one of the remaining outputs each, in order |
| OutputRouting.HandedOutAre | src/payments.rs:349-357 | the outputs handed out are those without an index and those whose index no tagged output carries, ascending |
| OutputRouting.HandedToAre | src/payments.rs:340-347 | they go to the recipients no output is tagged for, in the order given |
| OutputRouting.DisjointExactly | src/payments.rs:340-375 | among distinct recipients no output serves two if and only if none handed out in order is tagged for a recipient |
| OutputRouting.IndexedIsDisjoint | src/payments.rs:306-315 | so when every tagged output carries its index |
| OutputRouting.UnindexedServesTwo | src/payments.rs:353-361 | the payment of one unindexed tagged output, which serves two |
| SendBudget.Store.Charge | src/send_budget.rs:97-138 | a send is added to its own window and to no other, and accepted exactly when the window then holds no more sends and bytes than the budget, or the store cannot answer |
| SendBudget.Store.ForgetClosed | src/send_budget.rs:172-177 | a sweep drops the windows that started before the current one, all of them or none, and no other |
| SendBudget.InWindow | src/send_budget.rs:63-66 | a time is in exactly the window that starts at `window_of` |
| SendBudget.WindowWithinBudget | src/send_budget.rs:97-138 | whatever the clock does, in every run where no sweep drops the window between two sends charged to it, the sends charged and accepted and their bytes never exceed the budget |
| SendBudget.ForwardNeverResets | src/send_budget.rs:172-177 | a clock that does not go back is such a run, with sweeps at any time |
| SendBudget.ResetExceeds | src/send_budget.rs:97-177 | a run that does drop it so breaks some budget |
| SendBudget.WithinExactly | src/send_budget.rs:97-177 | while the store answers, every budget is kept if and only if no sweep drops the window between two sends charged to it |
| SendBudget.IntervalWithinTwice | src/send_budget.rs:63-138 | any interval one window long holds at most twice the budget |
| SendBudget.TwiceIsReached | src/send_budget.rs:63-66 | and may hold that, whatever the window's length |
| SendBudget.BackwardsBreaksTheBudget | src/send_budget.rs:172-177 | a clock that goes back after a sweep lets a window be spent twice |

## Left out

- bsv-rs's script execution, merkle proofs, BEEF decoder and cursor bytes: foreign code, an abstract
  deterministic machine here; the header the verifier folds is taken as given.
- The feed's queue of chunks (src/beef_door.rs:259-312): a reading asks for its next chunk at any step instead.
- The JSON a payment, an output's instructions and a row's body are parsed from and printed to, and the
  etag's UTF-8 check when a saved state is read.
- `judge_delivery_inline_at_rest`, `delivery_fee_due`, `health_figure` and `serve_body`: calls and one-branch
  arithmetic over what is modelled.
- Ownership.Relay.Send: each operation is one step there; only a reclaim is also modelled step by step, and its
  claim is left to `ReclaimProtocol`. Rows kept in a hub mailbox, or written back to D1 by the archive, are not
  rows of this model.
- Ownership.Relay.ReclaimMinted: nothing is claimed of objects that leak, since an ended fee is followed by no reclaim.
- Ownership.Relay.DrainFees: the due list is what the ledger's query answers; the query itself is not computed.
- FeeLedger.LifeIsBounded: tries whose outcome the ledger did not take are not counted, since the next drain
  repeats them without bound.
- DoorRuns.VerifiedIsEarned: of a script it says that it is valid and within the work budget of a request on that
  upload, not which request ran it; of a root it names the request that asked.
- DoorRuns.PendingRunShrinks: for requests served one after another; of two that overlap, the later write may put
  back what the earlier one read.
- ArchiveRuns.ReportsSound: for ids with one recipient; with more, `ArchiveRuns.ReportSoundInRun` says when.
- SendBudget.WindowWithinBudget: sends the store could not charge are accepted and not counted; D1's sums are
  taken as exact integers.
- FanOut.FanOutWith: the tally's 32-bit counters are unbounded here; the fan-out is capped at 500.
- SQLite's limit on a pattern's length, and NUL characters in a box's type.
- Transcript listing, sweep and purge; HTTP routing, sessions, sockets, push notifications, presigned URLs and
  logging: bindings and plumbing.
- `src/message_hub_sql.rs` and `src/hub_store.rs`: the hub is only an environment of the archive.
