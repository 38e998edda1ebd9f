# Tele-bot processing pipeline, modelled in Dafny

Tele-bot receives posts from Telegram channels through a webhook and
stores each one as a record in a Firestore collection. A worker then
processes the unprocessed records in batches of 50. For each record it
lower-cases and canonicalises the text and fingerprints it with SHA-256.
It classifies the text as a relevant job post with four fixed keyword
rules. It forwards a relevant post to one personal chat unless a record
with the same fingerprint has already been forwarded.

This project models that pipeline. It has these parts:

- `text.dfy` (module `Text`): substring search, ASCII lower-casing and decimal rendering.
- `classifier.dfy` (module `Classifier`):
  - the four pattern tables
  - `containsAny`, `excludes2025` and `isRelevant`
- `normalizer.dfy` (module `Normalizer`): `normalizeText`.
  - The URL, e-mail and phone-number deletions are supplied as arbitrary string functions (`Scrubbers`).
  - Every other step is concrete.
- `fingerprint.dfy` (module `Fingerprint`): `computeFingerprint`.
  - SHA-256 is an arbitrary function onto 32-byte digests.
  - The 400-character window and the lower-case hex encoding are concrete.
- `records.dfy` (module `Records`):
  - the stored record (`TelegramMessage`)
  - the inbound update types
  - the `"<chat>_<message>"` document ID
- `store.dfy` (module `Store`):
  - the collection as `map<string, Record>`
  - `storeMessage`, `fetchUnprocessed`, `updateProcessingResult`, `markForwarded` and `isFingerprintForwarded`
  - the store invariant `Valid`: every record is well formed, and at most one record is forwarded per fingerprint
- `ingestion.dfy` (module `Ingestion`): the webhook's update-to-record mapping and the overwrite it performs.
- `worker.dfy` (module `Worker`):
  - `processOne`, as a state transformer on the store
  - one worker pass, as a sequential fold of `processOne` over at most 50 fetched records
  - `formatMessage`

Some inputs of a worker pass are not computed by the model. They are parameters:

- the collection's index order, which decides what a `Limit(50)` fetch returns
- for each batch position, whether the snapshot fails to decode and whether the dedup query fails (`Conditions`)
- the clock reading stored as `processed_at`

Normalisation as coded is not idempotent. "123.456.789" survives the phone rule because the dots break the
digit run. The dots then become spaces, and a second pass deletes the whole
run. The model follows the code. It proves idempotence only when the three
deletions leave the normal form unchanged (`NormalizeIdempotentWhenDeletionsInert`).

## Model

| member | source | states |
|---|---|---|
| Text.Lower | main.go:176 | `strings.ToLower` on ASCII: same length, no upper-case letter left, every upper-case letter replaced by its lower-case partner and every other character kept; `isRelevant` applies the same function at main.go:222 |
| Text.Contains | main.go:200 | `strings.Contains` holds exactly when the pattern occurs at some position of the text |
| Classifier.ContainsAny | main.go:198-205 | true exactly when some pattern of the list occurs in the text; an empty list gives false |
| Classifier.Excludes2025 | main.go:207-219 | true exactly when one of the explicit cohort patterns occurs; whether the text mentions "2025" never changes the answer |
| Classifier.IsRelevant | main.go:221-241 | a text is relevant exactly when its lower-cased form contains no pattern of the four tables |
| Classifier.FirstMatchAccepts | main.go:221-240 | trying reject tables in sequence accepts exactly when no table has an occurring pattern |
| Classifier.RuleOrderIrrelevant | main.go:221-241 | any reordering of the four reject rules classifies every text the same way |
| Classifier.InternAnyCaseRejected | main.go:223-226 | a text containing "intern" in any mix of letter case is rejected |
| Classifier.Batch2024AnyCaseRejected | main.go:207-211 | a text containing "2024 batch" in any letter case is not relevant |
| Classifier.HiringInternsRejected | main.go:80-82 | "Hiring interns for 2025" is not relevant; mentioning 2025 does not rescue it |
| Classifier.UnlistedCohortAccepted | main.go:97-100 | "2026 batch" is relevant: cohorts outside the explicit table are not rejected |
| Normalizer.ReplaceNonText | main.go:181 | same length; every character outside `[a-z0-9\s]` becomes a space, every other one is kept |
| Normalizer.CollapseSpaces | main.go:182 | whitespace runs become single spaces: no other whitespace, no two adjacent spaces, the non-space characters unchanged and in order |
| Normalizer.CollapseKeepsTrailingSpace | main.go:182 | a trailing whitespace run also becomes one space: the result ends in a space exactly when the input ends in whitespace |
| Normalizer.CollapseKeepsWords | main.go:182 | collapsing keeps the sequence of words (maximal non-space runs) exactly, so no word is split or merged |
| Normalizer.TrimSpace | main.go:184 | the result is a contiguous slice of the input with no whitespace at either end and the same non-space characters |
| Normalizer.TrimKeepsWords | main.go:184 | trimming keeps the sequence of words exactly |
| Normalizer.Canonicalize | main.go:181-184 | the last three steps yield only `a-z`, `0-9` and single inner spaces, and keep every non-space character of the substituted text, grouped into the same words |
| Normalizer.Normalize | main.go:175-185 | the normal form uses only `a-z`, `0-9` and `' '`, with no leading, trailing or doubled space, whatever the three deletions do |
| Normalizer.CanonicalizeFixesCanonical | main.go:181-184 | the concrete steps leave a text already in normal form unchanged |
| Normalizer.NormalizeIdempotentWhenDeletionsInert | main.go:175-185 | normalising twice equals normalising once whenever the deletions leave the normal form alone |
| Fingerprint.HexEncode | main.go:195 | hex encoding doubles the length and emits only lower-case hex digits |
| Fingerprint.HexRoundTrip | main.go:195 | decoding the lower-case hex encoding gives back the bytes |
| Fingerprint.HexEncodeInjective | main.go:195 | two byte strings encode alike exactly when they are equal |
| Fingerprint.FingerprintInput | main.go:188-192 | the hashed text is the normal form cut to at most 400 characters, is pure ASCII, and is the whole normal form when shorter than 400 |
| Fingerprint.ComputeFingerprint | main.go:187-196 | 64 lower-case hex digits that decode to the digest of the 400-character window |
| Fingerprint.FingerprintsAgreeIffDigestsAgree | main.go:187-196 | two texts share a fingerprint exactly when their windows have the same digest |
| Fingerprint.SameWindowSameFingerprint | main.go:187-196 | texts whose normal forms agree on the first 400 characters, or agree outright, get the same fingerprint |
| Fingerprint.FingerprintIgnoresCase | main.go:176 | texts equal up to letter case get the same fingerprint |
| Records.DocIdRoundTrip | main.go:280 | the document ID (`Records.DocId`) is the two decimal IDs joined by `_`: splitting at the first underscore and parsing recovers the chat and message IDs |
| Records.DocIdInjective | main.go:280 | two messages share a document ID exactly when chat ID and message ID both agree |
| Store.StoreMessage | main.go:109-115 | the document at the ID is created or replaced by the given record; every other document is unchanged |
| Store.FetchUnprocessed | main.go:117-124 | given an index that lists every document, exactly min(`limit`, backlog size) distinct documents, each unprocessed and read as stored; when the backlog fits in `limit`, every unprocessed document is taken |
| Store.UpdateProcessingResult | main.go:126-148 | only the four processing fields of the named document change, set together; a missing document is left missing |
| Store.MarkForwarded | main.go:150-158 | only the forwarded flag of the named document changes, and it becomes true |
| Store.ForwardedCopyIsUnique | main.go:160-173 | the `isFingerprintForwarded` query (`Store.IsFingerprintForwarded`), under the invariant, says yes exactly when one document is forwarded under the fingerprint, and no exactly when none is |
| Ingestion.ToRecord | main.go:260-305 | `message` wins over `channel_post`; the update is dropped exactly when the message has no text, caption, photo or document; otherwise the entry has the composite ID and a fresh unprocessed, unforwarded record holding the message text |
| Ingestion.HandleUpdate | main.go:260-313 | a dropped update or a failed write leaves the store as it was; otherwise the store gains or overwrites exactly the entry's document with the entry's record, and every other document is unchanged |
| Ingestion.EmptyUpdateIgnored | main.go:271-277 | an update with no text, caption, photo or document leaves the store unchanged |
| Ingestion.MessageTakesPrecedence | main.go:261-264 | when both payloads are present the channel post has no effect |
| Ingestion.CaptionIsNotStored | main.go:291-295 | a caption-only media post is stored with empty text |
| Ingestion.RedeliveryOverwrites | main.go:307-313 | a redelivered update replaces the record wholesale, discarding any processing state reached in between |
| Ingestion.IngestionPreservesValid | main.go:291-313 | ingestion keeps the store invariant |
| Worker.FormatMessage | main.go:460-466 | the banner, then the channel name, then exactly `"\n\n"`, then the message text verbatim |
| Worker.QueryAfterUpdate | main.go:434-448 | after the processing update, the dedup query is true exactly when the document itself was forwarded or another document is forwarded under the fingerprint |
| Worker.Transition | main.go:422-458 | only the processed document changes; a decode failure changes and sends nothing; the record gets the verdict and is newly forwarded exactly when relevant, the query succeeds and no other copy is forwarded; a message is sent exactly when the document is newly forwarded |
| Worker.ProcessOne | main.go:416-458 | only the processed document may change and the set of documents stays the same; a decode failure changes and sends nothing; anything sent is the formatted message of that document |
| Worker.ProcessOneClassifiesAndForwardsFirst | main.go:416-458 | a fetched record ends processed with its own text's classification and fingerprint, and forwarded exactly when relevant, the query succeeds and no other copy was forwarded; an irrelevant record ends unforwarded |
| Worker.NewForwardIsOnlyCopy | main.go:446-457 | a newly forwarded document shares its fingerprint with no other forwarded document |
| Worker.ProcessOneKeepsAtMostOne | main.go:416-458 | processing a not-yet-forwarded document keeps at most one forwarded copy per fingerprint |
| Worker.ProcessOneKeepsRecordsValid | main.go:416-458 | processing a fetched document keeps every record well formed |
| Worker.ProcessOnePreservesValid | main.go:416-458 | processing a fetched document keeps the store invariant |
| Worker.ProcessOneEvolves | main.go:416-458 | processing never changes a text and never clears the processed or forwarded flag |
| Worker.RunBatch | main.go:407-409 | the batch loop only touches batch documents, keeps texts, never clears a flag, and sends no more messages than the batch has documents |
| Worker.RunBatchSendsNewForwards | main.go:407-409 | the messages sent are exactly the formatted messages of the batch documents the run newly forwards, one each, in batch order |
| Worker.StepForwardsOnlyForwardable | main.go:442-457 | `processOne` forwards a document only when it decodes, its text is relevant and the dedup query succeeds |
| Worker.RunBatchForwardsOnlyForwardable | main.go:407-409 | every batch document that ends forwarded decoded, had a relevant text and met no query fault |
| Worker.NewHolderIsForwardable | main.go:407-409 | a document forwarded under a fingerprint with no earlier forwarded copy is a fault-free relevant batch document with that fingerprint |
| Worker.RunBatchSendsOncePerFingerprint | main.go:407-409 | the messages sent are those of the newly forwarded batch documents, and each of these holds a fingerprint no other forwarded document holds: one message per fingerprint, never repeating an earlier copy |
| Worker.RunBatchPreservesValid | main.go:407-409 | a run over a fetched batch keeps the store invariant |
| Worker.RunBatchProcessesBatch | main.go:407-409 | every batch document that decodes ends processed |
| Worker.RunBatchSkipsUndecodable | main.go:423-425 | a batch document that fails to decode is left exactly as it was |
| Worker.RunBatchClaimsFingerprint | main.go:407-409 | after the run, a fingerprint is forwarded if it already was or some fault-free relevant batch document has it |
| Worker.NewClaimComesFromBatch | main.go:407-409 | a document forwarded under a fingerprint with no earlier forwarded copy is a batch document with that fingerprint |
| Worker.RepostsClassified | main.go:407-409 | a fault-free relevant batch document ends processed with its fingerprint |
| Worker.DuplicatePostsForwardedOnce | main.go:407-409 | two batch documents that are relevant with the same fingerprint, where neither has a decode or query fault, no document is forwarded under that fingerprint beforehand, and no other batch document is relevant with that fingerprint and fault-free: both end processed and exactly one ends forwarded |
| Worker.WorkerPass | main.go:394-409 | a failed fetch changes and sends nothing; processed documents are never touched; at most 50 messages are sent |
| Worker.WorkerPassPreservesValid | main.go:394-409 | a worker invocation keeps the store invariant |
| Worker.EmptyBacklogChangesNothing | main.go:394-409 | with nothing unprocessed an invocation changes nothing and sends nothing |
| Worker.WorkerPassProcessesBatch | main.go:394-409 | a successful invocation fetches min(50, backlog size) documents, and each one that decodes ends processed |
| Worker.WorkerPassClearsSmallBacklog | main.go:394-409 | a backlog of at most 50 documents that all decode is fully processed by one invocation |

## Left out

- HTTP transport is not modelled. This covers method checks, JSON decoding, status codes and response bodies. A malformed update is handled like any other dropped update.
- The Firestore client and environment lookups are not modelled: `getFirestoreClient`, `telegramAPIURL`, `mustGetPersonalChatID` and `PORT`. A client error on the webhook side is the `writeFails` flag of `HandleUpdate`. On the worker side it ends the invocation like a failed fetch.
- `sendTextMessage` and `forwardMessage` make network calls. They are not modelled. A send is the text appended to the pass's `sent` list, because `processOne` ignores its outcome.
- Failures of `updateProcessingResult` and `markForwarded` are ignored by `processOne`. They are modelled as always succeeding. An update of a missing document changes nothing.
- SHA-256 internals are not modelled. The hash is an arbitrary function onto 32 bytes.
- The URL, e-mail and phone regular expressions are not modelled. They are arbitrary string functions.
- `strings.ToLower` is modelled as ASCII lower-casing only. Non-ASCII case mappings are not modelled.
- Firestore's byte-wise index order is not modelled. The index order is a parameter, assumed to list every document of the collection once; `Where`/`Limit` take its unprocessed prefix.
- Timestamps (`time.Now`, `time.Unix`) are opaque values. `time.Unix` is modelled as seconds times 10^9 nanoseconds.
- Go's 64-bit and platform `int` widths are not modelled. IDs and dates are unbounded integers.
- The race between concurrent worker invocations is not modelled. Invocations run one after another, as do the records of a batch.
- A webhook write that lands between a pass's fetch and the processing of a fetched document is not modelled. The batch lemmas assume every fetched snapshot is still the stored record when it is processed (`FreshFrom`), and the `Classified` part of `Valid` after a pass depends on that.
- The forwarded outcome of `processOne` is stated against the store as it was before the call. This matches the code only because no other writer runs during the call.
- A GET liveness request and a non-POST method never reach the batch path of the worker. They are not modelled.
