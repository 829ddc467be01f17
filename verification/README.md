# Ankusa consumers and SDK codecs, verified

A Dafny model of what sits between an Ankusa deployment and the code that acts
on its webhooks: the queue workers of `examples/`, and the decoders, verifiers
and request builders of the SDKs they rely on.

* `Fifo` is a state machine of any number of workers on one SQS FIFO queue with
  a dead-letter queue. Each step is one stretch of worker code between two
  awaits, or a step of the environment. Requests fail, take effect with the
  reply lost, and processes die at any await. `SqsWorker` holds what the
  TypeScript and the Python worker read out of a body, and the batch loop both
  share, written as the loop it is and proved to be a run of the machine under
  interference from everyone else. `JavaScript` is what the TypeScript workers'
  conversions make of JSON values of any type.
* `JetStream` is the same for replicas of the JetStream consumer, with its
  bounded dedupe memory, lost acks and arbitrary redelivery.
* `Fleet` is the Postgres upsert and the RabbitMQ callback around it.
* `Message` has the decoder twice: as the published, ordered rule list
  (`Decode`) and as the TypeScript procedure (`DecodeMessage`). `Contract` says
  on the JSON what both do: which object is accepted as which message, and which
  error is given for which other input. `ClaimRef`, `Base64`, `Keys` and
  `ClaimCheck` are the pieces the decoder and the workers use.
* `Signature` has the Go and the Rust verifier of Standard Webhooks signatures.
* `Urls` has the Rust request printers, `SourcesClient` the Python client with
  its version latch.

SHA-256 and HMAC are function parameters, so every statement holds for any
digest. JSON text parsing is taken as done: inputs are JSON values, or the fact
that the text was not JSON. Object keys the decoder knows are constructors of
`Json.Key`; the ten nullable strings of a message are one map, `texts`.
Clocks, network answers and the order of events are parameters or steps, and
so are the limits of a process: how deep conversions may nest and how long a
buffer may be (`JavaScript.Runtime`), which text standard output takes and how
bodies and errors come out as text (`SqsWorker.Output`), and what the database
stores for a JSON value (`Fleet.Platform`). What output takes is an open
predicate, so the statements hold for every encoding; UTF-8 refuses lone
surrogates, which no Dafny `char` is, so they are among whatever texts the
predicate refuses. The texts of Python's own recursion and encoding errors are
ASCII and taken to print.

Assumed of the brokers: a FIFO receive hands out, for every message, each
earlier message of its group that is still on the queue, before it (`FifoBatch`);
JetStream `ack`, `term` and `nak` do not throw, though they may be lost. Where a
result says a message can be settled, SQS and the streams do as asked. SQS can
refuse a dead-letter send every time, for a failure reason it does not take as
an attribute value (a version of `"\u0000"` makes one); the safety results cover
that as a refused request.

Where the code does not do what is said of it, the model follows the code:

* The workers mean to dead-letter what no retry can help. The TypeScript SQS
  worker instead backs off, for good, a body of `null`, a version that does not
  convert to text, and a hook whose claim, or whose inline body or printed
  members, throw on conversion (`Poison`). With SQS doing as asked, that is
  exactly what no reply of the gateway lets it settle (`PoisonExactly`), and
  such a body blocks its group until SQS redrives it (`PoisonBlocks`).
* The Python worker backs off a body its decoder raises something else on, such
  as a recursion error, and a hook whose id, key, source or start of the body
  cannot be printed; and it dies of a refusal whose reason cannot be printed
  (`UnprocessableExactly`). A hook with such a source is handled first and
  blocks its group all the same (`UnprintableSourceBlocks`). No JetStream body
  is stuck (`NoBodyIsStuck`).
* Two events can share an idempotency key, with or without the replay suffix,
  and two deliveries a signature. When they do is exact: `SharesKeyExactly` with
  `ComputedKeysSeparate`, `SharesReplayKeyExactly` with `ReplaySuffixSeparates`,
  and `OtherReadingExactly`.
* The Go and the Rust SDK read some secrets differently (`SecretsAgree`), and
  treat a timestamp past int64 differently (`VerdictsAgree`).
* A decoded message is said to serialize back to the wire shape. Its null
  members are written as `null`, and `sha256: null` is refused, so it decodes
  back exactly when it has a digest (`WrittenDecodes`).
* The fleet consumer logs "dead-lettering" when it rejects without requeue, but
  declares its queue with no dead-letter exchange: the message is gone
  (`DropsExactly`, `QueuedRecordedOrDropped`). What it can only requeue is in
  `LeavesExactly`.
* Go's int64 tolerance test is wrong for clocks far below zero
  (`GoLateExactly` has the exact condition).
* The published rule list does not say where `verification` is checked; the
  model puts it where the code does, after `sha256`.

## Model

| member | source | states |
|---|---|---|
| Fifo.NothingLost | examples/kafka-sqs-consumer/worker/src/worker.ts:94-111 | over every run of any number of workers, with crashes, refused requests and lost replies, each message ever enqueued is on the queue, on the dead-letter queue, or has an id some worker remembered after handling it |
| Fifo.GroupOrder | examples/kafka-sqs-consumer/worker/src/worker.ts:125-157 | over every run, whenever a worker resolves, handles, removes or dead-letters a message, every earlier message of its FIFO group has left the queue and was handled or dead-lettered |
| Fifo.AtMostOnce | examples/kafka-sqs-consumer/worker/src/worker.ts:90-92 | over every run, no process remembers one id as handled twice in its lifetime; ids that are objects or arrays are never equal, so a redelivery with one is handled again |
| Fifo.SettledPrefix | examples/kafka-sqs-consumer/worker/src/worker.ts:126-136 | over every run, in each batch the settled messages of a group come before the backed-off ones; a settled message is off the queue, and its id is processed or it is on the dead-letter queue |
| Fifo.DeadLettersExactly | examples/quickstart/worker.py:46-70 | over every run, a worker starts dead-lettering exactly on an unreadable message of an open group or a final claim outcome for an unprocessed id, in each case one it can report; a network failure, 5xx, 408 or 429 never does |
| Fifo.HeldBlocksGroup | examples/kafka-sqs-consumer/worker/src/worker.ts:146-155 | over every run without a redrive of it, a message stuck for workers that do not know its id, and either stuck for those that do or of an id nobody remembers, is still on the queue, and no worker touches a later message of its group |
| Fifo.StuckBacksOff | examples/kafka-sqs-consumer/worker/src/worker.ts:138-155 | at an open loop head a message stuck for this worker is backed off, or the process dies, whatever the gateway replies, and it stays on the queue |
| Fifo.SettlesExactly | examples/kafka-sqs-consumer/worker/src/worker.ts:138-155 | at an open loop head some gateway reply settles the message exactly when it is not stuck for this worker, given what this worker remembers |
| Fifo.PassSettles | examples/kafka-sqs-consumer/worker/src/worker.ts:138-155 | one pass of the loop body takes the message off the queue exactly when this gateway reply settles it for this worker: unreadable, a known id, a final claim outcome, or a body in hand, with nothing throwing around the handler or on reporting |
| Fifo.PassEffect | examples/kafka-sqs-consumer/worker/src/worker.ts:138-155 | all one pass of the loop body does, reply by reply: the message leaves the queue exactly when settled, the dead-letter queue gains it exactly when unreadable or finally refused and reportable, and its id is handled exactly when unknown with a body in hand and a handler that returns |
| Fifo.FirstOfGroupSettles | examples/kafka-sqs-consumer/worker/src/worker.ts:125-131 | an idle worker that receives the first live message of a group can settle it exactly when it is not stuck for it, whatever earlier batches blocked |
| Fifo.RunKeeps | examples/kafka-sqs-consumer/worker/src/worker.ts:125-187 | every reachable state satisfies the invariant: order ahead of each worker, truthful fates, dedupe memory equal to the ids handled, everything accounted for |
| SqsWorker.PoisonExactly | examples/kafka-sqs-consumer/worker/src/worker.ts:63-88 | with SQS doing as asked, an idle TypeScript worker can settle the first message of a group exactly when its body is not poison to it: a condition on the JSON body and on whether the worker knows its id |
| SqsWorker.BodyExits | examples/kafka-sqs-consumer/worker/src/worker.ts:63-157 | by which exit a JSON body leaves, gateway reply by reply: dead-lettered exactly when not JSON, neither `null` nor an object, of a version other than 1 that prints, with a truthy claim and no truthy digest, or of an unknown id with a final claim outcome; handled exactly at version 1 with an unknown id, printable members and a body in hand |
| SqsWorker.PoisonBlocks | examples/kafka-sqs-consumer/worker/src/worker.ts:125-157 | over every run without a redrive of it, a body that is poison even to a worker knowing every id handled so far stays on the queue and holds up its group |
| SqsWorker.SomePoison | examples/kafka-sqs-consumer/worker/src/worker.ts:70-85 | bodies that are poison: `null`, a version or an id with a `toString` member, a number for an inline body; and one that is not, an inline body with a `length` of 0 |
| JavaScript.TruthyExactly | examples/kafka-sqs-consumer/worker/src/worker.ts:71-76 | the falsy values are `undefined`, `null`, `false`, 0 and the empty text |
| JavaScript.CoercibleExactly | examples/kafka-sqs-consumer/worker/src/worker.ts:70-86 | a value converts to text exactly when no path through nested arrays leads to an object with a `toString` member or past the stack |
| JavaScript.BufferableValues | examples/kafka-sqs-consumer/worker/src/worker.ts:80 | which values a buffer is made of: nothing, text, arrays of values that convert, and objects by their `valueOf`, `length` or `type` and `data` |
| JavaScript.ArgumentsAre | examples/kafka-sqs-consumer/worker/src/worker.ts:76-79 | text reaches `redeem` as it is, a one-item array as its item, anything else as no ref or no digest; a conversion throws exactly for a claim that does not convert, or a ref with a digest that does not |
| SqsWorker.NullBlocks | examples/kafka-sqs-consumer/worker/src/worker.ts:66-70 | over every run without a redrive of it, a body of `null` stays on the queue and holds up its group |
| SqsWorker.PoisonIsStuck | examples/kafka-sqs-consumer/worker/src/worker.ts:63-88 | poison, said of the JSON body, is being stuck, said of the machine, for a worker that knows the id and for one that does not |
| SqsWorker.KnownExactly | examples/kafka-sqs-consumer/worker/src/worker.ts:140 | an id that is an object or an array is never known; any other is, by its value |
| SqsWorker.UnprocessableExactly | examples/quickstart/worker.py:46-78 | for every output encoding, an idle Python worker can settle the first message of a group exactly unless its decoder raises another exception, or its refusal reason, or a known key with its source, or an inline hook's id, source or first 200 bytes cannot be printed |
| SqsWorker.DecodingExits | examples/quickstart/worker.py:46-78 | by which exit a decoding leaves: a refusal that prints is dead-lettered, a claim of an unknown key with a final outcome too, and a body in hand of an unknown key is handled under the idempotency key without the replay suffix, and deleted exactly when what is printed of it can be |
| SqsWorker.UnprintableSourceBlocks | examples/quickstart/worker.py:52-78 | over every run without a redrive of it, an inline hook whose source cannot be printed stays on the queue and holds up its group |
| SqsWorker.BatchWorker.ProcessBatch | examples/kafka-sqs-consumer/worker/src/worker.ts:125-157 | the batch loop is a run of the machine; unless the process dies every message gets exactly one truthful fate, and per group the settled ones come first |
| SqsWorker.BatchWorker.TryMessage | examples/kafka-sqs-consumer/worker/src/worker.ts:138-145 | the try block: nothing caught means removed, a permanent error leaves the message for dead-lettering, any other error blocks its group, and an error that cannot be printed ends the process |
| SqsWorker.BatchWorker.ResolveAndHandle | examples/quickstart/worker.py:57-78 | resolve, handle, remember: nothing caught means the id is remembered and the delete is next; a print that fails after that blocks the group with the id remembered |
| SqsWorker.BatchWorker.DeadLetter | examples/kafka-sqs-consumer/worker/src/worker.ts:100-111 | send then delete; either failing ends the process with its memory gone and the machine agrees on what took effect |
| SqsWorker.BatchWorker.RemoveMessage | examples/kafka-sqs-consumer/worker/src/worker.ts:94-96 | a delete that fails, or whose reply is lost, blocks the group |
| SqsWorker.BatchWorker.BackOffMessage | examples/quickstart/worker.py:98-104 | a back-off that fails ends the process |
| JetStream.NothingLost | examples/jetstream-k8s/consumer/src/worker.ts:189-216 | over every run of any number of replicas with redelivery, lost acks and crashes, each published message is in the stream, in the dead-letter stream, or has its key in the ledger |
| JetStream.LeavesOnlySettled | examples/jetstream-k8s/consumer/src/worker.ts:218-270 | over every run, each message out of the stream was settled at some earlier step by a replica holding it, by an ack after the ledger replied or a term after the dead-letter stream did; and a body was resolved under its key, or it is in the dead-letter stream and was condemned |
| JetStream.LedgerIsEarned | examples/jetstream-k8s/consumer/src/worker.ts:252-266 | over every run, for each key in the ledger, or about to be announced as new, some replica resolved a body under it at an earlier step |
| JetStream.DeadLettersAreCondemned | examples/jetstream-k8s/consumer/src/worker.ts:231-243 | over every run, each message in the dead-letter stream was found invalid, or got a final outcome for its claim, at an earlier step |
| JetStream.SeenIsWindow | examples/jetstream-k8s/consumer/src/worker.ts:54-63 | over every run a replica's memory is exactly the last 20000 keys it remembered, in order, and equal remembered keys are more than 20000 apart |
| JetStream.RepeatsAreFarApart | examples/jetstream-k8s/consumer/src/worker.ts:252-274 | between two answered non-duplicate announcements of a key by one process lie 20000 other pairwise distinct remembered keys |
| JetStream.RememberSlides | examples/jetstream-k8s/consumer/src/worker.ts:60-63 | remembering a key outside the window slides it by one and keeps repeats apart |
| JetStream.DeadLettersExactly | examples/jetstream-k8s/consumer/src/worker.ts:231-250 | over every run a replica starts dead-lettering exactly on an invalid message or a final claim outcome for a key not in its memory |
| JetStream.PassSettles | examples/jetstream-k8s/consumer/src/worker.ts:252-270 | a live message delivered to a waiting replica leaves the stream exactly unless the gateway leaves the claim of a new key open, when the other requests are answered and the ack or term arrives |
| JetStream.PassEffect | examples/jetstream-k8s/consumer/src/worker.ts:252-270 | all one delivery does, reply by reply: dead-lettered exactly when invalid or finally refused with a new key, counted by the ledger exactly when its key is known or its body in hand, and then remembered when new |
| JetStream.BodyExits | examples/jetstream-k8s/consumer/src/worker.ts:252-270 | on the decoded body: with its own claim and digest delivered, inline, or known, its idempotency key without the replay suffix is counted; with them finally refused it is dead-lettered; an invalid body is dead-lettered |
| JetStream.NoBodyIsStuck | examples/jetstream-k8s/consumer/src/worker.ts:222-250 | whatever the message body, some gateway reply lets the replica it is delivered to settle it |
| JetStream.ReadInvalidExactly | examples/jetstream-k8s/consumer/src/worker.ts:65-71 | the guard against a claim without a digest never fires on a decoded message |
| JetStream.Consumer.RememberKey | examples/jetstream-k8s/consumer/src/worker.ts:60-63 | add, then evict the oldest key past the cap |
| JetStream.Consumer.AnnounceThenAck | examples/jetstream-k8s/consumer/src/worker.ts:197-216 | the message leaves the stream exactly when the ledger replied for its key and the ack arrived; the key is remembered only after the reply, and only when new |
| JetStream.Consumer.DeadLetterThenTerm | examples/jetstream-k8s/consumer/src/worker.ts:222-229 | the message leaves the stream exactly when the dead-letter stream took it and the term arrived |
| JetStream.Consumer.Handle | examples/jetstream-k8s/consumer/src/worker.ts:252-270 | success means the key is in the ledger and in memory; the memory changes only by remembering a new, answered key |
| JetStream.Consumer.Consume | examples/jetstream-k8s/consumer/src/worker.ts:272-274 | the sequential loop keeps the memory to its window |
| Fleet.RowsAreExact | examples/fleet-e2e/consumer/src/worker.ts:54-74 | after any upserts a key has a row exactly when recorded; the row counts its records and lists their distinct ids in first-arrival order |
| Fleet.FirstRecordInserts | examples/fleet-e2e/consumer/src/worker.ts:55-58 | the columns only an insert writes are those of the first record of the key |
| Fleet.DeliveriesAddUp | examples/fleet-e2e/consumer/src/worker.ts:59-63 | deliveries over all rows sum to the number of records |
| Fleet.TablesAgree | examples/fleet-e2e/consumer/src/worker.ts:6-12 | any order of the same records gives the same keys, counts and id sets |
| Fleet.ProcessedWebhooks.RecordHook | examples/fleet-e2e/consumer/src/worker.ts:54-74 | the in-place upsert is the table of the records so far, other rows untouched |
| Fleet.QueuedRecordedOrDropped | examples/fleet-e2e/consumer/src/worker.ts:104-123 | over every run each message body is queued, or the id read out of it is in the row of the key read out of it, or it was dropped, which only a body with a truthy claim can be |
| Fleet.DropsExactly | examples/fleet-e2e/consumer/src/worker.ts:113-120 | the callback drops a message exactly on a truthy claim without a truthy digest, or a final outcome for the claim read out of it |
| Fleet.LeavesExactly | examples/fleet-e2e/consumer/src/worker.ts:45-74 | a queued message can leave the queue exactly unless reading it throws, or it has no claim and the database refuses the row read out of it |
| Fleet.ConsumeExits | examples/fleet-e2e/consumer/src/worker.ts:45-74 | all one consumption of a queued object does: the record written is under its `idempotency_key`, or its `id` where that is missing or `null`, with its own id, source, tenant and content, exactly when its body is in hand and the write succeeds; dropped exactly on a truthy claim with no truthy digest or a final outcome |
| Fleet.OthersAreRequeued | examples/fleet-e2e/consumer/src/worker.ts:107-121 | text that is not JSON, and JSON that is no object, is requeued with nothing else changed |
| Fleet.RowGains | examples/fleet-e2e/consumer/src/worker.ts:55-63 | a record lands in a new row with its own columns and one delivery, or adds one delivery and its id to the row there, and no other row changes |
| ClaimCheck.RedeemOutcome | packages/sdk-typescript/src/claim-check/client.ts:64-113 | bytes come back exactly for a well-formed request, a 200 and a matching digest; retryable exactly for a network failure, 408, 429 or any status outside 4xx and 200; final otherwise; and an error answer, but for a 404, whose body does not render is none of these |
| ClaimCheck.ResolveOutcome | packages/sdk-python/src/ankusa/claim_check/client.py:98-116 | resolving is permanent exactly on a final claim outcome, gives a body exactly inline or when the gateway delivers it, and quotes the answer in its error exactly for a request that ended in neither a 200 nor a 404 and renders |
| ClaimCheck.ErrorsAre | packages/sdk-typescript/src/claim-check/client.ts:93-109 | which error each outcome is: 404 not found, a wrong digest an integrity error, other 4xx rejected with that status, a malformed ref or digest invalid |
| Message.DecodeMessage | packages/sdk-typescript/src/message/index.ts:136-273 | for every input the procedure returns the error of the first violated rule of the published order, or the message |
| Contract.AcceptedExactly | packages/sdk-typescript/src/message/index.ts:136-273 | an object is accepted as a message exactly when it spells it member by member; the only freedoms are absent or `null` optional texts, absent headers, further verification members and any base64 text of the body |
| Contract.RefusedExactly | conformance/README.md:113-138 | for every input and every error, the error is given exactly for the inputs it is meant for, the first fault in the published order winning |
| Message.CheckBody | packages/sdk-typescript/src/message/index.ts:206-235 | the interleaved body and claim checks decide as the published order does |
| Message.CheckScalars | packages/sdk-typescript/src/message/index.ts:149-171 | version and required fields decide as the published order does |
| Message.CheckNullable | packages/sdk-typescript/src/message/index.ts:172-188 | the loop over the nullable strings decides as the published order does |
| Message.CheckHeaders | packages/sdk-typescript/src/message/index.ts:189-199 | headers are accepted exactly as an object of strings and copied whole |
| Message.DecodeVerification | packages/sdk-typescript/src/message/index.ts:116-126 | the verification object is accepted and read as the rule says |
| Message.FirstFrom | conformance/README.md:113-138 | the first violated rule is violated and none before it is |
| Message.DecodeRender | packages/sdk-typescript/src/message/index.ts:242-272 | the decoder's image is exactly the canonical messages, and rendering one with null members left out decodes back to it |
| Message.WrittenDecodes | packages/sdk-typescript/src/message/index.ts:200-203 | any object that writes a canonical message, nulls spelled out or left out, decodes back to it, except that a spelled-out null digest is refused |
| Message.UnknownKeysIgnored | conformance/README.md:140-142 | objects that agree on the known keys decode alike, errors included |
| Message.VersionOnlyChangesV | packages/sdk-typescript/src/message/index.ts:95-104 | moving a message between supported versions changes `v` and nothing else, errors included |
| Keys.ComputedKeysSeparate | packages/sdk-typescript/src/message/index.ts:296-311 | unless one of the two is ambiguous, computed keys agree exactly for deliveries of one event |
| Keys.KeyPrecedence | packages/sdk-typescript/src/message/index.ts:296-315 | a shipped key wins over all else, then tenant or `default`, source and dedupe key, then the id; empty counts as none; the replay id goes last and only on request |
| Keys.SharesKeyExactly | packages/sdk-typescript/src/message/index.ts:310 | a delivery shares its computed key with a different event that is not ambiguous exactly when it is ambiguous: its tenant or source has a colon, or, with no dedupe key, its id reads as tenant, source and dedupe key |
| Keys.ColonsCollide | packages/sdk-typescript/src/message/index.ts:310 | tenant `a:b`, source `c`, dedupe key `d` has the key of tenant `a`, source `b`, dedupe key `c:d` |
| Keys.ReplaySuffixSeparates | packages/sdk-typescript/src/message/index.ts:313-315 | with no `#replay:` in either base, replay-aware keys agree exactly when base and replay id do |
| Keys.SharesReplayKeyExactly | packages/sdk-typescript/src/message/index.ts:313-315 | a delivery shares its replay-aware key with one of another base or replay id, and no `#replay:` in its base, exactly when its own base has `#replay:` somewhere |
| Keys.MarksCollide | packages/sdk-typescript/src/message/index.ts:313-315 | base `x#y` with replay id `z` has the key of base `x#y#replay:z` with none |
| Keys.BackOffGrows | examples/kafka-sqs-consumer/worker/src/worker.ts:113-116 | delays never shrink, stay within 30 and 900 seconds, and are 900 exactly from the sixth receive on |
| Keys.BackOffTotal | examples/quickstart/worker.py:98-104 | the delays of n receives, n at least 5, total 930 + 900(n - 5) seconds |
| ClaimRef.ParseIsGrammar | packages/sdk-rust/src/claim_ref.rs:65-128 | the hand-written parser returns parts exactly when the two-form grammar reads them: same language, one decomposition, printing restores the ref |
| ClaimRef.RefsAre | packages/sdk-rust/src/claim_ref.rs:5-8 | exactly the texts `urn:ankusa:claim:v1:` tenant, id and `urn:ankusa:claim:v2:` tenant, id, expiry, signature parse, each to its parts |
| ClaimRef.PathsAre | packages/sdk-rust/src/claim_ref.rs:39-47 | the gateway path is `/v1/claims/` tenant `/` id, with `?exp=` and `&sig=` for a signed ref |
| ClaimRef.PathIsInjective | packages/sdk-rust/src/claim_ref.rs:39-47 | accepted refs with one gateway path are one ref |
| ClaimRef.PartsAreGrammar | packages/sdk-typescript/src/claim-check/ref.ts:26-29 | the character tests of the parser are the character classes of the regular expressions |
| Base64.DecodeEncode | packages/sdk-typescript/src/message/index.ts:219-221 | both decoders restore what was encoded |
| Base64.EncodeDecode | packages/sdk-rust/src/signature.rs:125 | the strict decoder accepts nothing but what the encoder writes, pad bits included |
| Base64.StrictIsCanonicalLenient | packages/sdk-rust/src/signature.rs:159-160 | strict acceptance is lenient acceptance of canonical text, with the same value |
| Base64.LenientIsPattern | packages/sdk-typescript/src/message/index.ts:106-114 | the lenient decoder accepts exactly the SDK's regular expression |
| Base64.StrictIsPattern | packages/sdk-rust/src/signature.rs:159-160 | the strict decoder accepts exactly the regular expression with the unused bits of the last symbol zero |
| Base64.StrictWithinGo | packages/sdk-go/signature.go:133-140 | whatever the strict decoder accepts, Go's decoder, which skips line breaks, accepts with the same value |
| Base64.GroupIsNumber | packages/sdk-go/signature.go:116 | a group of symbols is the 24-bit number of its three octets |
| Base64.Vectors | packages/sdk-go/signature.go:116 | the ends of the alphabet and the first test vectors of RFC 4648 |
| Signature.VerifySignature | packages/sdk-go/signature.go:56-126 | the Go verifier accepts exactly when the checks pass and some key's base64 digest is some `v1,` entry, with the first failing check's error otherwise |
| Signature.GoAcceptsExactly | packages/sdk-go/signature.go:56-126 | accepted, with the id and the timestamp as a number, exactly for keys, three non-empty headers, a numeric timestamp below 2^63 that is not late, and `v1,` with the base64 digest of the dotted content under some key among the space-separated entries |
| Signature.GoRefusesExactly | packages/sdk-go/signature.go:58-125 | each problem is reported exactly when it is the first: secrets, id, timestamp, signature, timestamp form, tolerance, match |
| Signature.SearchText | packages/sdk-go/signature.go:113-122 | the nested loops with early return find exactly a matching pair |
| Signature.CutEntries | packages/sdk-go/signature.go:106-111 | the candidates are what follows `v1,` in the entries that start with it, in order |
| Signature.DecodeSecrets | packages/sdk-go/signature.go:128-148 | all keys in order, or nothing when there is no secret or one is invalid |
| Signature.SecretKeys | packages/sdk-go/signature.go:133-145 | the key of a secret is what follows `whsec_` in base64, else its own bytes, and never empty, in both SDKs |
| Signature.KeysAre | packages/sdk-go/signature.go:128-147 | one key per secret in order, or nothing when there is no secret or one has no key |
| Signature.VerifySignatureRust | packages/sdk-rust/src/signature.rs:84-148 | the Rust verifier, decoding candidates and comparing bytes, against its own statement |
| Signature.RustAcceptsExactly | packages/sdk-rust/src/signature.rs:84-148 | the same for Rust, with a timestamp below 2^64 and the plain distance to the clock |
| Signature.RustRefusesExactly | packages/sdk-rust/src/signature.rs:84-148 | each problem is reported exactly when it is the first |
| Signature.SearchBytes | packages/sdk-rust/src/signature.rs:128-142 | the nested loops find exactly a key whose digest is a decoded candidate |
| Signature.MatchesAgree | packages/sdk-rust/src/signature.rs:122-142 | encode-then-compare and decode-then-compare find the same |
| Signature.VerdictsAgree | packages/sdk-go/signature.go:84-125 | with the same keys and any clock and tolerance both SDKs take, the two return one verdict exactly unless they reach a timestamp past int64, which Go calls invalid and Rust judges by its distance |
| Signature.PastInt64Differs | packages/sdk-go/signature.go:88-91 | every timestamp from 2^63 up to 2^64, by its numeral, is invalid to Go and out of tolerance to Rust at clock 0 and tolerance 300 |
| Signature.NumeralIsValue | packages/sdk-go/signature.go:88 | the value of a decimal numeral is its number |
| Signature.LeadingZero | packages/sdk-go/signature.go:88 | a leading zero does not change the value of a numeral |
| Signature.SecretsAgree | packages/sdk-go/signature.go:133-140 | the two read a secret alike exactly unless, after `whsec_` and without line breaks, it is non-empty base64 text, and it has a line break or unused bits that are not zero |
| Signature.LooseSecretExists | packages/sdk-rust/src/signature.rs:150-171 | `whsec_AB==` is a key to Go and invalid to Rust |
| Signature.AcceptTheSame | packages/sdk-rust/src/signature.rs:150-171 | with no such secret, and no timestamp past int64 inside the tolerance, the whole verifiers accept the same deliveries with the same result |
| Signature.TrimIsEmpty | packages/sdk-go/signature.go:85-87 | trimming digits from both ends leaves nothing exactly when all characters are digits |
| Signature.GoLateExactly | packages/sdk-go/signature.go:101-103 | for any int64 clock and tolerance the test is the distance test exactly unless the difference wraps into the tolerance, which needs a negative clock |
| Signature.GoLateWraps | packages/sdk-go/signature.go:101-103 | a clock of -2^63 and a timestamp of 0 pass for within 300 seconds |
| Signature.OrderIrrelevant | packages/sdk-go/signature.go:106-122 | the verdict depends only on the set of secrets and the set of `v1,` entries |
| Signature.RotationKeepsAcceptance | packages/sdk-go/signature.go:49-55 | adding a valid secret keeps every acceptance |
| Signature.SignedContentBinds | packages/sdk-go/signature.go:105 | for dot-free ids the signed content determines id, timestamp and body |
| Signature.OtherReadingExactly | packages/sdk-go/signature.go:105 | a signed content is also that of another delivery with a non-empty id and a non-empty numeric timestamp exactly when it has a dot, one or more digits and a dot anywhere past its start other than around its own timestamp |
| Signature.OneSignatureTwoDeliveries | packages/sdk-go/signature.go:105-122 | id `a`, timestamp 5, body `b.7.c` is accepted exactly when id `a.5.b`, timestamp 7, body `c` is, under the same signature, at clock 6 and tolerance 300 |
| Urls.QueryRoundTrip | packages/sdk-rust/src/client.rs:299-332 | splitting the rendered query on `&`, then on the first `=`, and decoding gives back the pushed pairs in order |
| Urls.QueriesPrint | packages/sdk-rust/src/client.rs:299-332 | a query prints as `?` key `=` value, and `&` before each further field |
| Urls.Query.PushStr | packages/sdk-rust/src/client.rs:308-313 | appends one pair, value percent-encoded, in place |
| Urls.Query.PushDisplay | packages/sdk-rust/src/client.rs:315-320 | appends one pair whose value prints as unreserved text |
| Urls.Query.Finish | packages/sdk-rust/src/client.rs:328-331 | the finished text parses back to exactly the pushed pairs |
| Urls.DecodeEncode | packages/sdk-rust/src/client.rs:17-23 | percent-decoding restores any bytes, and the encoding uses only unreserved characters and `%` |
| Urls.OctetsPrint | packages/sdk-rust/src/client.rs:17-23 | letters, digits and `-._~` print as themselves, any other octet as `%` and two upper-case hex digits |
| Urls.RoutePathInjective | packages/sdk-rust/src/routes.rs:203-211 | different accepted ids have different paths, and the id decodes back out of its path |
| Urls.RoutePathsAre | packages/sdk-rust/src/routes.rs:201-211 | no path for the empty id, `.` and `..`; any other id is percent-encoded under `/admin/routes/` |
| Urls.SegmentIsPlain | packages/sdk-rust/src/routes.rs:201-205 | an accepted id's segment is not empty, not a dot segment, and has no `/`, `?` or `#` |
| Urls.RoutePathIsOneSegment | packages/sdk-rust/src/routes.rs:207-210 | the path is exactly the three intended segments and dot-segment removal leaves it unchanged |
| SourcesClient.LatchHolds | packages/sdk-python/src/ankusa/sources/client.py:156-170 | over every sequence of calls with a version expected, each tenant request follows a `/health` that reported exactly it |
| SourcesClient.OneHealthSucceeds | packages/sdk-python/src/ankusa/sources/client.py:82-92 | at most one `/health` of a client ever succeeds |
| SourcesClient.MismatchIsFinal | packages/sdk-python/src/ankusa/sources/client.py:166-170 | after a mismatch no tenant request is ever sent, nor was one before |
| SourcesClient.CallsSend | packages/sdk-python/src/ankusa/sources/client.py:156-170 | what one operation sends and caches, outright: nothing for an invalid id or another cached version, a health request first where a version is expected and none is cached, and the tenant request exactly when none is expected or it matches |
| SourcesClient.InvalidIdSendsNothing | packages/sdk-python/src/ankusa/sources/client.py:240-249 | an invalid tenant or name, and only that, sends nothing whatever the latch |
| SourcesClient.PathStaysInTenant | packages/sdk-python/src/ankusa/sources/client.py:47-50 | every path built splits into exactly the intended segments and survives dot-segment removal |
| SourcesClient.PathsAre | packages/sdk-python/src/ankusa/sources/client.py:94-154 | the five operations go to `/v1/tenants/` tenant `/sources`, with `/` name for get, update and delete |
| Urls.DotsTakeBack | packages/sdk-python/src/ankusa/sources/client.py:47-50 | why dot segments are kept out: removal of one takes back the segment before it |
| SourcesClient.Sources.Request | packages/sdk-python/src/ankusa/sources/client.py:94-154 | any operation moves the client as the model says, and sends exactly when the ids are valid and the latch agrees |
| SourcesClient.Sources.EnsureVersion | packages/sdk-python/src/ankusa/sources/client.py:156-164 | fetches at most once, and only with a version expected |
| SourcesClient.Sources.FetchVersion | packages/sdk-python/src/ankusa/sources/client.py:172-192 | one health request; a version comes back exactly for status 200 and a JSON object whose `version` is a string; exactly a body nested too deep, whatever the status, and a 200 with other JSON escape as exceptions that are not the client's own |
| SourcesClient.Sources.CacheVersion | packages/sdk-python/src/ankusa/sources/client.py:162-163 | the cache changes exactly when the answer reports a version |
| SourcesClient.Sources.GetServerVersion | packages/sdk-python/src/ankusa/sources/client.py:82-92 | a version returned is the cached one and the expected one |

## Left out

- The Elixir server, the admin and route clients, HTTP transports, timeouts and response decoding: no code of the workers' guarantees is in them, and each status mapping is one branch.
- SHA-256, HMAC and JSON text parsing: parameters, or done before the model starts.
- SQS retention expiry and JetStream size and age limits, which delete messages on their own; SQS redrive is in the model.
- SqsWorker.UnprocessableExactly: takes the outcome of the Python decoder as given, because that decoder differs from the TypeScript one on an explicit null digest or header map.
- Memory exhaustion, and bodies past the longest string a runtime can make.
- A handler with effects of its own: the handlers of the examples only print.
- Fleet.ProcessedWebhooks.RecordHook: the columns for the body, its digest and `via` stand as what they are computed from, because decoding an inline body there is Node's lenient base64.
- `decodeLifecycle`, `parseHeaders`, `receive` and the trust check: the same shape as `DecodeMessage` with fewer rules.
- The RabbitMQ, NATS, HTTP and event-routing examples: their loops are the chosen ones with steps removed.
- Signature.VerifySignature: header lookup by name and Rust's rejection of header bytes that are not visible ASCII are taken as done; constant-time comparison is plain equality.
- Urls.Query.PushDisplay: takes the printed text of a number or a bool, and its keys are free of `&` and `=`, as every static key of the SDK is.
- Logging, health servers, signal handling and topology set-up.
