# Verified model of the mail forwarder

A Dafny model of the five stateful parts of the forwarder, and proofs of what they keep:

- **Both ends of an SMTP transaction.** `SmtpSession` is the inbound session (a class, changed line by line, with its
  two-mode `SmartBodyBuffer`), proved against a reference `Step`. `SmtpHistory` then explains every delivery from the
  transcript of the connection alone, with none of the session's fields. `SmtpClient` and `SmtpDelivery` run the
  outbound client against that session and prove what a successful transaction means at the other end.
  `DotStuffing`, `BodyBuffer`, `SmtpCommands` and `SmtpAddresses` hold what the two ends rely on, and
  `SmtpLargeMessages` a connection that goes wrong. `SmtpAnswers` says what a client is told, line by line.
- **The outbound retry queue.** `OutboundQueue` is a transition system of table, directory, callers inside
  `enqueue_job`, one worker, failures at every call and crashes between any two steps. `QueueWorker` is the program's
  object; any sequence of its calls is a run of that system. `Backoff` is the delay. `DeliveryErrors` joins the client
  to the queue: which refusals, as the client words them, the queue takes for permanent.
- **The backfill scan.** `BackfillScan` and `BackfillRounds` are the reference: paging through a query that shrinks as
  the loop labels rows, with mail arriving and queries and inserts failing between and inside rounds.
  `BackfillMailbox` is the program's loop, each turn of which is one round. `BackfillGuard` is the one-job-per-tenant
  protocol.
- **The SPF check.** `Spf` is the record parser and the budgeted search; `Cidr` is the mask arithmetic of both
  prefix matchers.
- **Addresses.** `Srs` is the sender rewriting codec; `ReplyMappings` is the reply-token table under interleaving.

`Text` and `Powers` are helpers. What a step asks of its surroundings (lookups, SPF verdicts, clock, keyed hash, message parser,
TLS and disk outcome, database outcome) is a parameter of that step: the `World` record of a session, the `JobFate` and
`EnqueueFate` records of the queue, the resolver of the SPF check. All statements are for every value of these.

`dafny verify dfyconfig.toml` checks the whole project.

## Where the code and its documentation differ

The model follows the code. Each difference below is a theorem with the exact condition and one with an input that
shows the difference.

- A message is not always served by its own recipient: RSET and the end of a message leave `reply_mapping` in place
  (src/inbound/protocol.rs:529, 701, 808-813). Condition: `OwnRecipientServedIff`. Input: `StaleTokenCaptures` builds
  the connection for every token, alias and sender.
- A message of more than 65,536 bytes is forwarded with an empty body and filtered as empty text, because storing a
  spilled body leaves an empty memory buffer behind (src/inbound/protocol.rs:194-213, 619, 647). Condition:
  `ForwardCarriesBodyIff`, `ReadersAfterRun`. Input: `LargeMessageForwardedEmpty`, `ShopMessageForwardedEmpty`.
- The comment on `submit` says that true means queued (src/filter.rs:225-226). With a full channel the job is dropped,
  true is returned, and the tenant is refused for ever after. Condition: `AcceptedIsQueuedIff`. Input:
  `AcceptedJobLost` fills the channel.
- `check_spf_for_domain` says RFC 7208 (src/dns.rs:295). Qualifiers are dropped. Condition: `QualifiersHonouredIff`
  for a domain; for the verdict `QualifiedVerdictIff` within the budget and `QualifiedVerdictByOrder` beyond it.
  Input: `RefusedBlockAuthorized`, where a record that refuses a block authorizes every address of it. And a search
  gives up after ten domains. Condition: `VerdictRightIff`, on the list of domains it looks up, which depends on the
  records alone. Input: `EleventhRecordUnread` with ten `include:` records before the one that matters, and the closed
  instance `OneAddressUnread`.
- `is_permanent_delivery_error` documents "hard 5xx" as permanent and 4xx as transient (src/outbound/mod.rs:591-593)
  but looks for four codes and two phrases anywhere in a text that quotes the command (src/outbound/mod.rs:581-585).
  Condition: `ClassifiedByCodeIff` for every address and every refusal of this server. Inputs:
  `GreylistedAddressGivenUp` (a 451 taken for permanent, and the message dropped), `MissedHardReplyRetried` (a 500,
  502 or 503 taken for transient).
- The documentation of the forwarder (its README.md, lines 15-20) says a reply goes to the rewritten SRS address. The
  session never relays for such an address: it looks the decoded address up as an alias. Condition:
  `ForwardedEnvelopeIsNoToken`, for every token and domain. Replies work through the plain token address (`ReplyTokenResolves`).
- The backfill loop need not end: a full page of matches none of which can be inserted is read again. Condition:
  `StandstillIff`. Input: `NeverEnds`. And a failed query ends it early (src/filter.rs:258-261). Condition:
  `EverythingReadIff`: nothing is missed exactly if some round found at most one page of mail left.

## Model

| member | source | states |
|---|---|---|
| DotStuffing.ApplyDotStuffing | src/outbound/mod.rs:514-540 | the byte loop with its look-ahead and line-start flag produces the standard's line-wise stuffing (section 4.5.2 of RFC 5321): split at LF, double a leading dot |
| DotStuffing.StuffFromIsStuffed | src/outbound/mod.rs:514-540 | byte-wise stuffing with one flag of state equals stuffing line by line, for every body |
| DotStuffing.StuffedEndsCrLf | src/outbound/mod.rs:500-506 | testing the stuffed bytes for a final CR LF gives the same answer as testing the body |
| DotStuffing.StuffedNeverTerminates | src/inbound/protocol.rs:525-527 | no stuffed line is the terminator, whatever line breaks follow it |
| DotStuffing.TerminatorIs | src/inbound/protocol.rs:526-527 | a line ends the body exactly if it is a dot followed by nothing but CR and LF |
| DotStuffing.LinesOfStuffed | src/outbound/mod.rs:514-540 | the receiver's lines of the stuffed bytes are the stuffed lines of the body, one for one |
| DotStuffing.Transparency | src/outbound/mod.rs:500-540 | for every body: none of the lines the server reads is the terminator, and un-stuffing them gives the body back, with CR LF added only if missing |
| DotStuffing.TerminatorRecognised | src/outbound/mod.rs:508 | the final dot is read as a line of its own, after exactly the body's lines, and is recognised |
| BodyBuffer.SmartBodyBuffer.constructor | src/inbound/protocol.rs:110-117 | a new buffer is in memory, empty and within its limits |
| BodyBuffer.SmartBodyBuffer.Append | src/inbound/protocol.rs:124-166 | appending extends the contents by the un-stuffed line; it is refused exactly when 25 MiB would be exceeded, and a refused line changes nothing |
| BodyBuffer.SmartBodyBuffer.Clear | src/inbound/protocol.rs:119-122 | clearing gives an empty buffer in memory mode |
| BodyBuffer.SmartBodyBuffer.PersistToPath | src/inbound/protocol.rs:193-215 | the stored file is the whole body, flushed or not; a failure leaves an empty memory buffer |
| BodyBuffer.SmartBodyBuffer.GetContentBytes | src/inbound/protocol.rs:217-228 | returns the whole body after flushing, and changes neither contents nor mode |
| BodyBuffer.SmartBodyBuffer.ExtractFullMetadata | src/inbound/protocol.rs:176-191 | parses the bytes in memory or in the file, without those still in the writer; fails only on a disk failure in disk mode |
| BodyBuffer.AppendKeepsContents | src/inbound/protocol.rs:124-166 | counter, limit and mode stay right over the switch from memory to disk, however much the writer has passed on |
| BodyBuffer.AppendReadable | src/inbound/protocol.rs:124-191 | after every append the part metadata extraction can read is a prefix of the contents, of a length determined by the sizes and what the writer passed on |
| BodyBuffer.BufferRefinesFlat | src/inbound/protocol.rs:109-166 | for every sequence of appends and clears the buffer refines one flat sequence: same bytes, right length, at most 25 MiB, memory mode exactly up to the threshold |
| BodyBuffer.ReadersAfterRun | src/inbound/protocol.rs:176-228 | after any run the stored file is the flat sequence, metadata reads a prefix (all of it exactly when nothing is unflushed), and readers after storing see the stored bytes exactly when the body never spilled |
| SmtpCommands.AddressesRead | src/inbound/protocol.rs:256-275 | the addresses the client puts between brackets are read back in lower case |
| SmtpCommands.SenderAlwaysRead | src/inbound/protocol.rs:268-275 | whatever the client puts between the brackets, even nothing, its MAIL command is accepted as well-formed |
| SmtpCommands.AnyLineRead | src/inbound/protocol.rs:256-275 | in every line with a verb, `TO:` or `FROM:` in any case, any padding and any brackets, the address is read in lower case; an empty recipient is none, an empty sender is accepted |
| SmtpSession.SmtpSession.constructor | src/inbound/protocol.rs:278-311 | a new session is the fresh reference session |
| SmtpSession.SmtpSession.HandleRcptTo | src/inbound/protocol.rs:333-502 | the whole RCPT decision tree (address, reply token, rewritten sender, alias, each failure) is the reference step, whose answers are stated line by line in SmtpAnswers |
| SmtpSession.SmtpSession.HandleBodyLine | src/inbound/protocol.rs:525-707 | one body line refines the step on a flat body: terminator, kept line, size limit, disk failure |
| SmtpSession.SmtpSession.HandleRelay | src/inbound/protocol.rs:529-575 | relays the prepared form of exactly the body to the mapping's original sender under the alias's address, then starts over with an empty buffer |
| SmtpSession.SmtpSession.HandleStore | src/inbound/protocol.rs:577-588 | parses metadata and attachments from what the buffer can show before it is flushed, stores the whole body, and would panic on a missing alias id |
| SmtpSession.SmtpSession.InsertRow | src/inbound/protocol.rs:590-702 | the row with the parsed metadata and attachments and the thread found by the references and the in-reply-to identifier, the labels and the forwarded copy made from what the buffer still holds, or an orphaned file and 451 |
| SmtpSession.SmtpSession.HandleReset | src/inbound/protocol.rs:808-816 | sender, recipient, alias id and body are gone; reply mapping, destination, auto-forward flag and stream are as before |
| SmtpSession.SmtpSession.HandleLine | src/inbound/protocol.rs:779-825 | one turn of the loop: body lines untouched, commands trimmed |
| SmtpSession.SmtpSession.Handle | src/inbound/protocol.rs:773-828 | the loop writes, delivers and ends exactly as the reference run on the same lines |
| SmtpHistory.PhaseAdvances | src/inbound/protocol.rs:322-331 | which reply takes a session from which phase to which, in every state: EHLO, MAIL, RCPT, DATA, RSET, STARTTLS, and out of a body only a terminator with one of the three answers to a finished message (section 4.1.4 of RFC 5321) |
| SmtpHistory.RcptAcceptedIff | src/inbound/protocol.rs:349-497 | RCPT is accepted exactly when the address names a row and, for a reply token, the sender is its owner and, if its address has exactly one @, passes SPF |
| SmtpAnswers.AliasAnswers | src/inbound/protocol.rs:438-497 | for every ordinary alias address: accepted with its row, 451 and nothing changed on a failing database, and for an unknown alias 550, 451 from the tarpit threshold, 554 and the end of the session from the block threshold |
| SmtpAnswers.TokenAnswers | src/inbound/protocol.rs:349-407 | for every token address: unknown 550, failing database 451, no sender 503, foreign sender 550, failed SPF 550, each with its own words and nothing changed but the recipient, or accepted |
| SmtpAnswers.BadAddressAnswers | src/inbound/protocol.rs:334-344 | an address without exactly one @, or a line without one, is answered with 501 |
| SmtpAnswers.ForgedAddressAnswers | src/inbound/protocol.rs:409-423 | a rewritten address that does not decode is answered like an unknown user |
| SmtpAnswers.GreetAnswers | src/inbound/protocol.rs:322-331 | HELO and EHLO in any case are greeted and move on; anything else is answered with 500 and changes nothing |
| SmtpAnswers.MailAnswers | src/inbound/protocol.rs:504-513 | a line with `FROM:` in any case is accepted and moves on; any other is answered with 501 and changes nothing |
| SmtpAnswers.DataAnswers | src/inbound/protocol.rs:515-524 | DATA in any case opens the body with 354; anything else is answered with 500 and changes nothing |
| SmtpAnswers.QuitAndResetAnswers | src/inbound/protocol.rs:795-816 | QUIT and RSET in any case and in every phase outside a body |
| SmtpAnswers.TlsAnswers | src/inbound/protocol.rs:708-746 | STARTTLS: 502 or 454 without a certificate; otherwise 220, and then an encrypted stream that is greeted again, or the end of the session |
| SmtpAnswers.EncryptedIff | src/inbound/protocol.rs:708-746 | on every connection an open session is encrypted exactly if it has announced TLS before |
| SmtpAnswers.BodyAnswers | src/inbound/protocol.rs:784-794 | a body line is kept in silence; above 26,214,400 bytes the session ends with 552, on a disk failure in silence |
| SmtpAnswers.FinishedAnswers | src/inbound/protocol.rs:525-707 | a finished message is answered with `reply relayed`, `queued as` its key, or 451, and the session starts over; on a disk failure a message to be stored, or one above 65,536 bytes, ends the session without an answer |
| SmtpHistory.StepLinked | src/inbound/protocol.rs:525-707 | from any state explained by its transcript one line delivers what the transcript calls for, and the next state is explained again |
| SmtpHistory.DeliveriesFollowTranscript | src/inbound/protocol.rs:525-707 | isolation and routing on every run: a delivery needs a terminator, holds exactly the un-stuffed lines since its own 354, and goes to the most recently accepted reply token of the connection or else to this transaction's alias row; no panic, no 503 |
| SmtpHistory.AlwaysOrdered | src/inbound/protocol.rs:773-826 | on every run: sender set from RCPT on, alias id or mapping set from DATA on, buffer empty outside a body (section 4.1.4 of RFC 5321) |
| SmtpHistory.OneRecipientPerMessage | src/inbound/protocol.rs:402-406 | every message being read has exactly one accepted recipient and an accepted sender |
| SmtpHistory.RunFollowsTranscript | src/inbound/protocol.rs:773-828 | the session loop as a whole delivers exactly what the transcript calls for and never panics |
| SmtpHistory.TokensAreVouched | src/inbound/protocol.rs:373-406 | on every connection each accepted reply token belonged to the sender of its transaction, with SPF asked if that address has exactly one @ |
| SmtpHistory.RelaysAreVouched | src/inbound/protocol.rs:529-575 | on every connection whatever is relayed goes to the original sender of a token that was accepted from its owner, with SPF asked if the owner's address has exactly one @ |
| SmtpHistory.OwnRecipientServedIff | src/inbound/protocol.rs:529-575 | a delivery serves its own recipient exactly when that is a reply token or none was accepted earlier on the connection |
| SmtpHistory.ForwardCarriesBodyIff | src/inbound/protocol.rs:619-647 | the forwarded copy and the text the filter rules see equal the stored file exactly when the lines since DATA un-stuff to at most 65,536 bytes, and are empty otherwise |
| SmtpHistory.MetadataReadsPrefix | src/inbound/protocol.rs:577-588 | on every run a row's metadata is parsed from a prefix of the stored file, and from all of it up to 65,536 bytes |
| SmtpHistory.ThreadLookedUp | src/inbound/protocol.rs:590-602 | on every run a stored message's thread is looked up by its references, followed by its in-reply-to identifier if that is not among them, and nothing else |
| SmtpClient.ResponseIsOneReply | src/outbound/mod.rs:542-560 | every reply of this server is one complete response (section 4.2.1 of RFC 5321) |
| SmtpClient.MultiLineResponse | src/outbound/mod.rs:542-560 | any number of continued lines and the first one without a dash are one response, whatever follows |
| SmtpClient.OneReplyPerCommand | src/inbound/protocol.rs:795-825 | outside a body every line, in every state and world, is answered by exactly one reply |
| SmtpClient.RcptPositiveIff | src/inbound/protocol.rs:333-502 | the only positive answer to RCPT is the one that accepts the recipient |
| SmtpClient.BodyRun | src/inbound/protocol.rs:124-166 | lines that are not the terminator are un-stuffed and kept in order, or the session ends without a delivery; within the limit and on a working disk it does not end |
| SmtpClient.BodyAndDot | src/outbound/mod.rs:500-508 | the client's body and dot bring the server to a terminator on exactly the client's body |
| SmtpClient.Link.ReadFullResponse | src/outbound/mod.rs:542-560 | consumes one response of the unread replies, or fails on a silent stream after reading all there is |
| SmtpClient.Link.SendCmd | src/outbound/mod.rs:562-588 | a command with a line break is not sent at all; otherwise the server handles it, one reply is consumed, and any reply but 2xx and 3xx is reported with the command and the reply's words |
| SmtpClient.Link.SendOne | src/outbound/mod.rs:562-588 | lockstep: outside a body one command is one server step and one consumed reply, with nothing left in flight |
| SmtpDelivery.EnvelopeMeaning | src/outbound/mod.rs:480-498 | MAIL, RCPT and DATA succeed exactly for addresses without line breaks and an accepted recipient, and deliver nothing |
| SmtpDelivery.DotStep | src/inbound/protocol.rs:525-707 | the terminator is answered positively exactly with the one final delivery; a negative answer leaves at most an orphaned file |
| SmtpDelivery.TransferMeaning | src/outbound/mod.rs:500-508 | the body transfer succeeds only with the final delivery of the client's body, and always does if it fits, the disk works and the row is inserted |
| SmtpDelivery.EndToEnd | src/outbound/mod.rs:469-512 | from every session that waits for MAIL: success means exactly one delivery, made of this transaction's sender, its recipient's row (or the reply token accepted last) and the client's body (CR LF added only if missing), and five replies; failure means no row and no relay; on a working disk success is equivalent to a condition on the inputs |
| SmtpDelivery.ReadyForMail | src/inbound/protocol.rs:773-826 | every connection that waits for MAIL is in a state to which the end-to-end theorem applies, and its overriding mapping is the reply token accepted last |
| SmtpDelivery.TransferReadable | src/inbound/protocol.rs:176-191 | in a transaction the row's metadata is parsed from a prefix of the client's body, and from all of it up to 65,536 bytes |
| SmtpDelivery.SendBody | src/outbound/mod.rs:500-508 | the program's body transfer refines the one on values |
| SmtpDelivery.SendMailFlow | src/outbound/mod.rs:469-512 | the program's transaction does to the server and reports to its caller what the one on values says, and on success no reply is left unread |
| SmtpAddresses.RewrittenSenderResolves | src/inbound/protocol.rs:409-441 | mail to a rewritten address looks up the original sender's parts exactly when the sender is lower-case with one @ and no = in its domain and the age modulo 1024 is at most 21 days |
| SmtpAddresses.ReplyTokenResolves | src/inbound/protocol.rs:349-363 | mail to a lower-case token address looks up exactly that token |
| SmtpAddresses.ForwardedEnvelopeIsNoToken | src/outbound/mod.rs:192-212 | mail back to a forwarded message's envelope address never reaches its token: it is looked up as an alias, exactly while the address is valid |
| SmtpAddresses.StaleTokenCaptures | src/inbound/protocol.rs:808-816 | for every usable token and ordinary alias there is a connection on which the alias's message is relayed to the token's original sender |
| SmtpLargeMessages.LargeMessageForwardedEmpty | src/inbound/protocol.rs:619-647 | for every forwarding alias and every body above 65,536 bytes: the transaction succeeds, the file is the whole body, the forwarded copy is empty |
| SmtpLargeMessages.ShopMessageForwardedEmpty | src/inbound/protocol.rs:619-647 | one such connection with nothing left open: stored as 65,539 bytes, forwarded as none |
| Srs.DecodedIsRewritable | src/outbound/srs.rs:42-83 | whatever decodes has one @ and no = in its domain |
| Srs.DecodeFormatted | src/outbound/srs.rs:42-83 | decoding a printed address checks its age and its hash, and nothing else |
| Srs.RecentIsAge | src/outbound/srs.rs:62-71 | the window test on day stamps modulo 1024 is a test on the age modulo 1024 |
| Srs.RoundTrip | src/outbound/srs.rs:18-83 | decoding gives the sender back exactly when it has one @ and no = in its domain and its age modulo 1024 is at most 21 days |
| Srs.RoundTripLowered | src/inbound/protocol.rs:256-266 | the same after lower-casing, exactly for lower-case senders |
| Srs.PrintedForm | src/outbound/srs.rs:18-38 | the printed address in full, with the hash over day stamp, domain and local part |
| Srs.RecentExactly | src/outbound/srs.rs:61-71 | the window test for every 64-bit stamp, with the wrap-around of the subtraction |
| Srs.BelievedForm | src/outbound/srs.rs:42-83 | whatever decodes has the printed form, a stamp in the window, and the hash of its own stamp, domain and local part |
| Srs.TamperingNeedsCollision | src/outbound/srs.rs:73-80 | another local part or domain behind a printed hash is believed only on a hash collision |
| Backoff.DelayIsCappedExponential | src/outbound/queue.rs:46-56 | for every attempt the exponent-capped form is min(10 * 2^(attempts - 1), 1440) minutes |
| Backoff.DelayFitsWord | src/outbound/queue.rs:46-56 | the product stays below 10,240 and the delay between one minute and one day; without attempts it is one minute |
| Backoff.DelayMonotone | src/outbound/queue.rs:46-56 | later attempts wait at least as long |
| Backoff.SumDelaysClosedForm | src/outbound/queue.rs:46-56 | the total delay of n failed attempts, in closed form |
| OutboundQueue.StepKeepsInv | src/outbound/queue.rs:69-180 | every step of worker, callers and crash, with every failure, keeps rows, files, log and the worker's claim in agreement |
| OutboundQueue.QueueSafety | src/outbound/queue.rs:118-174 | on every run: no call after a delivery that returned Ok, no second delivery, every call with the enqueued envelope and bytes, at most `max_attempts` calls per job; each retry is scheduled min(10 * 2^(calls - 1), 1440) minutes ahead, and before the next call a batch is fetched at or after that time |
| OutboundQueue.Conservation | src/outbound/queue.rs:69-180 | on every run an accepted message is delivered, or still in the table with its envelope and its exact bytes on disk; a delivered one is never pending or failed again; exhausted jobs were given exactly the delays of attempts 1 to max - 1 |
| OutboundQueue.PendingHasFile | src/outbound/queue.rs:30-40 | at any moment of any run a pending row has its file with exactly the enqueued bytes, was not delivered, and counts its calls exactly |
| OutboundQueue.MissingOnlyByReadError | src/outbound/queue.rs:91-116 | the "body file missing" branch is taken exactly when reading an existing file fails |
| OutboundQueue.FetchExists | src/db/queue.rs:60-100 | for every table and time the query has an answer: all due jobs, or ten of them |
| OutboundQueue.FetchDetermined | src/db/queue.rs:60-100 | the answer holds pending due rows only, earliest first and at most ten, and is determined up to jobs due at the same moment |
| QueueWorker.Queue.ProcessJob | src/outbound/queue.rs:69-177 | one job of the batch is the worker's steps for it, whatever fails |
| QueueWorker.AcceptedIsRemoved | src/outbound/queue.rs:118-127 | an accepted job was called with its file's bytes, and its row and file are gone |
| QueueWorker.SoftRefusalReschedules | src/outbound/queue.rs:157-175 | a soft refusal with attempts left: the row is pending with one more attempt and the error, due min(10 * 2^attempts, 1440) minutes from now, and nothing else has changed |
| QueueWorker.LastRefusalFails | src/outbound/queue.rs:132-156 | a permanent refusal or one that uses up the attempts: the row is failed with one more attempt and the error, and nothing else has changed |
| QueueWorker.UnreadableFails | src/outbound/queue.rs:91-116 | an unreadable file: the row is failed without a call |
| QueueWorker.UnlockedIsLeft | src/outbound/queue.rs:77-89 | a job that cannot be locked is left exactly as it was |
| QueueWorker.UnsettledStaysLocked | src/outbound/queue.rs:134-175 | a refused job whose result cannot be written keeps its attempts, its due time and its lock |
| QueueWorker.Queue.RecordSent | src/outbound/queue.rs:123-127 | after Ok the row goes, then the file, each only if its call succeeds |
| QueueWorker.Queue.RecordRefused | src/outbound/queue.rs:128-175 | permanent error, exhausted attempts or a scheduled retry, with the status, attempts and time each writes |
| QueueWorker.Queue.ProcessQueueTick | src/outbound/queue.rs:59-180 | a tick is the batch's steps in order, each job with its own reading of the clock |
| QueueWorker.TickSettlesEach | src/outbound/queue.rs:59-180 | a tick deals with every job of its batch by its own lock, file, answer and clock (removed, failed for a year or a day, or due again after its back-off), and no other row or file changes |
| QueueWorker.Queue.EnqueueJob | src/outbound/queue.rs:15-43 | file first, then row, and the file away again if the row is refused |
| QueueWorker.Queue.SendRaw | src/outbound/mod.rs:237-273 | Ok means delivered with the queue untouched, or exactly one new row and file with the same envelope and bytes, and a soft error is queued exactly if directory, file and row can be written; an error means no new row |
| QueueWorker.EnqueueAllOrNothing | src/outbound/queue.rs:15-43 | enqueueing adds exactly one row, pending and due now, and its file, or no row and no change to any other file; the file goes again if it can be removed |
| QueueWorker.TickIsRun | src/outbound/queue.rs:59-180 | every tick is a run of the transition system, so its theorems apply |
| QueueWorker.EnqueueIsRun | src/outbound/queue.rs:15-43 | so is every enqueueing, however far it gets |
| QueueWorker.CallsAreRuns | src/outbound/queue.rs:15-180 | every sequence of ticks, enqueueings and sends is one run of the transition system |
| QueueWorker.CallsAreSafe | src/outbound/queue.rs:15-180 | after any such sequence from the empty queue, with any failures, the log is safe and the table intact |
| DeliveryErrors.ErrorTextSplits | src/outbound/mod.rs:581-585 | the text of a refused command is permanent exactly if the command or the answer is: none of the six texts spans the words between |
| DeliveryErrors.PermanentIff | src/outbound/mod.rs:594-601 | an error is permanent exactly if one of the six texts stands somewhere in it |
| DeliveryErrors.OwnErrorsPermanent | src/outbound/mod.rs:568-570 | the client's refusals to send a malformed command or to a malformed recipient are never queued; a silent server is |
| DeliveryErrors.AnswerClassified | src/outbound/mod.rs:594-601 | a refusal of this server is permanent exactly if its code is 550, 554, 552 or 501 |
| DeliveryErrors.ClassifiedByCodeIff | src/outbound/mod.rs:591-601 | a refused RCPT or MAIL is classified by its code exactly if the code is listed, or it is soft and the address contains none of the six texts, or it is an unlisted hard one and the address contains one |
| DeliveryErrors.RefusalReported | src/outbound/mod.rs:490-496 | the client reports a refused recipient with its command and the server's own words, and nothing was delivered |
| DeliveryErrors.PutOffIsQueuedIff | src/outbound/mod.rs:243-271 | a message to a recipient this server puts off is queued exactly if the address contains none of the six texts; otherwise it is given up, and a queued job fails for good whatever its attempts |
| DeliveryErrors.DatabaseFailureIsQueued | src/inbound/protocol.rs:494-497 | this client against this server: on a database failure the message is queued exactly if the address contains none of the six texts |
| DeliveryErrors.UnknownAliasIsGivenUp | src/inbound/protocol.rs:490-492 | this client against this server: for an unknown alias the 550 is reported and nothing is queued |
| DeliveryErrors.GreylistedAddressGivenUp | src/outbound/queue.rs:133-143 | one such address, greylisted by the tarpit rule with a 451: nothing is queued, and a job for it is failed |
| DeliveryErrors.MissedHardReplyRetried | src/outbound/queue.rs:158-174 | a refusal with 500, 502 or 503 is tried again as long as attempts are left |
| BackfillMailbox.Mailbox.GetUnlabeled | src/db/labels.rs:496-548 | consecutive rows of the ordered answer from the offset on, none of them labelled, as many as the limit unless the answer ends |
| BackfillMailbox.Mailbox.BatchAssign | src/db/labels.rs:550-590 | labels exactly the given mail up to the first failing insert, leaving labelled mail alone |
| BackfillMailbox.Mailbox.CollectMatches | src/filter.rs:263-277 | collects exactly the page's matching mail, in order, looking at the first 64 KiB of a file and of its text |
| BackfillMailbox.Mailbox.ProcessJob | src/filter.rs:237-298 | whatever the database does, the loop does exactly the rounds of the reference, one per turn, and ends when a page is short or a query fails |
| BackfillMailbox.GoodScanIsExact | src/filter.rs:237-298 | with a database that works the scan reads every initially unlabelled mail exactly once and in order, ends within as many turns as there is such mail, and the label is on exactly the mail that had it or in whose first 65,536 bytes the trimmed keyword stands in any letter case |
| BackfillScan.UnlabelledNow | src/filter.rs:293 | after labelling the matches of what was read, the unread mail starts exactly at the number of unmatched ones |
| BackfillScan.KeywordMatchesMeaning | src/filter.rs:82-125 | a keyword matches exactly if, trimmed, it is not empty and stands somewhere in the text in any letter case |
| BackfillScan.MatchingIsSelected | src/filter.rs:265-277 | a mail matches exactly if its file can be read and the keyword stands in the first 65,536 bytes of the text of its first 65,536 bytes |
| BackfillRounds.NeverSkips | src/filter.rs:246-297 | with mail arriving at the front and inserts and queries failing at will, a scan that finishes has read every originally unlabelled mail, and labels only matching ones |
| BackfillRounds.EverythingReadIff | src/filter.rs:246-297 | at any moment of any run, with any arrivals and failures, all original mail has been read exactly if there was none or some round found at most one page of unlabelled mail at and behind its offset |
| BackfillRounds.FinishedScanIsExact | src/filter.rs:246-297 | if inserts succeed, a finished scan has labelled exactly the matching original mail, whatever arrived |
| BackfillRounds.RoundProgress | src/filter.rs:279-293 | a round on a full page lowers (unlabelled rows - offset) by exactly its unmatched mail and its inserted matches, which is the page size if every insert goes through |
| BackfillRounds.MovingRoundsBounded | src/filter.rs:246-297 | however inserts fail, the rounds that get somewhere are at most as many as there was unlabelled mail or has arrived since |
| BackfillRounds.ReadsInOrder | src/filter.rs:246-297 | undisturbed, the scan has at any time read an initial part of the unlabelled mail, in order, and labelled exactly its matches; a failed query loses exactly what is behind the offset |
| BackfillRounds.StandstillIff | src/filter.rs:279-293 | a round stands still exactly when a full page matches completely and no insert goes through |
| BackfillRounds.NeverEnds | src/filter.rs:279-293 | a mailbox whose only page is read over and over, for any number of rounds |
| BackfillGuard.StepKeepsBalance | src/filter.rs:227-234 | every step keeps each active tenant in exactly one place and every other tenant in none |
| BackfillGuard.OneJobPerTenant | src/filter.rs:227-234 | in every interleaving the jobs in flight, queued and running belong to distinct active tenants; the other active tenants are those whose job was dropped |
| BackfillGuard.AcceptedIsQueuedIff | src/filter.rs:225-231 | an accepted job is queued exactly when the channel was not full |
| BackfillGuard.FirstComeFirstServed | src/filter.rs:225-231 | in every interleaving the jobs that got into the channel are the ones the worker took, in that order, followed by the ones still waiting |
| BackfillGuard.AcceptedJobLost | src/filter.rs:227-234 | a reachable state with a full channel in which one more tenant is accepted, its job lost, and every later submit refused |
| BackfillGuard.DroppedStaysLocked | src/filter.rs:227-234 | a tenant whose job was dropped is refused in every later state |
| BackfillGuard.BackfillEngine.Submit | src/filter.rs:227-234 | an uninterrupted submit is the two steps, and returns true whenever the tenant was free |
| BackfillGuard.BackfillEngine.StartWorker | src/filter.rs:301-313 | the worker serves the queued jobs in order and each once, and then exactly the tenants of dropped jobs are still locked |
| Cidr.LowIsRemainder | src/dns.rs:272 | dropping and keeping low bits are quotient and remainder by a power of two |
| Cidr.MasksAgree | src/inbound/blocklist.rs:20 | the subtracted, inverted and truncated mask of one matcher and the shifted all-ones mask of the other are the same run of high bits |
| Cidr.AndHighOnes | src/dns.rs:273 | masking clears exactly the low bits |
| Cidr.MatchWordIsPrefixEquality | src/dns.rs:264-292 | a masked comparison is equality of quotients by 2^(width - prefix), for every width and prefix |
| Cidr.MatchV4IsPrefixEquality | src/dns.rs:264-276 | the IPv4 branch compares the leading min(prefix, 32) bits (section 3.1 of RFC 4632) |
| Cidr.MatchV6IsPrefixEquality | src/dns.rs:277-289 | the IPv6 branch compares the leading min(prefix, 128) bits |
| Cidr.MatchersAgree | src/inbound/blocklist.rs:12-23 | blocklist and SPF matcher agree on every address, network and prefix |
| Cidr.ShorterPrefixMatches | src/dns.rs:264-292 | matching a longer prefix implies matching every shorter one, in both branches, prefixes beyond the width included |
| Spf.ParseSpfRecord | src/dns.rs:206-240 | the loop collects the directives of the terms, in order, of records that start like SPF records only |
| Spf.RecordReads | src/dns.rs:206-240 | a record of any terms is read term by term |
| Spf.TermsRead | src/dns.rs:228-236 | the four kinds of terms and their values; `all` and unknown mechanisms are skipped |
| Spf.OtherTextIgnored | src/dns.rs:208-210 | a text that does not start like an SPF record has no say |
| Spf.QualifierIgnored | src/dns.rs:217-226 | a term reads the same under every qualifier |
| Spf.QualifiersHonouredIff | src/dns.rs:217-226 | a domain names the client as a reading that honours qualifiers does exactly when every matching address term passes or some passing one matches as well; the honouring reading never names more |
| Spf.QualifierFreeVerdict | src/dns.rs:296-356 | whatever the number of domains: if no reachable one uses -, ~ or ?, the verdict is the one that honours qualifiers |
| Spf.QualifiedVerdictIff | src/dns.rs:296-356 | within ten reachable domains the verdict is the one that honours qualifiers exactly when no reachable domain has a term for the client or some domain reachable by passing links has a passing one |
| Spf.QualifiedVerdictByOrder | src/dns.rs:296-356 | for any number of domains the two verdicts agree exactly when the two looked-up lists agree on whether they hold an authorizing domain |
| Spf.RefusedBlockAuthorized | src/dns.rs:296-356 | for every IPv4 block: a domain whose record refuses it gets every address of it authorized, where honouring the qualifier authorizes none |
| Spf.BlockMeaning | src/dns.rs:243-293 | a printed block `network/prefix` matches exactly the addresses of its family that share its leading bits |
| Spf.BareAddressMeaning | src/dns.rs:252-262 | an address without a prefix, or with an unreadable one, matches exactly the address it names |
| Spf.UnreadableAddress | src/dns.rs:247-250 | an unreadable address matches nothing |
| Spf.OneAddressAuthorized | src/dns.rs:296-356 | a record that names one address and refuses all others authorizes exactly that address, for both families |
| Spf.AnyRecordAuthorizes | src/dns.rs:313-341 | an address named by any one of several TXT answers is authorized, whatever stands in the others |
| Spf.RedirectFollowed | src/dns.rs:346-348 | a redirect hands the question on |
| Spf.VerdictRestsOnTerm | src/dns.rs:325-351 | a positive verdict rests on a term of a record of a reachable domain that matches the client |
| Spf.ExamineDomain | src/dns.rs:325-351 | a domain's answers match exactly when some directive names the client; otherwise all its links are pushed, in order |
| Spf.CheckSpfForDomain | src/dns.rs:296-356 | the worklist loop performs the budgeted search, with at most ten lookups (section 4.6.4 of RFC 7208) |
| Spf.SearchSound | src/dns.rs:305-353 | a positive verdict has a reachable authorizing domain |
| Spf.SearchComplete | src/dns.rs:305-353 | a negative verdict within the budget has seen a link-closed set of domains without an authorizing one |
| Spf.ExhaustedSearch | src/dns.rs:312-315 | a spent budget means eleven distinct reachable domains |
| Spf.VerdictMeaning | src/dns.rs:296-356 | the verdict is right, or it is negative and at least eleven distinct domains are reachable |
| Spf.VerdictExactWithinBudget | src/dns.rs:296-356 | with at most ten reachable domains the verdict is exact |
| Spf.SearchIsOrder | src/dns.rs:305-353 | the verdict is positive exactly when one of the domains on the looked-up list, a function of the records alone, authorizes the client |
| Spf.LastLinkFirst | src/dns.rs:305 | of the domains a record names the last one is looked up first |
| Spf.VerdictRightIff | src/dns.rs:296-356 | the verdict is right exactly when no reachable domain authorizes the client or one of the at most ten looked-up domains does |
| Spf.ChainBeyondBudget | src/dns.rs:312-315 | a chain of eleven domains whose last one authorizes the client is refused |
| Spf.EleventhDomainRefused | src/dns.rs:312-315 | the verdict for such a chain is negative although a reachable domain authorizes the client |
| Spf.EleventhRecordUnread | src/dns.rs:296-356 | for any eleven domains whose records include each other in turn and end in an IPv4 block: every address of the block is refused from the first domain and authorized from the second |
| Spf.OneAddressUnread | src/dns.rs:312-315 | one such chain and address with nothing left open |
| ReplyMappings.StepKeepsInv | src/db/reply_mappings.rs:27-116 | select and insert of concurrent callers keep answers and table in agreement and tokens unique |
| ReplyMappings.AnswersStay | src/db/reply_mappings.rs:27-116 | a pair's token never changes |
| ReplyMappings.OneTokenPerPair | src/db/reply_mappings.rs:27-172 | in every schedule all calls for one alias and sender return the same token, and looking it up leads back to that pair while the alias is active |
| ReplyMappings.RowsStayUnique | src/db/reply_mappings.rs:59-74 | no two rows ever share a pair or a token |
| ReplyMappings.Table.GetOrCreateReplyMapping | src/db/reply_mappings.rs:27-116 | an uninterrupted call returns the pair's token and adds a row only if there was none |

## Left out

- Bytes and text: lines are sequences of characters, one per byte, and letter case is ASCII; the UTF-8 check of `read_line`, lossy conversion and non-ASCII case mapping are not modelled.
- Transport: sockets, idle timeouts with their 421 reply, write failures, pipelining delays and TLS handshakes appear only as outcomes or as the end of the input; the server handles what the client wrote when the client next waits for a reply.
- Disk: one outcome per session line; how much the buffered writer has passed on is arbitrary. The buffer after a failed disk write is described only as far as the session ends then.
- SmtpSession.SmtpSession.HandleStore: the message parser is a function of the bytes it is given and the envelope sender.
- SmtpSession.SmtpSession.InsertRow: dashboard events are not modelled; the thread lookup and the filter rules are functions of their inputs, and a failing label assignment is the empty set of labels; the later steps of a forward (reply token, header rewriting) are not part of the session.
- SmtpSession.SmtpSession.HandleRelay: `prepare_reply_for_relay` is a function of its three arguments.
- SmtpHistory.RcptAcceptedIff: the failure counter is a number given by the surroundings, and the tarpit sleep and the blocklist file are not modelled.
- SmtpDelivery.EndToEnd: one direct connection without relay login, MX lookup or DKIM.
- Srs.RoundTrip: the keyed hash is any function to four Crockford characters, so nothing is claimed about forging; 64-bit subtraction wraps as in an unchecked build.
- OutboundQueue.QueueSafety: one worker; the lock is an unconditional update, so nothing holds for several. Rows left in `sending` by a crash or a failed final update stay there, as in the code.
- OutboundQueue.StepKeepsInv: a failed database call has no effect, `max_attempts` is any positive number (the migrations default to 10), and identifiers are fresh.
- QueueWorker.CallsAreSafe: no crash inside a call and no enqueueing during a tick; both are steps of the transition system instead.
- QueueWorker.Queue.SendRaw: the direct delivery before queueing is an outcome and does not enter the log.
- DeliveryErrors.ClassifiedByCodeIff: refusals of MAIL and RCPT by this repository's own server; what other servers say is any text.
- BackfillMailbox.Mailbox.ProcessJob: follows the loop for as many turns as the database's behaviour is given, since it need not end; the mailbox is in strict order (no equal timestamps), and arriving mail is in `BackfillRounds`. Deletions and labels set by others during a scan are not modelled.
- BackfillMailbox.Mailbox.CollectMatches: text extraction with its HTML stripping is a function of the file's beginning, cut by bytes, not at character boundaries; filter sets of several rules are not modelled.
- Spf.CheckSpfForDomain: a fixed resolver; reading address text is a parameter, and a lookup's answers are its text strings in order.
- Spf.QualifiersHonouredIff: the honouring reading counts passing terms only; the order of terms and the mechanisms the parser does not know are not evaluated.
- ReplyMappings.OneTokenPerPair: freshly drawn tokens are new; deleting aliases, which removes their rows, and failing queries are not modelled.
- Blocklist files, rate limiting, web handlers, sessions, templates, audit, statistics, key handling and certificate reload: not modelled; single branches or plumbing.
