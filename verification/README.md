# A verified model of the CMP client, server and wire format

go-pkicmp-ng implements the Certificate Management Protocol (RFC 9810, RFC 9483).
This project models its four hard parts in Dafny and proves what they promise:

- **The server's transaction protocol.** `Tracker` is the transaction table as an
  object, `TrackerSteps` the same operations as small atomic steps of many threads,
  and `TrackerRaces` what the CA is told when they overlap.
  `Server` gives a whole request as a function from table to table, and
  `ServerObject` the server as an object whose methods are proved equal to it.
  `ServerRules` says over the fields of a request which answer it gets, what becomes of
  the table and what the CA hears, without the functions that compute it.
  `Conservation`, `NonceChain`, `ServerRuns`, `Recovery` and `Twins` are about all
  runs: what becomes of every certificate, how nonces are chained, that credentials
  do not see each other, and that a restored server is indistinguishable from the
  saved one.
- **The certificate path search.** `CertPath` has the backtracking search with its
  depth limit, budget, on-path set and memo table, and a declarative definition of
  a trusted path.
- **The client.** `Client` and `ClientObject` are enrollment and polling against an
  arbitrary server, `ClientRuns` what holds whatever the server answers, `ClientRules`
  which message follows which transcript and how it ends, said over the messages alone,
  and `EndToEnd` composes the client with the server.
- **The wire format.** `Der` has the byte-level primitives, `Codecs`, `Responses`,
  `Crmf` and `PkiHeader` the codecs, `PkiFrame` messages as byte strings, `PkiBody`
  the marshalling of bodies with the version they need, and `PkiMessage` the message
  object with protection and nesting. `PkiContent` reads bodies back by the octet they
  start with, `Syntax` has every message as a tree of the ASN.1 in RFC 9810 and shows
  that its DER is what is written, and `Acceptance` says exactly which bytes the parsers
  accept. `KeyInput` has the hashed table keys, and `MacParams` and `MacCodec` the MAC
  parameters as values and as bytes.

Cryptography, X.509 chain building, clocks, random values, the CA and the network
are parameters: arbitrary functions or arbitrary values of each step. Certificates
are values whose equality stands for equality of their DER. Table keys stand for
their hashes, which are taken to be collision free. Object identifiers, names,
certificates and times are opaque octets.

## What the code does where more was expected

Each of these is a lemma with a concrete input, and beside it the exact condition.

- The path search gives up when 100 signature checks are spent, so a trusted path can
  be missed. It agrees with the declarative definition for every PKI exactly when
  there are at most four candidate certificates (`CertPath.ExactUpToFourCandidates`,
  `CertPath.CrowdHidesPath`).
- The client takes a verified error message whose status is a success for an answer
  without error. As answer to an accepting certConf it makes enroll return a
  certificate that no pkiConf confirmed; as first answer it makes enroll return
  neither certificate nor error; as answer to a poll it makes enroll read a missing
  response. These are the only ways, and enroll does as expected exactly when the last
  answer is no such message (`ClientRuns.CertificateWithoutPkiConf`,
  `ClientRuns.NeitherCertificateNorError`, `ClientRuns.MissingResponseIsRead`,
  `ClientRuns.CertificateOnlyAfterPkiConf`).
- The client accepts a pollRep that quotes no nonce at all
  (`ClientRuns.PollRepWithoutNonceAccepted`).
- A refusal carries a fresh nonce that the transaction does not remember. The nonce of
  a response is the one to quote next exactly when the CA was asked and left the
  transaction open (`NonceChain.RefusalNonceIsDead`, `NonceChain.ReplyExpectedIff`).
- A poll to which the CA returns neither a promise nor a certificate is answered and
  leaves its nonce in force, so it can be repeated. Every other answer to a follow-up
  that is not an error changes the table
  (`NonceChain.IdlePollRepeats`, `NonceChain.AnswersChangeTable`).
- The server announces whole seconds to wait but enforces the exact interval, so a
  client that waits as told can be too early (`EndToEnd.EarlyPollIsRefused`,
  `EndToEnd.WaitSuffices`).
- A CA response with both a promise and a certificate counts as the promise; the
  certificate in it is neither recorded nor announced nor sent. Every other one is
  (`Conservation.PromiseHidesCertificate`, `Conservation.EveryCertificateIsBooked`).
- `cleanupExpired` reports the entry that Range showed it and not the one it removes.
  A certificate that is confirmed in between, and whose key is used again, is reported
  as expired and the new transaction is removed. A certificate that is stored in
  between is removed without a report. The report is what is removed exactly when a
  certificate that was shown is still the entry stored and the entry removed is no
  certificate stored since (`TrackerRaces.ConfirmedDuringCleanup`,
  `TrackerRaces.IssuedDuringCleanup`, `TrackerRaces.IssuedDuringCleanupHappens`,
  `TrackerRaces.ReportsWhatItRemoves`).
- Two confirmations of one certificate that overlap can both reach the CA. It hears two
  verdicts on one certificate only when two confirmations or cleanup visits that saw it
  overlap, and any two confirmations that loaded it and are taken are both heard
  (`TrackerRaces.TwoVerdicts`, `TrackerRaces.SecondVerdictOverlaps`,
  `TrackerRaces.OverlapTellsTwice`).
- A snapshot whose records name another credential than their key is accepted. Its
  counters are exact too, but the table is one the server could have reached only if
  each record names the credential of its key (`Snapshot.MisattributedLoads`,
  `Snapshot.LoadConsistent`).
- Contents that need version 3 overwrite the version of a message, so that a version
  above 3 is lowered. The version left is the maximum exactly when the message had at
  most version 3 or its contents do not need it (`PkiBody.VersionFalls`,
  `PkiBody.VersionIsMaximum`).
- A certificate signed with a composite algorithm whose pre-hash is not SHA-256, SHA-384
  or SHA-512 would be confirmed under the name of SHA-512. Whether there is such an
  algorithm depends on the composite library, which the code expects to use these three
  only (`Messages.UnnamedPreHashDisagrees`, `Messages.ConfirmationHashAgrees`).

## Model

| member | source | states |
|---|---|---|
| CertPath.VerifiesSoundAndComplete | internal/certpath/certpath.go:35-105 | success implies a trusted path, written over the certificates' fields: validity times, path length as RFC 5280 section 4.2.1.9 has it, no name constraints, at most nine certificates climbed; failure with budget left implies there is none |
| CertPath.ExactUpToFourCandidates | internal/certpath/certpath.go:15-21 | the answer equals existence of a trusted path for every PKI with n candidates if and only if n is at most 4 |
| CertPath.FourCandidatesSuffice | internal/certpath/certpath.go:77-105 | with at most four candidates the budget is never spent, so the answer is exact |
| CertPath.CrowdHidesPath | internal/certpath/certpath.go:77-105 | for every larger number of candidates a concrete PKI whose trusted path the search misses |
| CertPath.ClimbSound | internal/certpath/certpath.go:77-105 | a successful climb from any partial path extends it to a trusted path |
| CertPath.ClimbComplete | internal/certpath/certpath.go:77-105 | a failed climb with checks left means no extension of the partial path is trusted |
| CertPath.ClimbCost | internal/certpath/certpath.go:77-105 | signature checks a climb spends are bounded by the number of unused candidates |
| CertPath.AcceptsLowerPath | internal/certpath/certpath.go:120-134 | the loop accepts exactly when some chain holds no name constraints and each of its issuers allows as many intermediates as are below it |
| CertPath.RuleIsChecked | internal/certpath/certpath.go:139-142 | the two checks made of an issuer are the rule of RFC 5280 over its fields, a path length of zero included |
| CertPath.Search.UpperChains | internal/certpath/certpath.go:109-116 | the memo table changes nothing about the chains returned |
| CertPath.Search.Trusted | internal/certpath/certpath.go:77-105 | the recursive method with its on-path set and budget computes the climb and restores the on-path set |
| CertPath.Verify | internal/certpath/certpath.go:35-61 | the exported check against the declarative definition, both directions |
| TrackerSteps.InvHolds | server/transaction.go:137-336 | under every interleaving each counter equals stored entries plus reservations in flight plus removals not yet counted |
| TrackerSteps.CapacityNeverExceeded | server/transaction.go:137-172 | under every interleaving stored entries exceed neither the global nor any per-credential cap |
| TrackerSteps.QuietCountersAreSizes | server/transaction.go:137-172 | when no thread is in the middle of an operation, the counters are the table sizes |
| TrackerSteps.StepTransition | server/transaction.go:180-290 | one atomic step moves an entry only along the allowed state order, or starts a new life as active |
| TrackerSteps.LifetimeOrder | server/transaction.go:180-290 | between any two moments of one entry's life its state never goes back |
| TrackerSteps.IssuedAtMostOnce | server/transaction.go:220-250 | in every interleaving at most one transition to issued succeeds in an entry's life |
| TrackerSteps.CompletedIsFinal | server/transaction.go:268-290 | an entry leaves completed only by removal |
| TrackerRaces.ReportsWhatItRemoves | server/transaction.go:317-334 | under every interleaving, a cleanup visit removes a key it was shown with an entry last active before the cutoff, and what it reports is what it removes unconfirmed if and only if the certificate it was shown is still stored and the entry it removes is no certificate stored in between; which of the two fails decides whether the report is false or missing |
| TrackerRaces.SeenWasExpired | server/transaction.go:317-321 | under every interleaving a thread is about to remove a key only because the step that began its visit showed it an entry last active before the cutoff |
| TrackerRaces.IssuedDuringCleanup | server/transaction.go:317-334 | a certificate stored in between by another thread is removed and not reported |
| TrackerRaces.IssuedDuringCleanupHappens | server/transaction.go:220-250 | a run that leads there, for any key and certificate |
| TrackerRaces.ConfirmedDuringCleanup | server/confirm_poll.go:133-145 | a run, for any key and certificate, in which the CA takes the confirmation and cleanup then removes the next transaction of the key and reports the certificate as expired |
| TrackerRaces.SecondVerdictOverlaps | server/confirm_poll.go:67-145 | under every interleaving, two verdicts on one issued certificate come from two threads whose confirmations or cleanup visits overlap |
| TrackerRaces.OneVerdictWithoutOverlap | server/confirm_poll.go:67-145 | in every run in which no two of them overlap on it, the CA hears at most one verdict on a certificate |
| TrackerRaces.OverlapTellsTwice | server/confirm_poll.go:133-145 | from any state, two confirmations that loaded one certificate and are taken are both heard |
| TrackerRaces.TwoVerdicts | server/confirm_poll.go:67-145 | a run with two verdicts on one certificate, for any key and certificate |
| TrackerSteps.AloneStart | server/transaction.go:137-172 | a thread nobody interrupts does exactly what the table function Start says |
| TrackerSteps.AloneSet | server/transaction.go:180-250 | likewise for setPending and setIssued |
| TrackerSteps.AloneComplete | server/transaction.go:268-290 | likewise for setCompleted with its retry loop |
| TrackerSteps.AloneDelete | server/transaction.go:292-306 | likewise for delete |
| TrackerSteps.AloneExpire | server/transaction.go:317-334 | likewise for a cleanup visit: removal exactly when the entry was last active before the cutoff |
| TrackerSteps.AloneConfirm | server/confirm_poll.go:67-145 | likewise for a confirmation: deletion if the CA takes it, nothing otherwise |
| Tracker.StartConsistent | server/transaction.go:137-172 | starting keeps counters equal to table sizes and within the caps, also when it is refused |
| Tracker.DeleteConsistent | server/transaction.go:292-306 | removal keeps counters equal to table sizes |
| Tracker.DeleteAllEntries | server/transaction.go:311-336 | cleanup removes exactly the listed keys, in any order |
| Tracker.CleanupLeaves | server/transaction.go:311-336 | what cleanup leaves are the entries active at or after the cutoff, unchanged, and what it reports are exactly the removed ones issued with a certificate |
| Tracker.TransactionTracker.constructor | server/transaction.go:127-133 | a new tracker is empty and valid |
| Tracker.TransactionTracker.GetOrCreateCredCount | server/transaction.go:175-178 | an absent counter is created at zero and no count changes |
| Tracker.TransactionTracker.StartIfAbsent | server/transaction.go:137-172 | reserve, store and release equal Start, and counters stay exact |
| Tracker.TransactionTracker.SetState | server/transaction.go:180-250 | replaces an open entry and refuses any other, counters untouched |
| Tracker.TransactionTracker.Get | server/transaction.go:207-266 | finds an entry exactly in the asked state, and on a valid table it belongs to the credential of the key, which is charged for it |
| Tracker.TransactionTracker.SetCompleted | server/transaction.go:268-290 | completes an entry that is there |
| Tracker.TransactionTracker.Remove | server/transaction.go:292-306 | removes one entry and counts it once for its credential |
| Tracker.TransactionTracker.CleanupExpired | server/transaction.go:311-336 | removes exactly the entries last active before the cutoff, each once, and returns those holding an unconfirmed certificate |
| KeyInput.KeyInputInjective | server/transaction.go:46-58 | the hashed key input determines credential and transactionID |
| KeyInput.KeyInputCollides | server/transaction.go:46-58 | two different pairs with the same input once a credential has 4 GiB |
| KeyInput.InjectiveBelowFourGiB | server/transaction.go:46-58 | injectivity for credentials below n bytes holds if and only if n is at most 2^32 |
| KeyInput.CredentialInputInjective | server/handler.go:95-133 | the credential input determines the credential; a MAC and a certificate identity never coincide |
| KeyInput.InputOctets | server/handler.go:95-133 | known answers: credential before transactionID, prefix, senderKID and name, each behind its length |
| MacCodec.EchoSurvivesWire | pkicmp/protect.go:130-172 | whatever bytes the peer sent, parameters that verified are echoed in bytes from which the peer captures the same suite, and the echo of the stored identifier writes the same bytes as the live echo |
| MacCodec.SuiteIsStable | pkicmp/credentials.go:159-185 | over any number of exchanges on the wire the echoed suite stays the same |
| MacCodec.PbmRoundTrips | pkicmp/protect.go:441-470 | a PBMParameter survives encoding, also with inner parameters that are no element |
| MacCodec.Pbmac1RoundTrips | pkicmp/protect.go:263-321 | PBMAC1-params survive encoding, with keyLength and prf present or left out |
| MacParams.CapturesServed | pkicmp/verify.go:179-340 | verification captures parameters if and only if the algorithms are known by their identifiers, the iterations are 1 to 500000 and the key fits, and captures what the sender wrote with defaults filled in |
| MacParams.EchoesServed | pkicmp/protect.go:130-260 | an identifier is answered in kind under the same condition, except that PBMAC1 without iterations gets the default number |
| MacParams.ProtectsByDefault | pkicmp/protect.go:184-260 | the default suite, value by value |
| Syntax.MacIsWritten | pkicmp/protect.go:263-305 | MAC identifiers and parameters are the DER of their ASN.1, by tag octets and identifiers |
| Acceptance.PbmIff | pkicmp/protect.go:441-461 | exactly which bytes are accepted as which PBMParameter |
| Acceptance.Pbmac1Iff | pkicmp/verify.go:249-290 | exactly which bytes are accepted as which PBMAC1-params |
| Acceptance.DecodeIff | pkicmp/protect.go:130-172 | exactly which identifiers are taken for which MAC |
| Messages.ConfirmationHashAgrees | pkicmp/algorithms.go:175-256 | the hash the server computes is the one the client confirms with, if and only if the certificate has no composite algorithm without a named pre-hash or the digests coincide |
| Messages.UnnamedPreHashDisagrees | pkicmp/algorithms.go:245-256 | a concrete certificate and digest for which the two hashes differ |
| ServerRuns.ProcessShape | server/server.go:120-246 | every request leaves all other transactions alone, moves its own as its event says, and never loses an issued certificate |
| ServerRuns.ProcessConsistent | server/server.go:120-246 | every request keeps counters equal to table sizes and within the caps |
| ServerRuns.ProcessKeepsCerts | server/response.go:146-329 | an issued transaction always holds its certificate |
| ServerRuns.OtherCredentialsUntouched | server/server.go:343-357 | a request leaves every transaction and counter of all other credentials unchanged |
| ServerRuns.SendersShareNoTransaction | server/handler.go:95-133 | two senders share a transaction if and only if their credentials and transactionIDs agree |
| ServerRules.RefusalsSayWhy | server/server.go:120-360 | every request that fails verification, profile or header checks is answered with the first obstacle it meets, in order, and changes nothing |
| ServerRules.CertRequestRule | server/response.go:146-222 | for every certificate request that is admitted: reply, new entry, event and notices for an error, a promise or a certificate of the CA, over the message's fields |
| ServerRules.PollRule | server/response.go:226-329 | for every poll: the refusal it meets, or the answer, the new entry and the interval announced |
| ServerRules.CertConfRule | server/confirm_poll.go:39-176 | for every certConf: the refusal it meets in order, or pkiConf, what the CA is told and the removal, over the statuses' digests, numbers and verdicts |
| ServerRules.ConfirmedIff | server/confirm_poll.go:39-176 | a request settles a certificate with this verdict if and only if it is an admitted certConf that names the stored certificate in every status, quotes the issued nonce, agrees with itself and the CA takes it; the verdict is that of the first status |
| ServerRules.RevocationRule | server/revocation.go:190-219 | for every revocation: the reply, and the transaction completed |
| ServerRules.OtherBodiesRule | server/server.go:205-246 | an error message is acknowledged with pkiConf and every other body refused, and nothing changes |
| Conservation.CertificatesConserved | server/response.go:183-222 | in every run the ledger is exactly what the CA returned without a promise, each certificate awaits certConf in exactly one issued transaction or has one settled fate, and the CA's notices are exactly those of the settled ones |
| Conservation.FatesAreFinal | server/confirm_poll.go:133-147 | along every run no certificate leaves the ledger and no settled fate changes |
| Conservation.WaitingAreHeld | server/response.go:287-329 | as many certificates await confirmation as transactions are issued |
| Conservation.EveryCertificateIsBooked | server/response.go:96-222 | a certificate is booked if and only if the request reached the CA and the CA returned it without a promise, and none is sent that is not booked |
| Conservation.PromiseHidesCertificate | server/response.go:183-194 | a concrete CA response whose certificate is neither booked nor announced nor sent |
| Conservation.CleanupBooks | server/server.go:255-262 | cleanup settles each expired unconfirmed certificate once and tells the CA once, in any order |
| NonceChain.FollowUpQuotes | server/response.go:257-285 | a pollReq or certConf is answered or changes the table only if it quotes the nonce its transaction expects |
| NonceChain.ExpectedNonceWasSent | server/response.go:287-303 | in every run the expected nonce is that of the last response that changed the transaction |
| NonceChain.NonceWorksOnce | server/confirm_poll.go:87-101 | with fresh server nonces each nonce lets at most one follow-up change a transaction or be answered without error, idle polls excepted, over all requests and replays |
| NonceChain.AnswersChangeTable | server/response.go:226-329 | a follow-up answered without error leaves the table as it was if and only if it is an idle poll |
| NonceChain.IdlePollRepeats | server/response.go:304-329 | a concrete idle poll that is answered the same again and again |
| NonceChain.ReplyExpectedIff | server/response.go:287-329 | a transaction expects its last response's nonce if and only if the request reached the CA and the CA left the transaction open |
| NonceChain.RefusalNonceIsDead | server/response.go:257-269 | a concrete refused poll whose reply nonce the next poll cannot use |
| NonceChain.NoResponseIsReplaced | server/response.go:183-222 | setPending and setIssued never fail, so no response is ever replaced by an error |
| Snapshot.LoadRevives | server/snapshot.go:93-169 | loading the records of a consistent table succeeds if and only if each record is acceptable, in any order, and gives each entry back |
| Snapshot.RestoreSucceedsIff | server/snapshot.go:93-170 | a snapshot is restored if and only if the tracker is empty, version and signer are right, and its records are complete field by field, of different keys and within both caps; the table then holds exactly its records |
| Snapshot.LoadConsistent | server/snapshot.go:110-168 | any snapshot that loads gives counters that are exact for the credentials its records name and within the caps; the table is consistent if and only if each record names the credential of its key |
| Snapshot.MisattributedLoads | server/snapshot.go:110-168 | a concrete record of one credential under the key of another that is restored |
| Recovery.ReachableIsRecoverable | server/snapshot.go:115-152 | every table reached with full nonces, a sane clock and named pending requests can be restored and holds echoable parameters |
| Twins.RestoreGivesTwin | server/snapshot.go:93-169 | a saved table restores if and only if each transaction is complete, and the result differs only in how MAC parameters are held |
| Twins.TwinProcess | server/server.go:120-246 | twin tables give the same reply, event and notices to any request and stay twins |
| Twins.TwinsServeAlike | server/snapshot.go:92-169 | twin tables answer every sequence of requests and cleanups alike |
| Twins.RestoredServerAnswersAlike | server/snapshot.go:42-169 | at any moment of any run every entry can be saved, restoring succeeds, and the restored server then shows exactly what the original would |
| ServerObject.CmpServer.constructor | server/server.go:31-60 | a new server is valid, with an empty table |
| ServerObject.CmpServer.Deliver | server/response.go:195-222 | recording and answering an issued certificate equals the table function |
| ServerObject.CmpServer.Postpone | server/response.go:183-194 | recording and answering a promise equals the table function |
| ServerObject.CmpServer.HandleCertRequest | server/response.go:146-222 | a certificate request equals the table function, reply and notices included |
| ServerObject.CmpServer.AnswerPoll | server/response.go:287-329 | the answer to an admitted poll equals the table function |
| ServerObject.CmpServer.HandlePollReq | server/response.go:226-329 | a poll equals the table function |
| ServerObject.CmpServer.FindContradiction | server/confirm_poll.go:49-57 | the loop finds an accepted status with failInfo exactly when there is one |
| ServerObject.CmpServer.CheckStatuses | server/confirm_poll.go:152-176 | the loop reports the first status that does not name the certificate or disagrees with the first; ServerRules.CertConfRule says what naming it means |
| ServerObject.CmpServer.Confirm | server/confirm_poll.go:133-147 | the CA hears the verdict and the transaction ends, unless the CA answers with an error |
| ServerObject.CmpServer.HandleCertConf | server/confirm_poll.go:39-148 | a certConf equals the table function |
| ServerObject.CmpServer.HandleRevocation | server/revocation.go:190-219 | a revocation completes its transaction on every path |
| ServerObject.CmpServer.ValidateHeader | server/server.go:297-360 | the header checks, the assigned transactionID and the start of the transaction |
| ServerObject.CmpServer.Dispatch | server/server.go:205-246 | each body goes to its handler |
| ServerObject.CmpServer.ProcessVerified | server/server.go:175-246 | a verified request equals the table function |
| ServerObject.CmpServer.Process | server/server.go:120-246 | a request on the object is the function all theorems are about, and the object stays valid |
| ServerObject.CmpServer.CleanupExpired | server/server.go:255-262 | cleanup removes the expired transactions and notifies the CA of each unconfirmed certificate in order |
| ServerObject.CmpServer.NotifyExpired | server/server.go:257-261 | one notice for each expired certificate |
| ServerObject.CmpServer.SnapshotTransactions | server/snapshot.go:43-90 | every transaction is saved once, or none if and only if one has parameters to answer with but no identifier for them |
| ServerObject.CmpServer.RestoreTransactions | server/snapshot.go:93-170 | succeeds as the function says with exact counters, and leaves a valid server if and only if the records name their keys' credentials; a failed restore leaves tracker and table as they were |
| ServerObject.LoadSaved | server/snapshot.go:114-168 | loading one record into the new tracker equals the function |
| ServerObject.Migrate | server/snapshot.go:43-170 | a snapshot of one server restored into an empty one succeeds if and only if every transaction is complete, and then the two are twins; otherwise the target keeps its tracker |
| Client.CheckAfterLimits | client/client.go:173-184 | any pair of bounds becomes an ordered nonnegative one, and an ordered nonnegative one is kept |
| Client.ClampCheckAfter | client/transport.go:542-560 | for every 64-bit value the wait equals the unbounded clamp, without overflow |
| ClientRuns.PolledAnswersAccepted | client/transport.go:613-650 | exactly which polled responses the client acts on |
| ClientRuns.PollRepWithoutNonceAccepted | client/transport.go:613-622 | a pollRep is accepted if and only if it quotes the poll's nonce or none |
| ClientRuns.PollingIsBounded | client/transport.go:565-654 | polling sends at most the remaining polls and waits within the limits between them |
| ClientRuns.PollingIsChained | client/transport.go:581-592 | every poll answers the last accepted response and quotes its nonce |
| ClientRuns.EnrollmentIsBounded | client/transport.go:26-129 | whatever the server answers: one request, at most maxPolls polls, at most one certConf at the end, each message answering the last reply |
| ClientRuns.TotalWaitIsBounded | client/transport.go:565-654 | waiting takes at most maxPolls - 1 maximal waits in all |
| ClientRuns.EnrollmentExplained | client/transport.go:62-129 | every ending of every enrollment is a function of the transcript: which certConf is sent, what it says, and whether the certificate is returned |
| ClientRules.EnrollmentByRule | client/transport.go:26-230 | whatever the server answers, every message the client sends, every wait and the ending are those the rules give for the transcript so far |
| ClientRules.AcceptsExactlyTheWanted | client/transport.go:82-129 | an enrollment that ends in a certConf accepts the certificate if and only if it answers the request, certifies the requested key and leads to an anchor of the client, or of the response if a MAC protects it |
| ClientRuns.CertificateOnlyAfterPkiConf | client/transport.go:182-230 | enroll returns a certificate if and only if its acceptance was answered by a verified pkiConf or by a verified error with a success status; it returns a certificate after pkiConf or an error if and only if the last answer is no such message |
| ClientRuns.CertificateWithoutPkiConf | client/transport.go:221-229 | a concrete server that never sends a pkiConf and still gets its certificate returned |
| ClientRuns.NeitherCertificateNorError | client/transport.go:40-51 | a concrete first answer that makes enroll return neither |
| ClientRuns.MissingResponseIsRead | client/transport.go:62-78 | a concrete answer to a poll after which a missing response is read |
| ClientObject.CmpClient.NextWait | client/transport.go:639-650 | the wait before the next poll, also for an empty pollRep |
| ClientObject.CmpClient.Poll | client/transport.go:565-654 | the polling loop equals the function the theorems are about |
| ClientObject.CmpClient.SendCertConf | client/transport.go:182-230 | a confirmation succeeds exactly on a verified pkiConf or an error message that passes as nil |
| ClientObject.CmpClient.Conclude | client/transport.go:82-129 | the checks on the certificate and the confirmation or rejection they lead to |
| ClientObject.CmpClient.Enroll | client/transport.go:26-129 | a whole enrollment equals the function the theorems are about |
| EndToEnd.WaitSuffices | server/response.go:287-303 | the wait a client derives covers the enforced interval if and only if the interval is below its minimum, or within its maximum and sub-second or whole |
| EndToEnd.EarlyPollIsRefused | server/response.go:271-285 | a concrete client that waits as announced and is refused |
| EndToEnd.ServerFollowsScript | server/response.go:146-329 | whatever other requests it serves in between, the honest server answers each message of an honest exchange as expected, changes nothing but the transaction, and tells the CA nothing before its end |
| EndToEnd.ClientFollowsScript | client/transport.go:26-129 | given these answers the client sends exactly these messages and returns the certificate |
| EndToEnd.HonestEnrollmentSucceeds | client/transport.go:26-129 | if server and client verify the messages of the exchange, the client returns the certificate after any number of waits up to maxPolls and whatever other requests come between; the CA hears exactly one acceptance, no message touches anything but the transaction, and without others table and counters are back where they started |
| EndToEnd.HonestLinksExist | server/response.go:146-329 | the hypotheses can be met for any number of waits and any other requests, with a certificate and with a shared secret, by a server that verifies honestly |
| Der.ReadElementOf | pkicmp/types.go:460-476 | an element is read back in front of any tail |
| Der.ElementOfRead | pkicmp/types.go:460-467 | what is read is the unique DER encoding of its tag and content |
| Der.IntegerRoundTrip | pkicmp/types.go:490-516 | every integer survives minimal two's complement, and the encoding is minimal |
| Acceptance.OctetsOfValue | pkicmp/types.go:490-516 | minimal octets are those of their value, so an integer has one encoding |
| Der.Int64Size | pkicmp/types.go:478-533 | an integer fits int64 if and only if its encoding has at most eight octets |
| Der.ReadInt64Of | pkicmp/types.go:478-533 | a 64-bit INTEGER is read back in front of any tail |
| Der.UnmarshalList | pkicmp/enrollment.go:249-261 | the decoding loop of a list equals the recursive reader |
| Der.ListRoundTrips | pkicmp/enrollment.go:241-261 | a list of values that survive encoding survives as a list |
| Codecs.TextRoundTrips | pkicmp/types.go:213-238 | a PKIFreeText survives encoding, with any tail |
| Codecs.AlgorithmRoundTrips | pkicmp/types.go:149-187 | an AlgorithmIdentifier survives encoding, with any tail |
| Codecs.FailInfoSurvives | pkicmp/status.go:286-296 | every failInfo value survives the trimming, and the trimming is minimal as section 11.2.2 of X.690 requires |
| Codecs.AccumulateFailInfo | pkicmp/status.go:326-332 | the byte loop computes the value of the first four octets |
| Codecs.StatusRoundTrips | pkicmp/status.go:280-337 | a PKIStatusInfo survives encoding, with any tail |
| Codecs.ErrorRoundTrips | pkicmp/status.go:339-372 | an ErrorMsgContent survives encoding, with any tail |
| Codecs.CertStatusRoundTrips | pkicmp/enrollment.go:283-340 | a CertStatus survives encoding, with any tail |
| Codecs.CertConfirmRoundTrips | pkicmp/enrollment.go:241-261 | a list of CertStatus survives encoding, with any tail |
| Responses.PollReqRoundTrips | pkicmp/enrollment.go:373-401 | a PollReqContent survives encoding, with any tail |
| Responses.PollRepRoundTrips | pkicmp/enrollment.go:420-459 | a PollRepContent survives encoding, with any tail |
| Responses.StripInvertsWrap | pkicmp/types.go:460-476 | stripping a wrapped sequence gives its content |
| Responses.WrapInvertsStrip | pkicmp/types.go:460-476 | wrapping what was stripped gives the element back, without anything that followed it |
| Responses.KeyRoundTrips | pkicmp/types.go:430-457 | an encrypted key survives encoding although its sequence header is replaced |
| Responses.PairRoundTrips | pkicmp/enrollment.go:156-234 | a CertifiedKeyPair survives encoding, with any tail |
| Responses.ResponseRoundTrips | pkicmp/enrollment.go:99-142 | a CertResponse survives encoding, with any tail |
| Responses.RepRoundTrips | pkicmp/enrollment.go:22-80 | a CertRepMessage survives encoding, with any tail |
| Crmf.UnmarshalTemplate | pkicmp/crmf.go:387-450 | the loop over the fields of a template, in any order, equals the recursive reader |
| Crmf.TemplateRoundTrips | pkicmp/crmf.go:331-450 | a CertTemplate survives encoding although two fields lose their headers |
| Crmf.RequestRoundTrips | pkicmp/crmf.go:199-251 | a CertRequest with any controls survives encoding and keeps the bytes it arrived in |
| Crmf.RawIsWhatArrived | pkicmp/crmf.go:213-219 | whoever encoded the request, the bytes kept for the check are the bytes received |
| Crmf.ProofRoundTrips | pkicmp/crmf.go:466-591 | a proof of possession of every kind survives encoding, also when an enveloped proof loses its header |
| Crmf.CheckedBytesAreSigned | pkicmp/crmf.go:72-109 | for every batch of requests, the bytes that proof of possession is checked against are the bytes that were signed |
| Acceptance.RequestMessageIff | pkicmp/crmf.go:130-150 | exactly which bytes are accepted as which request with which proof, and proof of possession is checked against the bytes that arrived |
| Acceptance.TemplateIff | pkicmp/crmf.go:387-450 | exactly which bytes are accepted as which template: fields in any order, unknown ones skipped, the last of a kind deciding |
| Acceptance.RequestIff | pkicmp/crmf.go:213-251 | exactly which bytes are accepted as which request, with nothing behind its controls |
| Acceptance.ProofIff | pkicmp/crmf.go:490-575 | exactly which bytes are accepted as which proof |
| PkiHeader.SlotsRoundTrip | pkicmp/pkimessage.go:341-406 | optional header fields survive in every combination of presence and absence |
| PkiHeader.HeaderRoundTrips | pkicmp/pkimessage.go:321-522 | a PKIHeader survives encoding, with any tail |
| PkiFrame.MessageRoundTrips | pkicmp/pkimessage.go:169-320 | raw header and body bytes, protection and certificates survive encoding and parsing |
| PkiFrame.RawBytesAreReceived | pkicmp/pkimessage.go:169-206 | whoever sent a message, its kept header and body bytes are the bytes received |
| Acceptance.MessageIff | pkicmp/pkimessage.go:169-244 | exactly which bytes are accepted as which message, with nothing behind or unread inside it |
| PkiBody.RepThreads | pkicmp/enrollment.go:22-165 | a certificate response is written alike in every version context, and sets the version to 3 exactly when some key pair in it holds an enveloped value |
| PkiBody.ReqThreads | pkicmp/crmf.go:24-70 | likewise for requests, with enveloped proofs |
| PkiBody.ConfThreads | pkicmp/enrollment.go:241-300 | likewise for confirmations, with named hash algorithms |
| PkiBody.BodyRepeats | pkicmp/pkibody.go:151-211 | a second pass over any body, from any version, writes the same bytes, and the version it leaves depends only on what the contents need |
| PkiBody.MessageRepeats | pkicmp/pkimessage.go:248-297 | marshalling any message again, at any depth of nesting, gives the same bytes and the same version |
| PkiBody.VersionIsMaximum | pkicmp/pkimessage.go:253-267 | the version left is the larger of that of the message and that its contents need if and only if the message had at most version 3 or they do not need it |
| PkiBody.VersionFalls | pkicmp/enrollment.go:292-294 | a concrete body that lowers version 5 to 3 |
| PkiContent.StartsWithOctet | pkicmp/pkibody.go:76-98 | every kind of body starts with its octet in section 5.1.2 of RFC 9810 |
| PkiContent.BodyIsRead | pkicmp/pkibody.go:215-418 | every body, read by that octet, is of the same kind and holds the same contents |
| PkiContent.ProtectAndDeliver | pkicmp/pkibody.go:151-211 | a message protected, marshalled and parsed delivers the kind and contents its sender had |
| Syntax.MessageIsWritten | pkicmp/pkimessage.go:248-319 | every message, with every kind of body and at any depth of nesting, is written as the DER of its ASN.1 value by the tags of RFC 9810 and RFC 4211 |
| Syntax.HeaderIsWritten | pkicmp/pkimessage.go:447-524 | likewise the header with its nine optional fields |
| Syntax.RequestMessageIsWritten | pkicmp/crmf.go:60-70 | likewise a request with template, controls and proof |
| Syntax.RepIsWritten | pkicmp/enrollment.go:22-165 | likewise a certificate response |
| Syntax.ElementOctets | pkicmp/types.go:460-476 | tag, length octets and content of an element |
| Syntax.FailureOctets | pkicmp/status.go:286-296 | bit 0 is the highest bit of the first octet, and zeros at the end are left out |
| PkiMessage.Message.MarshalForProtection | pkicmp/protect.go:401-424 | afterwards another pass over the fields would write the kept bytes and find the version already in the header |
| PkiMessage.Message.Protect | pkicmp/protect.go:100-127 | protection covers exactly the bytes that a later pass over the fields writes |
| PkiMessage.Message.MarshalBinary | pkicmp/pkimessage.go:248-277 | on a protected message it changes nothing and returns exactly the protected header and body bytes with the protection and certificates |
| PkiMessage.Message.UnmarshalBinary | pkicmp/pkimessage.go:169-244 | the kept header and body bytes are consecutive bytes of the input, whoever encoded it |
| PkiMessage.Message.MarshalForNesting | pkicmp/pkimessage.go:285-297 | a parse of the result gives back the raw bytes, protection and certificates of a protected message, whatever its decoded header says |
| PkiMessage.Receive | pkicmp/pkimessage.go:160-166 | for every input: a new message whose kept bytes are those received, or an error exactly when the input does not parse |
| PkiMessage.ProtectAndMarshal | pkicmp/protect.go:100-127 | the encoding of a protected message parses to the bytes that were protected |
| PkiMessage.ProtectAndTransmit | pkicmp/pkimessage.go:552-565 | protecting, sending and parsing recovers exactly the protected header and body bytes and everything else |
| PkiMessage.NestingPreserves | pkicmp/pkibody.go:187-205 | any list of protected messages keeps its header and body bytes, protections and certificates through nesting |

## Left out

- HTTP transport, media types and size limits of bodies and snapshots.
- Signature, MAC, hash and key derivation arithmetic, composite ML-DSA, and X.509 chain building: they are parameters.
- JSON encoding of snapshots, the sorting of saved entries and the decoding of issue references: records are values, proved for every order.
- Interleaving inside whole requests: the claims about certificates, nonces and restores are about requests and cleanups that do not overlap. The claims about counters, states, what cleanup reports and how often the CA hears of a certificate in the table are made for every interleaving.
- Nested-message authorization, policies, revocation matching and profile checks: the server has no RA authorizer, and the profile check is an arbitrary predicate.
- Conservation.CertificatesConserved: counts a certConf verdict once the CA has taken it without an error; calls of ConfirmCertificate that the CA answers with an error are not recorded.
- EndToEnd.HonestEnrollmentSucceeds: is about one client whose request does not ask for implicit confirmation, as the source never asks for it, without cleanups between its messages and without requests of others about the same transaction.
- Crmf.CheckedBytesAreSigned: keeps the content of a signing proof opaque, as do Acceptance.ProofIff and Acceptance.RequestMessageIff; its codec and the signature check are not modelled.
- PkiHeader.HeaderRoundTrips: keeps sender and recipient as opaque elements and does not decode the names in them.
- PkiBody.MessageRepeats: revocation bodies are left out, an empty nested body is encoded where the code reports an error, and the server's own edit of the version in an unsupported-version error is outside it.
- The codecs other than the list, template and failInfo loops and the message object are modelled as functions on byte strings, not as cursors and builders that are updated in place.
- The codecs of revocation, challenges and signing proofs: more of the same kind.
- Object identifiers are opaque content octets, so an invalid one is not refused.
- Texts, `String` methods, hints, option builders other than `WithCheckAfterLimits`, examples and mocks.
