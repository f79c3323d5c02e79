# Passwall-Protocol: a verified model

Passwall-Protocol is the shared contract between a control panel (PSP) and its nodes: the types of one
sync exchange, the validators both sides run on it, and the convergence rules an agent follows. This
project models its policy code in Dafny and proves what the two sides rely on.

- `ObjectState`, `ObjectRuns`, `ObjectHistory`, `ObjectReports`, `Attachment`, `RaisedIssues`: the convergence
  state machine of one object, its whole runs and what their history decides, the enumerations made of them,
  the judgement of client attachments, and the issues all of these raise.
- `Cadence`, `CadenceRuns`: when full reports and host samples are sent, under one envelope and under
  envelopes that change every round.
- `Keys`, `Hex`, `Tokens`, `Issues`, `Tasks`, `TaskOutcomes`: identities, digests, the durable outbox, and how
  tasks are issued and end.
- `HostSample`, `Report`, `AgentReports`: the node's report with its host sample, the validators, and the reports
  an agent can assemble, which are those they accept.
- `Json`, `ReportJson`, `WireShape`, `ReportCodec`, `WireVerdict`, `DecodedReports`, `WireCounterexamples`: the two
  encoded shapes member by member, the round trip, and what becomes of the verdicts on the way.
- `Quota`, `ExactObject`, `Diagnostics`, `EventOrder`: fleet quota, the exact decoder, and diagnostics.
- `Platform` is the Go standard library as a parameter (UTF-8, trimming, addresses, time formatting, SHA-256):
  every theorem holds for all libraries, or for all lawful ones. `Lists`, `ByteOrder`, `MulDiv`, `Ints`, `Limits`,
  `Versions` and `Wrappers` are shared vocabulary.

Go strings and byte slices are sequences of chars, one per byte. Code that loops over mutable sets, budgets
and fields is modelled by methods, each proved against an order-free or tabular specification; parts of a
loop body that look at one element are sometimes methods of their own. Errors carry no text, except that the
quota model keeps their kind, because one of them is proved unreachable.

Where the code and what is said of it differ, the model follows the code:

- `protocol/protocol_test.go:227-232` says an accepted report survives its own wire format. Of a report that was
  decoded this is true (`DecodedReports.AcceptedDocumentsSurviveTheWire`). Of one an agent has built it is
  not: live addresses are compared as addresses, and an IPv6 zone may hold bytes that are not UTF-8, which
  encoding/json replaces; it also replaces them in the texts of a host sample, which the base validator does
  not look at, and it fails on a load average that is no number. `WireVerdict.AcceptedReportsSurviveTheWire`
  says exactly when such a report is encoded and which verdict of either validator it meets, and
  `WireCounterexamples` holds an input for each way to fail. A report that the sender's own check accepts
  fails in the first way only (`WireVerdict.SentReportsSurviveTheWire`).
- `protocol/limits.go:25-26` says a bad response cannot silence full reports for longer than one day. It can: a
  day and an hour, less a second. The caps m on the interval and q on the poll keep every silence within a
  limit L iff m - 1 + q <= L (`CadenceRuns.UndroppedSilenceIsWithin`), and within it in spite of d dropped host
  samples iff m - 1 + (1 + d) q <= L (`CadenceRuns.SilenceIsWithin`); under one envelope the period is within L
  iff the poll is and the interval is at most the largest multiple of the poll within L
  (`Cadence.PeriodWithin`).
- `protocol/envelope.go:189` and `:238` multiply in int64. The product overflows for intervals past the largest
  multiple of the poll, none of which a validated envelope can hold (`Cadence.ClosedForm`).

## Model

| member | source | states |
|---|---|---|
| `ObjectState.AdvanceObject` | protocol/conformance/object_state.go:34-92 | the field-by-field switch takes exactly the permitted transitions, has exactly the table's effect, and leaves the status alone in error |
| `ObjectState.AcceptVersion` | protocol/conformance/object_state.go:94-112 | re-delivery is idempotent, older and uncommitted versions are refused, a newer one reopens convergence |
| `ObjectState.TimeoutIsExact` | protocol/conformance/object_state.go:124-137 | only a timeout that is not positive is an error; an alarm is raised iff a pending or rejected object has been failing for the whole timeout, in exact time, in spite of the saturating subtraction |
| `ObjectState.AlarmsNameTheObject` | protocol/conformance/object_state.go:139-147 | the issue has the code of the object's state, its key, and its stream, state and failure time in words |
| `ObjectRuns.ValidMeans` | protocol/validate.go:188-239 | the wire validator regrouped by state; its size and UTF-8 checks of blocked_on are implied by the key being canonical |
| `ObjectRuns.StepStaysValid` | protocol/conformance/object_state.go:34-92 | from an accepted status a transition leads to an accepted one iff the evidence it records is sound (a checkable condition per branch) |
| `ObjectRuns.RunsStayValid` | protocol/conformance/object_state.go:34-112 | every status a well-evidenced run from a fresh object reaches is the fresh one or passes the wire validator |
| `ObjectRuns.WitnessReaches` | protocol/conformance/object_state.go:34-112 | every status of accepted shape is the end of a run of at most two transitions |
| `ObjectRuns.ValidatorAcceptsExactlyTheReachable` | protocol/validate.go:188-239 | a status passes validateReportedObject iff it is the end of some well-evidenced run of AdvanceObject |
| `ObjectRuns.StepTimer` | protocol/conformance/object_state.go:45-87 | opening a stretch sets the failure timer, Applied clears it, nothing else moves it |
| `ObjectRuns.FailureTimerNamesTheOpening` | protocol/conformance/object_state.go:50-119 | after any timestamped run FirstFailedAtMS is the clock of the transition that opened the current un-converged stretch, and zero iff the object is unset or applied |
| `ObjectRuns.UnconvergedHasAnOpening` | protocol/conformance/object_state.go:50-119 | an un-converged object always has such an opening transition |
| `ObjectRuns.TimerHolds` | protocol/conformance/object_state.go:50-88 | no retry, rejection, block or dependency-ready moves the timer, over any run without a newer accept or Applied |
| `ObjectRuns.TimeoutKeepsFiring` | protocol/conformance/object_state.go:121-148 | once the timeout has fired it fires at every later instant the object is pending or rejected, through blocked interludes, with the issue of its present state |
| `ObjectRuns.VersionsOnlyClimb` | protocol/conformance/object_state.go:94-112 | SinceVersion never decreases along any run |
| `ObjectRuns.RejectionIsASink` | protocol/conformance/object_state.go:36-41 | a rejected object stays rejected, with its timer, until it accepts a strictly newer version |
| `ObjectRuns.OthersAreMutuallyReachable` | protocol/conformance/object_state.go:42-87 | pending, applied and blocked reach each other in one step with the version kept |
| `ObjectRuns.RejectionIsReachable` | protocol/conformance/object_state.go:58-69 | rejection with a code is one step away from pending and applied |
| `ObjectRuns.HigherEpochAlwaysReopens` | protocol/version.go:31-44 | a committed version of a higher epoch is accepted from every status a run can be in |
| `ObjectRuns.RunSettlesOnTheNewest` | protocol/conformance/object_state.go:94-112 | the version a run ends on is the lexicographic maximum of the committed versions offered to it |
| `ObjectRuns.DeliveryOrderDoesNotMatter` | protocol/conformance/object_state.go:94-112 | two runs over the same transitions in any two orders, with any repetitions, end on the same version |
| `ObjectHistory.StateNamesTheLastChange` | protocol/conformance/object_state.go:34-112 | a run ends as the last transition that changed anything left it: its state, issue code and dependency name that transition, and a run in which nothing changed is fresh |
| `ObjectHistory.StateIsDecidedByTheLastChange` | protocol/conformance/object_state.go:34-112 | a run ends blocked, rejected, applied or pending iff its last change was of the kind that says so, and unset iff nothing changed |
| `ObjectHistory.NextIsDecidedByHistory` | protocol/conformance/object_state.go:34-112 | which transitions a run takes next, decided by the kind of its last change and the newest version ever offered to it, iff for every event |
| `ObjectHistory.BlockedInterludeLeavesNoTrace` | protocol/conformance/object_state.go:70-88 | a pending object that is blocked and becomes ready again is what it was, timer included |
| `ObjectReports.AcceptedObjectsAreRuns` | protocol/validate.go:59-69 | an object enumeration is accepted iff its objects are distinct and each is the end of a run |
| `ObjectReports.StepsKeepTheEnumerationAccepted` | protocol/validate.go:59-69 | advancing one object of an accepted enumeration keeps it accepted iff the step's evidence is sound |
| `ObjectReports.ReportableObjectsAreRows` | protocol/validate.go:188-206 | the objects that can be reported are the listeners under config and the clients under roster, each at every committed version, and nothing else |
| `ObjectReports.BlockersCanBeReported` | protocol/validate.go:214-222 | what an accepted object is blocked on is itself a reportable object of the config stream |
| `Attachment.AttachmentIsDecided` | protocol/conformance/attachment.go:50-104 | for an absent listener, whatever its state is said to be, and for a known one whose run accepted anything, the evaluation never errs; exact conditions for each client state and disposition, and the issue raised, text included |
| `Attachment.ReadyMeansConverged` | protocol/conformance/attachment.go:88-90 | an attachment is ready only on a listener whose failure timer is zero and whose run has no open stretch |
| `Attachment.RejectedListenerKeepsBlocking` | protocol/conformance/attachment.go:91-95 | a rejected listener keeps its attachments blocked, without an issue, until it accepts a strictly newer version |
| `Attachment.ConfigSkewHealsForGood` | protocol/conformance/attachment.go:58-74 | once the config has caught up, no config that is not older changes the decision |
| `RaisedIssues.TimeoutsAreWellFormed` | protocol/conformance/object_state.go:138-147 | the issue a timeout of an accepted object raises is one the outbox validator accepts |
| `RaisedIssues.AttachmentIssuesAreWellFormed` | protocol/conformance/attachment.go:62-85 | so is the one an attachment between two rows raises |
| `RaisedIssues.RaisedIssuesAreAccepted` | protocol/validate.go:241-259 | all issues raised from an accepted enumeration and from distinct attachments are distinct and accepted together iff they are at most MaxIssuesPerReport |
| `RaisedIssues.VersionTextNames` | protocol/version.go:46-46 | the text of a version in an issue names that version and no other |
| `Cadence.EffectiveFullReportPeriod` | protocol/envelope.go:177-190 | equals the first poll at which ShouldSendFull says yes, in wrapping int64; and is that period iff the interval is at most the largest int64 multiple of the poll |
| `Cadence.EffectiveHostReportPeriod` | protocol/envelope.go:227-239 | the same for ShouldSendHost |
| `Cadence.ClosedForm` | protocol/envelope.go:184-189 | the rounded-up multiple equals the period found by polling step by step; overflow happens iff the interval is past the largest multiple |
| `Cadence.HugeIntervalsOverflow` | protocol/envelope.go:184-189 | an input on which the multiplication overflows, and its neighbour on which it does not |
| `Cadence.ValidatedIntervalsFit` | protocol/envelope.go:121-142 | no interval of a validated envelope overflows |
| `Cadence.EnvelopesWithinBounds` | protocol/envelope.go:121-142 | the early returns accept exactly the envelopes of non-negative amounts, polls within the hour, enumerations within the day, and host samples at every report or every 5 to 3600 seconds |
| `Cadence.MissingPollsAreShort` | protocol/limits.go:17-19 | a missing or negative poll is 30 seconds, any other what was asked for |
| `Cadence.PeriodIsTheNextPoll` | protocol/envelope.go:174-190 | an interval longer than the poll gives interval <= period < interval + poll, any other gives the poll |
| `Cadence.PeriodWithin` | protocol/limits.go:22-27 | under one envelope the period is within a limit iff the poll is and the interval is at most the largest multiple of the poll within the limit |
| `Cadence.AskingForMoreNeverSendsLess` | protocol/envelope.go:163-216 | prompts and missing intervals always send, and asking for more never suppresses a send |
| `Cadence.SendsFallOnMultiplesOfThePeriod` | protocol/envelope.go:163-239 | under one envelope poll n carries the payload iff the time elapsed is a multiple of the effective period |
| `CadenceRuns.CappedSilence` | protocol/envelope.go:121-142 | whatever envelopes arrive that ask for at most m seconds and poll at most every q, the time since the last send is at most m - 1 + q, and q more for every dropped sample |
| `CadenceRuns.SilenceIsBounded` | protocol/envelope.go:121-142 | so under any validated envelopes it is below the longest interval plus one poll, plus one poll per dropped sample |
| `CadenceRuns.FullReportsCannotBeSilenced` | protocol/limits.go:22-27 | no sequence of validated envelopes silences full reports for a day and an hour |
| `CadenceRuns.TheBoundIsAttained` | protocol/limits.go:22-27 | for all caps a validated envelope can reach and every number d of drops, a session exists that drops d samples and sends again only after m - 1 + (1 + d) q seconds |
| `CadenceRuns.SilenceIsWithin` | protocol/limits.go:57-61 | every silence with at most d drops, of every session within the caps, is at most a limit iff m - 1 + (1 + d) q is |
| `CadenceRuns.UndroppedSilenceIsWithin` | protocol/limits.go:22-27 | every silence of every session within the caps that drops nothing is at most a limit iff m - 1 + q is; with a day as the limit, when the documented promise holds |
| `Keys.DecimalRoundTrip` | protocol/keys.go:101-103 | the printed decimal parses to the number and has no leading zero |
| `Keys.ValueRoundTrip` | protocol/keys.go:101-103 | a canonical digit string is what is printed for its value |
| `Keys.RowIdIsMintInverse` | protocol/keys.go:66-106 | RowID(s) gives n iff n is positive and s is the key minted from n |
| `Keys.RowIdAcceptsCanonicalDecimals` | protocol/keys.go:93-106 | the strings that parse: the prefix and digits without leading zero, sign or padding, of a value within int64 |
| `Keys.KeysIdentifyRows` | protocol/keys.go:85-106 | no string is a key of two kinds, no two strings of a kind share a row |
| `Keys.KeysAreNamed` | protocol/keys.go:80-106 | the accepted keys of each kind, prefix by prefix |
| `Keys.MintedKeys` | protocol/keys.go:65-78 | the key of each kind for every row, and the row each parses to |
| `Keys.KeysAreShortAscii` | protocol/keys.go:93-106 | a key that parses is ASCII and at most 23 bytes |
| `Hex.DecodeThenEncode` | protocol/validate.go:421-427 | text decodes and re-encodes to itself iff it is an even number of lowercase hex digits |
| `Hex.EncodeThenDecode` | protocol/validate.go:421-427 | decoding undoes encoding, whose text is lowercase |
| `Hex.DigestsAreLowerHex` | protocol/validate.go:421-427 | validateDigest accepts the 64-character strings over [0-9a-f] and nothing else |
| `Hex.DigestsAreCanonical` | protocol/validate.go:421-427 | on them, equal bytes mean equal strings |
| `Hex.StreamStatesAreAllOrNothing` | protocol/validate.go:168-186 | an accepted stream state is unset or has both digest and committed version; its digest half agrees with validateDigest |
| `Tokens.ValidTaskId` | protocol/validate.go:431-446 | the loop accepts the identifiers of the stated alphabet |
| `Tokens.ValidToken` | protocol/validate.go:448-461 | likewise for tokens |
| `Tokens.ValidateCapabilities` | protocol/validate.go:404-419 | one pass equals: bounded, canonical, pairwise distinct |
| `Tokens.TokensAreSpelled` | protocol/validate.go:431-461 | both alphabets letter by letter; every token is a task identifier |
| `Tasks.ComputeTaskInputSHA256` | protocol/envelope.go:283-290 | the bytes written to the hash are the framed input |
| `Tasks.FramingIsInjective` | protocol/envelope.go:277-290 | domain, kind, NUL, args determines kind and args when kinds have no NUL |
| `Tasks.NulInAKindCollides` | protocol/envelope.go:283-290 | with a NUL in a kind two inputs are framed alike |
| `Tasks.DigestsBindTasks` | protocol/validate.go:298-303 | two well-formed entries with one digest are one call, or SHA-256 collides on their inputs |
| `TaskOutcomes.TaskInputsAreSeparated` | protocol/envelope.go:277-290 | no task input is anything framed under another domain |
| `Tasks.ProducedTasksAreAccepted` | protocol/validate.go:272-310 | every bounded call, with the digest computed for it, is accepted |
| `Tasks.AcceptedKindsHaveACapability` | protocol/envelope.go:275-275 | the capability of an accepted kind can be declared beside the execution capability |
| `Issues.ValidateIssues` | protocol/validate.go:241-259 | one pass accepts iff there are not too many issues, all are well formed, and no two agree in code, key and detail |
| `Tasks.ValidateTasks` | protocol/validate.go:272-310 | one pass with a set and a running budget accepts iff all entries are well formed, IDs are distinct and the total is within the cap; the budget never goes negative |
| `Tasks.TaskOrderDoesNotMatter` | protocol/validate.go:272-310 | the verdict is invariant under permutation |
| `TaskOutcomes.AcceptedTasksAreIssued` | protocol/validate.go:272-310 | the accepted lists are those of up to 64 issuable calls with the digests computed for them, different identifiers and up to 4 MiB of arguments |
| `TaskOutcomes.OtherKindsAreTasks` | protocol/validate.go:285-287 | of the bounded tokens exactly the two reserved ones are no kinds |
| `Tasks.ValidateTaskResults` | protocol/validate.go:315-368 | the same for durable results |
| `Tasks.ValidateLegacyTaskResults` | protocol/validate.go:370-402 | the same for legacy results |
| `Tasks.ResultOrderDoesNotMatter` | protocol/validate.go:315-402 | both verdicts are invariant under permutation |
| `Tasks.SchemasAreDisjoint` | protocol/validate.go:260-265 | no non-empty list is accepted under both schemas |
| `TaskOutcomes.WellFormedTasksComplete` | protocol/validate.go:315-368 | the result of a well-formed task is accepted iff it ended in success with a bounded payload, or in failure, certain or not, with a bounded code, a readable diagnostic and no payload |
| `TaskOutcomes.DurableResultsAreCompletions` | protocol/validate.go:347-361 | every accepted result is one of these: no success with an error, no failure with a payload |
| `TaskOutcomes.LegacyTasksComplete` | protocol/validate.go:370-402 | the same for legacy results, whose failures have no code and may carry a payload |
| `TaskOutcomes.LegacyResultsAreCompletions` | protocol/validate.go:370-402 | every accepted legacy result is one of these |
| `TaskOutcomes.AcceptedTasksAreAnswered` | protocol/validate.go:272-368 | tasks accepted together can be answered together: their results are accepted iff all endings are reportable and the payloads fit one report |
| `Tasks.ValidateOutbox` | protocol/validate.go:241-266 | dispatching on the first durable-looking entry accepts iff all results are durable or all are legacy, and the issues are well formed and distinct |
| `Report.ValidateNodeReportBase` | protocol/validate.go:21-126 | the whole single-pass validator equals the order-free specification AcceptedReport |
| `Report.ValidateHave` | protocol/validate.go:37-50 | have holds exactly the three streams, each in an accepted state |
| `Report.JoinedIdentityIsExact` | protocol/validate.go:64-68 | NUL-joined identities clash iff stream and key both do, on accepted streams |
| `Report.ValidateObjects` | protocol/validate.go:59-69 | the object loop equals: each valid, (stream, key) pairwise distinct |
| `Report.ValidateClients` | protocol/validate.go:83-111 | the client loop equals: each valid, keys pairwise distinct |
| `Report.ValidateLiveIPs` | protocol/validate.go:96-106 | a set of parsed addresses decides distinctness of the canonical texts |
| `Report.ValidateNodeReport` | protocol/validate.go:136-157 | the sender's check adds: a host sample only with the capability, and valid |
| `Report.RowsAreEnumeratedOnce` | protocol/validate.go:59-124 | in an accepted full report no two objects share stream and row, no two listener, client or subject entries share a row |
| `Report.ReportOrderDoesNotMatter` | protocol/validate.go:21-157 | neither verdict depends on the order of capabilities, objects, listeners, clients, subjects, issues or results |
| `Report.AddressesInAnyOrder` | protocol/validate.go:96-106 | nor on the order of a client's live addresses |
| `AgentReports.AcceptedReportsAreAssembled` | protocol/validate.go:21-126 | a report is accepted iff an agent can assemble it: objects that runs led to, counters of rows, printed addresses, digests of content, completed tasks, raisable issues |
| `AgentReports.SentReportsAreAssembled` | protocol/validate.go:136-157 | the sender's check accepts those that carry no host sample, or declare the capability and carry a measured one |
| `HostSample.TextArrivesExactly` | protocol/validate.go:1179-1206 | for every string field of a host sample: the text that arrives obeys its rule iff a check before sending says so; it did before iff it also was valid UTF-8 |
| `HostSample.ArrivesValidIsExact` | protocol/validate.go:491-555 | the sample that arrives is valid iff its free texts fit once invalid bytes are replaced, names stay distinct then, and the rest is valid |
| `HostSample.ValidMeansArrivesAndUtf8` | protocol/validate.go:491-555 | the sample was valid before iff, besides, all its texts are valid UTF-8 |
| `HostSample.ValidHostsComeBack` | protocol/validate.go:1169-1197 | a valid sample can be encoded and comes back unchanged |
| `HostSample.ValidTextsAreMeasured` | protocol/validate.go:557-1206 | for every string field, the rule the validator applies takes exactly the texts a collector may put there |
| `HostSample.ValidSamplesAreMeasured` | protocol/validate.go:491-555 | the valid samples are those of measured texts, distinct interfaces and unavailable parts, and finite non-negative loads |
| `ReportCodec.DecodeUndoesMarshal` | protocol/report.go:133-180 | encoding fails iff the host sample holds a float that is no number; otherwise decoding either shape gives the report back with its text as valid UTF-8 and, on a partial report, without enumerations |
| `ReportCodec.ShapesAgree` | protocol/report.go:147-179 | the hand-written shape and the tagged one agree on every member they share |
| `WireShape.EnumerationsAreListedOrAbsent` | protocol/report.go:127-180 | a partial report leaves its four enumerations out altogether, null included; a full one lists objects, listeners and clients even when empty; both carry the flag |
| `WireShape.UnflaggedReportsAreFull` | protocol/protocol_test.go:469-473 | a document that does not mention the flag is read as full |
| `WireShape.EmptyMembersAreAbsent` | protocol/report.go:20-126 | of either shape, which members are there whatever they say and which only when they say something |
| `WireShape.EmptyListsAreAbsent` | protocol/report.go:20-126 | lists under omitempty are there iff they have elements, and list them in order |
| `WireShape.ObjectsOnTheWire` | protocol/report.go:190-223 | an object shows its state in words, its version always, and its timer, code and dependency iff it has them |
| `WireShape.CountersOnTheWire` | protocol/report.go:226-290 | counters stand under their own names, zero or not; gates show in words, addresses iff there are any |
| `WireShape.ResultsOnTheWire` | protocol/envelope.go:260-270 | a result always says whether it succeeded; payload, error, code and deadline show iff there is one; likewise an issue's key and detail |
| `ReportCodec.PartialShapeLosesOnlyEnumerations` | protocol/report.go:147-179 | a partial report delivers what the full shape would have but for the enumerations, and loses nothing iff there are none, which the validator forces |
| `ReportCodec.MarshalIsStable` | protocol/report.go:133-180 | encoding the decoded report again gives the identical tree, for every report |
| `ReportCodec.OneHopSettles` | protocol/protocol_test.go:227-232 | decoding what the decoded report encodes to gives it again, so no report changes after its first hop |
| `WireVerdict.AcceptedReportsComeBack` | protocol/report.go:133-180 | an accepted report comes back unchanged but for invalid UTF-8 in five unchecked texts, addresses and host sample, and for nil slices |
| `WireVerdict.BaseVerdictAfterTheWire` | protocol/validate.go:21-126 | the base validator accepts the report that arrives iff the live addresses survive as text |
| `WireVerdict.StableAddressesAreSentApart` | protocol/validate.go:96-106 | given that netip takes any bytes for a zone, the live addresses survive as text iff no two of one client are sent as the same text |
| `WireVerdict.SendersVerdictAfterTheWire` | protocol/validate.go:136-157 | the sender's check accepts it iff, besides, the host sample is declared and arrives valid; and accepted it before iff the sample was also valid UTF-8 |
| `WireVerdict.AcceptedReportsSurviveTheWire` | protocol/protocol_test.go:227-232 | the codec law on every report the base validator accepts: when it is encoded, that it decodes and re-encodes to the same tree, and exactly when each verdict is kept |
| `WireVerdict.SentReportsSurviveTheWire` | protocol/validate.go:128-157 | every report the sender's check accepts is encoded and decoded with its host sample intact, and accepted again by either validator iff its addresses are stable |
| `WireVerdict.Utf8ReportsComeBackUnchanged` | protocol/protocol_test.go:227-232 | an accepted report whose texts are valid UTF-8 comes back as it was, with both verdicts kept |
| `DecodedReports.DecodedTextsAreValid` | protocol/protocol_test.go:284-296 | a report decoded from a document of valid strings has valid texts and a host sample that can be encoded |
| `DecodedReports.AcceptedDocumentsSurviveTheWire` | protocol/protocol_test.go:284-313 | the fuzzed law, for every document: if it decodes to an accepted report, that report is encoded, decodes, is accepted again, keeps the sender's verdict and re-encodes identically |
| `DecodedReports.MarshalWritesValidStrings` | protocol/report.go:133-180 | MarshalJSON writes such a document, whatever the report |
| `WireCounterexamples.ZonesThatAreNotUtf8DoNotSurvive` | protocol/validate.go:96-106 | an accepted report whose decoded form both validators refuse: two IPv6 zones told apart only by invalid UTF-8 |
| `WireCounterexamples.SamplesThatAreNotUtf8AreLetIn` | protocol/validate.go:1183-1197 | a report the sender's check refuses for an operating system that is not UTF-8, and accepts once decoded, with no address involved |
| `WireCounterexamples.LoadsThatAreNoNumberAreNotEncoded` | protocol/validate.go:21-126 | a report the base validator accepts and json.Marshal cannot encode |
| `Quota.CheckedAddIsExact` | protocol/conformance/quota.go:89-94 | refuses exactly the overflows above; otherwise exact unless two negative operands underflow |
| `Quota.CheckedSubIsExact` | protocol/conformance/quota.go:96-101 | refuses exactly the overflows below; exact iff the difference fits |
| `Quota.AssessFleetQuota` | protocol/conformance/quota.go:49-87 | succeeds iff all inputs are non-negative and both unbounded sums fit int64, then with the exact residual; the residual-overflow error is unreachable |
| `Quota.RowOrderDoesNotMatter` | protocol/conformance/quota.go:54-70 | verdict and figures are invariant under row permutation |
| `Quota.LimitIsAThreshold` | protocol/conformance/quota.go:76-86 | the position is above iff the reported bytes exceed the limit, which changes nothing else; both times are handed through |
| `Quota.AssessmentIsWhatIsLeft` | protocol/conformance/quota.go:42-48 | the residual is what all rows have left of their ceilings together, signed and never clamped |
| `Quota.ResidualsAdd` | protocol/conformance/quota.go:42-49 | a whole is assessable iff its two parts are and their two sums fit int64, and then residuals and reported totals add |
| `ExactObject.DecodeExactObjectMayOmit` | protocol/upgrade.go:63-131 | the key scan accepts iff the keys are duplicate-free, within the declared ones, and include all that are not optional |
| `ExactObject.MemberOrderDoesNotMatter` | protocol/upgrade.go:91-126 | acceptance does not depend on member order |
| `ExactObject.AnyDefectIsRefused` | protocol/upgrade.go:86-130 | an accepted document is refused with any one defect added: unclosed, trailing data, unfit values, a repeated, unknown or unreadable member |
| `ExactObject.OwnEncodingIsAccepted` | protocol/upgrade.go:53-131 | a struct's encoding is accepted by its own decoder whatever it holds iff each name it can write is a tag's and each tag's name is optional or always written |
| `ExactObject.TaggedStructsAreAccepted` | protocol/upgrade.go:53-131 | of a struct whose fields all have tags of their own this is so iff its omitempty fields are all optional |
| `ExactObject.UntaggedFieldsAreRefused` | protocol/upgrade.go:73-101 | a struct with one exported field and no tag is never accepted by its own decoder, which does not know the name encoding/json writes |
| `ExactObject.DashedFields` | protocol/upgrade.go:73-101 | a field tagged with a dash alone is hidden from both sides; with a comma after it encoding/json writes a dash, which the decoder refuses |
| `Diagnostics.ResultsDecodeExactly` | protocol/diagnostics.go:164-197 | every diagnostics result emits a field list its exact decoder accepts |
| `Diagnostics.ValidateDiagnosticsResult` | protocol/diagnostics.go:242-288 | the single pass equals the order-free specification AcceptedResult |
| `Diagnostics.ValidateDiagnosticsChecks` | protocol/diagnostics.go:293-311 | the ten checks, once each and in order |
| `Diagnostics.AcceptedResultsAreCollected` | protocol/diagnostics.go:242-288 | the accepted results are those of schema 1 that add sound sections and events to the checks |
| `Diagnostics.EventsAreOccurrences` | protocol/diagnostics.go:269-282 | the accepted events are those of the six occurrences, with a time, a severity and a short summary |
| `Diagnostics.EventsAreJudgedAlone` | protocol/diagnostics.go:260-282 | up to 200 accepted events keep a result accepted, and only a result with events can be truncated |
| `Diagnostics.SectionsAreJudgedAlone` | protocol/diagnostics.go:246-259 | a section can always be left out, and put in iff its own contents are sound |
| `Diagnostics.TenFindingsAreAccepted` | protocol/diagnostics.go:293-311 | one finding for each check in order is accepted iff each has a known status and a short summary |
| `Diagnostics.ChecksAreInByteOrder` | protocol/diagnostics.go:293-311 | accepted checks stand in ascending order of code |
| `EventOrder.OrderOfEvents` | protocol/diagnostics.go:338-345 | the comparison is a total preorder whose ties are equal time and code |
| `ByteOrder.TextBeforeMeans` | protocol/diagnostics.go:343-343 | one text comes before another iff it is a proper prefix of it or has the smaller byte where they part |
| `EventOrder.SortedMeans` | protocol/diagnostics.go:328-345 | sorted is oldest first, and by ascending code among events of one time |
| `EventOrder.SortDiagnosticsEvents` | protocol/diagnostics.go:338-345 | sorts in place, oldest first, ties by code, remaining ties in input order |
| `EventOrder.StableSortIsUnique` | protocol/diagnostics.go:338-345 | a stable sort has only one possible result |
| `EventOrder.SortedIsAPermutation` | protocol/diagnostics.go:338-345 | it is a permutation, and sorting again changes nothing |
| `EventOrder.DroppingKeepsTheNewest` | protocol/diagnostics.go:332-345 | dropping any number of events from the front of the sorted list leaves an accepted result iff one survives; what survives is the rest of the list, and no survivor is older than a dropped event |

## Left out

- Error texts, and which of several failing checks is reported first: the verdict is modelled.
- SHA-256 itself, base64 text, JSON lexing, number syntax, member order within objects, case-insensitive or
  unknown member names, and documents of a foreign shape: the codec works on trees of known structs.
- The integers, flags and optional parts of a host sample: encoding/json returns them as they were, so they are
  one uninterpreted text, and the range checks on them (one branch each) and the limits on list lengths
  are a parameter of `HostSample.ValidHost`. Its texts are a list of fields with the rule of each.
- A nil and an empty slice are told apart only where MarshalJSON does, in the three enumerations.
- `ExactObject.DecodeExactObjectMayOmit` takes the outcome of decoding values and of filling the target struct
  as part of the document, and struct tags already split at the comma.
- `ExactObject.OwnEncodingIsAccepted` leaves out embedded structs, and takes tag names with letters outside ASCII
  to be invalid.
- `EventOrder.SortDiagnosticsEvents` runs the insertion sort with which sort.SliceStable sorts its blocks, not
  the block merging; by `EventOrder.StableSortIsUnique` the result is the same.
- `CadenceRuns.SilenceIsBounded` takes polls to happen exactly at the delay asked for; a late poll lengthens a
  silence by its lateness.
- `Cadence.HugeIntervalsOverflow` and the other int64 facts take Go's int as 64 bits.
- Compatibility assessment, ValidateDiagnosticsArgs, ValidateSyncResponse, RefreshDue, ETag equality: one
  branch or one loop of a kind already modelled.
- The segment receiver, the durable outbox and the quota gate are described in comments but not part of the
  repository, so they are not part of this model. The harness compares against code that is not there either.
