/** The reports an agent can assemble, said in the agent's terms: objects that runs have led to, rows of the
    database, printed addresses, digests of content, and completed tasks. The validator accepts these
    reports and no others. */
module AgentReports {
  import opened Wrappers
  import opened Ints
  import opened Lists
  import opened Platform
  import opened Versions
  import opened Keys
  import opened Hex
  import opened Tokens
  import opened Issues
  import opened Tasks
  import opened TaskOutcomes
  import opened ObjectState
  import opened ObjectRuns
  import opened HostSample
  import opened Report
  import opened ObjectReports

  // ---- what a node holds ----

  /** Nothing, or the digest of some content under a published version. */
  ghost predicate HeldState(state: StreamState) {
    || state == StreamState(Version(0, 0), "")
    || (state.applied.epoch >= 1 && state.applied.version >= 1 &&
        exists digest: seq<byte> :: |digest| == 32 && state.etag == Encode(digest))
  }

  lemma AcceptedStatesAreHeld(state: StreamState)
    ensures ValidStreamState(state) <==> HeldState(state)
  {
    StreamStatesAreAllOrNothing(state);
    if ValidStreamState(state) && state.etag != "" {
      DigestsAreLowerHex(state.etag);
      assert |Decode(state.etag).value| == 32 && state.etag == Encode(Decode(state.etag).value);
    }
    if digest: seq<byte> :| |digest| == 32 && state.etag == Encode(digest) {
      EncodedHashIsADigest(digest);
      DigestsAreLowerHex(state.etag);
    }
  }

  ghost predicate HeldStates(have: map<string, StreamState>) {
    have.Keys == {"config", "roster", "directives"} && forall stream :: stream in have ==> HeldState(have[stream])
  }

  lemma AcceptedHaveIsHeld(have: map<string, StreamState>)
    ensures AcceptedHave(have) <==> HeldStates(have)
  {
    forall stream | stream in have
      ensures ValidStreamState(have[stream]) <==> HeldState(have[stream])
    {
      AcceptedStatesAreHeld(have[stream]);
    }
  }

  // ---- the enumerations ----

  /** The object is that of a row, and some run has led it here. */
  ghost predicate RunObject(lib: Library, o: ObjectStatus) {
    && (exists id: int64 :: NamesRow(o.stream, o.key, id))
    && o.state != ObjectUnset
    && exists trs :: WellEvidencedRun(lib, trs) && Run(Fresh(o.stream, o.key), trs) == o
  }

  lemma RowsOfObjects(stream: string, key: string)
    ensures CanonicalIdentity(stream, key) <==> exists id: int64 :: NamesRow(stream, key, id)
  {
    if CanonicalIdentity(stream, key) {
      CanonicalIdentitiesNameRows(stream, key, RowId(KeyKindOf(stream).value, key).value);
    }
    if id: int64 :| NamesRow(stream, key, id) {
      CanonicalIdentitiesNameRows(stream, key, id);
    }
  }

  lemma AcceptedObjectsHaveRuns(lib: Library, objects: seq<ObjectStatus>)
    requires AsciiIsUtf8(lib)
    ensures AcceptedObjects(lib, objects) <==>
            Distinct(ObjectIdentity, objects) && forall o :: o in objects ==> RunObject(lib, o)
  {
    AcceptedObjectsAreRuns(lib, objects);
    forall o | o in objects
      ensures Reachable(lib, o) <==> RunObject(lib, o)
    {
      RowsOfObjects(o.stream, o.key);
    }
  }

  /** The key of some row, with this prefix. */
  ghost predicate RowKey(prefix: string, key: string) {
    exists id: int64 :: id > 0 && key == prefix + Decimal(id)
  }

  lemma RowKeys(key: string)
    ensures RowId(ListenerKey, key).Some? <==> RowKey("lst_", key)
    ensures RowId(ClientKey, key).Some? <==> RowKey("cli_", key)
    ensures RowId(SubjectKey, key).Some? <==> RowKey("usr_", key)
  {
    forall kind: KeyKind, id: int64 | id > 0
      ensures RowId(kind, key) == Some(id) <==> key == Mint(kind, id)
    {
      RowIdIsMintInverse(kind, key, id);
    }
    forall id: int64 | id > 0
      ensures Mint(ListenerKey, id) == "lst_" + Decimal(id)
      ensures Mint(ClientKey, id) == "cli_" + Decimal(id)
      ensures Mint(SubjectKey, id) == "usr_" + Decimal(id)
    {
      MintedKeys(id);
    }
  }

  ghost predicate CountedListener(c: ListenerCounters) {
    RowKey("lst_", c.key) && 0 <= c.upBytes && 0 <= c.downBytes
  }

  lemma AcceptedListenersAreCounted(counters: seq<ListenerCounters>)
    ensures AcceptedListeners(counters) <==>
            Distinct(ListenerIdentity, counters) && forall c :: c in counters ==> CountedListener(c)
  {
    forall c | c in counters
      ensures AcceptedListener(c) <==> CountedListener(c)
    {
      RowKeys(c.key);
    }
  }

  /** The text of an address that parses back to it. */
  ghost predicate PrintedAddress(lib: Library, text: string) {
    exists a :: lib.parseAddr(lib.addrString(a)) == Some(a) && text == lib.addrString(a)
  }

  lemma CanonicalAddressesArePrinted(lib: Library, text: string)
    ensures CanonicalAddr(lib, text) <==> PrintedAddress(lib, text)
  {
    if CanonicalAddr(lib, text) {
      var a := lib.parseAddr(text).value;
      assert lib.parseAddr(lib.addrString(a)) == Some(a);
    }
  }

  ghost predicate CountedClient(lib: Library, c: ClientCounters) {
    && RowKey("cli_", c.key) && 0 <= c.upBytes && 0 <= c.downBytes
    && (c.gate == GateUnconfigured || c.gate == GateArmed || c.gate == GateClosed)
    && (forall ip :: ip in c.liveIPs ==> PrintedAddress(lib, ip))
    && Distinct(Self, c.liveIPs)
  }

  lemma AcceptedClientsAreCounted(lib: Library, counters: seq<ClientCounters>)
    ensures AcceptedClients(lib, counters) <==>
            Distinct(ClientIdentity, counters) && forall c :: c in counters ==> CountedClient(lib, c)
  {
    forall c | c in counters
      ensures AcceptedClient(lib, c) <==> CountedClient(lib, c)
    {
      RowKeys(c.key);
      forall ip | ip in c.liveIPs
        ensures CanonicalAddr(lib, ip) <==> PrintedAddress(lib, ip)
      {
        CanonicalAddressesArePrinted(lib, ip);
      }
    }
  }

  ghost predicate CountedSubject(s: SubjectObservation) {
    RowKey("usr_", s.subject) && 0 <= s.ipLocalCount && 0 <= s.ipWouldDenySinceLastReport
  }

  lemma AcceptedSubjectsAreCounted(subjects: seq<SubjectObservation>)
    ensures AcceptedSubjects(subjects) <==>
            Distinct(SubjectIdentity, subjects) && forall s :: s in subjects ==> CountedSubject(s)
  {
    forall s | s in subjects
      ensures AcceptedSubject(s) <==> CountedSubject(s)
    {
      RowKeys(s.subject);
    }
  }

  // ---- the outbox ----

  predicate RaisableIssue(lib: Library, i: Issue) {
    && i.code != "" && |i.code| <= 128 && |i.key| <= 512 && |i.detail| <= 4096
    && lib.validUtf8(i.code) && lib.validUtf8(i.key) && lib.validUtf8(i.detail)
  }

  /** A bounded call, completed. */
  ghost predicate CompletedTask(lib: Library, r: TaskResult) {
    && BoundedId(r.id) && BoundedKind(r.kind) && r.notAfterMS >= 0
    && (exists digest: seq<byte> :: |digest| == 32 && r.inputSHA256 == Encode(digest))
    && exists ending :: Reportable(lib, ending) && r == Completed(r.id, r.kind, r.inputSHA256, r.notAfterMS, ending)
  }

  ghost predicate LegacyTask(lib: Library, r: TaskResult) {
    BoundedId(r.id) && exists ending :: LegacyReportable(lib, ending) && r == LegacyCompleted(r.id, ending)
  }

  lemma DigestsAreOfBytes(s: string)
    ensures ValidDigest(s) <==> exists digest: seq<byte> :: |digest| == 32 && s == Encode(digest)
  {
    if digest: seq<byte> :| |digest| == 32 && s == Encode(digest) {
      EncodedHashIsADigest(digest);
    }
  }

  lemma DurableResultsAreCompleted(lib: Library, r: TaskResult)
    requires AsciiIsUtf8(lib)
    ensures DurableResult(lib, r) <==> CompletedTask(lib, r)
  {
    DigestsAreOfBytes(r.inputSHA256);
    if DurableResult(lib, r) {
      var ending := DurableResultsAreCompletions(lib, r);
    }
    if CompletedTask(lib, r) {
      var ending :| Reportable(lib, ending) && r == Completed(r.id, r.kind, r.inputSHA256, r.notAfterMS, ending);
      CompletionsAreDurable(lib, r.id, r.kind, r.inputSHA256, r.notAfterMS, ending);
    }
  }

  lemma LegacyResultsAreLegacyTasks(lib: Library, r: TaskResult)
    requires AsciiIsUtf8(lib)
    ensures LegacyResult(lib, r) <==> LegacyTask(lib, r)
  {
    if LegacyResult(lib, r) {
      var ending := LegacyResultsAreCompletions(lib, r);
    }
    if LegacyTask(lib, r) {
      var ending :| LegacyReportable(lib, ending) && r == LegacyCompleted(r.id, ending);
      LegacyTasksComplete(lib, r.id, ending);
    }
  }

  ghost predicate CompletedTasks(lib: Library, results: seq<TaskResult>) {
    && |results| <= 256 && Distinct(ResultId, results) && Total(ResultSize, results) <= 0x40_0000
    && ((forall r :: r in results ==> CompletedTask(lib, r)) || (forall r :: r in results ==> LegacyTask(lib, r)))
  }

  lemma AcceptedResultsAreCompleted(lib: Library, results: seq<TaskResult>)
    requires AsciiIsUtf8(lib)
    ensures AcceptedDurable(lib, results) || AcceptedLegacy(lib, results) <==> CompletedTasks(lib, results)
  {
    forall r | r in results
      ensures DurableResult(lib, r) <==> CompletedTask(lib, r)
      ensures LegacyResult(lib, r) <==> LegacyTask(lib, r)
    {
      DurableResultsAreCompleted(lib, r);
      LegacyResultsAreLegacyTasks(lib, r);
    }
  }

  ghost predicate Outbox(lib: Library, issues: seq<Issue>, results: seq<TaskResult>) {
    && |issues| <= 256 && Distinct(IssueIdentity, issues)
    && (forall i :: i in issues ==> RaisableIssue(lib, i))
    && CompletedTasks(lib, results)
  }

  lemma AcceptedOutboxes(lib: Library, issues: seq<Issue>, results: seq<TaskResult>)
    requires AsciiIsUtf8(lib)
    ensures AcceptedOutbox(lib, issues, results) <==> Outbox(lib, issues, results)
  {
    AcceptedResultsAreCompleted(lib, results);
    assert forall i :: i in issues ==> (WellFormedIssue(lib, i) <==> RaisableIssue(lib, i));
  }

  // ---- the report ----

  predicate Introduced(r: NodeReport) {
    && r.agentId != "" && (r.protocolVersion == 0 || r.protocolVersion == 1) && 0 <= r.reportedAtMS
    && (r.coreEngine == "" || r.coreEngine == "xray" || r.coreEngine == "sing-box")
  }

  predicate Advertised(capabilities: seq<string>) {
    && |capabilities| <= 64 && Distinct(Self, capabilities)
    && forall c :: c in capabilities ==> |c| <= 128 && Spells(LETTERS, LETTERS + DIGITS + "_-.", c)
  }

  lemma AcceptedCapabilitiesAreAdvertised(capabilities: seq<string>)
    ensures AcceptedCapabilities(capabilities) <==> Advertised(capabilities)
  {
    forall c | c in capabilities
      ensures IsToken(c) <==> Spells(LETTERS, LETTERS + DIGITS + "_-.", c)
    {
      TokensAreSpelled(c);
    }
    assert forall i :: 0 <= i < |capabilities| ==> capabilities[i] in capabilities;
  }

  ghost predicate Enumerated(lib: Library, r: NodeReport) {
    && Distinct(ObjectIdentity, r.objects.Elements())
    && Distinct(ListenerIdentity, r.listenerCounters.Elements())
    && Distinct(ClientIdentity, r.clients.Elements())
    && Distinct(SubjectIdentity, r.subjects)
    && (forall o :: o in r.objects.Elements() ==> RunObject(lib, o))
    && (forall c :: c in r.listenerCounters.Elements() ==> CountedListener(c))
    && (forall c :: c in r.clients.Elements() ==> CountedClient(lib, c))
    && (forall s :: s in r.subjects ==> CountedSubject(s))
  }

  lemma AcceptedEnumerationsAreEnumerated(lib: Library, r: NodeReport)
    requires AsciiIsUtf8(lib)
    ensures AcceptedEnumerations(lib, r) <==> Enumerated(lib, r)
  {
    AcceptedObjectsHaveRuns(lib, r.objects.Elements());
    AcceptedListenersAreCounted(r.listenerCounters.Elements());
    AcceptedClientsAreCounted(lib, r.clients.Elements());
    AcceptedSubjectsAreCounted(r.subjects);
  }

  predicate NothingEnumerated(r: NodeReport) {
    r.objects.Elements() == [] && r.listenerCounters.Elements() == [] && r.clients.Elements() == [] && r.subjects == []
  }

  ghost predicate Assembled(lib: Library, r: NodeReport) {
    && Introduced(r)
    && Advertised(r.capabilities)
    && HeldStates(r.have)
    && (if r.partial then NothingEnumerated(r) else Enumerated(lib, r))
    && Outbox(lib, r.issues, r.taskResults)
  }

  lemma AcceptedHeadersAreIntroduced(r: NodeReport)
    ensures AcceptedHeader(r) <==> Introduced(r)
    ensures NoEnumerations(r) <==> NothingEnumerated(r)
  {}

  /** The reports the validator accepts are the reports an agent can assemble. */
  lemma AcceptedReportsAreAssembled(lib: Library, r: NodeReport)
    requires AsciiIsUtf8(lib)
    ensures AcceptedReport(lib, r) <==> Assembled(lib, r)
  {
    AcceptedHeadersAreIntroduced(r);
    AcceptedCapabilitiesAreAdvertised(r.capabilities);
    AcceptedHaveIsHeld(r.have);
    AcceptedEnumerationsAreEnumerated(lib, r);
    AcceptedOutboxes(lib, r.issues, r.taskResults);
  }

  /** And those that a sender's own check accepts carry no host sample, or a measured one with the capability
      declared. */
  lemma SentReportsAreAssembled(lib: Library, validFigures: string -> bool, r: NodeReport)
    requires AsciiIsUtf8(lib)
    ensures AcceptedBySender(lib, validFigures, r) <==>
            && Assembled(lib, r)
            && (r.host.Some? ==>
                && "host.telemetry.v1" in r.capabilities
                && AllMeasured(lib, r.host.value.texts)
                && NoneTwice(InterfaceName, r.host.value.texts) && NoneTwice(UnavailableToken, r.host.value.texts)
                && (forall x :: x in r.host.value.load ==> x.Finite? && 0.0 <= x.value)
                && validFigures(r.host.value.figures))
  {
    AcceptedReportsAreAssembled(lib, r);
    if r.host.Some? {
      ValidSamplesAreMeasured(lib, validFigures, r.host.value);
    }
  }
}
