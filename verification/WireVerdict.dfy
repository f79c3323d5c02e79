/** The verdict of the validators on a report that has gone over the wire. */
module WireVerdict {
  import opened Lists
  import opened Platform
  import opened Keys
  import opened Hex
  import opened Tokens
  import opened Issues
  import opened Tasks
  import opened ObjectState
  import opened HostSample
  import opened Report
  import opened ReportJson
  import opened ReportCodec

  // ---- accepted parts are clean ----

  lemma KeyIsClean(lib: Library, kind: KeyKind, s: string)
    requires LawfulText(lib) && RowId(kind, s).Some?
    ensures lib.cleanUtf8(s) == s
  {
    KeysAreShortAscii(kind, s);
    CleanAscii(lib, s);
  }

  lemma TokenIsClean(lib: Library, s: string)
    requires LawfulText(lib) && (s == "" || IsToken(s) || IsTaskId(s))
    ensures lib.cleanUtf8(s) == s
  {
    if s != "" {
      TokensArePlain(s);
    }
    CleanAscii(lib, s);
  }

  lemma DigestIsClean(lib: Library, s: string)
    requires LawfulText(lib) && ValidDigest(s)
    ensures lib.cleanUtf8(s) == s
  {
    DigestsAreLowerHex(s);
    LowerHexIsAscii(s);
    CleanAscii(lib, s);
  }

  lemma StateRoundTrip(s: ObjectState)
    requires !s.ObjectUnknown?
    ensures ParseState(StateText(s)) == s && Ascii(StateText(s))
  {
    assert "applied"[0] == 'a' && "pending"[0] == 'p' && "rejected"[0] == 'r' && "blocked"[0] == 'b';
  }

  lemma GateRoundTrip(g: GateState)
    requires !g.GateUnknown?
    ensures ParseGate(GateText(g)) == g && Ascii(GateText(g))
  {}

  lemma ObjectIsClean(lib: Library, o: ObjectStatus)
    requires LawfulText(lib) && ValidateReportedObject(lib, o)
    ensures CleanStatus(lib)(o) == o
  {
    KeyIsClean(lib, KeyKindOf(o.stream).value, o.key);
    StateRoundTrip(o.state);
    CleanAscii(lib, StateText(o.state));
    CleanAscii(lib, o.stream);
    CleanAscii(lib, "");
  }

  lemma ResultIsClean(lib: Library, r: TaskResult)
    requires LawfulText(lib) && (DurableResult(lib, r) || LegacyResult(lib, r))
    ensures CleanResult(lib)(r) == r
  {
    TokenIsClean(lib, r.id);
    TokenIsClean(lib, r.kind);
    TokenIsClean(lib, r.errorCode);
    CleanAscii(lib, "");
    if ValidDigest(r.inputSHA256) {
      DigestIsClean(lib, r.inputSHA256);
    }
  }

  lemma StreamsAreClean(lib: Library)
    requires LawfulText(lib)
    ensures forall stream :: stream in STREAMS ==> lib.cleanUtf8(stream) == stream
  {
    CleanAscii(lib, STREAM_CONFIG);
    CleanAscii(lib, STREAM_ROSTER);
    CleanAscii(lib, STREAM_DIRECTIVES);
  }

  lemma CleanKeysAreAlone(lib: Library, keys: set<string>)
    requires forall key :: key in keys ==> lib.cleanUtf8(key) == key
    ensures CleanKeys(lib, keys) == keys
    ensures forall key :: key in keys ==> LastKey(lib, keys, key) == key
  {}

  lemma HaveIsClean(lib: Library, have: map<string, StreamState>)
    requires LawfulText(lib) && AcceptedHave(have)
    ensures CleanHave(lib, have) == have
  {
    StreamsAreClean(lib);
    CleanKeysAreAlone(lib, have.Keys);
    forall stream | stream in have
      ensures CleanState(lib, have[stream]) == have[stream]
    {
      var state := have[stream];
      assert ValidStreamState(state);
      if state.etag == "" {
        CleanAscii(lib, "");
      } else {
        DigestIsClean(lib, state.etag);
      }
    }
    SameMap(CleanHave(lib, have), have);
  }

  lemma OutboxIsClean(lib: Library, issues: seq<Issue>, results: seq<TaskResult>)
    requires LawfulText(lib) && AcceptedOutbox(lib, issues, results)
    ensures Map(CleanIssue(lib), issues) == issues && Map(CleanResult(lib), results) == results
  {
    forall i | i in issues
      ensures CleanIssue(lib)(i) == i
    {
      assert WellFormedIssue(lib, i);
    }
    MapFixes(CleanIssue(lib), issues);
    forall r | r in results
      ensures CleanResult(lib)(r) == r
    {
      ResultIsClean(lib, r);
    }
    MapFixes(CleanResult(lib), results);
  }

  lemma CapabilitiesAreClean(lib: Library, capabilities: seq<string>)
    requires LawfulText(lib) && AcceptedCapabilities(capabilities)
    ensures Map(CleanText(lib), capabilities) == capabilities
  {
    forall c | c in capabilities
      ensures CleanText(lib)(c) == c
    {
      var i :| 0 <= i < |capabilities| && capabilities[i] == c;
      assert IsToken(capabilities[i]);
      TokenIsClean(lib, c);
    }
    MapFixes(CleanText(lib), capabilities);
  }

  lemma EnumerationsAreClean(lib: Library, r: NodeReport)
    requires LawfulText(lib) && AcceptedEnumerations(lib, r)
    ensures Map(CleanStatus(lib), r.objects.Elements()) == r.objects.Elements()
    ensures Map(CleanListener(lib), r.listenerCounters.Elements()) == r.listenerCounters.Elements()
    ensures Map(CleanSubject(lib), r.subjects) == r.subjects
  {
    forall o | o in r.objects.Elements()
      ensures CleanStatus(lib)(o) == o
    {
      ObjectIsClean(lib, o);
    }
    MapFixes(CleanStatus(lib), r.objects.Elements());
    forall c | c in r.listenerCounters.Elements()
      ensures CleanListener(lib)(c) == c
    {
      assert AcceptedListener(c);
      KeyIsClean(lib, ListenerKey, c.key);
    }
    MapFixes(CleanListener(lib), r.listenerCounters.Elements());
    forall s | s in r.subjects
      ensures CleanSubject(lib)(s) == s
    {
      assert AcceptedSubject(s);
      KeyIsClean(lib, SubjectKey, s.subject);
    }
    MapFixes(CleanSubject(lib), r.subjects);
  }

  /** The live addresses are still canonical and distinct as valid UTF-8. They may fail to be: an IPv6
      zone can hold bytes that are not UTF-8, and two zones may be told apart only by such bytes. */
  predicate StableAddresses(lib: Library, r: NodeReport) {
    forall c :: c in r.clients.Elements() ==> AcceptedLiveIPs(lib, Map(CleanText(lib), c.liveIPs))
  }

  /** netip.ParseAddr takes any bytes for a zone, and invalid UTF-8 can stand nowhere else in an address. */
  ghost predicate LawfulAddresses(lib: Library) {
    forall s :: CanonicalAddr(lib, s) ==> CanonicalAddr(lib, lib.cleanUtf8(s))
  }

  /** So the addresses of an accepted report survive exactly when no two of one client are sent as one text. */
  lemma StableAddressesAreSentApart(lib: Library, r: NodeReport)
    requires LawfulAddresses(lib) && AcceptedReport(lib, r)
    ensures StableAddresses(lib, r) <==> forall c :: c in r.clients.Elements() ==> Distinct(CleanText(lib), c.liveIPs)
  {
    forall c | c in r.clients.Elements()
      ensures AcceptedLiveIPs(lib, Map(CleanText(lib), c.liveIPs)) <==> Distinct(CleanText(lib), c.liveIPs)
    {
      assert AcceptedClient(lib, c);
      MapMembers(CleanText(lib), c.liveIPs);
      MapKeys(CleanText(lib), Self, CleanText(lib), c.liveIPs);
    }
  }

  lemma ClientIsClean(lib: Library, c: ClientCounters)
    requires LawfulText(lib) && AcceptedClient(lib, c)
    ensures CleanClient(lib)(c) == c.(liveIPs := Map(CleanText(lib), c.liveIPs))
  {
    KeyIsClean(lib, ClientKey, c.key);
    GateRoundTrip(c.gate);
    CleanAscii(lib, GateText(c.gate));
  }

  lemma ClientsAfterTheWire(lib: Library, clients: seq<ClientCounters>)
    requires LawfulText(lib) && AcceptedClients(lib, clients)
    ensures AcceptedClients(lib, Map(CleanClient(lib), clients)) <==>
            forall c :: c in clients ==> AcceptedLiveIPs(lib, Map(CleanText(lib), c.liveIPs))
  {
    var cleaned := Map(CleanClient(lib), clients);
    forall c | c in clients
      ensures ClientIdentity(CleanClient(lib)(c)) == ClientIdentity(c)
      ensures AcceptedClient(lib, CleanClient(lib)(c)) <==> AcceptedLiveIPs(lib, Map(CleanText(lib), c.liveIPs))
    {
      ClientIsClean(lib, c);
    }
    MapKeepsKeys(CleanClient(lib), ClientIdentity, clients);
    MapMembers(CleanClient(lib), clients);
  }

  /** `b` is `r` but for the texts the validator does not look into, the clients' addresses, the texts of
      the host sample, and whether an empty enumeration is nil. */
  predicate ComesBackAs(lib: Library, r: NodeReport, b: NodeReport) {
    && b.objects.Elements() == r.objects.Elements()
    && b.listenerCounters.Elements() == r.listenerCounters.Elements()
    && b.clients.Elements() == Map(CleanClient(lib), r.clients.Elements())
    && b == r.(agentId := lib.cleanUtf8(r.agentId), agentVersion := lib.cleanUtf8(r.agentVersion),
               coreVersion := lib.cleanUtf8(r.coreVersion), coreState := lib.cleanUtf8(r.coreState),
               objects := b.objects, listenerCounters := b.listenerCounters, clients := b.clients,
               host := ReceivedHost(lib, r.host))
  }

  lemma EngineIsClean(lib: Library, r: NodeReport)
    requires LawfulText(lib) && AcceptedHeader(r)
    ensures lib.cleanUtf8(r.coreEngine) == r.coreEngine
  {
    CleanAscii(lib, r.coreEngine);
  }

  /** Everything the validator does look into is clean. */
  predicate CleanParts(lib: Library, r: NodeReport) {
    && lib.cleanUtf8(r.coreEngine) == r.coreEngine
    && Map(CleanText(lib), r.capabilities) == r.capabilities
    && CleanHave(lib, r.have) == r.have
    && Map(CleanIssue(lib), r.issues) == r.issues
    && Map(CleanResult(lib), r.taskResults) == r.taskResults
    && (r.partial ==> NoEnumerations(r))
    && (!r.partial ==>
      && Map(CleanStatus(lib), r.objects.Elements()) == r.objects.Elements()
      && Map(CleanListener(lib), r.listenerCounters.Elements()) == r.listenerCounters.Elements()
      && Map(CleanSubject(lib), r.subjects) == r.subjects)
  }

  lemma AcceptedPartsAreClean(lib: Library, r: NodeReport)
    requires LawfulText(lib) && AcceptedReport(lib, r)
    ensures CleanParts(lib, r)
  {
    CapabilitiesAreClean(lib, r.capabilities);
    HaveIsClean(lib, r.have);
    OutboxIsClean(lib, r.issues, r.taskResults);
    EngineIsClean(lib, r);
    if !r.partial {
      EnumerationsAreClean(lib, r);
    }
  }

  lemma CleanPartsComeBack(lib: Library, r: NodeReport)
    requires CleanParts(lib, r)
    ensures ComesBackAs(lib, r, Received(lib, r))
  {}

  /** An accepted report comes back as it was, but for that: of five texts, the addresses and the sample
      only what is not valid UTF-8 is lost. */
  lemma AcceptedReportsComeBack(lib: Library, r: NodeReport)
    requires LawfulText(lib) && AcceptedReport(lib, r)
    ensures ComesBackAs(lib, r, Received(lib, r))
  {
    AcceptedPartsAreClean(lib, r);
    CleanPartsComeBack(lib, r);
  }

  lemma HeaderComesBack(lib: Library, r: NodeReport, b: NodeReport)
    requires LawfulText(lib) && AcceptedHeader(r) && ComesBackAs(lib, r, b)
    ensures AcceptedHeader(b)
  {}

  lemma VerdictIsTheClients(lib: Library, r: NodeReport, b: NodeReport)
    requires AcceptedReport(lib, r) && ComesBackAs(lib, r, b) && AcceptedHeader(b)
    ensures AcceptedReport(lib, b) <==> r.partial || AcceptedClients(lib, b.clients.Elements())
  {}

  /** The base validator accepts the report that arrives exactly when its addresses survived as text. */
  lemma BaseVerdictAfterTheWire(lib: Library, r: NodeReport)
    requires LawfulText(lib) && AcceptedReport(lib, r)
    ensures AcceptedReport(lib, Received(lib, r)) <==> StableAddresses(lib, r)
  {
    AcceptedReportsComeBack(lib, r);
    HeaderComesBack(lib, r, Received(lib, r));
    VerdictIsTheClients(lib, r, Received(lib, r));
    if !r.partial {
      ClientsAfterTheWire(lib, r.clients.Elements());
    }
  }

  predicate DeclaresTelemetry(r: NodeReport) {
    CAPABILITY_HOST_TELEMETRY in r.capabilities
  }

  predicate HostArrivesValid(lib: Library, validFigures: string -> bool, r: NodeReport) {
    r.host.Some? ==> DeclaresTelemetry(r) && ArrivesValid(lib, validFigures, r.host.value)
  }

  /** The sender's own check accepts it exactly when, besides, its host sample arrives valid. A report
      the sender accepted is one of these exactly when its addresses survive; one the sender refused for
      its host sample alone is one of these when invalid UTF-8 was all that was wrong with the sample. */
  lemma SendersVerdictAfterTheWire(lib: Library, validFigures: string -> bool, r: NodeReport)
    requires LawfulText(lib) && AcceptedReport(lib, r)
    ensures AcceptedBySender(lib, validFigures, Received(lib, r)) <==>
            StableAddresses(lib, r) && HostArrivesValid(lib, validFigures, r)
    ensures AcceptedBySender(lib, validFigures, r) <==>
            HostArrivesValid(lib, validFigures, r) && (r.host.Some? ==> Utf8Host(lib, r.host.value))
  {
    BaseVerdictAfterTheWire(lib, r);
    AcceptedReportsComeBack(lib, r);
    if r.host.Some? {
      ArrivesValidIsExact(lib, validFigures, r.host.value);
      ValidMeansArrivesAndUtf8(lib, validFigures, r.host.value);
    }
  }

  /** The law of the wire format, on every report the base validator accepts. It is encoded exactly when
      its host sample has no float that is no number. It then decodes, encodes again to the same tree,
      is accepted again exactly when its addresses are stable, and by the sender's check exactly when
      its host sample arrives valid too. So the sender's verdict changes exactly on a report whose sample
      would arrive valid, but whose addresses are stable and sample not UTF-8, or the other way round. */
  lemma AcceptedReportsSurviveTheWire(lib: Library, validFigures: string -> bool, r: NodeReport)
    requires LawfulText(lib) && AcceptedReport(lib, r)
    ensures MarshalReport(lib, r).Some? <==> HostEncodes(r)
    ensures HostEncodes(r) ==>
              var decoded := DecodeReport(MarshalReport(lib, r).value);
              && decoded.Some?
              && MarshalReport(lib, decoded.value) == MarshalReport(lib, r)
              && (AcceptedReport(lib, decoded.value) <==> StableAddresses(lib, r))
              && (AcceptedBySender(lib, validFigures, decoded.value) <==>
                  StableAddresses(lib, r) && HostArrivesValid(lib, validFigures, r))
              && ((AcceptedBySender(lib, validFigures, decoded.value) <==> AcceptedBySender(lib, validFigures, r)) <==>
                  (HostArrivesValid(lib, validFigures, r) ==>
                    (StableAddresses(lib, r) <==> (r.host.Some? ==> Utf8Host(lib, r.host.value)))))
  {
    DecodeUndoesMarshal(lib, r);
    MarshalIsStable(lib, r);
    BaseVerdictAfterTheWire(lib, r);
    SendersVerdictAfterTheWire(lib, validFigures, r);
  }

  /** Every report that a sender sends, because its own check accepts it, is encoded, decoded and
      accepted again exactly when its addresses are stable. */
  lemma SentReportsSurviveTheWire(lib: Library, validFigures: string -> bool, r: NodeReport)
    requires LawfulText(lib) && AcceptedBySender(lib, validFigures, r)
    ensures MarshalReport(lib, r).Some?
    ensures var decoded := DecodeReport(MarshalReport(lib, r).value);
            && decoded.Some?
            && decoded.value.host == r.host
            && (AcceptedBySender(lib, validFigures, decoded.value) <==> StableAddresses(lib, r))
            && (AcceptedReport(lib, decoded.value) <==> StableAddresses(lib, r))
  {
    if r.host.Some? {
      ValidHostsComeBack(lib, validFigures, r.host.value);
    }
    DecodeUndoesMarshal(lib, r);
    BaseVerdictAfterTheWire(lib, r);
    SendersVerdictAfterTheWire(lib, validFigures, r);
  }

  /** And a report the sender refuses for its host sample alone is accepted where it arrives when the
      sample would arrive valid, which takes no more than the replacement of invalid UTF-8. */
  lemma SamplesLetIn(lib: Library, validFigures: string -> bool, r: NodeReport)
    requires LawfulText(lib) && AcceptedReport(lib, r) && StableAddresses(lib, r) && HostEncodes(r)
    requires HostArrivesValid(lib, validFigures, r) && r.host.Some? && !Utf8Host(lib, r.host.value)
    ensures !AcceptedBySender(lib, validFigures, r)
    ensures MarshalReport(lib, r).Some?
    ensures var decoded := DecodeReport(MarshalReport(lib, r).value);
            decoded.Some? && AcceptedBySender(lib, validFigures, decoded.value)
  {
    DecodeUndoesMarshal(lib, r);
    SendersVerdictAfterTheWire(lib, validFigures, r);
  }

  // ---- reports whose texts are valid UTF-8 ----

  predicate Utf8Addresses(lib: Library, c: ClientCounters) {
    forall ip :: ip in c.liveIPs ==> lib.validUtf8(ip)
  }

  /** The texts in which an accepted report can hold anything but ASCII are valid UTF-8; those of its
      issues and results always are. */
  predicate Utf8Texts(lib: Library, r: NodeReport) {
    && lib.validUtf8(r.agentId) && lib.validUtf8(r.agentVersion)
    && lib.validUtf8(r.coreVersion) && lib.validUtf8(r.coreState)
    && (forall c :: c in r.clients.Elements() ==> Utf8Addresses(lib, c))
    && (r.host.Some? ==> Utf8Host(lib, r.host.value))
  }

  lemma Utf8ClientsAreClean(lib: Library, clients: seq<ClientCounters>)
    requires LawfulText(lib) && forall c :: c in clients ==> AcceptedClient(lib, c) && Utf8Addresses(lib, c)
    ensures forall c :: c in clients ==> Map(CleanText(lib), c.liveIPs) == c.liveIPs
    ensures Map(CleanClient(lib), clients) == clients
  {
    forall c | c in clients
      ensures Map(CleanText(lib), c.liveIPs) == c.liveIPs && CleanClient(lib)(c) == c
    {
      MapFixes(CleanText(lib), c.liveIPs);
      ClientIsClean(lib, c);
    }
    MapFixes(CleanClient(lib), clients);
  }

  lemma AcceptedClientsOf(lib: Library, r: NodeReport)
    requires AcceptedReport(lib, r)
    ensures forall c :: c in r.clients.Elements() ==> AcceptedClient(lib, c)
  {}

  /** Such a report comes back as it was, but for nil slices, and with every verdict kept: whatever its
      shape, the wire loses nothing of it. */
  lemma Utf8ReportsComeBackUnchanged(lib: Library, validFigures: string -> bool, r: NodeReport)
    requires LawfulText(lib) && AcceptedReport(lib, r) && Utf8Texts(lib, r)
    ensures var b := Received(lib, r);
            && b == r.(objects := b.objects, listenerCounters := b.listenerCounters, clients := b.clients)
            && b.objects.Elements() == r.objects.Elements()
            && b.listenerCounters.Elements() == r.listenerCounters.Elements()
            && b.clients.Elements() == r.clients.Elements()
            && AcceptedReport(lib, b)
            && (AcceptedBySender(lib, validFigures, b) <==> AcceptedBySender(lib, validFigures, r))
  {
    AcceptedReportsComeBack(lib, r);
    AcceptedClientsOf(lib, r);
    Utf8ClientsAreClean(lib, r.clients.Elements());
    if r.host.Some? {
      Utf8HostIsClean(lib, r.host.value);
    }
    assert StableAddresses(lib, r);
    SendersVerdictAfterTheWire(lib, validFigures, r);
    BaseVerdictAfterTheWire(lib, r);
  }
}
