/** The node's report and the validators of its control half. */
module Report {
  import opened Wrappers
  import opened Ints
  import opened Limits
  import opened Lists
  import opened Platform
  import opened Keys
  import opened Hex
  import opened Tokens
  import opened Issues
  import opened Tasks
  import opened ObjectState
  import opened HostSample

  const PROTOCOL_VERSION_1 := 1
  const CAPABILITY_HOST_TELEMETRY := "host.telemetry.v1"

  /** A Go slice where nil and empty are told apart. */
  datatype Slice<T> = Nil | Elems(elems: seq<T>) {
    function Elements(): seq<T> {
      match this
      case Nil => []
      case Elems(s) => s
    }
  }

  datatype GateState = GateUnconfigured | GateArmed | GateClosed | GateUnknown(text: string)

  datatype ListenerCounters =
    ListenerCounters(key: string, present: bool, upBytes: int64, downBytes: int64, counterEpoch: uint64)

  datatype ClientCounters = ClientCounters(
    key: string,
    present: bool,
    upBytes: int64,
    downBytes: int64,
    counterEpoch: uint64,
    gate: GateState,
    liveIPs: seq<string>
  )

  datatype SubjectObservation =
    SubjectObservation(subject: string, ipLocalCount: int64, ipWouldDenySinceLastReport: int64)

  datatype NodeReport = NodeReport(
    agentId: string,
    protocolVersion: int64,
    reportedAtMS: int64,
    agentVersion: string,
    coreEngine: string,
    coreVersion: string,
    coreState: string,
    capabilities: seq<string>,
    partial: bool,
    have: map<string, StreamState>,
    objects: Slice<ObjectStatus>,
    listenerCounters: Slice<ListenerCounters>,
    clients: Slice<ClientCounters>,
    subjects: seq<SubjectObservation>,
    host: Option<HostObservation>,
    issues: seq<Issue>,
    taskResults: seq<TaskResult>
  )

  // ---- what an accepted report is, without regard to order ----

  predicate AcceptedHeader(r: NodeReport) {
    && r.agentId != ""
    && 0 <= r.protocolVersion <= PROTOCOL_VERSION_1
    && r.reportedAtMS >= 0
    && r.coreEngine in {"", "xray", "sing-box"}
  }

  const STREAMS := {STREAM_CONFIG, STREAM_ROSTER, STREAM_DIRECTIVES}

  predicate AcceptedHave(have: map<string, StreamState>) {
    have.Keys == STREAMS && forall stream :: stream in have ==> ValidStreamState(have[stream])
  }

  function ObjectIdentity(o: ObjectStatus): (string, string) {
    (o.stream, o.key)
  }

  predicate AcceptedObjects(lib: Library, objects: seq<ObjectStatus>) {
    && (forall o :: o in objects ==> ValidateReportedObject(lib, o))
    && Distinct(ObjectIdentity, objects)
  }

  predicate AcceptedListener(c: ListenerCounters) {
    RowId(ListenerKey, c.key).Some? && c.upBytes >= 0 && c.downBytes >= 0
  }

  function ListenerIdentity(c: ListenerCounters): string {
    c.key
  }

  predicate AcceptedListeners(counters: seq<ListenerCounters>) {
    (forall c :: c in counters ==> AcceptedListener(c)) && Distinct(ListenerIdentity, counters)
  }

  /** The canonical text of an address. */
  predicate CanonicalAddr(lib: Library, raw: string) {
    lib.parseAddr(raw).Some? && lib.addrString(lib.parseAddr(raw).value) == raw
  }

  predicate AcceptedLiveIPs(lib: Library, ips: seq<string>) {
    (forall raw :: raw in ips ==> CanonicalAddr(lib, raw)) && Distinct(Self, ips)
  }

  predicate AcceptedClient(lib: Library, c: ClientCounters) {
    && RowId(ClientKey, c.key).Some? && c.upBytes >= 0 && c.downBytes >= 0
    && !c.gate.GateUnknown?
    && AcceptedLiveIPs(lib, c.liveIPs)
  }

  function ClientIdentity(c: ClientCounters): string {
    c.key
  }

  predicate AcceptedClients(lib: Library, counters: seq<ClientCounters>) {
    (forall c :: c in counters ==> AcceptedClient(lib, c)) && Distinct(ClientIdentity, counters)
  }

  predicate AcceptedSubject(s: SubjectObservation) {
    RowId(SubjectKey, s.subject).Some? && s.ipLocalCount >= 0 && s.ipWouldDenySinceLastReport >= 0
  }

  function SubjectIdentity(s: SubjectObservation): string {
    s.subject
  }

  predicate AcceptedSubjects(subjects: seq<SubjectObservation>) {
    (forall s :: s in subjects ==> AcceptedSubject(s)) && Distinct(SubjectIdentity, subjects)
  }

  predicate NoEnumerations(r: NodeReport) {
    r.objects.Elements() == [] && r.listenerCounters.Elements() == [] && r.clients.Elements() == [] && r.subjects == []
  }

  predicate AcceptedEnumerations(lib: Library, r: NodeReport) {
    && AcceptedObjects(lib, r.objects.Elements())
    && AcceptedListeners(r.listenerCounters.Elements())
    && AcceptedClients(lib, r.clients.Elements())
    && AcceptedSubjects(r.subjects)
  }

  predicate AcceptedReport(lib: Library, r: NodeReport) {
    && AcceptedHeader(r)
    && AcceptedCapabilities(r.capabilities)
    && AcceptedHave(r.have)
    && (if r.partial then NoEnumerations(r) else AcceptedEnumerations(lib, r))
    && AcceptedOutbox(lib, r.issues, r.taskResults)
  }

  /** The sender's check: a host sample needs the capability, and has to be valid itself. */
  predicate AcceptedBySender(lib: Library, validFigures: string -> bool, r: NodeReport) {
    && AcceptedReport(lib, r)
    && (r.host.Some? ==> CAPABILITY_HOST_TELEMETRY in r.capabilities && ValidHost(lib, validFigures, r.host.value))
  }

  // ---- the validators ----

  method ValidateHave(have: map<string, StreamState>) returns (ok: bool)
    ensures ok <==> AcceptedHave(have)
  {
    var required := [STREAM_CONFIG, STREAM_ROSTER, STREAM_DIRECTIVES];
    for n := 0 to |required|
      invariant forall i :: 0 <= i < n ==> required[i] in have && ValidStreamState(have[required[i]])
    {
      assert required[n] in STREAMS;
      if required[n] !in have {
        return false;
      }
      if !ValidStreamState(have[required[n]]) {
        return false;
      }
    }
    assert required[0] in have && required[1] in have && required[2] in have;
    var streams := have.Keys;
    while streams != {}
      invariant streams <= have.Keys
      invariant forall s :: s in have && s !in streams ==> s in STREAMS
      decreases |streams|
    {
      var stream :| stream in streams;
      if !(stream == STREAM_CONFIG || stream == STREAM_ROSTER || stream == STREAM_DIRECTIVES) {
        return false;
      }
      streams := streams - {stream};
    }
    assert have.Keys == STREAMS;
    return true;
  }

  /** The identity the object loop puts in its set. */
  function JoinedIdentity(o: ObjectStatus): string {
    o.stream + "\0" + o.key
  }

  predicate Plain(o: ObjectStatus) {
    '\0' !in o.stream
  }

  lemma JoinedIdentityOfTwo(a: ObjectStatus, b: ObjectStatus)
    requires Plain(a) && Plain(b)
    ensures JoinedIdentity(a) == JoinedIdentity(b) <==> ObjectIdentity(a) == ObjectIdentity(b)
  {
    if JoinedIdentity(a) == JoinedIdentity(b) {
      SeparatorSplits('\0', a.stream, a.key, b.stream, b.key);
    }
  }

  /** On streams without a NUL the joined identities clash exactly when the pairs do. */
  lemma JoinedIdentityIsExact(objects: seq<ObjectStatus>)
    requires UpTo(Plain, objects, |objects|)
    ensures Distinct(JoinedIdentity, objects) <==> Distinct(ObjectIdentity, objects)
  {
    UpToMeans(Plain, objects, |objects|);
    DistinctMeans(JoinedIdentity, objects);
    DistinctMeans(ObjectIdentity, objects);
    forall i, j | 0 <= i < j < |objects|
      ensures JoinedIdentity(objects[i]) == JoinedIdentity(objects[j]) <==>
              ObjectIdentity(objects[i]) == ObjectIdentity(objects[j])
    {
      assert objects[..|objects|] == objects;
      assert objects[i] in objects && objects[j] in objects;
      JoinedIdentityOfTwo(objects[i], objects[j]);
    }
  }

  lemma ValidObjectsHavePlainStreams(lib: Library, o: ObjectStatus)
    requires ValidateReportedObject(lib, o)
    ensures Plain(o)
  {}

  method ValidateObjects(lib: Library, objects: seq<ObjectStatus>) returns (ok: bool)
    ensures ok <==> AcceptedObjects(lib, objects)
  {
    ghost var valid := (o: ObjectStatus) => ValidateReportedObject(lib, o);
    var seenObjects := {};
    for n := 0 to |objects|
      invariant UpTo(valid, objects, n) && UpTo(Plain, objects, n)
      invariant seenObjects == KeySet(JoinedIdentity, objects[..n])
      invariant Distinct(JoinedIdentity, objects[..n])
    {
      var status := objects[n];
      assert status in objects;
      if !ValidateReportedObject(lib, status) {
        return false;
      }
      ValidObjectsHavePlainStreams(lib, status);
      ExtendKeys(JoinedIdentity, objects, n);
      var identity := JoinedIdentity(status);
      if identity in seenObjects {
        UpToPrefix(Plain, objects, n + 1);
        JoinedIdentityIsExact(objects[..n + 1]);
        DistinctPrefix(ObjectIdentity, objects, n + 1);
        return false;
      }
      seenObjects := seenObjects + {identity};
    }
    assert objects[..|objects|] == objects;
    JoinedIdentityIsExact(objects);
    UpToMeans(valid, objects, |objects|);
    return true;
  }

  /** The part of the loop body that looks at one entry alone; likewise for the other loops. */
  method ValidListener(counter: ListenerCounters) returns (ok: bool)
    ensures ok <==> AcceptedListener(counter)
  {
    if RowId(ListenerKey, counter.key).None? {
      return false;
    }
    return !(counter.upBytes < 0 || counter.downBytes < 0);
  }

  method ValidateListeners(counters: seq<ListenerCounters>) returns (ok: bool)
    ensures ok <==> AcceptedListeners(counters)
  {
    ghost var valid := (c: ListenerCounters) => AcceptedListener(c);
    var seenListeners := {};
    for n := 0 to |counters|
      invariant UpTo(valid, counters, n)
      invariant seenListeners == KeySet(ListenerIdentity, counters[..n])
      invariant Distinct(ListenerIdentity, counters[..n])
    {
      var counter := counters[n];
      assert counter in counters;
      ExtendKeys(ListenerIdentity, counters, n);
      DistinctPrefix(ListenerIdentity, counters, n + 1);
      var counterOk := ValidListener(counter);
      if !counterOk {
        return false;
      }
      if counter.key in seenListeners {
        return false;
      }
      seenListeners := seenListeners + {counter.key};
    }
    assert counters[..|counters|] == counters;
    UpToMeans(valid, counters, |counters|);
    return true;
  }

  method ValidSubject(subject: SubjectObservation) returns (ok: bool)
    ensures ok <==> AcceptedSubject(subject)
  {
    if RowId(SubjectKey, subject.subject).None? {
      return false;
    }
    return !(subject.ipLocalCount < 0 || subject.ipWouldDenySinceLastReport < 0);
  }

  /** The loop keeps a set of parsed addresses; on canonical texts that is the same as a set of texts. */
  method ValidateLiveIPs(lib: Library, ips: seq<string>) returns (ok: bool)
    ensures ok <==> AcceptedLiveIPs(lib, ips)
  {
    var seenIPs: set<Addr> := {};
    DistinctMeans(Self, ips);
    for n := 0 to |ips|
      invariant forall i :: 0 <= i < n ==> CanonicalAddr(lib, ips[i])
      invariant seenIPs == set i | 0 <= i < n :: lib.parseAddr(ips[i]).value
      invariant forall i, j :: 0 <= i < j < n ==> ips[i] != ips[j]
    {
      var raw := ips[n];
      assert raw in ips;
      var addr := lib.parseAddr(raw);
      if addr.None? || lib.addrString(addr.value) != raw {
        return false;
      }
      if addr.value in seenIPs {
        ghost var i :| 0 <= i < n && lib.parseAddr(ips[i]).value == addr.value;
        assert CanonicalAddr(lib, ips[i]);
        assert Self(ips[i]) == Self(ips[n]);
        return false;
      }
      forall i | 0 <= i < n
        ensures ips[i] != ips[n]
      {
        assert lib.parseAddr(ips[i]).value in seenIPs;
      }
      seenIPs := seenIPs + {addr.value};
    }
    return true;
  }

  method ValidClient(lib: Library, counter: ClientCounters) returns (ok: bool)
    ensures ok <==> AcceptedClient(lib, counter)
  {
    if RowId(ClientKey, counter.key).None? {
      return false;
    }
    if counter.upBytes < 0 || counter.downBytes < 0 {
      return false;
    }
    if counter.gate.GateUnknown? {
      return false;
    }
    ok := ValidateLiveIPs(lib, counter.liveIPs);
  }

  method ValidateClients(lib: Library, counters: seq<ClientCounters>) returns (ok: bool)
    ensures ok <==> AcceptedClients(lib, counters)
  {
    ghost var valid := (c: ClientCounters) => AcceptedClient(lib, c);
    var seenClients := {};
    for n := 0 to |counters|
      invariant UpTo(valid, counters, n)
      invariant seenClients == KeySet(ClientIdentity, counters[..n])
      invariant Distinct(ClientIdentity, counters[..n])
    {
      var counter := counters[n];
      assert counter in counters;
      ExtendKeys(ClientIdentity, counters, n);
      DistinctPrefix(ClientIdentity, counters, n + 1);
      var counterOk := ValidClient(lib, counter);
      if !counterOk {
        return false;
      }
      if counter.key in seenClients {
        return false;
      }
      seenClients := seenClients + {counter.key};
    }
    assert counters[..|counters|] == counters;
    UpToMeans(valid, counters, |counters|);
    return true;
  }

  method ValidateSubjects(subjects: seq<SubjectObservation>) returns (ok: bool)
    ensures ok <==> AcceptedSubjects(subjects)
  {
    ghost var valid := (c: SubjectObservation) => AcceptedSubject(c);
    var seenSubjects := {};
    for n := 0 to |subjects|
      invariant UpTo(valid, subjects, n)
      invariant seenSubjects == KeySet(SubjectIdentity, subjects[..n])
      invariant Distinct(SubjectIdentity, subjects[..n])
    {
      var subject := subjects[n];
      assert subject in subjects;
      ExtendKeys(SubjectIdentity, subjects, n);
      DistinctPrefix(SubjectIdentity, subjects, n + 1);
      var subjectOk := ValidSubject(subject);
      if !subjectOk {
        return false;
      }
      if subject.subject in seenSubjects {
        return false;
      }
      seenSubjects := seenSubjects + {subject.subject};
    }
    assert subjects[..|subjects|] == subjects;
    UpToMeans(valid, subjects, |subjects|);
    return true;
  }

  method ValidateNodeReportBase(lib: Library, report: NodeReport) returns (ok: bool)
    ensures ok <==> AcceptedReport(lib, report)
  {
    if report.agentId == "" {
      return false;
    }
    if report.protocolVersion < 0 || report.protocolVersion > PROTOCOL_VERSION_1 {
      return false;
    }
    if report.reportedAtMS < 0 {
      return false;
    }
    if report.coreEngine != "" && report.coreEngine != "xray" && report.coreEngine != "sing-box" {
      return false;
    }
    ok := ValidateCapabilities(report.capabilities);
    if !ok {
      return;
    }
    ok := ValidateHave(report.have);
    if !ok {
      return;
    }
    if report.partial {
      if |report.objects.Elements()| != 0 || |report.listenerCounters.Elements()| != 0 ||
         |report.clients.Elements()| != 0 || |report.subjects| != 0 {
        return false;
      }
      ok := ValidateOutbox(lib, report.issues, report.taskResults);
      return;
    }
    ok := ValidateObjects(lib, report.objects.Elements());
    if !ok {
      return;
    }
    ok := ValidateListeners(report.listenerCounters.Elements());
    if !ok {
      return;
    }
    ok := ValidateClients(lib, report.clients.Elements());
    if !ok {
      return;
    }
    ok := ValidateSubjects(report.subjects);
    if !ok {
      return;
    }
    ok := ValidateOutbox(lib, report.issues, report.taskResults);
  }

  method HasCapability(capabilities: seq<string>, want: string) returns (found: bool)
    ensures found <==> want in capabilities
  {
    for n := 0 to |capabilities|
      invariant want !in capabilities[..n]
    {
      if capabilities[n] == want {
        return true;
      }
    }
    return false;
  }

  method ValidateNodeReport(lib: Library, validFigures: string -> bool, report: NodeReport) returns (ok: bool)
    ensures ok <==> AcceptedBySender(lib, validFigures, report)
  {
    ok := ValidateNodeReportBase(lib, report);
    if !ok || report.host.None? {
      return;
    }
    var declared := HasCapability(report.capabilities, CAPABILITY_HOST_TELEMETRY);
    if !declared {
      return false;
    }
    ok := ValidHost(lib, validFigures, report.host.value);
  }

  // ---- identities ----

  predicate DistinctRows<T(!new)>(kind: KeyKind, key: T -> string, s: seq<T>) {
    forall i, j :: 0 <= i < j < |s| ==> RowId(kind, key(s[i])) != RowId(kind, key(s[j]))
  }

  lemma DistinctKeysAreDistinctRows<T(!new)>(kind: KeyKind, key: T -> string, s: seq<T>)
    requires Distinct(key, s)
    requires forall x :: x in s ==> RowId(kind, key(x)).Some?
    ensures DistinctRows(kind, key, s)
  {
    DistinctMeans(key, s);
    forall i, j | 0 <= i < j < |s|
      ensures RowId(kind, key(s[i])) != RowId(kind, key(s[j]))
    {
      KeysIdentifyRows(kind, kind, key(s[i]), key(s[j]));
    }
  }

  /** The PSP row an object stands for, within its stream. */
  function ObjectRow(o: ObjectStatus): Option<int64> {
    match KeyKindOf(o.stream)
    case None => None
    case Some(kind) => RowId(kind, o.key)
  }

  lemma ObjectsWithOneRowAreOne(a: ObjectStatus, b: ObjectStatus)
    requires ObjectRow(a).Some? && a.stream == b.stream && ObjectRow(a) == ObjectRow(b)
    ensures a.key == b.key
  {
    var kind := KeyKindOf(a.stream).value;
    KeysIdentifyRows(kind, kind, a.key, b.key);
  }

  lemma ValidObjectsHaveRows(lib: Library, o: ObjectStatus)
    requires ValidateReportedObject(lib, o)
    ensures ObjectRow(o).Some?
  {}

  lemma ObjectRowsAreDistinct(lib: Library, objects: seq<ObjectStatus>)
    requires AcceptedObjects(lib, objects)
    ensures forall i, j :: 0 <= i < j < |objects| ==>
              objects[i].stream != objects[j].stream || ObjectRow(objects[i]) != ObjectRow(objects[j])
  {
    DistinctMeans(ObjectIdentity, objects);
    forall i, j | 0 <= i < j < |objects|
      ensures objects[i].stream != objects[j].stream || ObjectRow(objects[i]) != ObjectRow(objects[j])
    {
      var a, b := objects[i], objects[j];
      assert ObjectIdentity(a) != ObjectIdentity(b);
      ValidObjectsHaveRows(lib, a);
      if a.stream == b.stream && ObjectRow(a) == ObjectRow(b) {
        ObjectsWithOneRowAreOne(a, b);
      }
    }
  }

  /** In an accepted full report no row is enumerated twice: no two objects share a stream and a row
      id, and no two listener, client or subject entries share a row id. */
  lemma RowsAreEnumeratedOnce(lib: Library, r: NodeReport)
    requires AcceptedReport(lib, r) && !r.partial
    ensures var objects := r.objects.Elements();
            forall i, j :: 0 <= i < j < |objects| ==>
              objects[i].stream != objects[j].stream || ObjectRow(objects[i]) != ObjectRow(objects[j])
    ensures DistinctRows(ListenerKey, ListenerIdentity, r.listenerCounters.Elements())
    ensures DistinctRows(ClientKey, ClientIdentity, r.clients.Elements())
    ensures DistinctRows(SubjectKey, SubjectIdentity, r.subjects)
  {
    ObjectRowsAreDistinct(lib, r.objects.Elements());
    assert forall c :: c in r.listenerCounters.Elements() ==> AcceptedListener(c);
    assert forall c :: c in r.clients.Elements() ==> AcceptedClient(lib, c);
    assert forall s :: s in r.subjects ==> AcceptedSubject(s);
    DistinctKeysAreDistinctRows(ListenerKey, ListenerIdentity, r.listenerCounters.Elements());
    DistinctKeysAreDistinctRows(ClientKey, ClientIdentity, r.clients.Elements());
    DistinctKeysAreDistinctRows(SubjectKey, SubjectIdentity, r.subjects);
  }

  // ---- the order of the lists ----

  /** The same report, with the entries of its lists in other orders. */
  predicate SameButForOrder(r: NodeReport, s: NodeReport) {
    && s == r.(capabilities := s.capabilities, objects := s.objects, listenerCounters := s.listenerCounters,
               clients := s.clients, subjects := s.subjects, issues := s.issues, taskResults := s.taskResults)
    && multiset(r.capabilities) == multiset(s.capabilities)
    && multiset(r.objects.Elements()) == multiset(s.objects.Elements())
    && multiset(r.listenerCounters.Elements()) == multiset(s.listenerCounters.Elements())
    && multiset(r.clients.Elements()) == multiset(s.clients.Elements())
    && multiset(r.subjects) == multiset(s.subjects)
    && multiset(r.issues) == multiset(s.issues)
    && multiset(r.taskResults) == multiset(s.taskResults)
  }

  lemma CapabilitiesInAnyOrder(a: seq<string>, b: seq<string>)
    requires multiset(a) == multiset(b)
    ensures AcceptedCapabilities(a) <==> AcceptedCapabilities(b)
  {
    var valid := (c: string) => IsToken(c) && |c| <= MAX_CAPABILITY_BYTES;
    SameMembers(a, b);
    AcceptedInAnyOrder(valid, Self, a, b);
    assert forall c :: c in a <==> exists i :: 0 <= i < |a| && a[i] == c;
    assert forall c :: c in b <==> exists i :: 0 <= i < |b| && b[i] == c;
    assert (forall i :: 0 <= i < |a| ==> valid(a[i])) <==> forall c :: c in a ==> valid(c);
    assert (forall i :: 0 <= i < |b| ==> valid(b[i])) <==> forall c :: c in b ==> valid(c);
  }

  lemma ObjectsInAnyOrder(lib: Library, a: seq<ObjectStatus>, b: seq<ObjectStatus>)
    requires multiset(a) == multiset(b)
    ensures AcceptedObjects(lib, a) <==> AcceptedObjects(lib, b)
  {
    AcceptedInAnyOrder((o: ObjectStatus) => ValidateReportedObject(lib, o), ObjectIdentity, a, b);
  }

  lemma ListenersInAnyOrder(a: seq<ListenerCounters>, b: seq<ListenerCounters>)
    requires multiset(a) == multiset(b)
    ensures AcceptedListeners(a) <==> AcceptedListeners(b)
  {
    AcceptedInAnyOrder(AcceptedListener, ListenerIdentity, a, b);
  }

  lemma ClientsInAnyOrder(lib: Library, a: seq<ClientCounters>, b: seq<ClientCounters>)
    requires multiset(a) == multiset(b)
    ensures AcceptedClients(lib, a) <==> AcceptedClients(lib, b)
  {
    AcceptedInAnyOrder((c: ClientCounters) => AcceptedClient(lib, c), ClientIdentity, a, b);
  }

  lemma SubjectsInAnyOrder(a: seq<SubjectObservation>, b: seq<SubjectObservation>)
    requires multiset(a) == multiset(b)
    ensures AcceptedSubjects(a) <==> AcceptedSubjects(b)
  {
    AcceptedInAnyOrder(AcceptedSubject, SubjectIdentity, a, b);
  }

  lemma OutboxInAnyOrder(lib: Library, i: seq<Issue>, j: seq<Issue>, a: seq<TaskResult>, b: seq<TaskResult>)
    requires multiset(i) == multiset(j) && multiset(a) == multiset(b)
    ensures AcceptedOutbox(lib, i, a) <==> AcceptedOutbox(lib, j, b)
  {
    SameMembers(i, j);
    AcceptedInAnyOrder((issue: Issue) => WellFormedIssue(lib, issue), IssueIdentity, i, j);
    ResultOrderDoesNotMatter(lib, a, b);
    ResultOrderDoesNotMatter(lib, b, a);
  }

  lemma EnumerationsInAnyOrder(lib: Library, r: NodeReport, s: NodeReport)
    requires SameButForOrder(r, s)
    ensures AcceptedEnumerations(lib, r) <==> AcceptedEnumerations(lib, s)
  {
    ObjectsInAnyOrder(lib, r.objects.Elements(), s.objects.Elements());
    ListenersInAnyOrder(r.listenerCounters.Elements(), s.listenerCounters.Elements());
    ClientsInAnyOrder(lib, r.clients.Elements(), s.clients.Elements());
    SubjectsInAnyOrder(r.subjects, s.subjects);
  }

  lemma NoEnumerationsInAnyOrder(r: NodeReport, s: NodeReport)
    requires SameButForOrder(r, s)
    ensures NoEnumerations(r) <==> NoEnumerations(s)
  {
    SameMembers(r.objects.Elements(), s.objects.Elements());
    SameMembers(r.listenerCounters.Elements(), s.listenerCounters.Elements());
    SameMembers(r.clients.Elements(), s.clients.Elements());
    SameMembers(r.subjects, s.subjects);
  }

  /** No verdict on a report depends on the order of any of its lists. */
  lemma ReportOrderDoesNotMatter(lib: Library, validFigures: string -> bool, r: NodeReport, s: NodeReport)
    requires SameButForOrder(r, s)
    ensures AcceptedReport(lib, r) <==> AcceptedReport(lib, s)
    ensures AcceptedBySender(lib, validFigures, r) <==> AcceptedBySender(lib, validFigures, s)
  {
    SameMembers(r.capabilities, s.capabilities);
    CapabilitiesInAnyOrder(r.capabilities, s.capabilities);
    EnumerationsInAnyOrder(lib, r, s);
    NoEnumerationsInAnyOrder(r, s);
    OutboxInAnyOrder(lib, r.issues, s.issues, r.taskResults, s.taskResults);
  }

  /** Nor on the order of a client's addresses. */
  lemma AddressesInAnyOrder(lib: Library, a: seq<string>, b: seq<string>)
    requires multiset(a) == multiset(b)
    ensures AcceptedLiveIPs(lib, a) <==> AcceptedLiveIPs(lib, b)
  {
    AcceptedInAnyOrder((raw: string) => CanonicalAddr(lib, raw), Self, a, b);
  }
}
