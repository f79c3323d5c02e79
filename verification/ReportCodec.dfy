/** Encoding a report and decoding it again: when that works, what comes back, and that a second
    encoding gives the same tree. */
module ReportCodec {
  import opened Wrappers
  import opened Lists
  import opened Platform
  import opened Hex
  import opened Issues
  import opened Tasks
  import opened ObjectState
  import opened HostSample
  import opened Json
  import opened Report
  import opened ReportJson

  // ---- what comes back ----

  function CleanText(lib: Library): string -> string {
    s => lib.cleanUtf8(s)
  }

  function CleanState(lib: Library, s: StreamState): StreamState {
    s.(etag := lib.cleanUtf8(s.etag))
  }

  function CleanStatus(lib: Library): ObjectStatus -> ObjectStatus {
    (o: ObjectStatus) => o.(stream := lib.cleanUtf8(o.stream), key := lib.cleanUtf8(o.key),
            state := ParseState(lib.cleanUtf8(StateText(o.state))), issueCode := lib.cleanUtf8(o.issueCode),
            blockedOn := lib.cleanUtf8(o.blockedOn))
  }

  function CleanListener(lib: Library): ListenerCounters -> ListenerCounters {
    (c: ListenerCounters) => c.(key := lib.cleanUtf8(c.key))
  }

  function CleanClient(lib: Library): ClientCounters -> ClientCounters {
    (c: ClientCounters) => c.(key := lib.cleanUtf8(c.key), gate := ParseGate(lib.cleanUtf8(GateText(c.gate))),
            liveIPs := Map(CleanText(lib), c.liveIPs))
  }

  function CleanSubject(lib: Library): SubjectObservation -> SubjectObservation {
    (s: SubjectObservation) => s.(subject := lib.cleanUtf8(s.subject))
  }

  function CleanIssue(lib: Library): Issue -> Issue {
    (i: Issue) => Issue(lib.cleanUtf8(i.code), lib.cleanUtf8(i.key), lib.cleanUtf8(i.detail))
  }

  function CleanResult(lib: Library): TaskResult -> TaskResult {
    (r: TaskResult) => r.(id := lib.cleanUtf8(r.id), kind := lib.cleanUtf8(r.kind),
              inputSHA256 := lib.cleanUtf8(r.inputSHA256),
            errorCode := lib.cleanUtf8(r.errorCode), error := lib.cleanUtf8(r.error))
  }

  function CleanHave(lib: Library, have: map<string, StreamState>): map<string, StreamState> {
    map stream | stream in CleanKeys(lib, have.Keys) :: CleanState(lib, have[LastKey(lib, have.Keys, stream)])
  }

  function ReceivedHost(lib: Library, host: Option<HostObservation>): Option<HostObservation> {
    if host.None? then None else Some(CleanHost(lib, host.value))
  }

  /** The report a receiver decodes: every text as valid UTF-8, and the enumerations there, possibly
      empty, on a full report, and absent on a partial one. */
  function Received(lib: Library, r: NodeReport): NodeReport {
    NodeReport(
      lib.cleanUtf8(r.agentId), r.protocolVersion, r.reportedAtMS, lib.cleanUtf8(r.agentVersion),
      lib.cleanUtf8(r.coreEngine), lib.cleanUtf8(r.coreVersion), lib.cleanUtf8(r.coreState),
      Map(CleanText(lib), r.capabilities), r.partial, CleanHave(lib, r.have),
      if r.partial then Nil else Elems(Map(CleanStatus(lib), r.objects.Elements())),
      if r.partial then Nil else Elems(Map(CleanListener(lib), r.listenerCounters.Elements())),
      if r.partial then Nil else Elems(Map(CleanClient(lib), r.clients.Elements())),
      if r.partial then [] else Map(CleanSubject(lib), r.subjects),
      ReceivedHost(lib, r.host), Map(CleanIssue(lib), r.issues), Map(CleanResult(lib), r.taskResults))
  }

  // ---- the decoder undoes the encoder ----

  lemma {:induction false} ItemsRoundTrip<T>(enc: T -> Json, dec: Json -> Option<T>, clean: T -> T, s: seq<T>)
    requires forall x :: x in s ==> dec(enc(x)) == Some(clean(x))
    ensures DecodeItems(dec, Map(enc, s)) == Some(Map(clean, s))
  {
    if s != [] {
      assert s[0] in s;
      assert Map(enc, s)[1..] == Map(enc, s[1..]);
      ItemsRoundTrip(enc, dec, clean, s[1..]);
    }
  }

  /** A list under omitempty: absent when empty. */
  lemma ListRoundTrip<T>(enc: T -> Json, dec: Json -> Option<T>, clean: T -> T, s: seq<T>)
    requires forall x :: x in s ==> dec(enc(x)) == Some(clean(x))
    ensures DecodeSeq(dec, OrNull(OmitEmptyList(enc, s))) == Some(Map(clean, s))
  {
    ItemsRoundTrip(enc, dec, clean, s);
  }

  lemma TextsRoundTrip(lib: Library, s: seq<string>)
    ensures DecodeItems(DecodeText, Map(TextEncoder(lib), s)) == Some(Map(CleanText(lib), s))
  {
    ItemsRoundTrip(TextEncoder(lib), DecodeText, CleanText(lib), s);
  }

  lemma StreamStateRoundTrip(lib: Library, s: StreamState)
    ensures DecodeStreamState(EncodeStreamState(lib, s)) == Some(CleanState(lib, s))
  {}

  lemma CleanAscii(lib: Library, s: string)
    requires LawfulText(lib) && Ascii(s)
    ensures lib.cleanUtf8(s) == s
  {}

  /** A text under omitempty comes back clean. */
  lemma OmittedText(lib: Library, s: string)
    requires LawfulText(lib)
    ensures DecodeText(OrNull(OmitEmptyText(lib, s))) == Some(lib.cleanUtf8(s))
  {
    CleanAscii(lib, "");
  }

  lemma StatusRoundTrip(lib: Library, o: ObjectStatus)
    requires LawfulText(lib)
    ensures DecodeStatus(EncodeStatus(lib, o)) == Some(CleanStatus(lib)(o))
  {
    OmittedText(lib, o.issueCode);
    OmittedText(lib, o.blockedOn);
  }

  lemma ListenerRoundTrip(lib: Library, c: ListenerCounters)
    ensures DecodeListener(EncodeListener(lib, c)) == Some(CleanListener(lib)(c))
  {}

  lemma ClientRoundTrip(lib: Library, c: ClientCounters)
    requires LawfulText(lib)
    ensures DecodeClient(EncodeClient(lib, c)) == Some(CleanClient(lib)(c))
  {
    TextsRoundTrip(lib, c.liveIPs);
  }

  lemma IssueRoundTrip(lib: Library, i: Issue)
    requires LawfulText(lib)
    ensures DecodeIssue(EncodeIssue(lib, i)) == Some(CleanIssue(lib)(i))
  {
    OmittedText(lib, i.key);
    OmittedText(lib, i.detail);
  }

  lemma ResultRoundTrip(lib: Library, r: TaskResult)
    requires LawfulText(lib)
    ensures DecodeResult(EncodeResult(lib, r)) == Some(CleanResult(lib)(r))
  {
    OmittedText(lib, r.errorCode);
    OmittedText(lib, r.error);
  }

  lemma SameMap<K, V>(a: map<K, V>, b: map<K, V>)
    requires a.Keys == b.Keys
    requires forall k :: k in a ==> a[k] == b[k]
    ensures a == b
  {}

  lemma HaveRoundTrip(lib: Library, have: map<string, StreamState>)
    ensures DecodeHave(EncodeHave(lib, have)) == Some(CleanHave(lib, have))
  {
    var m := EncodeHave(lib, have).entries;
    forall stream | stream in m
      ensures DecodeStreamState(m[stream]) == Some(CleanState(lib, have[LastKey(lib, have.Keys, stream)]))
    {
      StreamStateRoundTrip(lib, have[LastKey(lib, have.Keys, stream)]);
    }
    SameMap(DecodeHave(JMap(m)).value, CleanHave(lib, have));
  }

  // ---- the whole report ----

  lemma SliceRoundTrip<T>(enc: T -> Json, dec: Json -> Option<T>, clean: T -> T, s: Slice<T>)
    requires forall x :: x in s.Elements() ==> dec(enc(x)) == Some(clean(x))
    ensures DecodeSlice(dec, EncodeSlice(enc, NotNil(s))) == Some(Elems(Map(clean, s.Elements())))
  {
    ItemsRoundTrip(enc, dec, clean, s.Elements());
  }

  /** The members both shapes encode in the same way. */
  lemma SharedMembersRoundTrip(lib: Library, r: NodeReport, host: Field)
    requires LawfulText(lib)
    ensures var j := PartialShape(lib, r, host);
            && DecodeText(OrNull(j.agentId)) == Some(lib.cleanUtf8(r.agentId))
            && DecodeInt(OrNull(j.protocolVersion)) == Some(r.protocolVersion)
            && DecodeInt(OrNull(j.reportedAtMS)) == Some(r.reportedAtMS)
            && DecodeText(OrNull(j.agentVersion)) == Some(lib.cleanUtf8(r.agentVersion))
            && DecodeText(OrNull(j.coreEngine)) == Some(lib.cleanUtf8(r.coreEngine))
            && DecodeText(OrNull(j.coreVersion)) == Some(lib.cleanUtf8(r.coreVersion))
            && DecodeText(OrNull(j.coreState)) == Some(lib.cleanUtf8(r.coreState))
            && DecodeHave(OrNull(j.have)) == Some(CleanHave(lib, r.have))
  {
    OmittedText(lib, r.agentVersion);
    OmittedText(lib, r.coreEngine);
    OmittedText(lib, r.coreVersion);
    OmittedText(lib, r.coreState);
    HaveRoundTrip(lib, r.have);
  }

  lemma IssuesRoundTrip(lib: Library, issues: seq<Issue>)
    requires LawfulText(lib)
    ensures DecodeSeq(DecodeIssue, OrNull(OmitEmptyList(IssueEncoder(lib), issues)))
            == Some(Map(CleanIssue(lib), issues))
  {
    forall i | i in issues
      ensures DecodeIssue(IssueEncoder(lib)(i)) == Some(CleanIssue(lib)(i))
    {
      IssueRoundTrip(lib, i);
    }
    ListRoundTrip(IssueEncoder(lib), DecodeIssue, CleanIssue(lib), issues);
  }

  lemma ResultsRoundTrip(lib: Library, results: seq<TaskResult>)
    requires LawfulText(lib)
    ensures DecodeSeq(DecodeResult, OrNull(OmitEmptyList(ResultEncoder(lib), results)))
            == Some(Map(CleanResult(lib), results))
  {
    forall t | t in results
      ensures DecodeResult(ResultEncoder(lib)(t)) == Some(CleanResult(lib)(t))
    {
      ResultRoundTrip(lib, t);
    }
    ListRoundTrip(ResultEncoder(lib), DecodeResult, CleanResult(lib), results);
  }

  lemma ObjectsRoundTrip(lib: Library, s: Slice<ObjectStatus>)
    requires LawfulText(lib)
    ensures DecodeSlice(DecodeStatus, EncodeSlice(StatusEncoder(lib), NotNil(s)))
            == Some(Elems(Map(CleanStatus(lib), s.Elements())))
  {
    forall o | o in s.Elements()
      ensures DecodeStatus(StatusEncoder(lib)(o)) == Some(CleanStatus(lib)(o))
    {
      StatusRoundTrip(lib, o);
    }
    SliceRoundTrip(StatusEncoder(lib), DecodeStatus, CleanStatus(lib), s);
  }

  lemma ListenersRoundTrip(lib: Library, s: Slice<ListenerCounters>)
    ensures DecodeSlice(DecodeListener, EncodeSlice(ListenerEncoder(lib), NotNil(s)))
            == Some(Elems(Map(CleanListener(lib), s.Elements())))
  {
    forall c | c in s.Elements()
      ensures DecodeListener(ListenerEncoder(lib)(c)) == Some(CleanListener(lib)(c))
    {
      ListenerRoundTrip(lib, c);
    }
    SliceRoundTrip(ListenerEncoder(lib), DecodeListener, CleanListener(lib), s);
  }

  lemma ClientsRoundTrip(lib: Library, s: Slice<ClientCounters>)
    requires LawfulText(lib)
    ensures DecodeSlice(DecodeClient, EncodeSlice(ClientEncoder(lib), NotNil(s)))
            == Some(Elems(Map(CleanClient(lib), s.Elements())))
  {
    forall c | c in s.Elements()
      ensures DecodeClient(ClientEncoder(lib)(c)) == Some(CleanClient(lib)(c))
    {
      ClientRoundTrip(lib, c);
    }
    SliceRoundTrip(ClientEncoder(lib), DecodeClient, CleanClient(lib), s);
  }

  lemma SubjectsRoundTrip(lib: Library, s: seq<SubjectObservation>)
    ensures DecodeSeq(DecodeSubject, OrNull(OmitEmptyList(SubjectEncoder(lib), s))) == Some(Map(CleanSubject(lib), s))
  {
    ListRoundTrip(SubjectEncoder(lib), DecodeSubject, CleanSubject(lib), s);
  }

  lemma SharedListsRoundTrip(lib: Library, r: NodeReport, host: Field)
    requires LawfulText(lib)
    ensures var j := PartialShape(lib, r, host);
            && DecodeSeq(DecodeText, OrNull(j.capabilities)) == Some(Map(CleanText(lib), r.capabilities))
            && DecodeSeq(DecodeIssue, OrNull(j.issues)) == Some(Map(CleanIssue(lib), r.issues))
            && DecodeSeq(DecodeResult, OrNull(j.taskResults)) == Some(Map(CleanResult(lib), r.taskResults))
  {
    TextsRoundTrip(lib, r.capabilities);
    IssuesRoundTrip(lib, r.issues);
    ResultsRoundTrip(lib, r.taskResults);
  }

  lemma EnumerationsRoundTrip(lib: Library, r: NodeReport, host: Field)
    requires LawfulText(lib) && !r.partial
    ensures var j, b := ReportTree(lib, r, host), Received(lib, r);
            && DecodeSlice(DecodeStatus, OrNull(j.objects)) == Some(b.objects)
            && DecodeSlice(DecodeListener, OrNull(j.listenerCounters)) == Some(b.listenerCounters)
            && DecodeSlice(DecodeClient, OrNull(j.clients)) == Some(b.clients)
            && DecodeSeq(DecodeSubject, OrNull(j.subjects)) == Some(b.subjects)
  {
    ObjectsRoundTrip(lib, r.objects);
    ListenersRoundTrip(lib, r.listenerCounters);
    ClientsRoundTrip(lib, r.clients);
    SubjectsRoundTrip(lib, r.subjects);
  }

  lemma PartialRoundTrip(lib: Library, r: NodeReport, host: Field)
    requires LawfulText(lib) && r.partial
    requires DecodeHost(OrNull(host)) == Some(ReceivedHost(lib, r.host))
    ensures DecodeReport(PartialShape(lib, r, host)) == Some(Received(lib, r))
  {
    SharedMembersRoundTrip(lib, r, host);
    SharedListsRoundTrip(lib, r, host);
  }

  /** The full shape and the hand-written one agree on every member they share. */
  lemma ShapesAgree(lib: Library, r: NodeReport, host: Field)
    requires !r.partial
    ensures var m, p := ReportTree(lib, r, host), PartialShape(lib, r, host);
            m == p.(partial := Some(JBool(false)),
                    objects := Some(EncodeSlice(StatusEncoder(lib), NotNil(r.objects))),
                    listenerCounters := Some(EncodeSlice(ListenerEncoder(lib), NotNil(r.listenerCounters))),
                    clients := Some(EncodeSlice(ClientEncoder(lib), NotNil(r.clients))),
                    subjects := OmitEmptyList(SubjectEncoder(lib), r.subjects))
  {}

  lemma FullRoundTrip(lib: Library, r: NodeReport, host: Field)
    requires LawfulText(lib) && !r.partial
    requires DecodeHost(OrNull(host)) == Some(ReceivedHost(lib, r.host))
    ensures DecodeReport(ReportTree(lib, r, host)) == Some(Received(lib, r))
  {
    ShapesAgree(lib, r, host);
    SharedMembersRoundTrip(lib, r, host);
    SharedListsRoundTrip(lib, r, host);
    EnumerationsRoundTrip(lib, r, host);
  }

  // ---- the host sample ----

  lemma {:induction false} FloatsRoundTrip(load: seq<Float>)
    ensures EncodeFloats(load).Some? <==> forall x :: x in load ==> x.Finite?
    ensures EncodeFloats(load).Some? ==> Map(DecodeFloat, EncodeFloats(load).value) == load
  {
    if load != [] {
      FloatsRoundTrip(load[1..]);
      assert load == [load[0]] + load[1..];
      if EncodeFloats(load).Some? {
        assert EncodeFloats(load).value[1..] == EncodeFloats(load[1..]).value;
      }
    }
  }

  predicate HostEncodes(r: NodeReport) {
    r.host.Some? ==> Encodable(r.host.value)
  }

  lemma HostRoundTrip(lib: Library, r: NodeReport)
    ensures EncodeHost(lib, r.host).Some? <==> HostEncodes(r)
    ensures EncodeHost(lib, r.host).Some? ==>
              DecodeHost(OrNull(EncodeHost(lib, r.host).value)) == Some(ReceivedHost(lib, r.host))
  {
    if r.host.Some? {
      FloatsRoundTrip(r.host.value.load);
    }
  }

  /** Encoding fails exactly on a host sample with a float that is no number; and decoding what
      MarshalJSON wrote gives the received report, in either shape. */
  lemma DecodeUndoesMarshal(lib: Library, r: NodeReport)
    requires LawfulText(lib)
    ensures MarshalReport(lib, r).Some? <==> HostEncodes(r)
    ensures MarshalReport(lib, r).Some? ==> DecodeReport(MarshalReport(lib, r).value) == Some(Received(lib, r))
  {
    HostRoundTrip(lib, r);
    if HostEncodes(r) {
      var host := EncodeHost(lib, r.host).value;
      if r.partial {
        PartialRoundTrip(lib, r, host);
      } else {
        FullRoundTrip(lib, r, host);
      }
    }
  }

  /** The partial shape delivers what the full one would have but for the enumerations, and so loses
      nothing of exactly the reports without any; the validator forces every partial report to be one. */
  lemma PartialShapeLosesOnlyEnumerations(lib: Library, r: NodeReport)
    requires LawfulText(lib) && r.partial && HostEncodes(r)
    ensures var sent, full := MarshalReport(lib, r), MarshalReport(lib, r.(partial := false));
            && sent.Some? && full.Some?
            && DecodeReport(sent.value).Some? && DecodeReport(full.value).Some?
            && var b, whole := DecodeReport(sent.value).value, DecodeReport(full.value).value;
               && b == whole.(partial := true, objects := Nil, listenerCounters := Nil, clients := Nil, subjects := [])
               && (NoEnumerations(whole) <==> NoEnumerations(r))
  {
    DecodeUndoesMarshal(lib, r);
    DecodeUndoesMarshal(lib, r.(partial := false));
  }

  // ---- a second encoding is the first ----

  lemma ReencodeText(lib: Library, s: string)
    requires LawfulText(lib)
    ensures EncodeText(lib, lib.cleanUtf8(s)) == EncodeText(lib, s)
    ensures OmitEmptyText(lib, lib.cleanUtf8(s)) == OmitEmptyText(lib, s)
  {
    assert lib.validUtf8(lib.cleanUtf8(s));
    CleanAscii(lib, "");
  }

  lemma {:induction false} ReencodeItems<T>(enc: T -> Json, clean: T -> T, s: seq<T>)
    requires forall x :: x in s ==> enc(clean(x)) == enc(x)
    ensures Map(enc, Map(clean, s)) == Map(enc, s)
  {
    assert forall i :: 0 <= i < |s| ==> s[i] in s;
  }

  lemma ReencodeTexts(lib: Library, s: seq<string>)
    requires LawfulText(lib)
    ensures Map(TextEncoder(lib), Map(CleanText(lib), s)) == Map(TextEncoder(lib), s)
  {
    forall x | x in s
      ensures TextEncoder(lib)(CleanText(lib)(x)) == TextEncoder(lib)(x)
    {
      ReencodeText(lib, x);
    }
    ReencodeItems(TextEncoder(lib), CleanText(lib), s);
  }

  /** The names of states and gates are parsed without loss. */
  lemma StateTextParses(text: string)
    ensures StateText(ParseState(text)) == text
  {}

  lemma ReencodeStatuses(lib: Library, s: seq<ObjectStatus>)
    requires LawfulText(lib)
    ensures Map(StatusEncoder(lib), Map(CleanStatus(lib), s)) == Map(StatusEncoder(lib), s)
  {
    forall o | o in s
      ensures StatusEncoder(lib)(CleanStatus(lib)(o)) == StatusEncoder(lib)(o)
    {
      ReencodeText(lib, o.stream);
      ReencodeText(lib, o.key);
      StateTextParses(lib.cleanUtf8(StateText(o.state)));
      ReencodeText(lib, StateText(o.state));
      ReencodeText(lib, o.issueCode);
      ReencodeText(lib, o.blockedOn);
    }
    ReencodeItems(StatusEncoder(lib), CleanStatus(lib), s);
  }

  lemma ReencodeListeners(lib: Library, s: seq<ListenerCounters>)
    requires LawfulText(lib)
    ensures Map(ListenerEncoder(lib), Map(CleanListener(lib), s)) == Map(ListenerEncoder(lib), s)
  {
    forall c | c in s
      ensures ListenerEncoder(lib)(CleanListener(lib)(c)) == ListenerEncoder(lib)(c)
    {
      ReencodeText(lib, c.key);
    }
    ReencodeItems(ListenerEncoder(lib), CleanListener(lib), s);
  }

  lemma GateTextParses(text: string)
    ensures GateText(ParseGate(text)) == text
  {}

  lemma ReencodeClient(lib: Library, c: ClientCounters)
    requires LawfulText(lib)
    ensures EncodeClient(lib, CleanClient(lib)(c)) == EncodeClient(lib, c)
  {
    ReencodeText(lib, c.key);
    GateTextParses(lib.cleanUtf8(GateText(c.gate)));
    ReencodeText(lib, GateText(c.gate));
    ReencodeTexts(lib, c.liveIPs);
  }

  lemma ReencodeClients(lib: Library, s: seq<ClientCounters>)
    requires LawfulText(lib)
    ensures Map(ClientEncoder(lib), Map(CleanClient(lib), s)) == Map(ClientEncoder(lib), s)
  {
    forall c | c in s
      ensures ClientEncoder(lib)(CleanClient(lib)(c)) == ClientEncoder(lib)(c)
    {
      ReencodeClient(lib, c);
    }
    ReencodeItems(ClientEncoder(lib), CleanClient(lib), s);
  }

  lemma ReencodeSubjects(lib: Library, s: seq<SubjectObservation>)
    requires LawfulText(lib)
    ensures Map(SubjectEncoder(lib), Map(CleanSubject(lib), s)) == Map(SubjectEncoder(lib), s)
  {
    forall c | c in s
      ensures SubjectEncoder(lib)(CleanSubject(lib)(c)) == SubjectEncoder(lib)(c)
    {
      ReencodeText(lib, c.subject);
    }
    ReencodeItems(SubjectEncoder(lib), CleanSubject(lib), s);
  }

  lemma ReencodeIssues(lib: Library, s: seq<Issue>)
    requires LawfulText(lib)
    ensures Map(IssueEncoder(lib), Map(CleanIssue(lib), s)) == Map(IssueEncoder(lib), s)
  {
    forall i | i in s
      ensures IssueEncoder(lib)(CleanIssue(lib)(i)) == IssueEncoder(lib)(i)
    {
      ReencodeText(lib, i.code);
      ReencodeText(lib, i.key);
      ReencodeText(lib, i.detail);
    }
    ReencodeItems(IssueEncoder(lib), CleanIssue(lib), s);
  }

  lemma ReencodeResult(lib: Library, r: TaskResult)
    requires LawfulText(lib)
    ensures EncodeResult(lib, CleanResult(lib)(r)) == EncodeResult(lib, r)
  {
    ReencodeText(lib, r.id);
    ReencodeText(lib, r.kind);
    ReencodeText(lib, r.inputSHA256);
    ReencodeText(lib, r.errorCode);
    ReencodeText(lib, r.error);
  }

  lemma ReencodeResults(lib: Library, s: seq<TaskResult>)
    requires LawfulText(lib)
    ensures Map(ResultEncoder(lib), Map(CleanResult(lib), s)) == Map(ResultEncoder(lib), s)
  {
    forall r | r in s
      ensures ResultEncoder(lib)(CleanResult(lib)(r)) == ResultEncoder(lib)(r)
    {
      ReencodeResult(lib, r);
    }
    ReencodeItems(ResultEncoder(lib), CleanResult(lib), s);
  }

  lemma KeyIsStable(lib: Library, keys: set<string>, written: string)
    requires LawfulText(lib) && written in CleanKeys(lib, keys)
    ensures CleanKeys(lib, CleanKeys(lib, keys)) == CleanKeys(lib, keys)
    ensures LastKey(lib, CleanKeys(lib, keys), written) == written
  {
    forall key | key in CleanKeys(lib, keys)
      ensures lib.cleanUtf8(key) == key
    {
      var was :| was in keys && lib.cleanUtf8(was) == key;
      assert lib.validUtf8(lib.cleanUtf8(was));
    }
  }

  lemma ReencodeHave(lib: Library, have: map<string, StreamState>)
    requires LawfulText(lib)
    ensures EncodeHave(lib, CleanHave(lib, have)) == EncodeHave(lib, have)
  {
    var clean := CleanHave(lib, have);
    var again, first := EncodeHave(lib, clean).entries, EncodeHave(lib, have).entries;
    assert clean.Keys == CleanKeys(lib, have.Keys) == first.Keys;
    assert again.Keys == CleanKeys(lib, clean.Keys);
    forall stream | stream in CleanKeys(lib, have.Keys)
      ensures stream in again.Keys && again[stream] == first[stream]
    {
      KeyIsStable(lib, have.Keys, stream);
      ReencodeText(lib, have[LastKey(lib, have.Keys, stream)].etag);
    }
    SameMap(again, first);
  }

  lemma ReencodeLists(lib: Library, r: NodeReport)
    requires LawfulText(lib)
    ensures var b := Received(lib, r);
            && OmitEmptyList(TextEncoder(lib), b.capabilities) == OmitEmptyList(TextEncoder(lib), r.capabilities)
            && OmitEmptyList(IssueEncoder(lib), b.issues) == OmitEmptyList(IssueEncoder(lib), r.issues)
            && OmitEmptyList(ResultEncoder(lib), b.taskResults) == OmitEmptyList(ResultEncoder(lib), r.taskResults)
  {
    ReencodeTexts(lib, r.capabilities);
    ReencodeIssues(lib, r.issues);
    ReencodeResults(lib, r.taskResults);
  }

  lemma ReencodeMembers(lib: Library, r: NodeReport)
    requires LawfulText(lib)
    ensures var b := Received(lib, r);
            && EncodeText(lib, b.agentId) == EncodeText(lib, r.agentId)
            && OmitEmptyText(lib, b.agentVersion) == OmitEmptyText(lib, r.agentVersion)
            && OmitEmptyText(lib, b.coreEngine) == OmitEmptyText(lib, r.coreEngine)
            && OmitEmptyText(lib, b.coreVersion) == OmitEmptyText(lib, r.coreVersion)
            && OmitEmptyText(lib, b.coreState) == OmitEmptyText(lib, r.coreState)
            && EncodeHave(lib, b.have) == EncodeHave(lib, r.have)
  {
    ReencodeText(lib, r.agentId);
    ReencodeText(lib, r.agentVersion);
    ReencodeText(lib, r.coreEngine);
    ReencodeText(lib, r.coreVersion);
    ReencodeText(lib, r.coreState);
    ReencodeHave(lib, r.have);
  }

  lemma ReencodeShared(lib: Library, r: NodeReport, host: Field)
    requires LawfulText(lib)
    ensures PartialShape(lib, Received(lib, r), host) == PartialShape(lib, r, host)
  {
    ReencodeMembers(lib, r);
    ReencodeLists(lib, r);
  }

  lemma ReencodeEnumerations(lib: Library, r: NodeReport)
    requires LawfulText(lib) && !r.partial
    ensures var b := Received(lib, r);
            && EncodeSlice(StatusEncoder(lib), NotNil(b.objects)) == EncodeSlice(StatusEncoder(lib), NotNil(r.objects))
            && EncodeSlice(ListenerEncoder(lib), NotNil(b.listenerCounters))
               == EncodeSlice(ListenerEncoder(lib), NotNil(r.listenerCounters))
            && EncodeSlice(ClientEncoder(lib), NotNil(b.clients)) == EncodeSlice(ClientEncoder(lib), NotNil(r.clients))
            && OmitEmptyList(SubjectEncoder(lib), b.subjects) == OmitEmptyList(SubjectEncoder(lib), r.subjects)
  {
    ReencodeStatuses(lib, r.objects.Elements());
    ReencodeListeners(lib, r.listenerCounters.Elements());
    ReencodeClients(lib, r.clients.Elements());
    ReencodeSubjects(lib, r.subjects);
  }

  lemma ReencodeTree(lib: Library, r: NodeReport, host: Field)
    requires LawfulText(lib)
    ensures ReportTree(lib, Received(lib, r), host) == ReportTree(lib, r, host)
  {
    ReencodeShared(lib, r, host);
    if !r.partial {
      ShapesAgree(lib, r, host);
      ShapesAgree(lib, Received(lib, r), host);
      ReencodeEnumerations(lib, r);
    }
  }

  lemma ReencodeHost(lib: Library, host: Option<HostObservation>)
    requires LawfulText(lib)
    ensures EncodeHost(lib, ReceivedHost(lib, host)) == EncodeHost(lib, host)
  {
    if host.Some? {
      CleanHostIsUtf8(lib, host.value);
    }
  }

  /** Encoding the received report again gives the identical tree, or fails again, so a report stops
      changing after one hop; this needs nothing of the report. */
  lemma MarshalIsStable(lib: Library, r: NodeReport)
    requires LawfulText(lib)
    ensures MarshalReport(lib, Received(lib, r)) == MarshalReport(lib, r)
  {
    ReencodeHost(lib, r.host);
    assert Received(lib, r).host == ReceivedHost(lib, r.host);
    match EncodeHost(lib, r.host)
    case None =>
    case Some(host) => ReencodeTree(lib, r, host);
  }

  /** So one hop settles a report, whatever it was: every later hop delivers the same again. */
  lemma OneHopSettles(lib: Library, r: NodeReport)
    requires LawfulText(lib) && HostEncodes(r)
    ensures var wire := MarshalReport(lib, Received(lib, r));
            wire.Some? && DecodeReport(wire.value) == Some(Received(lib, r))
  {
    DecodeUndoesMarshal(lib, r);
    MarshalIsStable(lib, r);
  }
}
