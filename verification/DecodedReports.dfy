/** Reports that were themselves decoded: their texts are valid UTF-8, and so the wire format keeps
    everything of an accepted one. */
module DecodedReports {
  import opened Wrappers
  import opened Lists
  import opened Platform
  import opened Versions
  import opened Hex
  import opened Issues
  import opened Tasks
  import opened ObjectState
  import opened HostSample
  import opened Json
  import opened Report
  import opened ReportJson
  import opened ReportCodec
  import opened WireVerdict

  // ---- trees whose strings are valid UTF-8 ----

  predicate ValidField(lib: Library, field: Field)
    decreases field
  {
    field.Some? ==> ValidStrings(lib, field.value)
  }

  /** What a JSON parser delivers, which replaces the invalid UTF-8 in every string it reads. */
  predicate ValidStrings(lib: Library, j: Json)
    decreases j
  {
    match j
    case JNull => true
    case JBool(_) => true
    case JNumber(_) => true
    case JString(s) => lib.validUtf8(s)
    case JBase64(_) => true
    case JArray(items) => forall i :: 0 <= i < |items| ==> ValidStrings(lib, items[i])
    case JMap(entries) => forall k :: k in entries ==> lib.validUtf8(k) && ValidStrings(lib, entries[k])
    case JVersion(epoch, version) => ValidField(lib, epoch) && ValidField(lib, version)
    case JStreamState(applied, etag) => ValidField(lib, applied) && ValidField(lib, etag)
    case JStatus(stream, key, state, since, failed, code, blocked) =>
      && ValidField(lib, stream) && ValidField(lib, key) && ValidField(lib, state) && ValidField(lib, since)
      && ValidField(lib, failed) && ValidField(lib, code) && ValidField(lib, blocked)
    case JListener(key, present, up, down, epoch) =>
      && ValidField(lib, key) && ValidField(lib, present) && ValidField(lib, up) && ValidField(lib, down)
      && ValidField(lib, epoch)
    case JClient(key, present, up, down, epoch, gate, liveIPs) =>
      && ValidField(lib, key) && ValidField(lib, present) && ValidField(lib, up) && ValidField(lib, down)
      && ValidField(lib, epoch) && ValidField(lib, gate) && ValidField(lib, liveIPs)
    case JSubject(subject, count, wouldDeny) =>
      ValidField(lib, subject) && ValidField(lib, count) && ValidField(lib, wouldDeny)
    case JHost(texts, _, _) => forall t :: t in texts ==> lib.validUtf8(t.text)
    case JIssue(code, key, detail) => ValidField(lib, code) && ValidField(lib, key) && ValidField(lib, detail)
    case JResult(id, kind, input, notAfter, ok, indeterminate, result, code, error) =>
      && ValidField(lib, id) && ValidField(lib, kind) && ValidField(lib, input) && ValidField(lib, notAfter)
      && ValidField(lib, ok) && ValidField(lib, indeterminate) && ValidField(lib, result) && ValidField(lib, code)
      && ValidField(lib, error)
    case JReport(agentId, protocolVersion, reportedAt, agentVersion, engine, coreVersion, coreState, capabilities,
                 partial, have, objects, listeners, clients, subjects, host, issues, results) =>
      && ValidField(lib, agentId) && ValidField(lib, protocolVersion) && ValidField(lib, reportedAt)
      && ValidField(lib, agentVersion) && ValidField(lib, engine) && ValidField(lib, coreVersion)
      && ValidField(lib, coreState) && ValidField(lib, capabilities) && ValidField(lib, partial)
      && ValidField(lib, have) && ValidField(lib, objects) && ValidField(lib, listeners) && ValidField(lib, clients)
      && ValidField(lib, subjects) && ValidField(lib, host) && ValidField(lib, issues) && ValidField(lib, results)
  }

  // ---- what is decoded from them ----

  lemma TextIsValid(lib: Library, field: Field)
    requires LawfulText(lib) && ValidField(lib, field) && DecodeText(OrNull(field)).Some?
    ensures lib.validUtf8(DecodeText(OrNull(field)).value)
  {
    assert Ascii("");
  }

  /** What all decoded elements satisfy, the list that is decoded does. */
  lemma {:induction false} ItemsAreValid<T(!new)>(lib: Library, f: Json -> Option<T>, p: T -> bool, items: seq<Json>)
    requires forall j :: ValidStrings(lib, j) && f(j).Some? ==> p(f(j).value)
    requires forall i :: 0 <= i < |items| ==> ValidStrings(lib, items[i])
    requires DecodeItems(f, items).Some?
    ensures forall x :: x in DecodeItems(f, items).value ==> p(x)
  {
    if items != [] {
      ItemsAreValid(lib, f, p, items[1..]);
      assert ValidStrings(lib, items[0]);
    }
  }

  lemma SliceIsValid<T(!new)>(lib: Library, f: Json -> Option<T>, p: T -> bool, field: Field)
    requires forall j :: ValidStrings(lib, j) && f(j).Some? ==> p(f(j).value)
    requires ValidField(lib, field) && DecodeSlice(f, OrNull(field)).Some?
    ensures forall x :: x in DecodeSlice(f, OrNull(field)).value.Elements() ==> p(x)
  {
    if field.Some? && field.value.JArray? {
      ItemsAreValid(lib, f, p, field.value.items);
    }
  }

  lemma ClientIsUtf8(lib: Library, j: Json)
    requires LawfulText(lib) && ValidStrings(lib, j) && DecodeClient(j).Some?
    ensures Utf8Addresses(lib, DecodeClient(j).value)
  {
    if j.JClient? {
      forall t | ValidStrings(lib, t) && DecodeText(t).Some?
        ensures lib.validUtf8(DecodeText(t).value)
      {
        TextIsValid(lib, Some(t));
      }
      SliceIsValid(lib, DecodeText, lib.validUtf8, j.liveIPs);
    }
  }

  lemma ClientsAreUtf8(lib: Library, field: Field)
    requires LawfulText(lib) && ValidField(lib, field) && DecodeSlice(DecodeClient, OrNull(field)).Some?
    ensures forall c :: c in DecodeSlice(DecodeClient, OrNull(field)).value.Elements() ==> Utf8Addresses(lib, c)
  {
    forall j | ValidStrings(lib, j) && DecodeClient(j).Some?
      ensures Utf8Addresses(lib, DecodeClient(j).value)
    {
      ClientIsUtf8(lib, j);
    }
    SliceIsValid(lib, DecodeClient, (c: ClientCounters) => Utf8Addresses(lib, c), field);
  }

  lemma DecodedHostIsUtf8(lib: Library, field: Field)
    requires ValidField(lib, field) && DecodeHost(OrNull(field)).Some? && DecodeHost(OrNull(field)).value.Some?
    ensures Utf8Host(lib, DecodeHost(OrNull(field)).value.value)
    ensures Encodable(DecodeHost(OrNull(field)).value.value)
  {
    assert ValidStrings(lib, field.value);
  }

  lemma DecodedMembers(j: Json)
    requires DecodeReport(j).Some?
    ensures j.JReport?
    ensures var r := DecodeReport(j).value;
            && DecodeText(OrNull(j.agentId)) == Some(r.agentId)
            && DecodeText(OrNull(j.agentVersion)) == Some(r.agentVersion)
            && DecodeText(OrNull(j.coreVersion)) == Some(r.coreVersion)
            && DecodeText(OrNull(j.coreState)) == Some(r.coreState)
            && DecodeSlice(DecodeClient, OrNull(j.clients)) == Some(r.clients)
            && DecodeHost(OrNull(j.host)) == Some(r.host)
  {}

  lemma ValidMembers(lib: Library, j: Json)
    requires j.JReport? && ValidStrings(lib, j)
    ensures ValidField(lib, j.agentId) && ValidField(lib, j.agentVersion)
    ensures ValidField(lib, j.coreVersion) && ValidField(lib, j.coreState)
    ensures ValidField(lib, j.clients) && ValidField(lib, j.host)
  {}

  /** The texts of a decoded report are valid UTF-8, and its host sample can be encoded. */
  lemma DecodedTextsAreValid(lib: Library, j: Json, r: NodeReport)
    requires LawfulText(lib) && ValidStrings(lib, j) && DecodeReport(j) == Some(r)
    ensures Utf8Texts(lib, r) && HostEncodes(r)
  {
    DecodedMembers(j);
    ValidMembers(lib, j);
    TextIsValid(lib, j.agentId);
    TextIsValid(lib, j.agentVersion);
    TextIsValid(lib, j.coreVersion);
    TextIsValid(lib, j.coreState);
    ClientsAreUtf8(lib, j.clients);
    if r.host.Some? {
      DecodedHostIsUtf8(lib, j.host);
    }
  }

  /** The law of FuzzValidateNodeReport, on every document: if it decodes to a report that the base
      validator accepts, then that report is encoded, decodes, is accepted again, keeps the sender's
      verdict, and is encoded the second time as it was the first. */
  lemma AcceptedDocumentsSurviveTheWire(lib: Library, validFigures: string -> bool, j: Json, report: NodeReport)
    requires LawfulText(lib) && ValidStrings(lib, j)
    requires DecodeReport(j) == Some(report) && AcceptedReport(lib, report)
    ensures MarshalReport(lib, report).Some?
    ensures var decoded := DecodeReport(MarshalReport(lib, report).value);
            && decoded.Some?
            && AcceptedReport(lib, decoded.value)
            && (AcceptedBySender(lib, validFigures, decoded.value) <==> AcceptedBySender(lib, validFigures, report))
            && MarshalReport(lib, decoded.value) == MarshalReport(lib, report)
  {
    DecodedTextsAreValid(lib, j, report);
    DecodeUndoesMarshal(lib, report);
    MarshalIsStable(lib, report);
    Utf8ReportsComeBackUnchanged(lib, validFigures, report);
  }

  // ---- the encoder writes such trees ----

  lemma OmittedTextIsValid(lib: Library, s: string)
    requires LawfulText(lib)
    ensures ValidField(lib, OmitEmptyText(lib, s))
  {}

  lemma ListIsValid<T>(lib: Library, enc: T -> Json, s: seq<T>)
    requires forall x :: x in s ==> ValidStrings(lib, enc(x))
    ensures ValidField(lib, OmitEmptyList(enc, s))
    ensures ValidField(lib, Some(EncodeSlice(enc, Elems(s))))
  {
    forall i | 0 <= i < |s|
      ensures ValidStrings(lib, Map(enc, s)[i])
    {
      assert s[i] in s;
    }
  }

  lemma VersionIsValid(lib: Library, v: Version)
    ensures ValidStrings(lib, EncodeVersion(v))
  {}

  lemma StatusesAreValid(lib: Library, s: Slice<ObjectStatus>)
    requires LawfulText(lib)
    ensures ValidField(lib, Some(EncodeSlice(StatusEncoder(lib), s)))
  {
    forall o | o in s.Elements()
      ensures ValidStrings(lib, StatusEncoder(lib)(o))
    {
      OmittedTextIsValid(lib, o.issueCode);
      OmittedTextIsValid(lib, o.blockedOn);
      VersionIsValid(lib, o.sinceVersion);
    }
    ListIsValid(lib, StatusEncoder(lib), s.Elements());
  }

  lemma ListenersAreValid(lib: Library, s: Slice<ListenerCounters>)
    requires LawfulText(lib)
    ensures ValidField(lib, Some(EncodeSlice(ListenerEncoder(lib), s)))
  {
    forall c | c in s.Elements()
      ensures ValidStrings(lib, ListenerEncoder(lib)(c))
    {
      assert ValidStrings(lib, EncodeText(lib, c.key));
    }
    ListIsValid(lib, ListenerEncoder(lib), s.Elements());
  }

  lemma ClientsAreValid(lib: Library, s: Slice<ClientCounters>)
    requires LawfulText(lib)
    ensures ValidField(lib, Some(EncodeSlice(ClientEncoder(lib), s)))
  {
    forall c | c in s.Elements()
      ensures ValidStrings(lib, ClientEncoder(lib)(c))
    {
      ListIsValid(lib, TextEncoder(lib), c.liveIPs);
    }
    ListIsValid(lib, ClientEncoder(lib), s.Elements());
  }

  lemma SubjectsAreValid(lib: Library, s: seq<SubjectObservation>)
    requires LawfulText(lib)
    ensures ValidField(lib, OmitEmptyList(SubjectEncoder(lib), s))
  {
    forall x | x in s
      ensures ValidStrings(lib, SubjectEncoder(lib)(x))
    {
      assert ValidStrings(lib, EncodeText(lib, x.subject));
    }
    ListIsValid(lib, SubjectEncoder(lib), s);
  }

  lemma ResultsAreValid(lib: Library, s: seq<TaskResult>)
    requires LawfulText(lib)
    ensures ValidField(lib, OmitEmptyList(ResultEncoder(lib), s))
  {
    forall r | r in s
      ensures ValidStrings(lib, ResultEncoder(lib)(r))
    {
      OmittedTextIsValid(lib, r.errorCode);
      OmittedTextIsValid(lib, r.error);
    }
    ListIsValid(lib, ResultEncoder(lib), s);
  }

  lemma IssuesAreValid(lib: Library, s: seq<Issue>)
    requires LawfulText(lib)
    ensures ValidField(lib, OmitEmptyList(IssueEncoder(lib), s))
  {
    forall i | i in s
      ensures ValidStrings(lib, IssueEncoder(lib)(i))
    {
      OmittedTextIsValid(lib, i.key);
      OmittedTextIsValid(lib, i.detail);
    }
    ListIsValid(lib, IssueEncoder(lib), s);
  }

  lemma StreamStateIsValid(lib: Library, s: StreamState)
    requires LawfulText(lib)
    ensures ValidStrings(lib, EncodeStreamState(lib, s))
  {
    VersionIsValid(lib, s.applied);
  }

  lemma HaveIsValid(lib: Library, have: map<string, StreamState>)
    requires LawfulText(lib)
    ensures ValidStrings(lib, EncodeHave(lib, have))
  {
    var entries := EncodeHave(lib, have).entries;
    forall stream | stream in entries
      ensures lib.validUtf8(stream) && ValidStrings(lib, entries[stream])
    {
      var last := LastKey(lib, have.Keys, stream);
      assert lib.validUtf8(lib.cleanUtf8(last));
      StreamStateIsValid(lib, have[last]);
    }
  }

  lemma HostIsValid(lib: Library, host: Option<HostObservation>)
    requires LawfulText(lib) && EncodeHost(lib, host).Some?
    ensures ValidField(lib, EncodeHost(lib, host).value)
  {
    if host.Some? {
      CleanHostIsUtf8(lib, host.value);
    }
  }

  lemma SharedMembersAreValid(lib: Library, r: NodeReport)
    requires LawfulText(lib)
    ensures ValidField(lib, Some(EncodeText(lib, r.agentId)))
    ensures ValidField(lib, OmitEmpty(r.protocolVersion != 0, JNumber(r.protocolVersion)))
    ensures ValidField(lib, OmitEmpty(r.reportedAtMS != 0, JNumber(r.reportedAtMS)))
    ensures ValidField(lib, OmitEmptyText(lib, r.agentVersion)) && ValidField(lib, OmitEmptyText(lib, r.coreEngine))
    ensures ValidField(lib, OmitEmptyText(lib, r.coreVersion)) && ValidField(lib, OmitEmptyText(lib, r.coreState))
    ensures ValidField(lib, OmitEmptyList(TextEncoder(lib), r.capabilities))
    ensures ValidField(lib, Some(JBool(true))) && ValidField(lib, Some(JBool(r.partial)))
    ensures ValidField(lib, Some(EncodeHave(lib, r.have)))
    ensures ValidField(lib, OmitEmptyList(IssueEncoder(lib), r.issues))
    ensures ValidField(lib, OmitEmptyList(ResultEncoder(lib), r.taskResults))
  {
    ListIsValid(lib, TextEncoder(lib), r.capabilities);
    HaveIsValid(lib, r.have);
    IssuesAreValid(lib, r.issues);
    ResultsAreValid(lib, r.taskResults);
  }

  lemma PartialTreeIsValid(lib: Library, r: NodeReport, host: Field)
    requires LawfulText(lib) && ValidField(lib, host)
    ensures ValidStrings(lib, PartialShape(lib, r, host))
  {
    SharedMembersAreValid(lib, r);
    assert ValidField(lib, None);
  }

  lemma FullTreeIsValid(lib: Library, r: NodeReport, host: Field)
    requires LawfulText(lib) && ValidField(lib, host)
    ensures ValidStrings(lib, FullShape(lib, r, host))
  {
    SharedMembersAreValid(lib, r);
    StatusesAreValid(lib, r.objects);
    ListenersAreValid(lib, r.listenerCounters);
    ClientsAreValid(lib, r.clients);
    SubjectsAreValid(lib, r.subjects);
  }

  /** What MarshalJSON writes is such a document, whatever the report. */
  lemma MarshalWritesValidStrings(lib: Library, r: NodeReport)
    requires LawfulText(lib) && MarshalReport(lib, r).Some?
    ensures ValidStrings(lib, MarshalReport(lib, r).value)
  {
    HostIsValid(lib, r.host);
    var host := EncodeHost(lib, r.host).value;
    if r.partial {
      PartialTreeIsValid(lib, r, host);
    } else {
      FullTreeIsValid(lib, r.(objects := NotNil(r.objects), clients := NotNil(r.clients),
                              listenerCounters := NotNil(r.listenerCounters)), host);
    }
  }
}
