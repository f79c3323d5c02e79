/** NodeReport.MarshalJSON with its two shapes, and the decoder of encoding/json, over JSON trees. */
module ReportJson {
  import opened Wrappers
  import opened Ints
  import opened Lists
  import opened Platform
  import opened Versions
  import opened Hex
  import opened Issues
  import opened Tasks
  import opened ObjectState
  import opened HostSample
  import opened ByteOrder
  import opened Json
  import opened Report

  // ---- encoding ----

  function EncodeText(lib: Library, s: string): Json {
    JString(lib.cleanUtf8(s))
  }

  /** A text under omitempty. */
  function OmitEmptyText(lib: Library, s: string): Field {
    OmitEmpty(s != "", EncodeText(lib, s))
  }

  function TextEncoder(lib: Library): string -> Json {
    (s: string) => EncodeText(lib, s)
  }

  /** A list under omitempty. */
  function OmitEmptyList<T>(f: T -> Json, s: seq<T>): Field {
    OmitEmpty(s != [], JArray(Map(f, s)))
  }

  /** A slice without omitempty: nil is null. */
  function EncodeSlice<T>(f: T -> Json, s: Slice<T>): Json {
    match s
    case Nil => JNull
    case Elems(elems) => JArray(Map(f, elems))
  }

  function EncodeVersion(v: Version): Json {
    JVersion(Some(JNumber(v.epoch)), Some(JNumber(v.version)))
  }

  function EncodeStreamState(lib: Library, s: StreamState): Json {
    JStreamState(Some(EncodeVersion(s.applied)), Some(EncodeText(lib, s.etag)))
  }

  /** SinceVersion is a struct, which omitempty never omits. */
  function EncodeStatus(lib: Library, o: ObjectStatus): Json {
    JStatus(Some(EncodeText(lib, o.stream)), Some(EncodeText(lib, o.key)), Some(EncodeText(lib, StateText(o.state))),
            Some(EncodeVersion(o.sinceVersion)),
            OmitEmpty(o.firstFailedAtMS != 0, JNumber(o.firstFailedAtMS)),
            OmitEmptyText(lib, o.issueCode),
            OmitEmptyText(lib, o.blockedOn))
  }

  function EncodeListener(lib: Library, c: ListenerCounters): Json {
    JListener(Some(EncodeText(lib, c.key)), Some(JBool(c.present)), Some(JNumber(c.upBytes)),
              Some(JNumber(c.downBytes)),
              Some(JNumber(c.counterEpoch)))
  }

  function GateText(g: GateState): string {
    match g
    case GateUnconfigured => "unconfigured"
    case GateArmed => "armed"
    case GateClosed => "closed"
    case GateUnknown(text) => text
  }

  function EncodeClient(lib: Library, c: ClientCounters): Json {
    JClient(Some(EncodeText(lib, c.key)), Some(JBool(c.present)), Some(JNumber(c.upBytes)), Some(JNumber(c.downBytes)),
            Some(JNumber(c.counterEpoch)), Some(EncodeText(lib, GateText(c.gate))),
            OmitEmptyList(TextEncoder(lib), c.liveIPs))
  }

  function EncodeSubject(lib: Library, s: SubjectObservation): Json {
    JSubject(Some(EncodeText(lib, s.subject)), Some(JNumber(s.ipLocalCount)),
             Some(JNumber(s.ipWouldDenySinceLastReport)))
  }

  function EncodeIssue(lib: Library, i: Issue): Json {
    JIssue(Some(EncodeText(lib, i.code)), OmitEmptyText(lib, i.key), OmitEmptyText(lib, i.detail))
  }

  function EncodeResult(lib: Library, r: TaskResult): Json {
    JResult(Some(EncodeText(lib, r.id)), Some(EncodeText(lib, r.kind)), Some(EncodeText(lib, r.inputSHA256)),
            OmitEmpty(r.notAfterMS != 0, JNumber(r.notAfterMS)),
            Some(JBool(r.ok)),
            OmitEmpty(r.indeterminate, JBool(true)),
            OmitEmpty(r.result != "", JBase64(r.result)),
            OmitEmptyText(lib, r.errorCode),
            OmitEmptyText(lib, r.error))
  }

  function StatusEncoder(lib: Library): ObjectStatus -> Json {
    (o: ObjectStatus) => EncodeStatus(lib, o)
  }

  function ListenerEncoder(lib: Library): ListenerCounters -> Json {
    (c: ListenerCounters) => EncodeListener(lib, c)
  }

  function ClientEncoder(lib: Library): ClientCounters -> Json {
    (c: ClientCounters) => EncodeClient(lib, c)
  }

  function SubjectEncoder(lib: Library): SubjectObservation -> Json {
    (s: SubjectObservation) => EncodeSubject(lib, s)
  }

  function IssueEncoder(lib: Library): Issue -> Json {
    (i: Issue) => EncodeIssue(lib, i)
  }

  function ResultEncoder(lib: Library): TaskResult -> Json {
    (r: TaskResult) => EncodeResult(lib, r)
  }

  function CleanKeys(lib: Library, keys: set<string>): set<string> {
    set key | key in keys :: lib.cleanUtf8(key)
  }

  /** Of the keys that are written alike, the one written last: keys go out in byte order. */
  function LastKey(lib: Library, keys: set<string>, written: string): (key: string)
    requires written in CleanKeys(lib, keys)
    ensures key in keys && lib.cleanUtf8(key) == written
  {
    var alike := set key | key in keys && lib.cleanUtf8(key) == written;
    assert alike != {} by {
      var key :| key in keys && lib.cleanUtf8(key) == written;
      assert key in alike;
    }
    Greatest(alike)
  }

  function EncodeHave(lib: Library, have: map<string, StreamState>): Json {
    JMap(map stream | stream in CleanKeys(lib, have.Keys) ::
             EncodeStreamState(lib, have[LastKey(lib, have.Keys, stream)]))
  }

  /** encoding/json has no way to write a float that is no number. */
  function EncodeFloats(load: seq<Float>): Option<seq<real>> {
    if load == [] then Some([]) else
    if !load[0].Finite? then None else
    var rest :- EncodeFloats(load[1..]);
    Some([load[0].value] + rest)
  }

  function EncodeHost(lib: Library, host: Option<HostObservation>): Option<Field> {
    if host.None? then Some(None) else
    var load :- EncodeFloats(host.value.load);
    Some(Some(JHost(Map(CleanHostText(lib), host.value.texts), load, host.value.figures)))
  }

  /** The struct tags of NodeReport; `host` is the member the sample becomes. */
  function FullShape(lib: Library, r: NodeReport, host: Field): Json {
    JReport(
      Some(EncodeText(lib, r.agentId)),
      OmitEmpty(r.protocolVersion != 0, JNumber(r.protocolVersion)),
      OmitEmpty(r.reportedAtMS != 0, JNumber(r.reportedAtMS)),
      OmitEmptyText(lib, r.agentVersion),
      OmitEmptyText(lib, r.coreEngine),
      OmitEmptyText(lib, r.coreVersion),
      OmitEmptyText(lib, r.coreState),
      OmitEmptyList(TextEncoder(lib), r.capabilities),
      Some(JBool(r.partial)),
      Some(EncodeHave(lib, r.have)),
      Some(EncodeSlice(StatusEncoder(lib), r.objects)),
      Some(EncodeSlice(ListenerEncoder(lib), r.listenerCounters)),
      Some(EncodeSlice(ClientEncoder(lib), r.clients)),
      OmitEmptyList(SubjectEncoder(lib), r.subjects),
      host,
      OmitEmptyList(IssueEncoder(lib), r.issues),
      OmitEmptyList(ResultEncoder(lib), r.taskResults))
  }

  /** The second, hand-written shape. */
  function PartialShape(lib: Library, r: NodeReport, host: Field): Json {
    JReport(
      Some(EncodeText(lib, r.agentId)),
      OmitEmpty(r.protocolVersion != 0, JNumber(r.protocolVersion)),
      OmitEmpty(r.reportedAtMS != 0, JNumber(r.reportedAtMS)),
      OmitEmptyText(lib, r.agentVersion),
      OmitEmptyText(lib, r.coreEngine),
      OmitEmptyText(lib, r.coreVersion),
      OmitEmptyText(lib, r.coreState),
      OmitEmptyList(TextEncoder(lib), r.capabilities),
      Some(JBool(true)),
      Some(EncodeHave(lib, r.have)),
      None,
      None,
      None,
      None,
      host,
      OmitEmptyList(IssueEncoder(lib), r.issues),
      OmitEmptyList(ResultEncoder(lib), r.taskResults))
  }

  function NotNil<T>(s: Slice<T>): Slice<T> {
    if s.Nil? then Elems([]) else s
  }

  /** The receiver of MarshalJSON is a copy, so normalising its slices changes no caller's report. */
  function ReportTree(lib: Library, r: NodeReport, host: Field): Json {
    if !r.partial then
      FullShape(lib, r.(objects := NotNil(r.objects), clients := NotNil(r.clients),
                        listenerCounters := NotNil(r.listenerCounters)), host)
    else
      PartialShape(lib, r, host)
  }

  /** MarshalJSON, which fails when the host sample does. */
  function MarshalReport(lib: Library, r: NodeReport): Option<Json> {
    var host :- EncodeHost(lib, r.host);
    Some(ReportTree(lib, r, host))
  }

  // ---- decoding ----

  function DecodeInt(j: Json): Option<int64> {
    match j
    case JNull => Some(0)
    case JNumber(n) => if MIN_INT64 <= n <= MAX_INT64 then Some(n) else None
    case _ => None
  }

  function DecodeUint(j: Json): Option<uint64> {
    match j
    case JNull => Some(0)
    case JNumber(n) => if 0 <= n < TWO_TO_THE_64 then Some(n) else None
    case _ => None
  }

  function DecodeBool(j: Json): Option<bool> {
    match j
    case JNull => Some(false)
    case JBool(b) => Some(b)
    case _ => None
  }

  function DecodeText(j: Json): Option<string> {
    match j
    case JNull => Some("")
    case JString(s) => Some(s)
    case _ => None
  }

  function DecodeBytes(j: Json): Option<Bytes> {
    match j
    case JNull => Some("")
    case JBase64(b) => Some(b)
    case _ => None
  }

  function DecodeItems<T>(f: Json -> Option<T>, items: seq<Json>): Option<seq<T>> {
    if items == [] then Some([]) else
    var head :- f(items[0]);
    var tail :- DecodeItems(f, items[1..]);
    Some([head] + tail)
  }

  function DecodeSlice<T>(f: Json -> Option<T>, j: Json): Option<Slice<T>> {
    match j
    case JNull => Some(Nil)
    case JArray(items) => (var elems :- DecodeItems(f, items); Some(Elems(elems)))
    case _ => None
  }

  function DecodeSeq<T>(f: Json -> Option<T>, j: Json): Option<seq<T>> {
    var s :- DecodeSlice(f, j);
    Some(s.Elements())
  }

  function DecodeVersion(j: Json): Option<Version> {
    if j.JNull? then Some(NO_VERSION) else
    if !j.JVersion? then None else
    var epoch :- DecodeUint(OrNull(j.epoch));
    var version :- DecodeUint(OrNull(j.version));
    Some(Version(epoch, version))
  }

  function DecodeStreamState(j: Json): Option<StreamState> {
    if j.JNull? then Some(StreamState(NO_VERSION, "")) else
    if !j.JStreamState? then None else
    var applied :- DecodeVersion(OrNull(j.applied));
    var etag :- DecodeText(OrNull(j.etag));
    Some(StreamState(applied, etag))
  }

  function ParseState(text: string): ObjectState {
    if text == "" then ObjectUnset
    else if text == "applied" then ObjectApplied
    else if text == "pending" then ObjectPending
    else if text == "rejected" then ObjectRejected
    else if text == "blocked" then ObjectBlocked
    else ObjectUnknown(text)
  }

  function DecodeStatus(j: Json): Option<ObjectStatus> {
    if j.JNull? then Some(ObjectStatus("", "", ObjectUnset, NO_VERSION, 0, "", "")) else
    if !j.JStatus? then None else
    var stream :- DecodeText(OrNull(j.stream));
    var key :- DecodeText(OrNull(j.key));
    var state :- DecodeText(OrNull(j.state));
    var sinceVersion :- DecodeVersion(OrNull(j.sinceVersion));
    var firstFailedAtMS :- DecodeInt(OrNull(j.firstFailedAtMS));
    var issueCode :- DecodeText(OrNull(j.issueCode));
    var blockedOn :- DecodeText(OrNull(j.blockedOn));
    Some(ObjectStatus(stream, key, ParseState(state), sinceVersion, firstFailedAtMS, issueCode, blockedOn))
  }

  function DecodeListener(j: Json): Option<ListenerCounters> {
    if j.JNull? then Some(ListenerCounters("", false, 0, 0, 0)) else
    if !j.JListener? then None else
    var key :- DecodeText(OrNull(j.key));
    var present :- DecodeBool(OrNull(j.present));
    var upBytes :- DecodeInt(OrNull(j.upBytes));
    var downBytes :- DecodeInt(OrNull(j.downBytes));
    var counterEpoch :- DecodeUint(OrNull(j.counterEpoch));
    Some(ListenerCounters(key, present, upBytes, downBytes, counterEpoch))
  }

  function ParseGate(text: string): GateState {
    if text == "unconfigured" then GateUnconfigured
    else if text == "armed" then GateArmed
    else if text == "closed" then GateClosed
    else GateUnknown(text)
  }

  function DecodeClient(j: Json): Option<ClientCounters> {
    if j.JNull? then Some(ClientCounters("", false, 0, 0, 0, GateUnknown(""), [])) else
    if !j.JClient? then None else
    var key :- DecodeText(OrNull(j.key));
    var present :- DecodeBool(OrNull(j.present));
    var upBytes :- DecodeInt(OrNull(j.upBytes));
    var downBytes :- DecodeInt(OrNull(j.downBytes));
    var counterEpoch :- DecodeUint(OrNull(j.counterEpoch));
    var gate :- DecodeText(OrNull(j.gate));
    var liveIPs :- DecodeSeq(DecodeText, OrNull(j.liveIPs));
    Some(ClientCounters(key, present, upBytes, downBytes, counterEpoch, ParseGate(gate), liveIPs))
  }

  function DecodeSubject(j: Json): Option<SubjectObservation> {
    if j.JNull? then Some(SubjectObservation("", 0, 0)) else
    if !j.JSubject? then None else
    var subject :- DecodeText(OrNull(j.subject));
    var count :- DecodeInt(OrNull(j.ipLocalCount));
    var wouldDeny :- DecodeInt(OrNull(j.ipWouldDenySinceLastReport));
    Some(SubjectObservation(subject, count, wouldDeny))
  }

  function DecodeIssue(j: Json): Option<Issue> {
    if j.JNull? then Some(Issue("", "", "")) else
    if !j.JIssue? then None else
    var code :- DecodeText(OrNull(j.code));
    var key :- DecodeText(OrNull(j.key));
    var detail :- DecodeText(OrNull(j.detail));
    Some(Issue(code, key, detail))
  }

  function DecodeResult(j: Json): Option<TaskResult> {
    if j.JNull? then Some(TaskResult("", "", "", 0, false, false, "", "", "")) else
    if !j.JResult? then None else
    var id :- DecodeText(OrNull(j.id));
    var kind :- DecodeText(OrNull(j.kind));
    var inputSHA256 :- DecodeText(OrNull(j.inputSHA256));
    var notAfterMS :- DecodeInt(OrNull(j.notAfterMS));
    var ok :- DecodeBool(OrNull(j.ok));
    var indeterminate :- DecodeBool(OrNull(j.indeterminate));
    var result :- DecodeBytes(OrNull(j.result));
    var errorCode :- DecodeText(OrNull(j.errorCode));
    var error :- DecodeText(OrNull(j.error));
    Some(TaskResult(id, kind, inputSHA256, notAfterMS, ok, indeterminate, result, errorCode, error))
  }

  function DecodeHave(j: Json): Option<map<string, StreamState>> {
    match j
    case JNull => Some(map[])
    case JMap(m) =>
      if forall stream :: stream in m ==> DecodeStreamState(m[stream]).Some? then
        Some(map stream | stream in m :: DecodeStreamState(m[stream]).value)
      else
        None
    case _ => None
  }

  function DecodeFloat(x: real): Float {
    Finite(x)
  }

  function DecodeHost(j: Json): Option<Option<HostObservation>> {
    match j
    case JNull => Some(None)
    case JHost(texts, load, figures) => Some(Some(HostObservation(texts, Map(DecodeFloat, load), figures)))
    case _ => None
  }

  function DecodeReport(j: Json): Option<NodeReport> {
    if !j.JReport? then None else
    var agentId :- DecodeText(OrNull(j.agentId));
    var protocolVersion :- DecodeInt(OrNull(j.protocolVersion));
    var reportedAtMS :- DecodeInt(OrNull(j.reportedAtMS));
    var agentVersion :- DecodeText(OrNull(j.agentVersion));
    var coreEngine :- DecodeText(OrNull(j.coreEngine));
    var coreVersion :- DecodeText(OrNull(j.coreVersion));
    var coreState :- DecodeText(OrNull(j.coreState));
    var capabilities :- DecodeSeq(DecodeText, OrNull(j.capabilities));
    var partial :- DecodeBool(OrNull(j.partial));
    var have :- DecodeHave(OrNull(j.have));
    var objects :- DecodeSlice(DecodeStatus, OrNull(j.objects));
    var listenerCounters :- DecodeSlice(DecodeListener, OrNull(j.listenerCounters));
    var clients :- DecodeSlice(DecodeClient, OrNull(j.clients));
    var subjects :- DecodeSeq(DecodeSubject, OrNull(j.subjects));
    var host :- DecodeHost(OrNull(j.host));
    var issues :- DecodeSeq(DecodeIssue, OrNull(j.issues));
    var taskResults :- DecodeSeq(DecodeResult, OrNull(j.taskResults));
    Some(NodeReport(agentId, protocolVersion, reportedAtMS, agentVersion, coreEngine, coreVersion, coreState,
                    capabilities, partial, have, objects, listenerCounters, clients, subjects,
                    host, issues, taskResults))
  }
}
