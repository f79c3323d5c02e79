/** The diagnostics result: its validator, the exact decoder's fields, and the order in which events
    are dropped. */
module Diagnostics {
  import opened Wrappers
  import opened Ints
  import opened Limits
  import opened Lists
  import opened ByteOrder
  import opened ExactObject

  const SCHEMA_VERSION := 1

  datatype Severity = Info | Warning | Error | UnknownSeverity(text: string)

  datatype CheckStatus = CheckOk | CheckWarning | CheckFailed | CheckUnavailable | UnknownStatus(text: string)

  datatype Event = Event(code: string, atMS: int64, severity: Severity, summary: string)

  datatype Check = Check(code: string, status: CheckStatus, summary: string)

  datatype RuntimeSection = RuntimeSection(coreState: string, coreConfigDigest: string)

  datatype StateSection = StateSection(sqliteQuickCheck: string, outboxPending: int64, tasksQueued: int64)

  /** The host section is not looked into. */
  datatype HostSection = HostSection(sample: string)

  datatype DiagnosticsResult = DiagnosticsResult(
    schemaVersion: int64,
    collectedAtMS: int64,
    recovered: bool,
    truncated: bool,
    host: Option<HostSection>,
    runtime: Option<RuntimeSection>,
    state: Option<StateSection>,
    events: seq<Event>,
    checks: seq<Check>
  )

  const EVENT_CODES := {
    "sync.failed", "core.started", "core.stopped", "core.restarted", "task.rejected", "collector.unavailable"
  }

  const CHECK_CODES := [
    "collector.host", "collector.process", "core.binary_digest", "core.confirmed_config_digest", "core.selection",
    "credential.permissions", "data_dir.access", "installation.layout", "state.sqlite_open", "state.sqlite_quick_check"
  ]

  // ---- ValidateDiagnosticsResult ----

  predicate AcceptedEvent(e: Event) {
    && e.code in EVENT_CODES
    && !e.severity.UnknownSeverity?
    && e.atMS > 0
    && |e.summary| <= MAX_DIAGNOSTICS_SUMMARY_BYTES
  }

  /** The full set of checks, once each and in order. */
  predicate AcceptedChecks(checks: seq<Check>) {
    && |checks| == |CHECK_CODES|
    && forall i :: 0 <= i < |checks| ==>
         checks[i].code == CHECK_CODES[i] && !checks[i].status.UnknownStatus? &&
         |checks[i].summary| <= MAX_DIAGNOSTICS_SUMMARY_BYTES
  }

  predicate AcceptedSections(r: DiagnosticsResult) {
    && r.schemaVersion == SCHEMA_VERSION
    && r.collectedAtMS > 0
    && (r.runtime.Some? ==> r.runtime.value.coreState != "")
    && (r.state.Some? ==>
        r.state.value.sqliteQuickCheck != "" && r.state.value.outboxPending >= 0 && r.state.value.tasksQueued >= 0)
  }

  predicate AcceptedResult(r: DiagnosticsResult) {
    && AcceptedSections(r)
    && |r.events| <= MAX_DIAGNOSTICS_EVENTS
    && (r.truncated ==> r.events != [])
    && (forall e :: e in r.events ==> AcceptedEvent(e))
    && AcceptedChecks(r.checks)
  }

  method ValidateDiagnosticsChecks(checks: seq<Check>) returns (ok: bool)
    ensures ok <==> AcceptedChecks(checks)
  {
    if |checks| != |CHECK_CODES| {
      return false;
    }
    for index := 0 to |checks|
      invariant forall i :: 0 <= i < index ==>
        checks[i].code == CHECK_CODES[i] && !checks[i].status.UnknownStatus? &&
        |checks[i].summary| <= MAX_DIAGNOSTICS_SUMMARY_BYTES
    {
      if checks[index].code != CHECK_CODES[index] {
        return false;
      }
      if checks[index].status.UnknownStatus? {
        return false;
      }
      if |checks[index].summary| > MAX_DIAGNOSTICS_SUMMARY_BYTES {
        return false;
      }
    }
    return true;
  }

  method ValidateDiagnosticsResult(result: DiagnosticsResult) returns (ok: bool)
    ensures ok <==> AcceptedResult(result)
  {
    if result.schemaVersion != SCHEMA_VERSION {
      return false;
    }
    if result.collectedAtMS <= 0 {
      return false;
    }
    if result.runtime.Some? {
      if result.runtime.value.coreState == "" {
        return false;
      }
    }
    if result.state.Some? {
      if result.state.value.sqliteQuickCheck == "" {
        return false;
      }
      if result.state.value.outboxPending < 0 || result.state.value.tasksQueued < 0 {
        return false;
      }
    }
    if |result.events| > MAX_DIAGNOSTICS_EVENTS {
      return false;
    }
    if result.truncated && |result.events| == 0 {
      return false;
    }
    for n := 0 to |result.events|
      invariant UpTo(AcceptedEvent, result.events, n)
    {
      var event := result.events[n];
      assert event in result.events;
      if event.code !in EVENT_CODES {
        return false;
      }
      if event.severity.UnknownSeverity? {
        return false;
      }
      if event.atMS <= 0 {
        return false;
      }
      if |event.summary| > MAX_DIAGNOSTICS_SUMMARY_BYTES {
        return false;
      }
    }
    assert result.events[..|result.events|] == result.events;
    UpToMeans(AcceptedEvent, result.events, |result.events|);
    ok := ValidateDiagnosticsChecks(result.checks);
  }

  // ---- what a collector can send ----

  /** What the log of an agent can hold. */
  datatype Occurrence = SyncFailed | CoreStarted | CoreStopped | CoreRestarted | TaskRejected | CollectorUnavailable

  function CodeOf(o: Occurrence): string {
    match o
    case SyncFailed => "sync.failed"
    case CoreStarted => "core.started"
    case CoreStopped => "core.stopped"
    case CoreRestarted => "core.restarted"
    case TaskRejected => "task.rejected"
    case CollectorUnavailable => "collector.unavailable"
  }

  /** An occurrence is an accepted event exactly when it has a time, a severity and a short summary; and every
      accepted event is of some occurrence. */
  lemma EventsAreOccurrences(e: Event)
    ensures AcceptedEvent(e) <==>
            && (exists o :: e.code == CodeOf(o))
            && e.atMS >= 1 && |e.summary| <= 512
            && (e.severity == Info || e.severity == Warning || e.severity == Error)
  {
    assert CodeOf(SyncFailed) == "sync.failed" && CodeOf(CoreStarted) == "core.started";
    assert CodeOf(CoreStopped) == "core.stopped" && CodeOf(CoreRestarted) == "core.restarted";
    assert CodeOf(TaskRejected) == "task.rejected" && CodeOf(CollectorUnavailable) == "collector.unavailable";
    if o :| e.code == CodeOf(o) {
      assert e.code in EVENT_CODES;
    }
  }

  /** The outcome of one check. */
  datatype Finding = Finding(status: CheckStatus, summary: string)

  function ChecksOf(findings: seq<Finding>): (checks: seq<Check>)
    requires |findings| == 10
    ensures |checks| == 10
  {
    seq(10, (i: nat) requires i < 10 => Check(CHECK_CODES[i], findings[i].status, findings[i].summary))
  }

  predicate Presentable(f: Finding) {
    && (f.status == CheckOk || f.status == CheckWarning || f.status == CheckFailed || f.status == CheckUnavailable)
    && |f.summary| <= 512
  }

  /** One finding for each of the ten checks is accepted exactly when all are presentable; fewer or more never. */
  lemma TenFindingsAreAccepted(findings: seq<Finding>)
    requires |findings| == 10
    ensures AcceptedChecks(ChecksOf(findings)) <==> forall i :: 0 <= i < 10 ==> Presentable(findings[i])
  {
    var checks := ChecksOf(findings);
    forall i | 0 <= i < 10
      ensures checks[i] == Check(CHECK_CODES[i], findings[i].status, findings[i].summary)
    {}
  }

  lemma AcceptedChecksAreFindings(checks: seq<Check>) returns (findings: seq<Finding>)
    requires AcceptedChecks(checks)
    ensures |findings| == 10 && checks == ChecksOf(findings)
  {
    findings := seq(10, (i: nat) requires i < 10 => Finding(checks[i].status, checks[i].summary));
  }

  lemma CollectorsPart()
    ensures PartAt("collector.host", "collector.process", 10) && PartAt("collector.process", "core.binary_digest", 2)
  {}

  lemma CoresPart()
    ensures PartAt("core.binary_digest", "core.confirmed_config_digest", 5)
    ensures PartAt("core.confirmed_config_digest", "core.selection", 5)
  {}

  lemma SectionsPart()
    ensures PartAt("core.selection", "credential.permissions", 1)
    ensures PartAt("credential.permissions", "data_dir.access", 0)
    ensures PartAt("data_dir.access", "installation.layout", 0) && PartAt("installation.layout", "state.sqlite_open", 0)
  {}

  lemma StatesPart()
    ensures PartAt("state.sqlite_open", "state.sqlite_quick_check", 13)
  {}

  lemma CheckCodesAreInByteOrder(i: nat)
    requires i + 1 < |CHECK_CODES|
    ensures TextBefore(CHECK_CODES[i], CHECK_CODES[i + 1])
  {
    CollectorsPart();
    CoresPart();
    SectionsPart();
    StatesPart();
    TextBeforeMeans(CHECK_CODES[i], CHECK_CODES[i + 1]);
  }

  /** The codes of accepted checks stand in byte order, so each is there once. */
  lemma ChecksAreInByteOrder(checks: seq<Check>, i: nat)
    requires AcceptedChecks(checks) && i + 1 < |checks|
    ensures TextBefore(checks[i].code, checks[i + 1].code)
  {
    CheckCodesAreInByteOrder(i);
  }

  /** Each section is judged by itself. Whatever else an accepted result holds, a section may be left out, and
      one may be put in exactly when its own contents are sound. */
  lemma SectionsAreJudgedAlone(r: DiagnosticsResult, host: HostSection, runtime: RuntimeSection, state: StateSection)
    requires AcceptedResult(r)
    ensures AcceptedResult(r.(host := None, runtime := None, state := None))
    ensures AcceptedResult(r.(host := Some(host)))
    ensures AcceptedResult(r.(runtime := Some(runtime))) <==> runtime.coreState != ""
    ensures AcceptedResult(r.(state := Some(state))) <==>
            state.sqliteQuickCheck != "" && state.outboxPending >= 0 && state.tasksQueued >= 0
  {}

  /** A result without events. */
  function Bare(at: int64, recovered: bool, checks: seq<Check>): DiagnosticsResult {
    DiagnosticsResult(1, at, recovered, false, None, None, None, [], checks)
  }

  /** It is accepted exactly when it has a time and its checks are; adding events keeps it so exactly when they
      are at most two hundred and each is accepted, and the mark of truncation needs one of them. */
  lemma EventsAreJudgedAlone(at: int64, recovered: bool, checks: seq<Check>, events: seq<Event>, truncated: bool)
    ensures AcceptedResult(Bare(at, recovered, checks)) <==> at >= 1 && AcceptedChecks(checks)
    ensures AcceptedResult(Bare(at, recovered, checks).(events := events, truncated := truncated)) <==>
            && AcceptedResult(Bare(at, recovered, checks))
            && |events| <= 200 && (forall e :: e in events ==> AcceptedEvent(e))
            && (events == [] ==> !truncated)
  {}

  /** The accepted results are those of the one schema that add sound sections and events to ten findings. */
  lemma AcceptedResultsAreCollected(r: DiagnosticsResult)
    ensures AcceptedResult(r) <==>
            && r.schemaVersion == 1
            && r.collectedAtMS >= 1
            && (r.runtime.Some? ==> r.runtime.value.coreState != "")
            && (r.state.Some? ==> r.state.value.sqliteQuickCheck != "" &&
                                  r.state.value.outboxPending >= 0 && r.state.value.tasksQueued >= 0)
            && AcceptedResult(
                 Bare(r.collectedAtMS, r.recovered, r.checks).(events := r.events, truncated := r.truncated))
  {}

  // ---- the exact decoder of results ----

  function Tag(goName: string, name: string, omitEmpty: bool): StructField {
    StructField(goName, true, name, omitEmpty, omitEmpty)
  }

  const RESULT_FIELDS := [
    Tag("SchemaVersion", "schema_version", false), Tag("CollectedAtMS", "collected_at_ms", false),
    Tag("Recovered", "recovered", false), Tag("Truncated", "truncated", false), Tag("Host", "host", true),
    Tag("Runtime", "runtime", true), Tag("State", "state", true), Tag("Events", "events", true),
    Tag("Checks", "checks", false)
  ]

  const RESULT_OPTIONAL := ["host", "runtime", "state", "events"]

  /** The fields of a result that omitempty finds empty; no other field is under it. */
  function EmptyFields(r: DiagnosticsResult): set<string> {
    (if r.host.None? then {"host"} else {}) + (if r.runtime.None? then {"runtime"} else {})
    + (if r.state.None? then {"state"} else {}) + (if r.events == [] then {"events"} else {})
  }

  lemma ResultNamesAreDistinct()
    ensures Distinct(FieldName, RESULT_FIELDS)
  {
    DistinctMeans(FieldName, RESULT_FIELDS);
    assert "recovered"[0] != "truncated"[0] && "events"[0] != "checks"[0];
    forall i, j | 0 <= i < j < |RESULT_FIELDS|
      ensures FieldName(RESULT_FIELDS[i]) != FieldName(RESULT_FIELDS[j])
    {
      assert |RESULT_FIELDS[i].name| != |RESULT_FIELDS[j].name| || RESULT_FIELDS[i].name[0] != RESULT_FIELDS[j].name[0];
    }
  }

  lemma ResultFieldsAreTagged(i: nat)
    requires i < |RESULT_FIELDS|
    ensures Tagged(RESULT_FIELDS[i])
  {
    assert '_' in TAG_PUNCTUATION by {
      assert TAG_PUNCTUATION[22] == '_';
    }
  }

  lemma SectionsAreOptional(i: nat)
    requires i < |RESULT_FIELDS| && RESULT_FIELDS[i].omitEmpty
    ensures RESULT_FIELDS[i].name in RESULT_OPTIONAL
  {
    assert RESULT_FIELDS[4].name == RESULT_OPTIONAL[0] && RESULT_FIELDS[5].name == RESULT_OPTIONAL[1];
    assert RESULT_FIELDS[6].name == RESULT_OPTIONAL[2] && RESULT_FIELDS[7].name == RESULT_OPTIONAL[3];
  }

  lemma ResultFieldsMatch()
    ensures AlwaysAccepted(RESULT_FIELDS, RESULT_OPTIONAL)
  {
    ResultNamesAreDistinct();
    forall i | 0 <= i < |RESULT_FIELDS|
      ensures Tagged(RESULT_FIELDS[i])
    {
      ResultFieldsAreTagged(i);
    }
    forall i | 0 <= i < |RESULT_FIELDS| && RESULT_FIELDS[i].omitEmpty
      ensures RESULT_FIELDS[i].name in RESULT_OPTIONAL
    {
      SectionsAreOptional(i);
    }
    TaggedStructsAreAccepted(RESULT_FIELDS, RESULT_OPTIONAL);
  }

  /** Every result decodes under its own exact decoder, whatever sections it holds. */
  lemma ResultsDecodeExactly(r: DiagnosticsResult)
    ensures ExactDocument(RESULT_FIELDS, RESULT_OPTIONAL, OwnDocument(RESULT_FIELDS, EmptyFields(r)))
  {
    ResultFieldsMatch();
  }
}
