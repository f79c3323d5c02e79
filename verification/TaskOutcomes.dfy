/** How a task ends, and what the validators of results make of it: every way to end that a worker may
    report is accepted, and nothing else is. */
module TaskOutcomes {
  import opened Ints
  import opened Lists
  import opened Platform
  import opened Hex
  import opened Tokens
  import opened Tasks

  /** A task succeeds with a payload, or fails, for certain or perhaps, with a code for machines and a
      diagnostic for people. */
  datatype Ending = Succeeded(payload: Bytes) | FailedWith(indeterminate: bool, code: string, diagnostic: string)

  function Completed(id: string, kind: string, digest: string, notAfterMS: int64, ending: Ending): TaskResult {
    match ending
    case Succeeded(payload) => TaskResult(id, kind, digest, notAfterMS, true, false, payload, "", "")
    case FailedWith(indeterminate, code, diagnostic) =>
      TaskResult(id, kind, digest, notAfterMS, false, indeterminate, "", code, diagnostic)
  }

  /** A diagnostic a person can read. */
  predicate Readable(lib: Library, text: string) {
    text != "" && lib.validUtf8(text) && |text| <= 4096 && lib.trimSpace(text) == text
  }

  predicate Reportable(lib: Library, ending: Ending) {
    match ending
    case Succeeded(payload) => |payload| <= 0x10_0000
    case FailedWith(_, code, diagnostic) => IsToken(code) && |code| <= 128 && Readable(lib, diagnostic)
  }

  lemma ReadableIsTrimmed(lib: Library, text: string)
    ensures Readable(lib, text) <==> BoundedError(lib, text) && TrimmedError(lib, text)
  {}

  lemma CompletionsAreDurable(
      lib: Library, id: string, kind: string, digest: string, notAfterMS: int64, ending: Ending)
    requires AsciiIsUtf8(lib)
    requires BoundedId(id) && BoundedKind(kind) && ValidDigest(digest) && notAfterMS >= 0
    ensures DurableResult(lib, Completed(id, kind, digest, notAfterMS, ending)) <==> Reportable(lib, ending)
  {
    assert Ascii("");
    if ending.FailedWith? {
      ReadableIsTrimmed(lib, ending.diagnostic);
    }
  }

  /** The result of a well-formed task is accepted exactly when its ending is reportable. */
  lemma WellFormedTasksComplete(lib: Library, t: Task, ending: Ending)
    requires AsciiIsUtf8(lib) && WellFormedTask(lib, t)
    ensures DurableResult(lib, Completed(t.id, t.kind, t.inputSHA256, t.notAfterMS, ending)) <==>
            Reportable(lib, ending)
  {
    CompletionsAreDurable(lib, t.id, t.kind, t.inputSHA256, t.notAfterMS, ending);
  }

  /** And an accepted result is always one: a success carries no error, a failure no payload. */
  lemma DurableResultsAreCompletions(lib: Library, r: TaskResult) returns (ending: Ending)
    requires DurableResult(lib, r)
    ensures Reportable(lib, ending) && r == Completed(r.id, r.kind, r.inputSHA256, r.notAfterMS, ending)
  {
    if r.ok {
      ending := Succeeded(r.result);
    } else {
      ending := FailedWith(r.indeterminate, r.errorCode, r.error);
      ReadableIsTrimmed(lib, r.error);
    }
  }

  // ---- the legacy schema ----

  /** Before kinds and digests a failure had no code, and could carry a payload. */
  datatype LegacyEnding = LegacySuccess(payload: Bytes) | LegacyFailure(payload: Bytes, diagnostic: string)

  function LegacyCompleted(id: string, ending: LegacyEnding): TaskResult {
    match ending
    case LegacySuccess(payload) => TaskResult(id, "", "", 0, true, false, payload, "", "")
    case LegacyFailure(payload, diagnostic) => TaskResult(id, "", "", 0, false, false, payload, "", diagnostic)
  }

  predicate LegacyReportable(lib: Library, ending: LegacyEnding) {
    match ending
    case LegacySuccess(payload) => |payload| <= 0x10_0000
    case LegacyFailure(payload, diagnostic) => |payload| <= 0x10_0000 && Readable(lib, diagnostic)
  }

  lemma LegacyTasksComplete(lib: Library, id: string, ending: LegacyEnding)
    requires AsciiIsUtf8(lib)
    ensures LegacyResult(lib, LegacyCompleted(id, ending)) <==> BoundedId(id) && LegacyReportable(lib, ending)
  {
    assert Ascii("");
    if ending.LegacyFailure? {
      ReadableIsTrimmed(lib, ending.diagnostic);
    }
  }

  lemma LegacyResultsAreCompletions(lib: Library, r: TaskResult) returns (ending: LegacyEnding)
    requires LegacyResult(lib, r)
    ensures LegacyReportable(lib, ending) && r == LegacyCompleted(r.id, ending)
  {
    if r.ok {
      ending := LegacySuccess(r.result);
    } else {
      ending := LegacyFailure(r.result, r.error);
      ReadableIsTrimmed(lib, r.error);
    }
  }

  // ---- a whole response of tasks, completed ----

  datatype Finished = Finished(task: Task, ending: Ending)

  function TaskOf(f: Finished): Task {
    f.task
  }

  function ResultOf(f: Finished): TaskResult {
    Completed(f.task.id, f.task.kind, f.task.inputSHA256, f.task.notAfterMS, f.ending)
  }

  function NameOf(f: Finished): string {
    f.task.id
  }

  lemma AnswersHaveOneResultEach(done: seq<Finished>)
    ensures Distinct(ResultId, Map(ResultOf, done)) <==> Distinct(TaskId, Map(TaskOf, done))
  {
    forall f | f in done
      ensures TaskId(TaskOf(f)) == NameOf(f) && ResultId(ResultOf(f)) == NameOf(f)
    {}
    MapKeys(TaskOf, TaskId, NameOf, done);
    MapKeys(ResultOf, ResultId, NameOf, done);
  }

  lemma AnswerIsDurable(lib: Library, done: seq<Finished>, f: Finished)
    requires AsciiIsUtf8(lib) && AcceptedTasks(lib, Map(TaskOf, done)) && f in done
    ensures DurableResult(lib, ResultOf(f)) <==> Reportable(lib, f.ending)
  {
    MapMembers(TaskOf, done);
    assert TaskOf(f) in Map(TaskOf, done);
    WellFormedTasksComplete(lib, f.task, f.ending);
  }

  lemma AllAnswersAreDurable(lib: Library, done: seq<Finished>)
    requires AsciiIsUtf8(lib) && AcceptedTasks(lib, Map(TaskOf, done))
    ensures (forall r :: r in Map(ResultOf, done) ==> DurableResult(lib, r)) <==>
            forall f :: f in done ==> Reportable(lib, f.ending)
  {
    MapMembers(ResultOf, done);
    forall f | f in done
      ensures ResultOf(f) in Map(ResultOf, done)
      ensures DurableResult(lib, ResultOf(f)) <==> Reportable(lib, f.ending)
    {
      AnswerIsDurable(lib, done, f);
    }
  }

  lemma AnswersAreBounded(lib: Library, done: seq<Finished>)
    requires AcceptedTasks(lib, Map(TaskOf, done))
    ensures BoundedResults(Map(ResultOf, done)) <==> Total(ResultSize, Map(ResultOf, done)) <= 0x40_0000
  {
    AnswersHaveOneResultEach(done);
  }

  /** Tasks that were accepted together can be answered together: the results are accepted exactly when
      all endings are reportable and their payloads fit one report. */
  lemma AcceptedTasksAreAnswered(lib: Library, done: seq<Finished>)
    requires AsciiIsUtf8(lib) && AcceptedTasks(lib, Map(TaskOf, done))
    ensures AcceptedDurable(lib, Map(ResultOf, done)) <==>
            && (forall f :: f in done ==> Reportable(lib, f.ending))
            && Total(ResultSize, Map(ResultOf, done)) <= 0x40_0000
  {
    AnswersAreBounded(lib, done);
    AllAnswersAreDurable(lib, done);
  }

  // ---- kinds ----

  /** The kinds whose capability would be one of the protocol's own are not tasks. */
  lemma ReservedKindsAreRefused(kind: string)
    requires kind == "execution.v1" || kind == "expiry.v1"
    ensures !BoundedKind(kind)
  {
    assert TaskCapability("execution.v1") == CAPABILITY_TASK_EXECUTION_V1;
    assert TaskCapability("expiry.v1") == CAPABILITY_TASK_EXPIRY_V1;
  }

  /** Every other bounded token is. */
  lemma OtherKindsAreTasks(kind: string)
    requires IsToken(kind) && |kind| <= 96
    ensures BoundedKind(kind) <==> kind != "execution.v1" && kind != "expiry.v1"
  {
    assert TaskCapability("execution.v1") == CAPABILITY_TASK_EXECUTION_V1;
    assert TaskCapability("expiry.v1") == CAPABILITY_TASK_EXPIRY_V1;
    if TaskCapability(kind) == CAPABILITY_TASK_EXECUTION_V1 || TaskCapability(kind) == CAPABILITY_TASK_EXPIRY_V1 {
      assert kind == TaskCapability(kind)[5..];
      assert TaskCapability("execution.v1")[5..] == "execution.v1";
      assert TaskCapability("expiry.v1")[5..] == "expiry.v1";
    }
  }

  // ---- what a control plane can issue ----

  /** A call under an identifier, with the digest the control plane computes for it. */
  datatype Call = Call(id: string, kind: string, args: Bytes, notAfterMS: int64)

  function Issued(lib: Library, c: Call): Task {
    Task(c.id, c.kind, c.args, TaskInputDigest(lib, c.kind, c.args), c.notAfterMS)
  }

  predicate Issuable(c: Call) {
    && IsTaskId(c.id) && |c.id| <= 128
    && IsToken(c.kind) && |c.kind| <= 96 && c.kind != "execution.v1" && c.kind != "expiry.v1"
    && |c.args| <= 0x10_0000
    && c.notAfterMS >= 0
  }

  function CallOf(t: Task): Call {
    Call(t.id, t.kind, t.args, t.notAfterMS)
  }

  /** A task is well formed exactly when it is an issuable call, issued. */
  lemma WellFormedTasksAreIssued(lib: Library, t: Task)
    requires LawfulHash(lib)
    ensures WellFormedTask(lib, t) <==> Issuable(CallOf(t)) && t == Issued(lib, CallOf(t))
  {
    EncodedHashIsADigest(lib.sha256(TaskInput(t.kind, t.args)));
    if IsToken(t.kind) && |t.kind| <= 96 {
      OtherKindsAreTasks(t.kind);
    }
  }

  /** A response may hand out up to 64 issued calls under different identifiers and with up to 4 MiB of
      arguments in all, and nothing else. */
  lemma AcceptedTasksAreIssued(lib: Library, tasks: seq<Task>)
    requires LawfulHash(lib)
    ensures AcceptedTasks(lib, tasks) <==>
            && |tasks| <= 64 && Distinct(TaskId, tasks) && Total(ArgsSize, tasks) <= 0x40_0000
            && forall t :: t in tasks ==> Issuable(CallOf(t)) && t == Issued(lib, CallOf(t))
  {
    forall t | t in tasks
      ensures WellFormedTask(lib, t) <==> Issuable(CallOf(t)) && t == Issued(lib, CallOf(t))
    {
      WellFormedTasksAreIssued(lib, t);
    }
  }

  // ---- domain separation ----

  /** A hash of task input is never one of anything framed under another domain: what is hashed starts with
      this protocol's own domain and a NUL. */
  lemma TaskInputsAreSeparated(kind: string, args: Bytes, domain: string, rest: Bytes)
    requires '\0' !in domain && domain != "passwall-node/task-input/v1"
    ensures TaskInput(kind, args) != domain + ['\0'] + rest
  {
    var own := "passwall-node/task-input/v1";
    assert TASK_INPUT_DOMAIN == own + ['\0'];
    assert TaskInput(kind, args) == own + ['\0'] + (kind + "\0" + args);
    if TaskInput(kind, args) == domain + ['\0'] + rest {
      SeparatorSplits('\0', own, kind + "\0" + args, domain, rest);
    }
  }
}
