/** Tasks and their results: identity, bounds, and the digest that binds a task to its input. */
module Tasks {
  import opened Ints
  import opened Limits
  import opened Lists
  import opened Platform
  import opened Hex
  import opened Tokens
  import opened Issues

  const CAPABILITY_TASK_EXECUTION_V1 := "task.execution.v1"
  const CAPABILITY_TASK_EXPIRY_V1 := "task.expiry.v1"
  const TASK_INPUT_DOMAIN := "passwall-node/task-input/v1\0"

  datatype Task = Task(id: string, kind: string, args: Bytes, inputSHA256: string, notAfterMS: int64)

  datatype TaskResult = TaskResult(
    id: string,
    kind: string,
    inputSHA256: string,
    notAfterMS: int64,
    ok: bool,
    indeterminate: bool,
    result: Bytes,
    errorCode: string,
    error: string
  )

  // ---- the input digest ----

  function TaskCapability(kind: string): string {
    "task." + kind
  }

  /** The bytes that are hashed. */
  function TaskInput(kind: string, args: Bytes): Bytes {
    TASK_INPUT_DOMAIN + kind + "\0" + args
  }

  function TaskInputDigest(lib: Library, kind: string, args: Bytes): string {
    Encode(lib.sha256(TaskInput(kind, args)))
  }

  method ComputeTaskInputSHA256(lib: Library, kind: string, args: Bytes) returns (digest: string)
    ensures digest == TaskInputDigest(lib, kind, args)
  {
    var written: Bytes := "";
    written := written + TASK_INPUT_DOMAIN;
    written := written + kind;
    written := written + "\0";
    written := written + args;
    assert written == TaskInput(kind, args);
    digest := Encode(lib.sha256(written));
  }

  /** The framing is injective on kinds without a NUL, whatever the argument bytes are. */
  lemma FramingIsInjective(k1: string, a1: Bytes, k2: string, a2: Bytes)
    requires '\0' !in k1 && '\0' !in k2
    ensures TaskInput(k1, a1) == TaskInput(k2, a2) <==> k1 == k2 && a1 == a2
  {
    var d := |TASK_INPUT_DOMAIN|;
    var t1, t2 := TaskInput(k1, a1), TaskInput(k2, a2);
    if t1 == t2 {
      assert t1[d..] == k1 + "\0" + a1;
      assert t2[d..] == k2 + "\0" + a2;
      SeparatorSplits('\0', k1, a1, k2, a2);
    }
  }

  /** The restriction on kinds is needed: a NUL in a kind makes two inputs one. */
  lemma NulInAKindCollides()
    ensures TaskInput("a\0b", "c") == TaskInput("a", "b\0c")
  {
    assert "a\0b" + "\0" + "c" == "a" + "\0" + "b\0c";
    assert TaskInput("a\0b", "c") == TASK_INPUT_DOMAIN + ("a\0b" + "\0" + "c");
    assert TaskInput("a", "b\0c") == TASK_INPUT_DOMAIN + ("a" + "\0" + "b\0c");
  }

  // ---- what a list of tasks must be ----

  predicate BoundedId(id: string) {
    IsTaskId(id) && |id| <= MAX_TASK_ID_BYTES
  }

  predicate BoundedKind(kind: string) {
    && IsToken(kind) && |kind| <= MAX_TASK_KIND_BYTES
    && TaskCapability(kind) != CAPABILITY_TASK_EXECUTION_V1 && TaskCapability(kind) != CAPABILITY_TASK_EXPIRY_V1
  }

  predicate WellFormedTask(lib: Library, task: Task) {
    && BoundedId(task.id) && BoundedKind(task.kind)
    && task.notAfterMS >= 0
    && |task.args| <= MAX_TASK_ARGS_BYTES
    && ValidDigest(task.inputSHA256)
    && task.inputSHA256 == TaskInputDigest(lib, task.kind, task.args)
  }

  function TaskId(task: Task): string {
    task.id
  }

  function ArgsSize(task: Task): nat {
    |task.args|
  }

  predicate AcceptedTasks(lib: Library, tasks: seq<Task>) {
    && |tasks| <= MAX_TASKS_PER_RESPONSE
    && (forall t :: t in tasks ==> WellFormedTask(lib, t))
    && Distinct(TaskId, tasks)
    && Total(ArgsSize, tasks) <= MAX_TASK_ARGS_BYTES_PER_RESPONSE
  }

  method ValidateTasks(lib: Library, tasks: seq<Task>) returns (ok: bool)
    ensures ok <==> AcceptedTasks(lib, tasks)
  {
    if |tasks| > MAX_TASKS_PER_RESPONSE {
      return false;
    }
    ghost var valid := (t: Task) => WellFormedTask(lib, t);
    var seen := {};
    var totalArgs := 0;
    for n := 0 to |tasks|
      invariant UpTo(valid, tasks, n)
      invariant seen == KeySet(TaskId, tasks[..n])
      invariant Distinct(TaskId, tasks[..n])
      invariant totalArgs == Total(ArgsSize, tasks[..n]) <= MAX_TASK_ARGS_BYTES_PER_RESPONSE
    {
      var task := tasks[n];
      assert task in tasks;
      ExtendKeys(TaskId, tasks, n);
      ExtendTotal(ArgsSize, tasks, n);
      DistinctPrefix(TaskId, tasks, n + 1);
      PrefixTotal(ArgsSize, tasks, n + 1);
      var idOk := ValidTaskId(task.id);
      if !idOk || |task.id| > MAX_TASK_ID_BYTES {
        return false;
      }
      var kindOk := ValidToken(task.kind);
      if !kindOk || |task.kind| > MAX_TASK_KIND_BYTES {
        return false;
      }
      if TaskCapability(task.kind) == CAPABILITY_TASK_EXECUTION_V1 ||
         TaskCapability(task.kind) == CAPABILITY_TASK_EXPIRY_V1 {
        return false;
      }
      if task.notAfterMS < 0 {
        return false;
      }
      if |task.args| > MAX_TASK_ARGS_BYTES {
        return false;
      }
      if |task.args| > MAX_TASK_ARGS_BYTES_PER_RESPONSE - totalArgs {
        return false;
      }
      totalArgs := totalArgs + |task.args|;
      if !ValidDigest(task.inputSHA256) {
        return false;
      }
      var want := ComputeTaskInputSHA256(lib, task.kind, task.args);
      if task.inputSHA256 != want {
        return false;
      }
      if task.id in seen {
        return false;
      }
      seen := seen + {task.id};
    }
    assert tasks[..|tasks|] == tasks;
    UpToMeans(valid, tasks, |tasks|);
    return true;
  }

  lemma TaskOrderDoesNotMatter(lib: Library, a: seq<Task>, b: seq<Task>)
    requires multiset(a) == multiset(b) && AcceptedTasks(lib, a)
    ensures AcceptedTasks(lib, b)
  {
    SameMembers(a, b);
    DistinctPermuted(TaskId, a, b);
    TotalPermuted(ArgsSize, a, b);
  }

  /** Two accepted tasks with one digest are the same call, unless SHA-256 itself collides on their
      inputs. */
  lemma DigestsBindTasks(lib: Library, t1: Task, t2: Task)
    requires WellFormedTask(lib, t1) && WellFormedTask(lib, t2)
    requires t1.inputSHA256 == t2.inputSHA256
    ensures || (t1.kind == t2.kind && t1.args == t2.args)
            || (TaskInput(t1.kind, t1.args) != TaskInput(t2.kind, t2.args)
                && lib.sha256(TaskInput(t1.kind, t1.args)) == lib.sha256(TaskInput(t2.kind, t2.args)))
  {
    TokensArePlain(t1.kind);
    TokensArePlain(t2.kind);
    FramingIsInjective(t1.kind, t1.args, t2.kind, t2.args);
    EncodeThenDecode(lib.sha256(TaskInput(t1.kind, t1.args)));
    EncodeThenDecode(lib.sha256(TaskInput(t2.kind, t2.args)));
  }

  /** The control plane can issue any bounded call: with the digest it computes, it is accepted. */
  lemma ProducedTasksAreAccepted(lib: Library, id: string, kind: string, args: Bytes, notAfterMS: int64)
    requires LawfulHash(lib)
    requires BoundedId(id) && BoundedKind(kind) && |args| <= MAX_TASK_ARGS_BYTES && notAfterMS >= 0
    ensures AcceptedTasks(lib, [Task(id, kind, args, TaskInputDigest(lib, kind, args), notAfterMS)])
  {
    EncodedHashIsADigest(lib.sha256(TaskInput(kind, args)));
    var tasks := [Task(id, kind, args, TaskInputDigest(lib, kind, args), notAfterMS)];
    assert tasks[..0] == [];
    ExtendKeys(TaskId, tasks, 0);
    ExtendTotal(ArgsSize, tasks, 0);
    assert tasks[..1] == tasks;
  }

  /** The capabilities that must both be declared before an accepted kind is dispatched can be declared. */
  lemma AcceptedKindsHaveACapability(kind: string)
    requires BoundedKind(kind)
    ensures AcceptedCapabilities([CAPABILITY_TASK_EXECUTION_V1, TaskCapability(kind)])
  {
    var c := TaskCapability(kind);
    forall i | 1 <= i < |c|
      ensures TokenChar(c[i])
    {
      if i >= 6 {
        assert c[i] == kind[i - 5];
      }
    }
    assert IsToken(CAPABILITY_TASK_EXECUTION_V1);
    var two := [CAPABILITY_TASK_EXECUTION_V1, c];
    DistinctMeans(Self, two);
    assert Self(two[0]) != Self(two[1]);
  }

  // ---- what a list of results must be ----

  predicate BoundedError(lib: Library, error: string) {
    lib.validUtf8(error) && |error| <= MAX_TASK_ERROR_BYTES
  }

  /** A human diagnostic: not blank, and with no space around it. */
  predicate TrimmedError(lib: Library, error: string) {
    lib.trimSpace(error) != "" && lib.trimSpace(error) == error
  }

  /** Success carries no error; failure, known or indeterminate, carries a code, a diagnostic and no payload. */
  predicate DurableResult(lib: Library, r: TaskResult) {
    && BoundedId(r.id) && BoundedKind(r.kind)
    && r.notAfterMS >= 0
    && ValidDigest(r.inputSHA256)
    && |r.result| <= MAX_TASK_RESULT_BYTES
    && BoundedError(lib, r.error)
    && (if r.ok then !r.indeterminate && r.errorCode == "" && r.error == ""
        else IsToken(r.errorCode) && |r.errorCode| <= MAX_TASK_ERROR_CODE_BYTES &&
             TrimmedError(lib, r.error) && r.result == "")
  }

  /** The schema that predates kinds and digests. */
  predicate LegacyResult(lib: Library, r: TaskResult) {
    && r.kind == "" && r.inputSHA256 == "" && r.notAfterMS == 0 && r.errorCode == "" && !r.indeterminate
    && BoundedId(r.id)
    && |r.result| <= MAX_TASK_RESULT_BYTES
    && BoundedError(lib, r.error)
    && (if r.ok then r.error == "" else TrimmedError(lib, r.error))
  }

  function ResultId(r: TaskResult): string {
    r.id
  }

  function ResultSize(r: TaskResult): nat {
    |r.result|
  }

  predicate BoundedResults(results: seq<TaskResult>) {
    && |results| <= MAX_TASK_RESULTS_PER_REPORT
    && Distinct(ResultId, results)
    && Total(ResultSize, results) <= MAX_TASK_RESULT_BYTES_PER_REPORT
  }

  predicate AcceptedDurable(lib: Library, results: seq<TaskResult>) {
    BoundedResults(results) && forall r :: r in results ==> DurableResult(lib, r)
  }

  predicate AcceptedLegacy(lib: Library, results: seq<TaskResult>) {
    BoundedResults(results) && forall r :: r in results ==> LegacyResult(lib, r)
  }

  /** The part of the loop body that looks at one result alone. */
  method ValidResult(lib: Library, result: TaskResult) returns (ok: bool)
    ensures ok <==> DurableResult(lib, result)
  {
    var idOk := ValidTaskId(result.id);
    if !idOk || |result.id| > MAX_TASK_ID_BYTES {
      return false;
    }
    var kindOk := ValidToken(result.kind);
    if !kindOk || |result.kind| > MAX_TASK_KIND_BYTES {
      return false;
    }
    if TaskCapability(result.kind) == CAPABILITY_TASK_EXECUTION_V1 ||
       TaskCapability(result.kind) == CAPABILITY_TASK_EXPIRY_V1 {
      return false;
    }
    if result.notAfterMS < 0 {
      return false;
    }
    if !ValidDigest(result.inputSHA256) {
      return false;
    }
    if |result.result| > MAX_TASK_RESULT_BYTES {
      return false;
    }
    if !lib.validUtf8(result.error) || |result.error| > MAX_TASK_ERROR_BYTES {
      return false;
    }
    if result.ok {
      if result.indeterminate || result.errorCode != "" || result.error != "" {
        return false;
      }
    } else {
      var codeOk := ValidToken(result.errorCode);
      if !codeOk || |result.errorCode| > MAX_TASK_ERROR_CODE_BYTES {
        return false;
      }
      if lib.trimSpace(result.error) == "" || lib.trimSpace(result.error) != result.error {
        return false;
      }
      if |result.result| != 0 {
        return false;
      }
    }
    return true;
  }

  method ValidateTaskResults(lib: Library, results: seq<TaskResult>) returns (ok: bool)
    ensures ok <==> AcceptedDurable(lib, results)
  {
    if |results| > MAX_TASK_RESULTS_PER_REPORT {
      return false;
    }
    ghost var valid := (t: TaskResult) => DurableResult(lib, t);
    var seen := {};
    var totalResult := 0;
    for n := 0 to |results|
      invariant UpTo(valid, results, n)
      invariant seen == KeySet(ResultId, results[..n])
      invariant Distinct(ResultId, results[..n])
      invariant totalResult == Total(ResultSize, results[..n]) <= MAX_TASK_RESULT_BYTES_PER_REPORT
    {
      var result := results[n];
      assert result in results;
      ExtendKeys(ResultId, results, n);
      ExtendTotal(ResultSize, results, n);
      DistinctPrefix(ResultId, results, n + 1);
      PrefixTotal(ResultSize, results, n + 1);
      var resultOk := ValidResult(lib, result);
      if !resultOk {
        return false;
      }
      if |result.result| > MAX_TASK_RESULT_BYTES_PER_REPORT - totalResult {
        return false;
      }
      totalResult := totalResult + |result.result|;
      if result.id in seen {
        return false;
      }
      seen := seen + {result.id};
    }
    assert results[..|results|] == results;
    UpToMeans(valid, results, |results|);
    return true;
  }

  method ValidateLegacyTaskResults(lib: Library, results: seq<TaskResult>) returns (ok: bool)
    ensures ok <==> AcceptedLegacy(lib, results)
  {
    if |results| > MAX_TASK_RESULTS_PER_REPORT {
      return false;
    }
    ghost var valid := (t: TaskResult) => LegacyResult(lib, t);
    var seen := {};
    var totalResult := 0;
    for n := 0 to |results|
      invariant UpTo(valid, results, n)
      invariant seen == KeySet(ResultId, results[..n])
      invariant Distinct(ResultId, results[..n])
      invariant totalResult == Total(ResultSize, results[..n]) <= MAX_TASK_RESULT_BYTES_PER_REPORT
    {
      var result := results[n];
      assert result in results;
      ExtendKeys(ResultId, results, n);
      ExtendTotal(ResultSize, results, n);
      DistinctPrefix(ResultId, results, n + 1);
      PrefixTotal(ResultSize, results, n + 1);
      if result.kind != "" || result.inputSHA256 != "" || result.notAfterMS != 0 ||
         result.errorCode != "" || result.indeterminate {
        return false;
      }
      var idOk := ValidTaskId(result.id);
      if !idOk || |result.id| > MAX_TASK_ID_BYTES {
        return false;
      }
      if |result.result| > MAX_TASK_RESULT_BYTES || |result.result| > MAX_TASK_RESULT_BYTES_PER_REPORT - totalResult {
        return false;
      }
      totalResult := totalResult + |result.result|;
      if !lib.validUtf8(result.error) || |result.error| > MAX_TASK_ERROR_BYTES {
        return false;
      }
      if result.ok && result.error != "" {
        return false;
      }
      if !result.ok && (lib.trimSpace(result.error) == "" || lib.trimSpace(result.error) != result.error) {
        return false;
      }
      if result.id in seen {
        return false;
      }
      seen := seen + {result.id};
    }
    assert results[..|results|] == results;
    UpToMeans(valid, results, |results|);
    return true;
  }

  /** No result fits both schemas, so a list that is not empty is accepted under at most one. */
  lemma SchemasAreDisjoint(lib: Library, results: seq<TaskResult>)
    ensures AcceptedDurable(lib, results) && AcceptedLegacy(lib, results) ==> results == []
  {
    if results != [] {
      assert results[0] in results;
    }
  }

  lemma ResultOrderDoesNotMatter(lib: Library, a: seq<TaskResult>, b: seq<TaskResult>)
    requires multiset(a) == multiset(b)
    ensures AcceptedDurable(lib, a) ==> AcceptedDurable(lib, b)
    ensures AcceptedLegacy(lib, a) ==> AcceptedLegacy(lib, b)
  {
    SameMembers(a, b);
    TotalPermuted(ResultSize, a, b);
    if Distinct(ResultId, a) {
      DistinctPermuted(ResultId, a, b);
    }
  }

  // ---- the outbox ----

  /** All durable or all legacy. */
  predicate AcceptedOutbox(lib: Library, issues: seq<Issue>, results: seq<TaskResult>) {
    AcceptedIssues(lib, issues) && (AcceptedDurable(lib, results) || AcceptedLegacy(lib, results))
  }

  predicate LooksDurable(r: TaskResult) {
    r.kind != "" || r.inputSHA256 != "" || r.errorCode != "" || r.indeterminate
  }

  /** The schema of any one result settles that of the list. */
  lemma OneResultSettlesTheSchema(lib: Library, results: seq<TaskResult>, r: TaskResult)
    requires r in results
    ensures LooksDurable(r) ==> !AcceptedLegacy(lib, results)
    ensures !LooksDurable(r) ==> !AcceptedDurable(lib, results)
  {}

  /** Dispatching on the first result that looks durable, without looking at its deadline, decides
      the order-free all-or-nothing condition. */
  method ValidateOutbox(lib: Library, issues: seq<Issue>, results: seq<TaskResult>) returns (ok: bool)
    ensures ok <==> AcceptedOutbox(lib, issues, results)
  {
    ok := ValidateIssues(lib, issues);
    if !ok {
      return;
    }
    for n := 0 to |results|
      invariant n > 0 ==> !LooksDurable(results[0])
    {
      if LooksDurable(results[n]) {
        OneResultSettlesTheSchema(lib, results, results[n]);
        ok := ValidateTaskResults(lib, results);
        return;
      }
    }
    if results != [] {
      OneResultSettlesTheSchema(lib, results, results[0]);
    }
    ok := ValidateLegacyTaskResults(lib, results);
  }
}
