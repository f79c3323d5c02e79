/** One object's convergence: the transition function, the timeout, and the wire validator. */
module ObjectState {
  import opened Wrappers
  import opened Ints
  import opened Limits
  import opened Platform
  import opened Versions
  import opened Keys
  import opened Issues

  const STREAM_CONFIG := "config"
  const STREAM_ROSTER := "roster"
  const STREAM_DIRECTIVES := "directives"

  /** `ObjectUnset` is Go's empty string, and `ObjectUnknown` any other text that names no state. */
  datatype ObjectState =
    | ObjectUnset
    | ObjectApplied
    | ObjectPending
    | ObjectRejected
    | ObjectBlocked
    | ObjectUnknown(text: string)

  function StateText(s: ObjectState): string {
    match s
    case ObjectUnset => ""
    case ObjectApplied => "applied"
    case ObjectPending => "pending"
    case ObjectRejected => "rejected"
    case ObjectBlocked => "blocked"
    case ObjectUnknown(text) => text
  }

  datatype ObjectStatus = ObjectStatus(
    stream: string,
    key: string,
    state: ObjectState,
    sinceVersion: Version,
    firstFailedAtMS: int64,
    issueCode: string,
    blockedOn: string
  )

  datatype ObjectEvent =
    | EventAccepted
    | EventApplied
    | EventRetryableFailure
    | EventRejected
    | EventDependencyBlocked
    | EventDependencyReady
    | EventUnknown(text: string)

  datatype Transition =
    Transition(event: ObjectEvent, version: Version, atMS: int64, issueCode: string, blockedOn: string)

  // ---- the transition table ----

  /** The accepted version is one the object does not hold yet. */
  predicate Newly(s: ObjectStatus, tr: Transition) {
    tr.event.EventAccepted? && s.sinceVersion != tr.version
  }

  /** When a transition is taken; it is an error otherwise. */
  predicate Permitted(s: ObjectStatus, tr: Transition) {
    match tr.event
    case EventAccepted =>
      && tr.version.Committed()
      && (s.sinceVersion == tr.version || s.sinceVersion.Zero() || tr.version.Newer(s.sinceVersion))
    case EventApplied => s.state.ObjectPending? || s.state.ObjectBlocked? || s.state.ObjectApplied?
    case EventRetryableFailure => !s.state.ObjectRejected? && s.state != ObjectUnset
    case EventRejected =>
      (s.state.ObjectPending? || s.state.ObjectRejected? || s.state.ObjectApplied?) && tr.issueCode != ""
    case EventDependencyBlocked =>
      (s.state.ObjectPending? || s.state.ObjectApplied? || s.state.ObjectBlocked?) && tr.blockedOn != ""
    case EventDependencyReady => s.state.ObjectBlocked?
    case EventUnknown(_) => false
  }

  function FirstNonZero(current: int64, candidate: int64): int64 {
    if current != 0 then current else candidate
  }

  /** The state, failure timer, issue and dependency a permitted transition leaves. */
  function Effect(s: ObjectStatus, tr: Transition): ObjectStatus {
    var failedAt := FirstNonZero(s.firstFailedAtMS, tr.atMS);
    match tr.event
    case EventAccepted =>
      if Newly(s, tr) then ObjectStatus(s.stream, s.key, ObjectPending, tr.version, tr.atMS, "", "") else s
    case EventApplied => ObjectStatus(s.stream, s.key, ObjectApplied, s.sinceVersion, 0, "", "")
    case EventRetryableFailure =>
      ObjectStatus(s.stream, s.key, ObjectPending, s.sinceVersion, failedAt, s.issueCode, "")
    case EventRejected => ObjectStatus(s.stream, s.key, ObjectRejected, s.sinceVersion, failedAt, tr.issueCode, "")
    case EventDependencyBlocked =>
      ObjectStatus(s.stream, s.key, ObjectBlocked, s.sinceVersion, failedAt, "", tr.blockedOn)
    case EventDependencyReady =>
      ObjectStatus(s.stream, s.key, ObjectPending, s.sinceVersion, s.firstFailedAtMS, s.issueCode, "")
    case EventUnknown(_) => s
  }

  /** The status after a transition; an error leaves it as it was. */
  function Advance(s: ObjectStatus, tr: Transition): ObjectStatus {
    if Permitted(s, tr) then Effect(s, tr) else s
  }

  // ---- AdvanceObject, field by field, against the table ----

  method AcceptVersion(status: ObjectStatus, tr: Transition) returns (current: ObjectStatus, ok: bool)
    requires tr.event == EventAccepted
    ensures ok == Permitted(status, tr)
    ensures current == Advance(status, tr)
  {
    current := status;
    if !tr.version.Committed() {
      return current, false;
    }
    if current.sinceVersion == tr.version {
      return current, true;
    }
    if !current.sinceVersion.Zero() && !tr.version.Newer(current.sinceVersion) {
      return current, false;
    }
    current := current.(state := ObjectPending);
    current := current.(sinceVersion := tr.version);
    current := current.(firstFailedAtMS := tr.atMS);
    current := current.(issueCode := "");
    current := current.(blockedOn := "");
    ok := true;
  }

  method AdvanceObject(status: ObjectStatus, tr: Transition) returns (current: ObjectStatus, ok: bool)
    ensures ok == Permitted(status, tr)
    ensures current == Advance(status, tr)
  {
    current := status;
    match tr.event {
      case EventAccepted =>
        current, ok := AcceptVersion(status, tr);
        return;
      case EventApplied =>
        if current.state == ObjectRejected {
          return current, false;
        }
        if current.state != ObjectPending && current.state != ObjectBlocked && current.state != ObjectApplied {
          return current, false;
        }
        current := current.(state := ObjectApplied);
        current := current.(firstFailedAtMS := 0);
        current := current.(issueCode := "");
        current := current.(blockedOn := "");
      case EventRetryableFailure =>
        if current.state == ObjectRejected || current.state == ObjectUnset {
          return current, false;
        }
        current := current.(state := ObjectPending);
        current := current.(blockedOn := "");
        current := current.(firstFailedAtMS := FirstNonZero(current.firstFailedAtMS, tr.atMS));
      case EventRejected =>
        if current.state != ObjectPending && current.state != ObjectRejected && current.state != ObjectApplied {
          return current, false;
        }
        if tr.issueCode == "" {
          return current, false;
        }
        current := current.(state := ObjectRejected);
        current := current.(firstFailedAtMS := FirstNonZero(current.firstFailedAtMS, tr.atMS));
        current := current.(issueCode := tr.issueCode);
        current := current.(blockedOn := "");
      case EventDependencyBlocked =>
        if current.state != ObjectPending && current.state != ObjectApplied && current.state != ObjectBlocked {
          return current, false;
        }
        if tr.blockedOn == "" {
          return current, false;
        }
        current := current.(state := ObjectBlocked);
        current := current.(firstFailedAtMS := FirstNonZero(current.firstFailedAtMS, tr.atMS));
        current := current.(issueCode := "");
        current := current.(blockedOn := tr.blockedOn);
      case EventDependencyReady =>
        if current.state != ObjectBlocked {
          return current, false;
        }
        current := current.(state := ObjectPending);
        current := current.(blockedOn := "");
      case EventUnknown(_) =>
        return current, false;
    }
    ok := true;
  }

  // ---- TimeoutIssue ----

  const NANOS_PER_MS := 1_000_000

  /** time.Duration counts nanoseconds in an int64, and Time.Sub saturates at its ends. */
  function SaturatingSub(now: int, first: int): int64 {
    var d := now - first;
    if d > MAX_INT64 then MAX_INT64 else if d < MIN_INT64 then MIN_INT64 else d
  }

  const ISSUE_OBJECT_PENDING_TIMEOUT := "object_pending_timeout"
  const ISSUE_OBJECT_REJECTED_TIMEOUT := "object_rejected_timeout"

  datatype TimeoutVerdict = BadTimeout | Quiet | Alarm(issue: Issue)

  function TimeoutCode(state: ObjectState): string {
    if state == ObjectRejected then ISSUE_OBJECT_REJECTED_TIMEOUT else ISSUE_OBJECT_PENDING_TIMEOUT
  }

  function TimeoutDetail(lib: Library, status: ObjectStatus): string {
    status.stream + " object has remained " + StateText(status.state)
    + " since " + lib.formatTime(status.firstFailedAtMS)
  }

  /** `now` is nanoseconds since the Unix epoch. */
  function TimeoutIssue(lib: Library, status: ObjectStatus, now: int, timeout: int64): TimeoutVerdict {
    if timeout <= 0 then BadTimeout
    else if status.state != ObjectPending && status.state != ObjectRejected then Quiet
    else if status.firstFailedAtMS <= 0 then Quiet
    else
      var first := status.firstFailedAtMS * NANOS_PER_MS;
      if now < first || SaturatingSub(now, first) < timeout then Quiet
      else Alarm(Issue(TimeoutCode(status.state), status.key, TimeoutDetail(lib, status)))
  }

  /** Only a timeout that is not positive is an error. An alarm is raised exactly when a pending or rejected
      object has been failing for the whole timeout; neither the clock before the failure nor the
      saturating subtraction changes that. In every other case there is neither. */
  lemma TimeoutIsExact(lib: Library, status: ObjectStatus, now: int, timeout: int64)
    ensures TimeoutIssue(lib, status, now, timeout).BadTimeout? <==> timeout <= 0
    ensures TimeoutIssue(lib, status, now, timeout).Alarm? <==>
            && timeout > 0
            && (status.state == ObjectPending || status.state == ObjectRejected)
            && status.firstFailedAtMS > 0
            && now - status.firstFailedAtMS * NANOS_PER_MS >= timeout
  {}

  /** What the issue of an alarm says. */
  lemma AlarmsNameTheObject(lib: Library, status: ObjectStatus, now: int, timeout: int64)
    requires TimeoutIssue(lib, status, now, timeout).Alarm?
    ensures var issue := TimeoutIssue(lib, status, now, timeout).issue;
            var since := lib.formatTime(status.firstFailedAtMS);
            && issue.key == status.key
            && (status.state == ObjectPending ==>
                issue.code == "object_pending_timeout" &&
                issue.detail == status.stream + " object has remained " + "pending" + " since " + since)
            && (status.state == ObjectRejected ==>
                issue.code == "object_rejected_timeout" &&
                issue.detail == status.stream + " object has remained " + "rejected" + " since " + since)
  {}

  // ---- validateReportedObject ----

  function KeyKindOf(stream: string): Option<KeyKind> {
    if stream == STREAM_CONFIG then Some(ListenerKey)
    else if stream == STREAM_ROSTER then Some(ClientKey)
    else None
  }

  predicate ValidateReportedObject(lib: Library, status: ObjectStatus) {
    if KeyKindOf(status.stream).None? then false
    else if RowId(KeyKindOf(status.stream).value, status.key).None? then false
    else if !status.sinceVersion.Committed() then false
    else if status.firstFailedAtMS < 0 then false
    else if !lib.validUtf8(status.issueCode) || |status.issueCode| > MAX_ISSUE_CODE_BYTES then false
    else if status.blockedOn != "" && (!lib.validUtf8(status.blockedOn) || |status.blockedOn| > MAX_ISSUE_KEY_BYTES)
      then false
    else if status.blockedOn != "" && RowId(ListenerKey, status.blockedOn).None? then false
    else
      match status.state
      case ObjectApplied => !(status.firstFailedAtMS != 0 || status.issueCode != "" || status.blockedOn != "")
      case ObjectPending => !(status.firstFailedAtMS == 0 || status.issueCode != "" || status.blockedOn != "")
      case ObjectRejected => !(status.firstFailedAtMS == 0 || status.issueCode == "" || status.blockedOn != "")
      case ObjectBlocked => !(status.firstFailedAtMS == 0 || status.issueCode != "" || status.blockedOn == "")
      case _ => false
  }
}
