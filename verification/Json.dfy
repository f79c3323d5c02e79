/** JSON as a tree of values. Lexing and number formats are not modelled; numbers are integers.
    A Go map becomes an object named by text, holding the last of the members of one name, which is the
    one a decoder keeps. A Go struct becomes an object recorded by what stands
    under each tag the struct declares, with None where the member is absent; the order of members,
    which encoding/json fixes, is left out. */
module Json {
  import opened Wrappers
  import opened HostSample

  type Field = Option<Json>

  datatype Json =
    | JNull
    | JBool(b: bool)
    | JNumber(n: int)
    | JString(s: string)
    | JBase64(bytes: string)     // a string holding the base64 text of these bytes
    | JArray(items: seq<Json>)
    | JMap(entries: map<string, Json>)
    | JVersion(epoch: Field, version: Field)
    | JStreamState(applied: Field, etag: Field)
    | JStatus(
        stream: Field,
        key: Field,
        state: Field,
        sinceVersion: Field,
        firstFailedAtMS: Field,
        issueCode: Field,
        blockedOn: Field)
    | JListener(key: Field, present: Field, upBytes: Field, downBytes: Field, counterEpoch: Field)
    | JClient(
        key: Field,
        present: Field,
        upBytes: Field,
        downBytes: Field,
        counterEpoch: Field,
        gate: Field,
        liveIPs: Field)
    | JSubject(subject: Field, ipLocalCount: Field, ipWouldDenySinceLastReport: Field)
    | JHost(texts: seq<HostText>, load: seq<real>, figures: string)
    | JIssue(code: Field, key: Field, detail: Field)
    | JResult(
        id: Field,
        kind: Field,
        inputSHA256: Field,
        notAfterMS: Field,
        ok: Field,
        indeterminate: Field,
        result: Field,
        errorCode: Field,
        error: Field)
    | JReport(
        agentId: Field,
        protocolVersion: Field,
        reportedAtMS: Field,
        agentVersion: Field,
        coreEngine: Field,
        coreVersion: Field,
        coreState: Field,
        capabilities: Field,
        partial: Field,
        have: Field,
        objects: Field,
        listenerCounters: Field,
        clients: Field,
        subjects: Field,
        host: Field,
        issues: Field,
        taskResults: Field)

  /** A field under omitempty. */
  function OmitEmpty(present: bool, value: Json): Field {
    if present then Some(value) else None
  }

  /** To the decoder an absent member and a null one are alike: both leave the zero value. */
  function OrNull(field: Field): Json {
    if field.Some? then field.value else JNull
  }
}
