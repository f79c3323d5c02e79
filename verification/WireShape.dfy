/** What the two shapes of a report put on the wire, member by member: what a reader sees that does not
    decode, and what decoding can no longer tell apart. */
module WireShape {
  import opened Wrappers
  import opened Platform
  import opened Hex
  import opened Issues
  import opened Tasks
  import opened ObjectState
  import opened Json
  import opened Report
  import opened ReportJson

  /** A list that is there, with an item for every element. */
  predicate Listed<T>(field: Field, elems: seq<T>, enc: T -> Json) {
    && field.Some? && field.value.JArray?
    && |field.value.items| == |elems|
    && forall i :: 0 <= i < |elems| ==> field.value.items[i] == enc(elems[i])
  }

  /** A partial report leaves its enumerations out of the document altogether, null included; a full report
      lists the objects, listeners and clients even when it has none. Either says which it is. */
  lemma EnumerationsAreListedOrAbsent(lib: Library, r: NodeReport)
    requires MarshalReport(lib, r).Some?
    ensures var j := MarshalReport(lib, r).value;
            && j.JReport?
            && j.partial == Some(JBool(r.partial))
            && (if r.partial then
                  j.objects == j.listenerCounters == j.clients == j.subjects == None
                else
                  && Listed(j.objects, r.objects.Elements(), StatusEncoder(lib))
                  && Listed(j.listenerCounters, r.listenerCounters.Elements(), ListenerEncoder(lib))
                  && Listed(j.clients, r.clients.Elements(), ClientEncoder(lib)))
  {}

  /** A document that does not mention the flag is read as a full report. */
  lemma UnflaggedReportsAreFull(j: Json)
    requires j.JReport? && DecodeReport(j).Some? && j.partial.None?
    ensures !DecodeReport(j).value.partial
  {}

  // ---- members that may be absent ----

  /** A list under omitempty is there exactly when it has elements, and then lists them. */
  predicate ListedIfAny<T>(field: Field, elems: seq<T>, enc: T -> Json) {
    if elems == [] then field == None else Listed(field, elems, enc)
  }

  predicate SaysIfAny(lib: Library, field: Field, text: string) {
    field == if text == "" then None else Some(JString(lib.cleanUtf8(text)))
  }

  predicate CountsIfAny(field: Field, n: int) {
    field == if n == 0 then None else Some(JNumber(n))
  }

  /** The members of either shape that a report may leave out are left out exactly when they say nothing;
      those it must have are there. */
  lemma EmptyMembersAreAbsent(lib: Library, r: NodeReport)
    requires MarshalReport(lib, r).Some?
    ensures var j := MarshalReport(lib, r).value;
            && j.JReport?
            && j.agentId == Some(JString(lib.cleanUtf8(r.agentId)))
            && CountsIfAny(j.protocolVersion, r.protocolVersion) && CountsIfAny(j.reportedAtMS, r.reportedAtMS)
            && SaysIfAny(lib, j.agentVersion, r.agentVersion) && SaysIfAny(lib, j.coreEngine, r.coreEngine)
            && SaysIfAny(lib, j.coreVersion, r.coreVersion) && SaysIfAny(lib, j.coreState, r.coreState)
            && j.have.Some? && j.have.value.JMap?
            && (j.host.Some? <==> r.host.Some?)
  {}

  lemma EmptyListsAreAbsent(lib: Library, r: NodeReport)
    requires MarshalReport(lib, r).Some?
    ensures var j := MarshalReport(lib, r).value;
            && j.JReport?
            && ListedIfAny(j.capabilities, r.capabilities, TextEncoder(lib))
            && ListedIfAny(j.issues, r.issues, IssueEncoder(lib))
            && ListedIfAny(j.taskResults, r.taskResults, ResultEncoder(lib))
            && (!r.partial ==> ListedIfAny(j.subjects, r.subjects, SubjectEncoder(lib)))
  {}

  // ---- the items of the lists ----

  lemma StateWordsAreClean(lib: Library, word: string)
    requires LawfulText(lib) && word in {"applied", "pending", "rejected", "blocked"}
    ensures lib.cleanUtf8(word) == word
  {
    assert Ascii(word);
  }

  lemma GateWordsAreClean(lib: Library, word: string)
    requires LawfulText(lib) && word in {"unconfigured", "armed", "closed"}
    ensures lib.cleanUtf8(word) == word
  {
    assert Ascii(word);
  }

  /** The word for a state a reader sees. */
  function Word(state: ObjectState): string {
    match state
    case ObjectApplied => "applied"
    case ObjectPending => "pending"
    case ObjectRejected => "rejected"
    case ObjectBlocked => "blocked"
    case ObjectUnset => ""
    case ObjectUnknown(text) => text
  }

  /** An object shows its state in words, its version always, and of the rest what there is. */
  lemma ObjectsOnTheWire(lib: Library, o: ObjectStatus)
    requires LawfulText(lib)
    ensures var j := EncodeStatus(lib, o);
            && j.stream == Some(JString(lib.cleanUtf8(o.stream))) && j.key == Some(JString(lib.cleanUtf8(o.key)))
            && j.state == Some(JString(lib.cleanUtf8(Word(o.state))))
            && (!o.state.ObjectUnknown? ==> j.state == Some(JString(Word(o.state))))
            && j.sinceVersion ==
               Some(JVersion(Some(JNumber(o.sinceVersion.epoch)), Some(JNumber(o.sinceVersion.version))))
            && CountsIfAny(j.firstFailedAtMS, o.firstFailedAtMS)
            && SaysIfAny(lib, j.issueCode, o.issueCode) && SaysIfAny(lib, j.blockedOn, o.blockedOn)
  {
    if o.state.ObjectUnset? {
      assert Ascii("");
    } else if !o.state.ObjectUnknown? {
      StateWordsAreClean(lib, Word(o.state));
    }
  }

  /** Counters show both directions and their epoch even when they are zero. */
  lemma CountersOnTheWire(lib: Library, l: ListenerCounters, c: ClientCounters, s: SubjectObservation)
    requires LawfulText(lib)
    ensures var j := EncodeListener(lib, l);
            && j.key == Some(JString(lib.cleanUtf8(l.key)))
            && j.upBytes == Some(JNumber(l.upBytes)) && j.downBytes == Some(JNumber(l.downBytes))
            && j.counterEpoch == Some(JNumber(l.counterEpoch)) && j.present == Some(JBool(l.present))
    ensures var j := EncodeClient(lib, c);
            && j.key == Some(JString(lib.cleanUtf8(c.key)))
            && j.upBytes == Some(JNumber(c.upBytes)) && j.downBytes == Some(JNumber(c.downBytes))
            && j.counterEpoch == Some(JNumber(c.counterEpoch)) && j.present == Some(JBool(c.present))
            && (c.gate == GateUnconfigured ==> j.gate == Some(JString("unconfigured")))
            && (c.gate == GateArmed ==> j.gate == Some(JString("armed")))
            && (c.gate == GateClosed ==> j.gate == Some(JString("closed")))
            && ListedIfAny(j.liveIPs, c.liveIPs, TextEncoder(lib))
    ensures var j := EncodeSubject(lib, s);
            && j.subject == Some(JString(lib.cleanUtf8(s.subject)))
            && j.ipLocalCount == Some(JNumber(s.ipLocalCount))
            && j.ipWouldDenySinceLastReport == Some(JNumber(s.ipWouldDenySinceLastReport))
  {
    GateWordsAreClean(lib, "unconfigured");
    GateWordsAreClean(lib, "armed");
    GateWordsAreClean(lib, "closed");
  }

  /** Every stream shows its version and digest, set or not. */
  lemma HeldStatesOnTheWire(lib: Library, s: StreamState)
    ensures var j := EncodeStreamState(lib, s);
            && j.applied == Some(JVersion(Some(JNumber(s.applied.epoch)), Some(JNumber(s.applied.version))))
            && j.etag == Some(JString(lib.cleanUtf8(s.etag)))
  {}

  /** A result always says whether it succeeded; a payload, an error and the rest only when there is one. */
  lemma ResultsOnTheWire(lib: Library, r: TaskResult, i: Issue)
    ensures var j := EncodeResult(lib, r);
            && j.id == Some(JString(lib.cleanUtf8(r.id))) && j.kind == Some(JString(lib.cleanUtf8(r.kind)))
            && j.inputSHA256 == Some(JString(lib.cleanUtf8(r.inputSHA256)))
            && j.ok == Some(JBool(r.ok))
            && (j.indeterminate == if r.indeterminate then Some(JBool(true)) else None)
            && (j.result == if r.result == "" then None else Some(JBase64(r.result)))
            && CountsIfAny(j.notAfterMS, r.notAfterMS)
            && SaysIfAny(lib, j.errorCode, r.errorCode) && SaysIfAny(lib, j.error, r.error)
    ensures var j := EncodeIssue(lib, i);
            && j.code == Some(JString(lib.cleanUtf8(i.code)))
            && SaysIfAny(lib, j.key, i.key) && SaysIfAny(lib, j.detail, i.detail)
  {}
}
