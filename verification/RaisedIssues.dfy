/** The issues that the convergence rules raise: the validator of the outbox accepts them, as long as
    there are not too many. */
module RaisedIssues {
  import opened Wrappers
  import opened Ints
  import opened Limits
  import opened Lists
  import opened Platform
  import opened Versions
  import opened Keys
  import opened Issues
  import opened ObjectState
  import opened Attachment
  import opened Report

  // ---- short ASCII texts ----

  predicate Short(s: string, n: nat) {
    Ascii(s) && |s| <= n
  }

  lemma ShortConcat(a: string, m: nat, b: string, n: nat)
    requires Short(a, m) && Short(b, n)
    ensures Short(a + b, m + n)
  {
    AsciiConcat(a, b);
  }

  lemma DecimalIsShort(n: nat)
    requires n < TWO_TO_THE_64
    ensures Short(Decimal(n), 20)
  {
    DecimalRoundTrip(n);
    assert Power10(20) == 100_000_000_000_000_000_000 by {
      assert Power10(5) == 100_000;
      assert Power10(10) == 10_000_000_000;
      assert Power10(15) == 1_000_000_000_000_000;
    }
    DecimalLength(n, 20);
  }

  lemma VersionIsShort(v: Version)
    ensures Short(VersionText(v), 41)
  {
    DecimalIsShort(v.epoch);
    DecimalIsShort(v.version);
    ShortConcat(Decimal(v.epoch), 20, ":", 1);
    ShortConcat(Decimal(v.epoch) + ":", 21, Decimal(v.version), 20);
  }

  /** The text of a version names that version and no other. */
  lemma VersionTextNames(v: Version, epoch: uint64, version: uint64)
    ensures VersionText(v) == Decimal(epoch) + ":" + Decimal(version) <==> v == Version(epoch, version)
  {
    DecimalIsShort(epoch);
    DecimalIsShort(v.epoch);
    DecimalRoundTrip(epoch);
    DecimalRoundTrip(version);
    DecimalRoundTrip(v.epoch);
    DecimalRoundTrip(v.version);
    if VersionText(v) == Decimal(epoch) + ":" + Decimal(version) {
      SeparatorSplits(':', Decimal(v.epoch), Decimal(v.version), Decimal(epoch), Decimal(version));
    }
  }

  lemma ShortFields(lib: Library, issue: Issue)
    requires AsciiIsUtf8(lib)
    requires issue.code != "" && Short(issue.code, 128) && Short(issue.key, 512) && Short(issue.detail, 4096)
    ensures WellFormedIssue(lib, issue)
  {}

  // ---- timeouts ----

  lemma StatePhraseIsShort(state: ObjectState)
    requires state.ObjectPending? || state.ObjectRejected?
    ensures Short(StateText(state), 8) && Short(TimeoutCode(state), 32)
  {}

  lemma StreamIsShort(stream: string)
    requires KeyKindOf(stream).Some?
    ensures Short(stream, 6) && Short(" object has remained ", 21) && Short(" since ", 7)
  {}

  lemma TimeoutDetailIsShort(lib: Library, s: ObjectStatus)
    requires LawfulTime(lib) && Short(s.stream, 6) && Short(StateText(s.state), 8)
    requires Short(" object has remained ", 21) && Short(" since ", 7)
    ensures Short(TimeoutDetail(lib, s), 106)
  {
    var a := s.stream + " object has remained ";
    var b := a + StateText(s.state);
    var c := b + " since ";
    ShortConcat(s.stream, 6, " object has remained ", 21);
    ShortConcat(a, 27, StateText(s.state), 8);
    ShortConcat(b, 35, " since ", 7);
    ShortConcat(c, 42, lib.formatTime(s.firstFailedAtMS), 64);
  }

  lemma AcceptedObjectIsShort(lib: Library, s: ObjectStatus)
    requires ValidateReportedObject(lib, s)
    ensures KeyKindOf(s.stream).Some? && Short(s.key, 23)
  {
    KeysAreShortAscii(KeyKindOf(s.stream).value, s.key);
  }

  /** The timeout of an accepted object raises a well-formed issue. */
  lemma TimeoutsAreWellFormed(lib: Library, s: ObjectStatus, now: int, timeout: int64)
    requires AsciiIsUtf8(lib) && LawfulTime(lib) && ValidateReportedObject(lib, s)
    requires TimeoutIssue(lib, s, now, timeout).Alarm?
    ensures WellFormedIssue(lib, TimeoutIssue(lib, s, now, timeout).issue)
  {
    AcceptedObjectIsShort(lib, s);
    StatePhraseIsShort(s.state);
    StreamIsShort(s.stream);
    TimeoutDetailIsShort(lib, s);
    ShortFields(lib, Issue(TimeoutCode(s.state), s.key, TimeoutDetail(lib, s)));
  }

  // ---- attachments ----

  lemma PhrasesAreShort()
    ensures Short("listener ", 9) && Short(" requires config ", 17) && Short("; agent has ", 12)
    ensures Short(" after ", 7) && Short(" rounds", 7)
  {}

  lemma AbsentPhraseIsShort()
    ensures Short(" is absent after config versions closed", 39)
  {}

  lemma AheadDetailIsShort(input: Input)
    requires Short(input.listenerKey, 23) && input.aheadRounds >= 0
    ensures Short(AheadDetail(input), 200)
  {
    PhrasesAreShort();
    VersionIsShort(input.rosterMinConfig);
    VersionIsShort(input.appliedConfig);
    DecimalIsShort(input.aheadRounds);
    var a := "listener " + input.listenerKey;
    var b := a + " requires config ";
    var c := b + VersionText(input.rosterMinConfig);
    var d := c + "; agent has ";
    var e := d + VersionText(input.appliedConfig);
    var f := e + " after ";
    var g := f + FormatInt(input.aheadRounds);
    ShortConcat("listener ", 9, input.listenerKey, 23);
    ShortConcat(a, 32, " requires config ", 17);
    ShortConcat(b, 49, VersionText(input.rosterMinConfig), 41);
    ShortConcat(c, 90, "; agent has ", 12);
    ShortConcat(d, 102, VersionText(input.appliedConfig), 41);
    ShortConcat(e, 143, " after ", 7);
    ShortConcat(f, 150, FormatInt(input.aheadRounds), 20);
    ShortConcat(g, 170, " rounds", 7);
  }

  lemma AbsentDetailIsShort(input: Input)
    requires Short(input.listenerKey, 23)
    ensures Short(AbsentDetail(input), 71)
  {
    PhrasesAreShort();
    AbsentPhraseIsShort();
    ShortConcat("listener ", 9, input.listenerKey, 23);
    ShortConcat("listener " + input.listenerKey, 32, " is absent after config versions closed", 39);
  }

  lemma AheadCodeIsShort()
    ensures Short(ISSUE_ROSTER_AHEAD_OF_CONFIG, 32)
  {}

  lemma AbsentCodeIsShort()
    ensures Short(ISSUE_ATTACHMENT_UNKNOWN_LISTENER, 32)
  {}

  predicate CanonicalKeys(input: Input) {
    RowId(ClientKey, input.clientKey).Some? && RowId(ListenerKey, input.listenerKey).Some?
  }

  lemma CanonicalKeysAreShort(input: Input)
    requires CanonicalKeys(input)
    ensures Short(input.clientKey, 23) && Short(input.listenerKey, 23)
  {
    KeysAreShortAscii(ClientKey, input.clientKey);
    KeysAreShortAscii(ListenerKey, input.listenerKey);
  }

  function AttachmentIssue(input: Input): Option<Issue> {
    var decision :- EvaluateAttachment(input);
    decision.issue
  }

  /** The two issues an attachment can raise. */
  lemma AttachmentIssueIs(input: Input)
    requires AttachmentIssue(input).Some?
    ensures input.aheadRounds >= 0
    ensures AttachmentIssue(input).value == Issue(ISSUE_ROSTER_AHEAD_OF_CONFIG, input.clientKey, AheadDetail(input))
            || AttachmentIssue(input).value ==
               Issue(ISSUE_ATTACHMENT_UNKNOWN_LISTENER, input.clientKey, AbsentDetail(input))
  {}

  /** And an attachment between two rows raises none but well-formed issues. */
  lemma AttachmentIssuesAreWellFormed(lib: Library, input: Input)
    requires AsciiIsUtf8(lib) && CanonicalKeys(input) && AttachmentIssue(input).Some?
    ensures WellFormedIssue(lib, AttachmentIssue(input).value)
  {
    CanonicalKeysAreShort(input);
    AttachmentIssueIs(input);
    AheadCodeIsShort();
    AbsentCodeIsShort();
    AheadDetailIsShort(input);
    AbsentDetailIsShort(input);
    ShortFields(lib, AttachmentIssue(input).value);
  }

  // ---- all that one round raises ----

  function TimeoutOf(lib: Library, now: int, timeout: int64): ObjectStatus -> Option<Issue> {
    (s: ObjectStatus) => match TimeoutIssue(lib, s, now, timeout)
      case Alarm(issue) => Some(issue)
      case _ => None
  }

  function AttachmentName(input: Input): (string, string) {
    (input.clientKey, input.listenerKey)
  }

  lemma TimeoutsAreApart(lib: Library, now: int, timeout: int64, a: ObjectStatus, b: ObjectStatus)
    requires ValidateReportedObject(lib, a) && ValidateReportedObject(lib, b)
    ensures GivesApart(TimeoutOf(lib, now, timeout), ObjectIdentity, IssueIdentity, a, b)
  {
    if a.key == b.key {
      KeysIdentifyRows(KeyKindOf(a.stream).value, KeyKindOf(b.stream).value, a.key, b.key);
    }
  }

  lemma KeysHaveNoSpace(kind: KeyKind, s: string)
    requires RowId(kind, s).Some?
    ensures ' ' !in s
  {
    RowIdAcceptsCanonicalDecimals(kind, s);
    assert s == s[..4] + s[4..] && s[..4] == kind.Prefix();
    assert ' ' !in kind.Prefix();
    assert forall i :: 0 <= i < |s[4..]| ==> IsDigit(s[4..][i]);
  }

  /** The detail goes on after the listener's key with a space. */
  function AheadTail(input: Input): string {
    "requires config " + VersionText(input.rosterMinConfig)
    + "; agent has " + VersionText(input.appliedConfig) + " after " + FormatInt(input.aheadRounds) + " rounds"
  }

  lemma AheadDetailSplits(input: Input)
    ensures AheadDetail(input) == "listener " + (input.listenerKey + [' '] + AheadTail(input))
  {
    assert " requires config " == [' '] + "requires config ";
  }

  lemma SamePrefix(p: string, a: string, b: string)
    requires p + a == p + b
    ensures a == b
  {
    assert a == (p + a)[|p|..] && b == (p + b)[|p|..];
  }

  lemma SameEnds(p: string, a: string, b: string, q: string)
    requires p + a + q == p + b + q
    ensures a == b
  {
    assert |p + a + q| == |p| + |a| + |q| && |p + b + q| == |p| + |b| + |q|;
    assert a == (p + a + q)[|p|..|p| + |a|] && b == (p + b + q)[|p|..|p| + |b|];
  }

  lemma SameDetailSameListener(a: Input, b: Input)
    requires ' ' !in a.listenerKey && ' ' !in b.listenerKey
    ensures AheadDetail(a) == AheadDetail(b) ==> a.listenerKey == b.listenerKey
    ensures AbsentDetail(a) == AbsentDetail(b) ==> a.listenerKey == b.listenerKey
  {
    AheadDetailSplits(a);
    AheadDetailSplits(b);
    if AheadDetail(a) == AheadDetail(b) {
      SamePrefix("listener ", a.listenerKey + [' '] + AheadTail(a), b.listenerKey + [' '] + AheadTail(b));
      SeparatorSplits(' ', a.listenerKey, AheadTail(a), b.listenerKey, AheadTail(b));
    }
    if AbsentDetail(a) == AbsentDetail(b) {
      SameEnds("listener ", a.listenerKey, b.listenerKey, " is absent after config versions closed");
    }
  }

  lemma CodesDiffer()
    ensures ISSUE_ROSTER_AHEAD_OF_CONFIG[0] == 'r' && ISSUE_ATTACHMENT_UNKNOWN_LISTENER[0] == 'a'
    ensures ISSUE_OBJECT_PENDING_TIMEOUT[0] == 'o' && ISSUE_OBJECT_REJECTED_TIMEOUT[0] == 'o'
  {}

  lemma AttachmentsAreApart(a: Input, b: Input)
    requires CanonicalKeys(a) && CanonicalKeys(b)
    ensures GivesApart(AttachmentIssue, AttachmentName, IssueIdentity, a, b)
  {
    if AttachmentIssue(a).Some? && AttachmentIssue(b).Some? && AttachmentIssue(a) == AttachmentIssue(b) {
      AttachmentIssueIs(a);
      AttachmentIssueIs(b);
      CodesDiffer();
      KeysHaveNoSpace(ListenerKey, a.listenerKey);
      KeysHaveNoSpace(ListenerKey, b.listenerKey);
      SameDetailSameListener(a, b);
    }
  }

  function Raised(lib: Library, objects: seq<ObjectStatus>, inputs: seq<Input>, now: int, timeout: int64):
      (issues: seq<Issue>)
    ensures |issues| <= |objects| + |inputs|
  {
    Collect(TimeoutOf(lib, now, timeout), objects) + Collect(AttachmentIssue, inputs)
  }

  lemma RaisedAreWellFormed(lib: Library, objects: seq<ObjectStatus>, inputs: seq<Input>, now: int, timeout: int64)
    requires AsciiIsUtf8(lib) && LawfulTime(lib)
    requires AcceptedObjects(lib, objects) && forall input :: input in inputs ==> CanonicalKeys(input)
    ensures forall issue :: issue in Raised(lib, objects, inputs, now, timeout) ==> WellFormedIssue(lib, issue)
  {
    forall issue | issue in Raised(lib, objects, inputs, now, timeout)
      ensures WellFormedIssue(lib, issue)
    {
      if issue in Collect(TimeoutOf(lib, now, timeout), objects) {
        CollectMembers(TimeoutOf(lib, now, timeout), objects, issue);
        var s :| s in objects && TimeoutOf(lib, now, timeout)(s) == Some(issue);
        TimeoutsAreWellFormed(lib, s, now, timeout);
      } else {
        CollectMembers(AttachmentIssue, inputs, issue);
        var input :| input in inputs && AttachmentIssue(input) == Some(issue);
        AttachmentIssuesAreWellFormed(lib, input);
      }
    }
  }

  lemma TimeoutsAreDistinct(lib: Library, objects: seq<ObjectStatus>, now: int, timeout: int64)
    requires AcceptedObjects(lib, objects)
    ensures Distinct(IssueIdentity, Collect(TimeoutOf(lib, now, timeout), objects))
  {
    forall a, b | a in objects && b in objects
      ensures GivesApart(TimeoutOf(lib, now, timeout), ObjectIdentity, IssueIdentity, a, b)
    {
      TimeoutsAreApart(lib, now, timeout, a, b);
    }
    CollectDistinct(TimeoutOf(lib, now, timeout), ObjectIdentity, IssueIdentity, objects);
  }

  lemma AttachmentIssuesAreDistinct(inputs: seq<Input>)
    requires Distinct(AttachmentName, inputs) && forall input :: input in inputs ==> CanonicalKeys(input)
    ensures Distinct(IssueIdentity, Collect(AttachmentIssue, inputs))
  {
    forall a, b | a in inputs && b in inputs
      ensures GivesApart(AttachmentIssue, AttachmentName, IssueIdentity, a, b)
    {
      AttachmentsAreApart(a, b);
    }
    CollectDistinct(AttachmentIssue, AttachmentName, IssueIdentity, inputs);
  }

  lemma CodesTellThemApart(lib: Library, s: ObjectStatus, input: Input, now: int, timeout: int64)
    requires TimeoutOf(lib, now, timeout)(s).Some? && AttachmentIssue(input).Some?
    ensures TimeoutOf(lib, now, timeout)(s) != AttachmentIssue(input)
  {
    AttachmentIssueIs(input);
    CodesDiffer();
  }

  lemma TimeoutsAreNotAttachments(lib: Library, objects: seq<ObjectStatus>, inputs: seq<Input>,
          now: int, timeout: int64)
    ensures forall x, y ::
              x in Collect(TimeoutOf(lib, now, timeout), objects) && y in Collect(AttachmentIssue, inputs) ==>
              IssueIdentity(x) != IssueIdentity(y)
  {
    forall x, y | x in Collect(TimeoutOf(lib, now, timeout), objects) && y in Collect(AttachmentIssue, inputs)
      ensures x != y
    {
      CollectMembers(TimeoutOf(lib, now, timeout), objects, x);
      CollectMembers(AttachmentIssue, inputs, y);
      var s :| s in objects && TimeoutOf(lib, now, timeout)(s) == Some(x);
      var input :| input in inputs && AttachmentIssue(input) == Some(y);
      CodesTellThemApart(lib, s, input, now, timeout);
    }
  }

  lemma RaisedAreDistinct(lib: Library, objects: seq<ObjectStatus>, inputs: seq<Input>, now: int, timeout: int64)
    requires AcceptedObjects(lib, objects)
    requires Distinct(AttachmentName, inputs) && forall input :: input in inputs ==> CanonicalKeys(input)
    ensures Distinct(IssueIdentity, Raised(lib, objects, inputs, now, timeout))
  {
    TimeoutsAreDistinct(lib, objects, now, timeout);
    AttachmentIssuesAreDistinct(inputs);
    TimeoutsAreNotAttachments(lib, objects, inputs, now, timeout);
    DistinctConcat(IssueIdentity, Collect(TimeoutOf(lib, now, timeout), objects), Collect(AttachmentIssue, inputs));
  }

  /** All that a round raises from an accepted object enumeration and from attachments named once each is
      accepted by the validator of the outbox, exactly when it is within the limit: no two of these issues
      are the same, and none is malformed. So MAX_ISSUES_PER_REPORT objects and attachments together are
      always safe. */
  lemma RaisedIssuesAreAccepted(lib: Library, objects: seq<ObjectStatus>, inputs: seq<Input>, now: int, timeout: int64)
    requires AsciiIsUtf8(lib) && LawfulTime(lib) && AcceptedObjects(lib, objects)
    requires Distinct(AttachmentName, inputs) && forall input :: input in inputs ==> CanonicalKeys(input)
    ensures var raised := Raised(lib, objects, inputs, now, timeout);
            && (AcceptedIssues(lib, raised) <==> |raised| <= MAX_ISSUES_PER_REPORT)
            && (|objects| + |inputs| <= MAX_ISSUES_PER_REPORT ==> AcceptedIssues(lib, raised))
  {
    RaisedAreWellFormed(lib, objects, inputs, now, timeout);
    RaisedAreDistinct(lib, objects, inputs, now, timeout);
  }
}
