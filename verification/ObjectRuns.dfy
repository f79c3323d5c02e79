/** Whole runs of the object-convergence machine: what they can reach, what their failure timer
    remembers, where rejection ends, and which version they settle on. */
module ObjectRuns {
  import opened Ints
  import opened Limits
  import opened Platform
  import opened Versions
  import opened Keys
  import opened Issues
  import opened ObjectState

  /** An object nobody has accepted content for. */
  function Fresh(stream: string, key: string): ObjectStatus {
    ObjectStatus(stream, key, ObjectUnset, NO_VERSION, 0, "", "")
  }

  /** Apply the transitions in order; one in error changes nothing. */
  function Run(s: ObjectStatus, trs: seq<Transition>): ObjectStatus {
    if trs == [] then s else Advance(Run(s, trs[..|trs| - 1]), trs[|trs| - 1])
  }

  // ---- the validator accepts exactly what the machine can reach ----

  predicate SoundCode(lib: Library, code: string) {
    lib.validUtf8(code) && |code| <= MAX_ISSUE_CODE_BYTES
  }

  /** Evidence a well-behaved agent supplies: a positive clock, bounded issue codes, listener keys. */
  predicate WellEvidenced(lib: Library, tr: Transition) {
    && tr.atMS > 0
    && SoundCode(lib, tr.issueCode)
    && (tr.blockedOn == "" || RowId(ListenerKey, tr.blockedOn).Some?)
  }

  predicate WellEvidencedRun(lib: Library, trs: seq<Transition>) {
    forall i :: 0 <= i < |trs| ==> WellEvidenced(lib, trs[i])
  }

  predicate CanonicalIdentity(stream: string, key: string) {
    KeyKindOf(stream).Some? && RowId(KeyKindOf(stream).value, key).Some?
  }

  /** The timer is started by this transition rather than carried over. */
  predicate StartsTimer(s: ObjectStatus, tr: Transition) {
    || Newly(s, tr)
    || (s.state.ObjectApplied? && (
          tr.event.EventRetryableFailure? || tr.event.EventRejected? || tr.event.EventDependencyBlocked?))
  }

  /** What a caller has to check before a transition for its result to pass the wire validator. */
  predicate SafeStep(lib: Library, s: ObjectStatus, tr: Transition) {
    Permitted(s, tr) ==>
      && (StartsTimer(s, tr) ==> tr.atMS > 0)
      && (tr.event.EventRejected? ==> SoundCode(lib, tr.issueCode))
      && (tr.event.EventDependencyBlocked? ==> RowId(ListenerKey, tr.blockedOn).Some?)
  }

  /** What the four states may carry. */
  predicate Shape(s: ObjectStatus) {
    && (s.state.ObjectApplied? || s.state.ObjectPending? || s.state.ObjectRejected? || s.state.ObjectBlocked?)
    && (s.firstFailedAtMS == 0 <==> s.state.ObjectApplied?)
    && (s.issueCode != "" <==> s.state.ObjectRejected?)
    && (s.blockedOn != "" <==> s.state.ObjectBlocked?)
    && s.firstFailedAtMS >= 0
    && s.sinceVersion.Committed()
  }

  /** The validator's checks, regrouped; its size and UTF-8 checks of `blockedOn` say nothing new. */
  lemma ValidMeans(lib: Library, s: ObjectStatus)
    requires AsciiIsUtf8(lib)
    ensures ValidateReportedObject(lib, s) <==>
            && CanonicalIdentity(s.stream, s.key)
            && Shape(s)
            && SoundCode(lib, s.issueCode)
            && (s.blockedOn != "" ==> RowId(ListenerKey, s.blockedOn).Some?)
  {
    if RowId(ListenerKey, s.blockedOn).Some? {
      KeysAreShortAscii(ListenerKey, s.blockedOn);
    }
  }

  lemma StepShape(s: ObjectStatus, tr: Transition)
    requires Shape(s)
    ensures var t := Advance(s, tr);
            && (Shape(t) <==> (Permitted(s, tr) && StartsTimer(s, tr) ==> tr.atMS > 0))
            && t.stream == s.stream && t.key == s.key
            && t.issueCode == (if Permitted(s, tr) && tr.event.EventRejected? then tr.issueCode
                               else if t.state.ObjectRejected? then s.issueCode else "")
            && t.blockedOn == (if Permitted(s, tr) && tr.event.EventDependencyBlocked? then tr.blockedOn
                               else if t.state.ObjectBlocked? then s.blockedOn else "")
  {}

  /** From a status the validator accepts, a transition leads to one it accepts exactly when the
      evidence it records is sound; no other transition can spoil a status. */
  lemma StepStaysValid(lib: Library, s: ObjectStatus, tr: Transition)
    requires AsciiIsUtf8(lib)
    requires ValidateReportedObject(lib, s)
    ensures ValidateReportedObject(lib, Advance(s, tr)) <==> SafeStep(lib, s, tr)
  {
    ValidMeans(lib, s);
    ValidMeans(lib, Advance(s, tr));
    StepShape(s, tr);
    assert lib.validUtf8("");
  }

  /** Before the first accept nothing but an accept has any effect. */
  lemma FirstStep(stream: string, key: string, tr: Transition)
    requires tr.atMS > 0
    ensures var next := Advance(Fresh(stream, key), tr);
            || next == Fresh(stream, key)
            || (Shape(next) && next.stream == stream && next.key == key && next.issueCode == next.blockedOn == "")
  {}

  lemma {:induction false} RunsStayValid(lib: Library, stream: string, key: string, trs: seq<Transition>)
    requires AsciiIsUtf8(lib) && WellEvidencedRun(lib, trs) && CanonicalIdentity(stream, key)
    ensures Run(Fresh(stream, key), trs) == Fresh(stream, key)
            || ValidateReportedObject(lib, Run(Fresh(stream, key), trs))
    ensures Run(Fresh(stream, key), trs).stream == stream && Run(Fresh(stream, key), trs).key == key
  {
    if trs != [] {
      var n := |trs| - 1;
      RunsStayValid(lib, stream, key, trs[..n]);
      var before := Run(Fresh(stream, key), trs[..n]);
      if before == Fresh(stream, key) {
        FirstStep(stream, key, trs[n]);
        ValidMeans(lib, Advance(before, trs[n]));
        assert lib.validUtf8("");
      } else {
        ValidMeans(lib, before);
        StepShape(before, trs[n]);
        assert SafeStep(lib, before, trs[n]);
        StepStaysValid(lib, before, trs[n]);
      }
    }
  }

  /** A run that ends in a given accepted status: accept its version, then at most one more event. */
  function Witness(s: ObjectStatus): (trs: seq<Transition>)
    ensures |trs| <= 2
  {
    var at: int64 := if s.firstFailedAtMS > 0 then s.firstFailedAtMS else 1;
    var accept := Transition(EventAccepted, s.sinceVersion, at, "", "");
    match s.state
    case ObjectApplied => [accept, Transition(EventApplied, NO_VERSION, 1, "", "")]
    case ObjectRejected => [accept, Transition(EventRejected, NO_VERSION, 1, s.issueCode, "")]
    case ObjectBlocked => [accept, Transition(EventDependencyBlocked, NO_VERSION, 1, "", s.blockedOn)]
    case _ => [accept]
  }

  lemma ShortRuns(s: ObjectStatus, trs: seq<Transition>)
    ensures |trs| == 1 ==> Run(s, trs) == Advance(s, trs[0])
    ensures |trs| == 2 ==> Run(s, trs) == Advance(Advance(s, trs[0]), trs[1])
  {
    if |trs| == 2 {
      assert trs[..1][..0] == [];
    }
  }

  lemma WitnessReaches(s: ObjectStatus)
    requires Shape(s)
    ensures Run(Fresh(s.stream, s.key), Witness(s)) == s
  {
    ShortRuns(Fresh(s.stream, s.key), Witness(s));
  }

  lemma WitnessIsEvidenced(lib: Library, s: ObjectStatus)
    requires lib.validUtf8("") && SoundCode(lib, s.issueCode)
    requires s.blockedOn == "" || RowId(ListenerKey, s.blockedOn).Some?
    ensures WellEvidencedRun(lib, Witness(s))
  {
    assert WellEvidenced(lib, Witness(s)[0]);
    assert |Witness(s)| == 2 ==> WellEvidenced(lib, Witness(s)[1]);
  }

  ghost predicate Reachable(lib: Library, s: ObjectStatus) {
    && CanonicalIdentity(s.stream, s.key)
    && s.state != ObjectUnset
    && exists trs :: WellEvidencedRun(lib, trs) && Run(Fresh(s.stream, s.key), trs) == s
  }

  /** The wire validator and the transition function, written apart, describe one set of states. */
  lemma ValidatorAcceptsExactlyTheReachable(lib: Library, s: ObjectStatus)
    requires AsciiIsUtf8(lib)
    ensures ValidateReportedObject(lib, s) <==> Reachable(lib, s)
  {
    if ValidateReportedObject(lib, s) {
      ValidMeans(lib, s);
      assert lib.validUtf8("");
      WitnessReaches(s);
      WitnessIsEvidenced(lib, s);
    }
    if Reachable(lib, s) {
      var trs :| WellEvidencedRun(lib, trs) && Run(Fresh(s.stream, s.key), trs) == s;
      RunsStayValid(lib, s.stream, s.key, trs);
    }
  }

  // ---- the failure timer ----

  /** This transition opens an un-converged stretch: new content, or a failure of applied content. */
  predicate Opens(s: ObjectStatus, tr: Transition) {
    Permitted(s, tr) && StartsTimer(s, tr)
  }

  predicate Closes(s: ObjectStatus, tr: Transition) {
    Permitted(s, tr) && tr.event.EventApplied?
  }

  predicate Converged(s: ObjectStatus) {
    s.state.ObjectUnset? || s.state.ObjectApplied?
  }

  /** The last transition to open a stretch that is still open is number k of the run. */
  predicate OpenSince(s: ObjectStatus, trs: seq<Transition>, k: int) {
    && 0 <= k < |trs|
    && Opens(Run(s, trs[..k]), trs[k])
    && forall j :: k < j < |trs| ==> !Opens(Run(s, trs[..j]), trs[j]) && !Closes(Run(s, trs[..j]), trs[j])
  }

  predicate Timestamped(trs: seq<Transition>) {
    forall i :: 0 <= i < |trs| ==> trs[i].atMS != 0
  }

  /** The stretch a longer run is in, from the one its prefix is in. */
  lemma OpenSinceExtends(s: ObjectStatus, trs: seq<Transition>, k: int)
    requires trs != []
    requires var n := |trs| - 1;
             !Opens(Run(s, trs[..n]), trs[n]) && !Closes(Run(s, trs[..n]), trs[n]) && OpenSince(s, trs[..n], k)
    ensures OpenSince(s, trs, k)
  {
    var n := |trs| - 1;
    assert trs[..n][..k] == trs[..k];
    forall j | k < j < |trs|
      ensures !Opens(Run(s, trs[..j]), trs[j]) && !Closes(Run(s, trs[..j]), trs[j])
    {
      assert j < n ==> trs[..n][..j] == trs[..j];
    }
  }

  lemma OpenSinceInit(s: ObjectStatus, trs: seq<Transition>, k: int)
    requires OpenSince(s, trs, k) && k < |trs| - 1
    ensures var n := |trs| - 1;
            !Opens(Run(s, trs[..n]), trs[n]) && !Closes(Run(s, trs[..n]), trs[n]) && OpenSince(s, trs[..n], k)
  {
    var n := |trs| - 1;
    assert trs[..n][..k] == trs[..k];
    forall j | k < j < n
      ensures !Opens(Run(s, trs[..n][..j]), trs[j]) && !Closes(Run(s, trs[..n][..j]), trs[j])
    {
      assert trs[..n][..j] == trs[..j];
    }
  }

  /** One transition's effect on the timer: opening sets it, closing clears it, nothing else moves it. */
  lemma StepTimer(s: ObjectStatus, tr: Transition)
    requires tr.atMS != 0 && !s.state.ObjectUnknown?
    requires Converged(s) <==> s.firstFailedAtMS == 0
    ensures var t := Advance(s, tr);
            && !t.state.ObjectUnknown?
            && (Converged(t) <==> t.firstFailedAtMS == 0)
            && (Opens(s, tr) ==> !Converged(t) && t.firstFailedAtMS == tr.atMS)
            && (Closes(s, tr) ==> Converged(t))
            && (!Opens(s, tr) && !Closes(s, tr) ==> t.firstFailedAtMS == s.firstFailedAtMS)
  {}

  /** FirstFailedAtMS is the clock of the transition that opened the current un-converged stretch.
      The object is un-converged exactly when there is one, and the timer is zero when there is not. */
  lemma {:induction false} FailureTimerNamesTheOpening(stream: string, key: string, trs: seq<Transition>, k: int)
    requires Timestamped(trs)
    ensures var s := Run(Fresh(stream, key), trs);
            && (OpenSince(Fresh(stream, key), trs, k) ==> !Converged(s) && s.firstFailedAtMS == trs[k].atMS)
            && (Converged(s) <==> s.firstFailedAtMS == 0)
            && !s.state.ObjectUnknown?
  {
    if trs != [] {
      var n := |trs| - 1;
      FailureTimerNamesTheOpening(stream, key, trs[..n], k);
      if OpenSince(Fresh(stream, key), trs, k) && k < n {
        OpenSinceInit(Fresh(stream, key), trs, k);
      }
      StepTimer(Run(Fresh(stream, key), trs[..n]), trs[n]);
      assert trs[..n + 1] == trs;
    }
  }

  lemma {:induction false} UnconvergedHasAnOpening(stream: string, key: string, trs: seq<Transition>)
    returns (k: int)
    requires Timestamped(trs)
    requires !Converged(Run(Fresh(stream, key), trs))
    ensures OpenSince(Fresh(stream, key), trs, k)
    ensures Run(Fresh(stream, key), trs).firstFailedAtMS == trs[k].atMS
  {
    var start, n := Fresh(stream, key), |trs| - 1;
    var before := Run(start, trs[..n]);
    FailureTimerNamesTheOpening(stream, key, trs[..n], 0);
    StepTimer(before, trs[n]);
    if Opens(before, trs[n]) {
      k := n;
    } else {
      k := UnconvergedHasAnOpening(stream, key, trs[..n]);
      OpenSinceExtends(start, trs, k);
    }
    FailureTimerNamesTheOpening(stream, key, trs, k);
  }

  /** No newer accept and no Applied along the run. */
  predicate NothingConverges(s: ObjectStatus, trs: seq<Transition>) {
    forall i :: 0 <= i < |trs| ==>
      (Permitted(Run(s, trs[..i]), trs[i]) ==> !Newly(Run(s, trs[..i]), trs[i]) && !trs[i].event.EventApplied?)
  }

  lemma StepHolds(s: ObjectStatus, tr: Transition)
    requires s.state.ObjectPending? || s.state.ObjectRejected? || s.state.ObjectBlocked?
    requires s.firstFailedAtMS != 0
    requires Permitted(s, tr) ==> !Newly(s, tr) && !tr.event.EventApplied?
    ensures var t := Advance(s, tr);
            && t.firstFailedAtMS == s.firstFailedAtMS
            && t.key == s.key && t.stream == s.stream
            && (t.state.ObjectPending? || t.state.ObjectRejected? || t.state.ObjectBlocked?)
  {}

  lemma {:induction false} TimerHolds(s: ObjectStatus, trs: seq<Transition>)
    requires s.state.ObjectPending? || s.state.ObjectRejected? || s.state.ObjectBlocked?
    requires s.firstFailedAtMS != 0
    requires NothingConverges(s, trs)
    ensures var t := Run(s, trs);
            && t.firstFailedAtMS == s.firstFailedAtMS
            && t.key == s.key && t.stream == s.stream
            && (t.state.ObjectPending? || t.state.ObjectRejected? || t.state.ObjectBlocked?)
  {
    if trs != [] {
      var n := |trs| - 1;
      forall i | 0 <= i < n
        ensures trs[..n][..i] == trs[..i]
      {}
      TimerHolds(s, trs[..n]);
      StepHolds(Run(s, trs[..n]), trs[n]);
    }
  }

  /** Once the timeout has fired it fires at every later instant at which the object is pending or
      rejected, whatever happened in between short of new content or convergence; a blocked
      interlude silences it and does not reset it. The issue then names the state it is in, and
      still the time the stretch was opened. */
  lemma TimeoutKeepsFiring(lib: Library, s: ObjectStatus, trs: seq<Transition>, now: int, later: int, timeout: int64)
    requires TimeoutIssue(lib, s, now, timeout).Alarm?
    requires now <= later
    requires NothingConverges(s, trs)
    ensures var t := Run(s, trs);
            && (t.state.ObjectPending? || t.state.ObjectRejected? || t.state.ObjectBlocked?)
            && TimeoutIssue(lib, t, later, timeout) ==
               match t.state
               case ObjectPending =>
                 Alarm(Issue(ISSUE_OBJECT_PENDING_TIMEOUT, s.key, TimeoutDetail(lib, s.(state := ObjectPending))))
               case ObjectRejected =>
                 Alarm(Issue(ISSUE_OBJECT_REJECTED_TIMEOUT, s.key, TimeoutDetail(lib, s.(state := ObjectRejected))))
               case _ => Quiet
  {
    TimerHolds(s, trs);
    TimeoutIsExact(lib, s, now, timeout);
    TimeoutIsExact(lib, Run(s, trs), later, timeout);
  }

  // ---- versions only climb, and rejection is a sink ----

  lemma {:induction false} VersionsOnlyClimb(s: ObjectStatus, trs: seq<Transition>)
    ensures !s.sinceVersion.Newer(Run(s, trs).sinceVersion)
  {
    if trs != [] {
      VersionsOnlyClimb(s, trs[..|trs| - 1]);
    }
  }

  /** A rejected object leaves that state only by accepting a strictly newer version; until then it
      is the same rejection as far as its timer goes, though its issue code may be restated. */
  lemma {:induction false} RejectionIsASink(s: ObjectStatus, trs: seq<Transition>)
    requires s.state.ObjectRejected? && s.sinceVersion != NO_VERSION
    ensures var t := Run(s, trs);
            || t.sinceVersion.Newer(s.sinceVersion)
            || (&& t.sinceVersion == s.sinceVersion
                && t.state.ObjectRejected?
                && (s.firstFailedAtMS != 0 ==> t.firstFailedAtMS == s.firstFailedAtMS))
  {
    if trs != [] {
      RejectionIsASink(s, trs[..|trs| - 1]);
    }
  }

  /** An event that takes an accepted, unrejected object to the given state. */
  function Toward(target: ObjectState, on: string): Transition {
    var event := match target
      case ObjectApplied => EventApplied
      case ObjectBlocked => EventDependencyBlocked
      case _ => EventRetryableFailure;
    Transition(event, NO_VERSION, 1, "", on)
  }

  /** From pending, applied or blocked each of the three is one step away, with the version kept. */
  lemma OthersAreMutuallyReachable(s: ObjectStatus, target: ObjectState, on: string)
    requires s.state in {ObjectPending, ObjectApplied, ObjectBlocked}
    requires target in {ObjectPending, ObjectApplied, ObjectBlocked}
    requires on != ""
    ensures Run(s, [Toward(target, on)]).state == target
    ensures Run(s, [Toward(target, on)]).sinceVersion == s.sinceVersion
  {
    assert [Toward(target, on)][..0] == [];
  }

  /** Rejection is one step away from pending and applied. */
  lemma RejectionIsReachable(s: ObjectStatus, reject: Transition)
    requires s.state in {ObjectPending, ObjectApplied}
    requires reject.event.EventRejected? && reject.issueCode != ""
    ensures var t := Run(s, [reject]);
            t.state == ObjectRejected && t.issueCode == reject.issueCode && t.sinceVersion == s.sinceVersion
  {
    assert [reject][..0] == [];
  }

  /** From any status a run can be in, a committed version of a higher epoch is accepted. */
  lemma HigherEpochAlwaysReopens(s: ObjectStatus, trs: seq<Transition>, accept: Transition)
    requires accept.event.EventAccepted? && accept.version.Committed()
    requires accept.version.epoch > Run(s, trs).sinceVersion.epoch
    ensures var t := Run(s, trs + [accept]);
            t.state == ObjectPending && t.sinceVersion == accept.version && t.firstFailedAtMS == accept.atMS
  {
    assert (trs + [accept])[..|trs|] == trs;
  }

  // ---- the version a run settles on does not depend on delivery order ----

  predicate Offers(tr: Transition, v: Version) {
    tr.event.EventAccepted? && tr.version.Committed() && tr.version == v
  }

  /** `v` is the lexicographic maximum of the committed versions on offer, or unset if there are none. */
  predicate NewestOffered(trs: seq<Transition>, v: Version) {
    && (forall i :: 0 <= i < |trs| && Offers(trs[i], trs[i].version) ==> !trs[i].version.Newer(v))
    && (v == NO_VERSION || exists i :: 0 <= i < |trs| && Offers(trs[i], v))
  }

  lemma {:induction false} RunSettlesOnTheNewest(stream: string, key: string, trs: seq<Transition>)
    ensures NewestOffered(trs, Run(Fresh(stream, key), trs).sinceVersion)
  {
    if trs != [] {
      var n := |trs| - 1;
      var init := trs[..n];
      RunSettlesOnTheNewest(stream, key, init);
      var before, after := Run(Fresh(stream, key), init).sinceVersion, Run(Fresh(stream, key), trs).sinceVersion;
      assert after == before || after == trs[n].version;
      forall i | 0 <= i < |trs| && Offers(trs[i], trs[i].version)
        ensures !trs[i].version.Newer(after)
      {
        if i < n {
          assert init[i] == trs[i];
        }
      }
      if after != NO_VERSION && after == before {
        var i :| 0 <= i < n && Offers(init[i], before);
        assert Offers(trs[i], after);
      }
      if after != before {
        assert Offers(trs[n], after);
      }
    }
  }

  lemma NotNewerThanAcross(stream: string, key: string, a: seq<Transition>, b: seq<Transition>)
    requires forall tr :: tr in a ==> tr in b
    ensures !Run(Fresh(stream, key), a).sinceVersion.Newer(Run(Fresh(stream, key), b).sinceVersion)
  {
    RunSettlesOnTheNewest(stream, key, a);
    RunSettlesOnTheNewest(stream, key, b);
    var v := Run(Fresh(stream, key), a).sinceVersion;
    if v != NO_VERSION {
      var i :| 0 <= i < |a| && Offers(a[i], v);
      assert a[i] in b;
      var j :| 0 <= j < |b| && b[j] == a[i];
      assert Offers(b[j], b[j].version);
    }
  }

  /** Two nodes that receive the same transitions in any two orders end on the same version. */
  lemma DeliveryOrderDoesNotMatter(stream: string, key: string, a: seq<Transition>, b: seq<Transition>)
    requires forall tr :: tr in a <==> tr in b
    ensures Run(Fresh(stream, key), a).sinceVersion == Run(Fresh(stream, key), b).sinceVersion
  {
    RunSettlesOnTheNewest(stream, key, a);
    RunSettlesOnTheNewest(stream, key, b);
    NotNewerThanAcross(stream, key, a, b);
    NotNewerThanAcross(stream, key, b, a);
  }
}
