/** Judging one client-to-listener attachment from the state a listener's run has reached. */
module Attachment {
  import opened Wrappers
  import opened Ints
  import opened Versions
  import opened Keys
  import opened Issues
  import opened ObjectState
  import opened ObjectRuns

  datatype Disposition = Ready | WaitingForConfig | UnknownListener | WaitingForListener | BlockedByListener

  const ISSUE_ROSTER_AHEAD_OF_CONFIG := "roster_ahead_of_config"
  const ISSUE_ATTACHMENT_UNKNOWN_LISTENER := "attachment_unknown_listener"

  datatype Input = Input(
    clientKey: string,
    listenerKey: string,
    rosterMinConfig: Version,
    appliedConfig: Version,
    listenerKnown: bool,
    listenerState: ObjectState,
    aheadRounds: int64,
    escalateAfterRounds: int64
  )

  datatype Decision = Decision(disposition: Disposition, state: ObjectState, issue: Option<Issue>)

  /** Version.String. */
  function VersionText(v: Version): string {
    Decimal(v.epoch) + ":" + Decimal(v.version)
  }

  function AheadDetail(input: Input): string {
    "listener " + input.listenerKey + " requires config " + VersionText(input.rosterMinConfig)
    + "; agent has " + VersionText(input.appliedConfig) + " after " + FormatInt(input.aheadRounds) + " rounds"
  }

  function AbsentDetail(input: Input): string {
    "listener " + input.listenerKey + " is absent after config versions closed"
  }

  function EvaluateAttachment(input: Input): Option<Decision> {
    if input.clientKey == "" || input.listenerKey == "" then None
    else if input.aheadRounds < 0 || input.escalateAfterRounds < 0 then None
    else if input.rosterMinConfig.Newer(input.appliedConfig) then
      Some(Decision(WaitingForConfig, ObjectPending,
                    if input.aheadRounds > input.escalateAfterRounds
                    then Some(Issue(ISSUE_ROSTER_AHEAD_OF_CONFIG, input.clientKey, AheadDetail(input))) else None))
    else if !input.listenerKnown then
      Some(Decision(UnknownListener, ObjectRejected,
                    Some(Issue(ISSUE_ATTACHMENT_UNKNOWN_LISTENER, input.clientKey, AbsentDetail(input)))))
    else match input.listenerState
      case ObjectApplied => Some(Decision(Ready, ObjectApplied, None))
      case ObjectRejected => Some(Decision(BlockedByListener, ObjectBlocked, None))
      case ObjectPending => Some(Decision(WaitingForListener, ObjectPending, None))
      case ObjectBlocked => Some(Decision(WaitingForListener, ObjectPending, None))
      case _ => None
  }

  predicate SoundInput(input: Input) {
    input.clientKey != "" && input.listenerKey != "" && input.aheadRounds >= 0 && input.escalateAfterRounds >= 0
  }

  /** The listener's state is the one its run has reached. */
  predicate Observes(input: Input, listener: ObjectStatus) {
    input.listenerState == listener.state
  }

  lemma {:induction false} RunStates(stream: string, key: string, trs: seq<Transition>)
    ensures !Run(Fresh(stream, key), trs).state.ObjectUnknown?
    ensures Run(Fresh(stream, key), trs).state.ObjectUnset? <==> Run(Fresh(stream, key), trs).sinceVersion == NO_VERSION
    ensures Run(Fresh(stream, key), trs).state.ObjectUnset? ==> Run(Fresh(stream, key), trs) == Fresh(stream, key)
  {
    if trs != [] {
      RunStates(stream, key, trs[..|trs| - 1]);
    }
  }

  /** If a known listener's run has accepted anything, the evaluation never fails; of an absent listener no
      state is asked. It answers Applied exactly when the config is not behind, the listener is known and
      its run ended applied; rejected and blocked have one cause each, and everything else is pending. It
      raises an issue against the client exactly when the roster has led for longer than tolerated, or
      the listener is absent although the config has caught up. */
  lemma {:induction false} AttachmentIsDecided(input: Input, stream: string, key: string, trs: seq<Transition>)
    requires SoundInput(input)
    requires var listener := Run(Fresh(stream, key), trs);
             input.listenerKnown ==> Observes(input, listener) && listener.sinceVersion != NO_VERSION
    ensures var listener, verdict := Run(Fresh(stream, key), trs), EvaluateAttachment(input);
            var behind := input.rosterMinConfig.Newer(input.appliedConfig);
            var present := !behind && input.listenerKnown;
            && verdict.Some?
            && (verdict.value.state.ObjectApplied? <==> present && listener.state.ObjectApplied?)
            && (verdict.value.state.ObjectBlocked? <==> present && listener.state.ObjectRejected?)
            && (verdict.value.state.ObjectRejected? <==> !behind && !input.listenerKnown)
            && (verdict.value.state.ObjectPending? <==>
                behind || (present && (listener.state.ObjectPending? || listener.state.ObjectBlocked?)))
            && (verdict.value.disposition.Ready? <==> verdict.value.state.ObjectApplied?)
            && (verdict.value.disposition.WaitingForConfig? <==> behind)
            && (verdict.value.disposition.WaitingForListener? <==> verdict.value.state.ObjectPending? && !behind)
            && (verdict.value.disposition.UnknownListener? <==> verdict.value.state.ObjectRejected?)
            && verdict.value.issue ==
               (if behind && input.aheadRounds > input.escalateAfterRounds
                then Some(Issue(ISSUE_ROSTER_AHEAD_OF_CONFIG, input.clientKey, AheadDetail(input)))
                else if !behind && !input.listenerKnown
                then Some(Issue(ISSUE_ATTACHMENT_UNKNOWN_LISTENER, input.clientKey, AbsentDetail(input)))
                else None)
  {
    RunStates(stream, key, trs);
  }

  /** An attachment is only ever ready on a listener whose failure timer has been cleared. */
  lemma ReadyMeansConverged(input: Input, stream: string, key: string, trs: seq<Transition>)
    requires Timestamped(trs)
    requires input.listenerKnown ==> Observes(input, Run(Fresh(stream, key), trs))
    requires EvaluateAttachment(input).Some? && EvaluateAttachment(input).value.disposition.Ready?
    ensures Run(Fresh(stream, key), trs).firstFailedAtMS == 0
    ensures forall k :: !OpenSince(Fresh(stream, key), trs, k)
  {
    forall k
      ensures !OpenSince(Fresh(stream, key), trs, k)
      ensures Run(Fresh(stream, key), trs).firstFailedAtMS == 0
    {
      FailureTimerNamesTheOpening(stream, key, trs, k);
    }
    FailureTimerNamesTheOpening(stream, key, trs, 0);
  }

  /** A known listener rejected at a version keeps its attachments blocked, without an issue of their
      own, at every later step of its run until the listener accepts a strictly newer version. */
  lemma RejectedListenerKeepsBlocking(input: Input, listener: ObjectStatus, trs: seq<Transition>)
    requires SoundInput(input) && input.listenerKnown && !input.rosterMinConfig.Newer(input.appliedConfig)
    requires listener.state.ObjectRejected? && listener.sinceVersion != NO_VERSION
    requires Observes(input, Run(listener, trs))
    ensures Run(listener, trs).sinceVersion.Newer(listener.sinceVersion)
            || EvaluateAttachment(input) == Some(Decision(BlockedByListener, ObjectBlocked, None))
  {
    RejectionIsASink(listener, trs);
  }

  /** The skew heals for good: once an applied config has reached the roster's, no config that is not
      older makes the attachment wait for config again. */
  lemma ConfigSkewHealsForGood(input: Input, later: Version)
    requires EvaluateAttachment(input).Some?
    requires !EvaluateAttachment(input).value.disposition.WaitingForConfig?
    requires !input.appliedConfig.Newer(later)
    ensures EvaluateAttachment(input.(appliedConfig := later)) == EvaluateAttachment(input)
  {}
}
