/** When the enumerations and the host telemetry are sent: the envelope's bounds, the per-report
    decisions, and the closed form of the cadence that polling produces. */
module Cadence {
  import opened Ints
  import opened Limits
  import opened MulDiv

  datatype Envelope = Envelope(
    computedAtMS: int64,
    numeratorAsOfMS: int64,
    numeratorOldestReportAgeMS: int64,
    overburnHeadroomBytes: int64,
    nextPollSeconds: int64,
    fullReportSeconds: int64,
    wantFullReport: bool,
    hostReportSeconds: int64,
    wantHostReport: bool
  )

  const ZERO_ENVELOPE := Envelope(0, 0, 0, 0, 0, 0, false, 0, false)

  predicate ValidateEnvelope(e: Envelope) {
    if e.computedAtMS < 0 || e.numeratorAsOfMS < 0 ||
       e.numeratorOldestReportAgeMS < 0 || e.overburnHeadroomBytes < 0 then false
    else if e.nextPollSeconds < 0 || e.nextPollSeconds > MAX_NEXT_POLL_SECONDS then false
    else if e.fullReportSeconds < 0 || e.fullReportSeconds > MAX_FULL_REPORT_SECONDS then false
    else !(e.hostReportSeconds < 0 || e.hostReportSeconds > MAX_HOST_REPORT_SECONDS ||
           (e.hostReportSeconds > 0 && e.hostReportSeconds < MIN_HOST_REPORT_SECONDS))
  }

  predicate ShouldSendFull(e: Envelope, sinceLastFullSeconds: int) {
    if e.wantFullReport then true
    else if e.fullReportSeconds <= 0 then true
    else sinceLastFullSeconds >= e.fullReportSeconds
  }

  predicate ShouldSendHost(e: Envelope, sinceLastHostSeconds: int) {
    if e.wantHostReport then true
    else if e.hostReportSeconds <= 0 then true
    else sinceLastHostSeconds >= e.hostReportSeconds
  }

  /** The two payloads with a cadence of their own. */
  datatype Payload = Enumerations | HostSample {
    predicate Due(e: Envelope, since: int) {
      match this
      case Enumerations => ShouldSendFull(e, since)
      case HostSample => ShouldSendHost(e, since)
    }

    /** The envelope that asks for this payload every `interval` seconds and for nothing else. */
    function Asking(interval: int64): Envelope {
      match this
      case Enumerations => ZERO_ENVELOPE.(fullReportSeconds := interval)
      case HostSample => ZERO_ENVELOPE.(hostReportSeconds := interval)
    }

    /** The bounds on an interval a validated envelope asks for. */
    function MinInterval(): int {
      match this
      case Enumerations => 1
      case HostSample => MIN_HOST_REPORT_SECONDS
    }

    function MaxInterval(): int {
      match this
      case Enumerations => MAX_FULL_REPORT_SECONDS
      case HostSample => MAX_HOST_REPORT_SECONDS
    }
  }

  function PollSeconds(nextPollSeconds: int64): (poll: int64)
    ensures poll > 0
  {
    if nextPollSeconds <= 0 then DEFAULT_NEXT_POLL_SECONDS else nextPollSeconds
  }

  /** The envelopes that are accepted, whatever they ask for and prompt: amounts that are not negative, a poll
      within the hour, enumerations within the day, and host samples at every report or within the hour but
      no finer than five seconds. */
  lemma EnvelopesWithinBounds(e: Envelope)
    ensures ValidateEnvelope(e) <==>
            && e.computedAtMS >= 0 && e.numeratorAsOfMS >= 0
            && e.numeratorOldestReportAgeMS >= 0 && e.overburnHeadroomBytes >= 0
            && 0 <= e.nextPollSeconds <= 3600
            && 0 <= e.fullReportSeconds <= 86400
            && (e.hostReportSeconds == 0 || 5 <= e.hostReportSeconds <= 3600)
  {}

  /** A poll that is missing or nonsense is half a minute; every other is what was asked for. */
  lemma MissingPollsAreShort(nextPollSeconds: int64)
    ensures nextPollSeconds <= 0 ==> PollSeconds(nextPollSeconds) == 30
    ensures nextPollSeconds >= 1 ==> PollSeconds(nextPollSeconds) == nextPollSeconds
  {}

  // ---- polling, step by step ----

  /** The first poll, counted in seconds since the last send, at which the payload is due. */
  function FirstDue(p: Payload, interval: int64, poll: int, since: int): int
    requires poll > 0
    decreases interval - since
  {
    if p.Due(p.Asking(interval), since) then since else FirstDue(p, interval, poll, since + poll)
  }

  lemma {:induction false} FirstDueWithin(p: Payload, interval: int64, poll: int, since: int)
    requires poll > 0
    requires since < interval + poll
    ensures since <= FirstDue(p, interval, poll, since)
    ensures interval > 0 ==> interval <= FirstDue(p, interval, poll, since) < interval + poll
    ensures interval <= 0 ==> FirstDue(p, interval, poll, since) == since
    decreases interval - since
  {
    if !p.Due(p.Asking(interval), since) {
      FirstDueWithin(p, interval, poll, since + poll);
    }
  }

  lemma {:induction false} FirstDueAfter(p: Payload, interval: int64, poll: int, k: int, m: int)
    requires poll > 0 && 1 <= k <= m
    requires (m - 1) * poll < interval <= m * poll
    ensures FirstDue(p, interval, poll, k * poll) == m * poll
    decreases m - k
  {
    if k < m {
      MulLe(k, m - 1, poll);
      assert (k + 1) * poll == k * poll + poll;
      FirstDueAfter(p, interval, poll, k + 1, m);
    }
  }

  // ---- the closed form ----

  /** The period of polling every `nextPollSeconds` for a payload asked for every `interval`. */
  function SteppedPeriod(p: Payload, interval: int64, nextPollSeconds: int64): int {
    var poll := PollSeconds(nextPollSeconds);
    FirstDue(p, interval, poll, poll)
  }

  /** No int64 overflow lies between this interval and its period: the interval is at most the
      largest multiple of the poll that an int64 can hold. */
  predicate PeriodFits(interval: int64, nextPollSeconds: int64) {
    var poll := PollSeconds(nextPollSeconds);
    interval <= MAX_INT64 - MAX_INT64 % poll
  }

  lemma ShortIntervalFits(interval: int64, poll: int64)
    requires poll > 0 && interval <= poll
    ensures PeriodFits(interval, poll)
  {
    MultipleWithin(poll, MAX_INT64);
  }

  lemma ClosedForm(p: Payload, interval: int64, poll: int64, cycles: int)
    requires poll > 0 && interval > poll
    requires cycles == interval / poll + (if interval % poll != 0 then 1 else 0)
    ensures SteppedPeriod(p, interval, poll) == cycles * poll
    ensures Wrap64(cycles * poll) == SteppedPeriod(p, interval, poll) <==> PeriodFits(interval, poll)
  {
    Ceil(interval, poll, cycles);
    FirstDueAfter(p, interval, poll, 1, cycles);
    CeilWithin(interval, poll, cycles, MAX_INT64);
    Wrap64Exact(cycles * poll);
  }

  method EffectiveHostReportPeriod(hostReportSeconds: int64, nextPoll: int64) returns (period: int64)
    ensures period == Wrap64(SteppedPeriod(HostSample, hostReportSeconds, nextPoll))
    ensures period == SteppedPeriod(HostSample, hostReportSeconds, nextPoll) <==>
            PeriodFits(hostReportSeconds, nextPoll)
  {
    var nextPollSeconds := nextPoll;
    if nextPollSeconds <= 0 {
      nextPollSeconds := DEFAULT_NEXT_POLL_SECONDS;
    }
    if ShouldSendHost(ZERO_ENVELOPE.(hostReportSeconds := hostReportSeconds), nextPollSeconds) {
      ShortIntervalFits(hostReportSeconds, nextPollSeconds);
      return nextPollSeconds;
    }
    var cycles: int := hostReportSeconds / nextPollSeconds;
    if hostReportSeconds % nextPollSeconds != 0 {
      cycles := cycles + 1;
    }
    ClosedForm(HostSample, hostReportSeconds, nextPollSeconds, cycles);
    period := Wrap64(cycles * nextPollSeconds);
  }

  /** EffectiveFullReportPeriod is the period found by polling, in Go's wrapping int; so it is that
      period exactly when PeriodFits, as it does for all that a validated envelope can hold. */
  method EffectiveFullReportPeriod(fullReportSeconds: int64, nextPoll: int64) returns (period: int64)
    ensures period == Wrap64(SteppedPeriod(Enumerations, fullReportSeconds, nextPoll))
    ensures period == SteppedPeriod(Enumerations, fullReportSeconds, nextPoll) <==>
            PeriodFits(fullReportSeconds, nextPoll)
  {
    var nextPollSeconds := nextPoll;
    if nextPollSeconds <= 0 {
      nextPollSeconds := DEFAULT_NEXT_POLL_SECONDS;
    }
    var envelope := ZERO_ENVELOPE.(fullReportSeconds := fullReportSeconds);
    if ShouldSendFull(envelope, nextPollSeconds) {
      ShortIntervalFits(fullReportSeconds, nextPollSeconds);
      return nextPollSeconds;
    }
    var cycles: int := fullReportSeconds / nextPollSeconds;
    if fullReportSeconds % nextPollSeconds != 0 {
      cycles := cycles + 1;
    }
    ClosedForm(Enumerations, fullReportSeconds, nextPollSeconds, cycles);
    period := Wrap64(cycles * nextPollSeconds);
  }

  /** An operator's interval just below the int64 maximum is one for which it does not fit. */
  lemma HugeIntervalsOverflow()
    ensures !PeriodFits(MAX_INT64, 2) && PeriodFits(MAX_INT64 - 1, 2)
  {}

  lemma ValidatedIntervalsFit(e: Envelope)
    requires ValidateEnvelope(e)
    ensures PeriodFits(e.fullReportSeconds, e.nextPollSeconds)
    ensures PeriodFits(e.hostReportSeconds, e.nextPollSeconds)
  {
    var poll := PollSeconds(e.nextPollSeconds);
    assert MAX_INT64 % poll < poll <= MAX_NEXT_POLL_SECONDS;
  }

  /** A requested interval is held to, late by less than one poll; one no longer than the poll is
      sent every poll. */
  lemma PeriodIsTheNextPoll(p: Payload, interval: int64, nextPollSeconds: int64)
    ensures var poll, period := PollSeconds(nextPollSeconds), SteppedPeriod(p, interval, nextPollSeconds);
            if interval > poll then interval <= period < interval + poll else period == poll
  {
    var poll := PollSeconds(nextPollSeconds);
    if interval > poll {
      FirstDueWithin(p, interval, poll, poll);
    }
  }

  /** Under one envelope the period stays within a limit exactly when the poll does and the interval is at
      most the largest multiple of the poll that does. */
  lemma PeriodWithin(p: Payload, interval: int64, nextPollSeconds: int64, limit: int)
    ensures var poll := PollSeconds(nextPollSeconds);
            SteppedPeriod(p, interval, nextPollSeconds) <= limit <==> poll <= limit && interval <= limit - limit % poll
  {
    var poll := PollSeconds(nextPollSeconds);
    PeriodIsTheNextPoll(p, interval, nextPollSeconds);
    if interval > poll {
      var cycles := interval / poll + (if interval % poll != 0 then 1 else 0);
      Ceil(interval, poll, cycles);
      FirstDueAfter(p, interval, poll, 1, cycles);
      CeilWithin(interval, poll, cycles, limit);
    } else if poll <= limit {
      MultipleWithin(poll, limit);
    }
  }

  // ---- a run under one envelope ----

  /** Seconds since the last send, at poll number n of a session whose poll 0 sent the payload. */
  function SinceAtPoll(p: Payload, e: Envelope, n: nat): int
    requires n >= 1
  {
    var poll := PollSeconds(e.nextPollSeconds);
    if n == 1 || p.Due(e, SinceAtPoll(p, e, n - 1)) then poll else SinceAtPoll(p, e, n - 1) + poll
  }

  function RequestedInterval(p: Payload, e: Envelope): int64 {
    match p
    case Enumerations => e.fullReportSeconds
    case HostSample => e.hostReportSeconds
  }

  predicate Unprompted(p: Payload, e: Envelope) {
    match p
    case Enumerations => !e.wantFullReport
    case HostSample => !e.wantHostReport
  }

  /** A prompt, or an interval that is missing or nonsense, means a send; and a control plane that asks
      for no longer an interval, and does not drop a prompt, never makes an agent send less. */
  lemma AskingForMoreNeverSendsLess(p: Payload, e: Envelope, e': Envelope, since: int, since': int)
    requires RequestedInterval(p, e') <= RequestedInterval(p, e) && since <= since'
    requires Unprompted(p, e') ==> Unprompted(p, e)
    ensures p.Due(e, since) ==> p.Due(e', since')
    ensures !Unprompted(p, e) || RequestedInterval(p, e) <= 0 ==> p.Due(e, since)
  {}

  /** How many polls make up one period. */
  function Cycles(p: Payload, e: Envelope): (m: int)
    ensures m >= 1
  {
    var poll, interval := PollSeconds(e.nextPollSeconds), RequestedInterval(p, e);
    if interval <= poll then 1
    else
      Ceil(interval, poll, interval / poll + (if interval % poll != 0 then 1 else 0));
      interval / poll + (if interval % poll != 0 then 1 else 0)
  }

  lemma CyclesMakeThePeriod(p: Payload, e: Envelope)
    ensures SteppedPeriod(p, RequestedInterval(p, e), e.nextPollSeconds) ==
            Cycles(p, e) * PollSeconds(e.nextPollSeconds)
  {
    var poll, interval := PollSeconds(e.nextPollSeconds), RequestedInterval(p, e);
    if interval > poll {
      ClosedForm(p, interval, poll, Cycles(p, e));
    }
  }

  /** Within a period, the payload is due at its last poll and at no earlier one. */
  lemma DueAtTheEnd(p: Payload, e: Envelope, k: int)
    requires Unprompted(p, e) && 1 <= k <= Cycles(p, e)
    ensures p.Due(e, k * PollSeconds(e.nextPollSeconds)) <==> k == Cycles(p, e)
  {
    var poll, interval, m := PollSeconds(e.nextPollSeconds), RequestedInterval(p, e), Cycles(p, e);
    if interval > poll {
      Ceil(interval, poll, m);
      if k < m {
        MulLe(k, m - 1, poll);
      }
    }
  }

  lemma {:induction false} SinceCountsCycles(p: Payload, e: Envelope, n: nat)
    requires n >= 1 && Unprompted(p, e)
    ensures SinceAtPoll(p, e, n) == ((n - 1) % Cycles(p, e) + 1) * PollSeconds(e.nextPollSeconds)
  {
    var m, poll := Cycles(p, e), PollSeconds(e.nextPollSeconds);
    if n > 1 {
      SinceCountsCycles(p, e, n - 1);
      var k := (n - 2) % m + 1;
      DueAtTheEnd(p, e, k);
      NextModulo(n - 2, m);
      assert (k + 1) * poll == k * poll + poll;
    } else {
      assert 0 % m == 0;
    }
  }

  /** Poll n of a steady session carries the payload exactly when the time elapsed, n polls, is a
      multiple of the effective period: the panel predicts every send of the agent. */
  lemma SendsFallOnMultiplesOfThePeriod(p: Payload, e: Envelope, n: nat)
    requires n >= 1 && Unprompted(p, e)
    ensures var poll := PollSeconds(e.nextPollSeconds);
            var period := SteppedPeriod(p, RequestedInterval(p, e), e.nextPollSeconds);
            && period > 0
            && (p.Due(e, SinceAtPoll(p, e, n)) <==> (n * poll) % period == 0)
  {
    var m, poll := Cycles(p, e), PollSeconds(e.nextPollSeconds);
    CyclesMakeThePeriod(p, e);
    SinceCountsCycles(p, e, n);
    DueAtTheEnd(p, e, (n - 1) % m + 1);
    NextModulo(n - 1, m);
    ScaledModulo(n, m, poll);
  }
}
