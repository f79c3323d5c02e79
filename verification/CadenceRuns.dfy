/** Sessions in which the control plane changes the envelope at every round: how long it can keep
    an agent from sending its enumerations or its host telemetry. */
module CadenceRuns {
  import opened Limits
  import opened Cadence

  /** One round: the envelope of its response, which sets the delay to the next poll and decides what
      that poll carries; and whether a payload due then was built but dropped before the wire. */
  datatype Round = Round(envelope: Envelope, lost: bool)

  predicate Validated(rounds: seq<Round>) {
    forall i :: 0 <= i < |rounds| ==> ValidateEnvelope(rounds[i].envelope)
  }

  /** Seconds from poll 0, which carried the payload, to poll i. */
  function ClockAt(rounds: seq<Round>, i: nat): nat
    requires i <= |rounds|
  {
    if i == 0 then 0 else ClockAt(rounds, i - 1) + PollSeconds(rounds[i - 1].envelope.nextPollSeconds)
  }

  /** The last poll before poll i whose report carried the payload. */
  function LastSent(p: Payload, rounds: seq<Round>, i: nat): (j: nat)
    requires 1 <= i <= |rounds|
    ensures j < i
    decreases i, 0
  {
    if i > 1 && Sends(p, rounds, i - 1) then i - 1
    else if i > 1 then LastSent(p, rounds, i - 1)
    else 0
  }

  function Since(p: Payload, rounds: seq<Round>, i: nat): int
    requires 1 <= i <= |rounds|
    decreases i, 1
  {
    ClockAt(rounds, i) - ClockAt(rounds, LastSent(p, rounds, i))
  }

  /** The payload is due at poll i. */
  predicate DueAt(p: Payload, rounds: seq<Round>, i: nat)
    requires 1 <= i <= |rounds|
    decreases i, 2
  {
    p.Due(rounds[i - 1].envelope, Since(p, rounds, i))
  }

  /** The report of poll i carries the payload. */
  predicate Sends(p: Payload, rounds: seq<Round>, i: nat)
    requires i <= |rounds|
    decreases i, 3
  {
    i == 0 || (DueAt(p, rounds, i) && !rounds[i - 1].lost)
  }

  /** How many payloads were dropped at the polls strictly between j and i. */
  function Drops(p: Payload, rounds: seq<Round>, j: nat, i: nat): nat
    requires j < i <= |rounds|
  {
    if i == j + 1 then 0
    else Drops(p, rounds, j, i - 1) + (if DueAt(p, rounds, i - 1) && rounds[i - 1 - 1].lost then 1 else 0)
  }

  /** Polls j and i, with nothing sent strictly between them. */
  predicate SilentBetween(p: Payload, rounds: seq<Round>, j: nat, i: nat) {
    && j < i <= |rounds|
    && Sends(p, rounds, j)
    && forall k :: j < k < i ==> !Sends(p, rounds, k)
  }

  lemma {:induction false} SilenceStartsAtLastSent(p: Payload, rounds: seq<Round>, j: nat, i: nat)
    requires SilentBetween(p, rounds, j, i)
    ensures LastSent(p, rounds, i) == j
  {
    if i > j + 1 {
      SilenceStartsAtLastSent(p, rounds, j, i - 1);
    }
  }

  /** Validated envelopes that ask for at most `m` seconds between payloads and `q` between polls. */
  predicate Capped(p: Payload, rounds: seq<Round>, m: int, q: int) {
    && Validated(rounds)
    && forall i :: 0 <= i < |rounds| ==>
         RequestedInterval(p, rounds[i].envelope) <= m && PollSeconds(rounds[i].envelope.nextPollSeconds) <= q
  }

  lemma ValidatedIsCapped(p: Payload, rounds: seq<Round>)
    requires Validated(rounds)
    ensures Capped(p, rounds, p.MaxInterval(), MAX_NEXT_POLL_SECONDS)
  {
    forall i | 0 <= i < |rounds|
      ensures RequestedInterval(p, rounds[i].envelope) <= p.MaxInterval()
      ensures PollSeconds(rounds[i].envelope.nextPollSeconds) <= MAX_NEXT_POLL_SECONDS
    {
      assert ValidateEnvelope(rounds[i].envelope);
    }
  }

  lemma OnePoll(p: Payload, rounds: seq<Round>, m: int, q: int, i: nat)
    requires Capped(p, rounds, m, q) && 1 <= i <= |rounds|
    ensures ClockAt(rounds, i - 1) < ClockAt(rounds, i) <= ClockAt(rounds, i - 1) + q
  {}

  lemma NotDueIsRecent(p: Payload, rounds: seq<Round>, m: int, q: int, i: nat)
    requires Capped(p, rounds, m, q) && 1 <= i <= |rounds| && !DueAt(p, rounds, i)
    ensures Since(p, rounds, i) < m
  {
    assert Since(p, rounds, i) < RequestedInterval(p, rounds[i - 1].envelope);
  }

  /** The time that `n` polls take at most. */
  function Polls(n: nat, q: int): int {
    if n == 0 then 0 else Polls(n - 1, q) + q
  }

  lemma {:induction false} PollsGrow(n: nat, q: int)
    requires n >= 1 && q >= 0
    ensures Polls(n, q) >= q
  {
    if n > 1 {
      PollsGrow(n - 1, q);
    }
  }

  lemma {:induction false} MorePollsTakeLonger(n: nat, k: nat, q: int)
    requires n <= k && q >= 0
    ensures Polls(n, q) <= Polls(k, q)
  {
    if n < k {
      MorePollsTakeLonger(n, k - 1, q);
    }
  }

  lemma {:induction false} PollsMultiply(n: nat, q: int)
    ensures Polls(n, q) == n * q
  {
    if n > 0 {
      PollsMultiply(n - 1, q);
    }
  }

  /** Whatever envelopes within these caps arrive, changing every round, the time since the payload was
      last sent is less than the longest interval plus one poll, and one further poll for every sample
      that was dropped in between. */
  lemma {:induction false} CappedSilence(p: Payload, rounds: seq<Round>, m: int, q: int, j: nat, i: nat)
    requires Capped(p, rounds, m, q) && m >= 1
    requires SilentBetween(p, rounds, j, i)
    ensures ClockAt(rounds, i) - ClockAt(rounds, j) <= m - 1 + Polls(1 + Drops(p, rounds, j, i), q)
  {
    OnePoll(p, rounds, m, q, i);
    if i > j + 1 {
      SilenceStartsAtLastSent(p, rounds, j, i - 1);
      if DueAt(p, rounds, i - 1) {
        assert !Sends(p, rounds, i - 1);
        CappedSilence(p, rounds, m, q, j, i - 1);
      } else {
        NotDueIsRecent(p, rounds, m, q, i - 1);
        PollsGrow(1 + Drops(p, rounds, j, i), q);
      }
    }
  }

  /** So whatever validated envelopes arrive, the silence stays below the longest interval one can ask for
      plus one poll, and one further poll for every drop. */
  lemma SilenceIsBounded(p: Payload, rounds: seq<Round>, j: nat, i: nat)
    requires Validated(rounds)
    requires SilentBetween(p, rounds, j, i)
    ensures ClockAt(rounds, i) - ClockAt(rounds, j)
            < p.MaxInterval() + (1 + Drops(p, rounds, j, i)) * MAX_NEXT_POLL_SECONDS
  {
    ValidatedIsCapped(p, rounds);
    CappedSilence(p, rounds, p.MaxInterval(), MAX_NEXT_POLL_SECONDS, j, i);
    PollsMultiply(1 + Drops(p, rounds, j, i), MAX_NEXT_POLL_SECONDS);
  }

  predicate NothingLost(rounds: seq<Round>) {
    forall k :: 0 <= k < |rounds| ==> !rounds[k].lost
  }

  lemma {:induction false} NothingDropped(p: Payload, rounds: seq<Round>, j: nat, i: nat)
    requires j < i <= |rounds| && NothingLost(rounds)
    ensures Drops(p, rounds, j, i) == 0
  {
    if i > j + 1 {
      NothingDropped(p, rounds, j, i - 1);
    }
  }

  /** Full reports are never dropped, so no sequence of validated envelopes can keep an agent from
      one for as long as a day and an hour. */
  lemma FullReportsCannotBeSilenced(rounds: seq<Round>, j: nat, i: nat)
    requires Validated(rounds) && NothingLost(rounds)
    requires SilentBetween(Enumerations, rounds, j, i)
    ensures ClockAt(rounds, i) - ClockAt(rounds, j) < MAX_FULL_REPORT_SECONDS + MAX_NEXT_POLL_SECONDS
  {
    SilenceIsBounded(Enumerations, rounds, j, i);
    NothingDropped(Enumerations, rounds, j, i);
  }

  // ---- the bound is attained ----

  /** Caps that a validated envelope can reach. */
  predicate Caps(p: Payload, m: int, q: int) {
    p.MinInterval() <= m <= p.MaxInterval() && 1 <= q <= MAX_NEXT_POLL_SECONDS
  }

  function AskingEvery(p: Payload, m: int, poll: int): (e: Envelope)
    requires Caps(p, m, poll)
    ensures ValidateEnvelope(e) && RequestedInterval(p, e) == m && PollSeconds(e.nextPollSeconds) == poll
  {
    p.Asking(m).(nextPollSeconds := poll)
  }

  /** Round i of a session that polls a second apart until a second before the interval is over, and then at
      the longest delay, where all polls but the last find the payload due and drop it. */
  function LateRound(p: Payload, m: int, q: int, d: nat, i: nat): Round
    requires Caps(p, m, q)
  {
    Round(AskingEvery(p, m, if i >= m - 1 then q else 1), m - 1 <= i < m - 1 + d)
  }

  predicate JustMisses(p: Payload, rounds: seq<Round>, m: int, q: int, d: nat)
    requires Caps(p, m, q)
  {
    |rounds| == m + d && forall i :: 0 <= i < |rounds| ==> rounds[i] == LateRound(p, m, q, d, i)
  }

  function JustMissed(p: Payload, m: int, q: int, d: nat): (rounds: seq<Round>)
    requires Caps(p, m, q)
    ensures JustMisses(p, rounds, m, q, d)
    ensures Capped(p, rounds, m, q)
    ensures d == 0 ==> NothingLost(rounds)
  {
    seq(m + d, (i: nat) requires i < m + d => LateRound(p, m, q, d, i))
  }

  lemma {:induction false} JustMissedClock(p: Payload, rounds: seq<Round>, m: int, q: int, d: nat, i: nat)
    requires Caps(p, m, q) && JustMisses(p, rounds, m, q, d) && i <= m + d
    ensures ClockAt(rounds, i) == if i < m then i else m - 1 + Polls(i - m + 1, q)
  {
    if i > 0 {
      JustMissedClock(p, rounds, m, q, d, i - 1);
      assert rounds[i - 1] == LateRound(p, m, q, d, i - 1);
      if i == m {
        assert Polls(1, q) == Polls(0, q) + q == q;
      }
    }
  }

  lemma JustMissedIsDue(p: Payload, rounds: seq<Round>, m: int, q: int, d: nat, i: nat)
    requires Caps(p, m, q) && JustMisses(p, rounds, m, q, d) && 1 <= i <= m + d
    requires LastSent(p, rounds, i) == 0
    ensures DueAt(p, rounds, i) <==> i >= m
  {
    JustMissedClock(p, rounds, m, q, d, i);
    assert rounds[i - 1] == LateRound(p, m, q, d, i - 1);
    assert Since(p, rounds, i) == ClockAt(rounds, i);
    if i >= m {
      PollsGrow(i - m + 1, q);
    }
  }

  lemma {:induction false} JustMissedIsSilent(p: Payload, rounds: seq<Round>, m: int, q: int, d: nat, i: nat)
    requires Caps(p, m, q) && JustMisses(p, rounds, m, q, d) && 1 <= i <= m + d
    ensures SilentBetween(p, rounds, 0, i)
    ensures DueAt(p, rounds, i) <==> i >= m
    ensures Drops(p, rounds, 0, i) == if i < m then 0 else i - m
  {
    if i > 1 {
      JustMissedIsSilent(p, rounds, m, q, d, i - 1);
      assert rounds[i - 2] == LateRound(p, m, q, d, i - 2);
      assert !Sends(p, rounds, i - 1);
    }
    SilenceStartsAtLastSent(p, rounds, 0, i);
    JustMissedIsDue(p, rounds, m, q, d, i);
  }

  /** No smaller bound holds, whatever the caps and however many samples are dropped: validated envelopes
      exist under which an agent that drops `d` of them sends again only then. */
  lemma TheBoundIsAttained(p: Payload, m: int, q: int, d: nat)
    requires Caps(p, m, q)
    ensures var rounds := JustMissed(p, m, q, d);
            && SilentBetween(p, rounds, 0, m + d)
            && Drops(p, rounds, 0, m + d) == d
            && Sends(p, rounds, m + d)
            && ClockAt(rounds, m + d) - ClockAt(rounds, 0) == m - 1 + (1 + d) * q
  {
    var rounds := JustMissed(p, m, q, d);
    JustMissedIsSilent(p, rounds, m, q, d, m + d);
    JustMissedClock(p, rounds, m, q, d, m + d);
    assert rounds[m + d - 1] == LateRound(p, m, q, d, m + d - 1);
    PollsMultiply(1 + d, q);
  }

  // ---- exactly when a limit on the silence is kept ----

  ghost predicate SilenceAtMost(p: Payload, rounds: seq<Round>, d: nat, limit: int) {
    forall j: nat, i: nat :: SilentBetween(p, rounds, j, i) && Drops(p, rounds, j, i) <= d ==>
      ClockAt(rounds, i) - ClockAt(rounds, j) <= limit
  }

  /** No session within the caps is silent for longer than the limit, unless more than `d` samples are
      dropped meanwhile. */
  ghost predicate NeverSilencedFor(p: Payload, m: int, q: int, d: nat, limit: int) {
    forall rounds :: Capped(p, rounds, m, q) ==> SilenceAtMost(p, rounds, d, limit)
  }

  lemma SilenceKeepsTheLimit(p: Payload, rounds: seq<Round>, m: int, q: int, d: nat, limit: int)
    requires Caps(p, m, q) && Capped(p, rounds, m, q) && m - 1 + (1 + d) * q <= limit
    ensures SilenceAtMost(p, rounds, d, limit)
  {
    PollsMultiply(1 + d, q);
    forall j: nat, i: nat | SilentBetween(p, rounds, j, i) && Drops(p, rounds, j, i) <= d
      ensures ClockAt(rounds, i) - ClockAt(rounds, j) <= limit
    {
      CappedSilence(p, rounds, m, q, j, i);
      MorePollsTakeLonger(1 + Drops(p, rounds, j, i), 1 + d, q);
    }
  }

  /** The caps on the envelope keep a limit in every session exactly when this sum of them does. */
  lemma SilenceIsWithin(p: Payload, m: int, q: int, d: nat, limit: int)
    requires Caps(p, m, q)
    ensures NeverSilencedFor(p, m, q, d, limit) <==> m - 1 + (1 + d) * q <= limit
  {
    if m - 1 + (1 + d) * q <= limit {
      forall rounds | Capped(p, rounds, m, q)
        ensures SilenceAtMost(p, rounds, d, limit)
      {
        SilenceKeepsTheLimit(p, rounds, m, q, d, limit);
      }
    } else {
      TheBoundIsAttained(p, m, q, d);
      assert !SilenceAtMost(p, JustMissed(p, m, q, d), d, limit);
    }
  }

  /** Every session within the caps that drops nothing. */
  ghost predicate KeepsLimitUndropped(p: Payload, m: int, q: int, limit: int) {
    forall rounds :: Capped(p, rounds, m, q) && NothingLost(rounds) ==> SilenceAtMost(p, rounds, 0, limit)
  }

  /** Full reports are never dropped, and without drops the limit is kept exactly when interval and poll
      together exceed it by at most one second. With a day as the limit, this is when no response can
      silence full reports for longer than one day; the caps of the contract do not meet it. */
  lemma UndroppedSilenceIsWithin(p: Payload, m: int, q: int, limit: int)
    requires Caps(p, m, q)
    ensures KeepsLimitUndropped(p, m, q, limit) <==> m - 1 + q <= limit
  {
    if m - 1 + q <= limit {
      forall rounds | Capped(p, rounds, m, q) && NothingLost(rounds)
        ensures SilenceAtMost(p, rounds, 0, limit)
      {
        SilenceKeepsTheLimit(p, rounds, m, q, 0, limit);
      }
    } else {
      TheBoundIsAttained(p, m, q, 0);
      assert !SilenceAtMost(p, JustMissed(p, m, q, 0), 0, limit);
    }
  }
}
