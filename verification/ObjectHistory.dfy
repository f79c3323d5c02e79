/** What a run has been through decides where it ends and what it takes next: the state names the last
    transition that changed anything, and only that and the newest version offered matter from there on. */
module ObjectHistory {
  import opened Versions
  import opened ObjectState
  import opened ObjectRuns

  /** Transition i of the run is taken, and is no re-delivery of the version the object holds. */
  predicate Changes(s: ObjectStatus, trs: seq<Transition>, i: int) {
    && 0 <= i < |trs|
    && Permitted(Run(s, trs[..i]), trs[i])
    && (trs[i].event.EventAccepted? ==> trs[i].version != Run(s, trs[..i]).sinceVersion)
  }

  predicate LastChange(s: ObjectStatus, trs: seq<Transition>, k: int) {
    Changes(s, trs, k) && forall j :: k < j < |trs| ==> !Changes(s, trs, j)
  }

  predicate NothingChanged(s: ObjectStatus, trs: seq<Transition>) {
    forall j :: 0 <= j < |trs| ==> !Changes(s, trs, j)
  }

  lemma PrefixChanges(s: ObjectStatus, trs: seq<Transition>, i: int)
    requires trs != [] && i < |trs| - 1
    ensures Changes(s, trs[..|trs| - 1], i) <==> Changes(s, trs, i)
  {
    if 0 <= i {
      assert trs[..|trs| - 1][..i] == trs[..i];
    }
  }

  /** The history of a run without its last transition. */
  lemma PrefixHistory(s: ObjectStatus, trs: seq<Transition>, k: int)
    requires trs != [] && !Changes(s, trs, |trs| - 1)
    ensures LastChange(s, trs, k) <==> LastChange(s, trs[..|trs| - 1], k)
    ensures NothingChanged(s, trs) <==> NothingChanged(s, trs[..|trs| - 1])
  {
    var n := |trs| - 1;
    forall i | i < n
      ensures Changes(s, trs[..n], i) <==> Changes(s, trs, i)
    {
      PrefixChanges(s, trs, i);
    }
  }

  /** What a status looks like after the transition that brought it about. */
  predicate LeftBy(t: ObjectStatus, tr: Transition) {
    && (t.state.ObjectApplied? <==> tr.event.EventApplied?)
    && (t.state.ObjectRejected? <==> tr.event.EventRejected?)
    && (t.state.ObjectBlocked? <==> tr.event.EventDependencyBlocked?)
    && (t.state.ObjectPending? <==>
        tr.event.EventAccepted? || tr.event.EventRetryableFailure? || tr.event.EventDependencyReady?)
    && t.issueCode == (if tr.event.EventRejected? then tr.issueCode else "")
    && t.blockedOn == (if tr.event.EventDependencyBlocked? then tr.blockedOn else "")
    && (tr.event.EventAccepted? ==> t.sinceVersion == tr.version)
    && t.sinceVersion != NO_VERSION
    && (tr.event.EventRejected? ==> tr.issueCode != "")
  }

  lemma StepLeaves(s: ObjectStatus, tr: Transition, before: Transition)
    requires LeftBy(s, before)
    ensures var t := Advance(s, tr);
            if Permitted(s, tr) && (tr.event.EventAccepted? ==> tr.version != s.sinceVersion) then LeftBy(t, tr)
            else t == s
  {}

  lemma FirstStepLeaves(stream: string, key: string, tr: Transition)
    ensures var s := Fresh(stream, key);
            var t := Advance(s, tr);
            if Permitted(s, tr) && (tr.event.EventAccepted? ==> tr.version != s.sinceVersion) then LeftBy(t, tr)
            else t == s
  {}

  /** A run ends as the last transition that changed anything left it: applied by an Applied, rejected
      with the code of a rejection, blocked on what a block named, and pending by an accepted version, a
      retryable failure or a dependency that became ready. If nothing changed it is still fresh. */
  lemma {:induction false} StateNamesTheLastChange(stream: string, key: string, trs: seq<Transition>)
    returns (k: int)
    ensures k >= 0 ==> LastChange(Fresh(stream, key), trs, k) && LeftBy(Run(Fresh(stream, key), trs), trs[k])
    ensures k < 0 ==> NothingChanged(Fresh(stream, key), trs) && Run(Fresh(stream, key), trs) == Fresh(stream, key)
  {
    var s, n := Fresh(stream, key), |trs| - 1;
    if trs == [] {
      k := -1;
    } else {
      k := StateNamesTheLastChange(stream, key, trs[..n]);
      if k >= 0 {
        StepLeaves(Run(s, trs[..n]), trs[n], trs[..n][k]);
      } else {
        FirstStepLeaves(stream, key, trs[n]);
      }
      if Changes(s, trs, n) {
        k := n;
      } else {
        PrefixHistory(s, trs, k);
      }
    }
  }

  // ---- what is permitted next ----

  /** The last change of the run was of this kind. */
  ghost predicate LastWas(s: ObjectStatus, trs: seq<Transition>, kind: ObjectEvent -> bool) {
    exists k :: LastChange(s, trs, k) && kind(trs[k].event)
  }

  /** No committed version strictly newer than `v` has been offered. */
  predicate NothingNewerOffered(trs: seq<Transition>, v: Version) {
    forall i :: 0 <= i < |trs| && Offers(trs[i], trs[i].version) ==> !trs[i].version.Newer(v)
  }

  lemma LastChangeIsOne(s: ObjectStatus, trs: seq<Transition>, k: int, kind: ObjectEvent -> bool)
    requires LastChange(s, trs, k)
    ensures LastWas(s, trs, kind) <==> kind(trs[k].event)
  {}

  /** Each state is that of the runs whose last change was of its kind. */
  lemma StateIsDecidedByTheLastChange(stream: string, key: string, trs: seq<Transition>)
    ensures var s, t := Fresh(stream, key), Run(Fresh(stream, key), trs);
            && (t.state.ObjectUnset? <==> NothingChanged(s, trs))
            && (t.state.ObjectApplied? <==> LastWas(s, trs, (e: ObjectEvent) => e.EventApplied?))
            && (t.state.ObjectRejected? <==> LastWas(s, trs, (e: ObjectEvent) => e.EventRejected?))
            && (t.state.ObjectBlocked? <==> LastWas(s, trs, (e: ObjectEvent) => e.EventDependencyBlocked?))
            && (t.state.ObjectPending? <==>
                LastWas(s, trs, (e: ObjectEvent) =>
                  e.EventAccepted? || e.EventRetryableFailure? || e.EventDependencyReady?))
  {
    var s := Fresh(stream, key);
    var k := StateNamesTheLastChange(stream, key, trs);
    if k >= 0 {
      LastChangeIsOne(s, trs, k, (e: ObjectEvent) => e.EventApplied?);
      LastChangeIsOne(s, trs, k, (e: ObjectEvent) => e.EventRejected?);
      LastChangeIsOne(s, trs, k, (e: ObjectEvent) => e.EventDependencyBlocked?);
      LastChangeIsOne(s, trs, k, (e: ObjectEvent) =>
        e.EventAccepted? || e.EventRetryableFailure? || e.EventDependencyReady?);
    }
  }

  lemma NewestDecides(stream: string, key: string, trs: seq<Transition>, v: Version)
    ensures NothingNewerOffered(trs, v) <==> !Run(Fresh(stream, key), trs).sinceVersion.Newer(v)
  {
    RunSettlesOnTheNewest(stream, key, trs);
    var end := Run(Fresh(stream, key), trs).sinceVersion;
    if NothingNewerOffered(trs, v) && end != NO_VERSION {
      var i :| 0 <= i < |trs| && Offers(trs[i], end);
      assert Offers(trs[i], trs[i].version);
    }
  }

  /** What a run takes next, said of its history alone. Nothing but an accept is taken before the first
      change; after it Applied, retryable failures and blocks are taken unless the last change was a
      rejection, rejections with a code unless it was a block, and a dependency becomes ready exactly after
      a block. A version is taken exactly when it is committed and nothing newer was ever offered. */
  lemma NextIsDecidedByHistory(stream: string, key: string, trs: seq<Transition>, tr: Transition)
    ensures var s := Fresh(stream, key);
            var changed := !NothingChanged(s, trs);
            Permitted(Run(s, trs), tr) <==>
            match tr.event
            case EventAccepted => tr.version.Committed() && NothingNewerOffered(trs, tr.version)
            case EventApplied => changed && !LastWas(s, trs, (e: ObjectEvent) => e.EventRejected?)
            case EventRetryableFailure => changed && !LastWas(s, trs, (e: ObjectEvent) => e.EventRejected?)
            case EventRejected =>
              tr.issueCode != "" && changed && !LastWas(s, trs, (e: ObjectEvent) => e.EventDependencyBlocked?)
            case EventDependencyBlocked =>
              tr.blockedOn != "" && changed && !LastWas(s, trs, (e: ObjectEvent) => e.EventRejected?)
            case EventDependencyReady => LastWas(s, trs, (e: ObjectEvent) => e.EventDependencyBlocked?)
            case EventUnknown(_) => false
  {
    var s := Fresh(stream, key);
    var k := StateNamesTheLastChange(stream, key, trs);
    NewestDecides(stream, key, trs, tr.version);
    if k >= 0 {
      LastChangeIsOne(s, trs, k, (e: ObjectEvent) => e.EventRejected?);
      LastChangeIsOne(s, trs, k, (e: ObjectEvent) => e.EventDependencyBlocked?);
    }
  }

  /** A blocked interlude leaves no trace on a pending object. */
  lemma BlockedInterludeLeavesNoTrace(s: ObjectStatus, block: Transition, ready: Transition)
    requires Shape(s) && s.state.ObjectPending?
    requires block.event.EventDependencyBlocked? && block.blockedOn != "" && ready.event.EventDependencyReady?
    ensures Run(s, [block]).state == ObjectBlocked && Run(s, [block]).blockedOn == block.blockedOn
    ensures Run(s, [block, ready]) == s
  {
    ShortRuns(s, [block]);
    ShortRuns(s, [block, ready]);
  }
}
