/** The drop order of diagnostics events: a stable, in-place sort, and what dropping from its front keeps. */
module EventOrder {
  import opened ByteOrder
  import opened Diagnostics

  // ---- the order ----

  /** The comparison of SortDiagnosticsEvents. */
  predicate Before(e: Event, f: Event) {
    if e.atMS != f.atMS then e.atMS < f.atMS else TextBefore(e.code, f.code)
  }

  predicate AtMost(e: Event, f: Event) {
    !Before(f, e)
  }

  datatype Rank = Rank(atMS: int, code: string)

  function RankOf(e: Event): Rank {
    Rank(e.atMS, e.code)
  }

  lemma OrderOfEvents(e: Event, f: Event, g: Event)
    ensures AtMost(e, e)
    ensures AtMost(e, f) || AtMost(f, e)
    ensures AtMost(e, f) && AtMost(f, e) <==> RankOf(e) == RankOf(f)
    ensures AtMost(e, f) && AtMost(f, g) ==> AtMost(e, g)
  {
    TextOrder(e.code, f.code, g.code);
    TextOrder(e.code, e.code, e.code);
    TextAsymmetric(e.code, f.code);
  }

  // ---- what a stable sort is ----

  predicate Sorted(s: seq<Event>) {
    forall i, j :: 0 <= i < j < |s| ==> AtMost(s[i], s[j])
  }

  /** The events of one rank, in their order. */
  function Select(k: Rank, s: seq<Event>): seq<Event> {
    if s == [] then [] else (if RankOf(s[0]) == k then [s[0]] else []) + Select(k, s[1..])
  }

  /** Oldest first, ties by code, and events that tie on both in the order they came in. */
  ghost predicate StablySorted(out: seq<Event>, input: seq<Event>) {
    Sorted(out) && forall k :: Select(k, out) == Select(k, input)
  }

  lemma {:induction false} SelectConcat(k: Rank, a: seq<Event>, b: seq<Event>)
    ensures Select(k, a + b) == Select(k, a) + Select(k, b)
  {
    if a == [] {
      assert a + b == b;
    } else {
      SelectConcat(k, a[1..], b);
      assert (a + b)[1..] == a[1..] + b;
    }
  }

  lemma {:induction false} SelectNonEmpty(k: Rank, s: seq<Event>)
    ensures Select(k, s) != [] <==> exists i :: 0 <= i < |s| && RankOf(s[i]) == k
  {
    if s != [] {
      SelectNonEmpty(k, s[1..]);
      if i :| 0 <= i < |s[1..]| && RankOf(s[1..][i]) == k {
        assert RankOf(s[i + 1]) == k;
      }
      if i :| 0 <= i < |s| && RankOf(s[i]) == k {
        assert i > 0 ==> RankOf(s[1..][i - 1]) == k;
      }
    }
  }

  /** Exchanging neighbours of different rank disturbs no rank. */
  lemma SwapKeepsSelections(s: seq<Event>, j: nat, k: Rank)
    requires 0 < j < |s| && RankOf(s[j - 1]) != RankOf(s[j])
    ensures Select(k, s[j - 1 := s[j]][j := s[j - 1]]) == Select(k, s)
  {
    var a, x, y, b := s[..j - 1], s[j - 1], s[j], s[j + 1..];
    assert s == a + ([x, y] + b);
    assert s[j - 1 := y][j := x] == a + ([y, x] + b);
    SelectConcat(k, a, [x, y] + b);
    SelectConcat(k, a, [y, x] + b);
    SelectConcat(k, [x, y], b);
    SelectConcat(k, [y, x], b);
    assert [x, y][1..] == [y] && [y, x][1..] == [x];
    assert Select(k, [x, y]) == Select(k, [y, x]);
  }

  lemma SelectTail(k: Rank, s: seq<Event>)
    requires s != []
    ensures Select(k, s[1..]) == if RankOf(s[0]) == k then Select(k, s)[1..] else Select(k, s)
  {}

  lemma HeadIsLeast(a: seq<Event>, b: seq<Event>)
    requires a != [] && b != [] && Sorted(a)
    requires forall k :: Select(k, a) == Select(k, b)
    ensures AtMost(a[0], b[0])
  {
    SelectNonEmpty(RankOf(b[0]), b);
    SelectNonEmpty(RankOf(b[0]), a);
    assert Select(RankOf(b[0]), a) != [] by {
      assert RankOf(b[0]) == RankOf(b[0]);
    }
    var i :| 0 <= i < |a| && RankOf(a[i]) == RankOf(b[0]);
    OrderOfEvents(a[0], a[i], b[0]);
    OrderOfEvents(a[i], b[0], b[0]);
  }

  /** A stable sort has one result: no other sequence is sorted and keeps every rank's order. */
  lemma {:induction false} StableSortIsUnique(a: seq<Event>, b: seq<Event>)
    requires Sorted(a) && Sorted(b)
    requires forall k :: Select(k, a) == Select(k, b)
    ensures a == b
  {
    if a == [] || b == [] {
      var k := if a != [] then RankOf(a[0]) else if b != [] then RankOf(b[0]) else Rank(0, "");
      SelectNonEmpty(k, a);
      SelectNonEmpty(k, b);
    } else {
      HeadIsLeast(a, b);
      HeadIsLeast(b, a);
      OrderOfEvents(a[0], b[0], a[0]);
      assert Select(RankOf(a[0]), a)[0] == a[0] && Select(RankOf(b[0]), b)[0] == b[0];
      forall k
        ensures Select(k, a[1..]) == Select(k, b[1..])
      {
        SelectTail(k, a);
        SelectTail(k, b);
      }
      StableSortIsUnique(a[1..], b[1..]);
      assert a == [a[0]] + a[1..] && b == [b[0]] + b[1..];
    }
  }

  // ---- the sort ----

  /** Sorted up to and including index i, but for the element at index j. */
  predicate SortedBut(s: seq<Event>, i: nat, j: nat)
    requires i < |s|
  {
    forall a, b :: 0 <= a < b <= i && b != j ==> AtMost(s[a], s[b])
  }

  lemma SwapSortedBut(s: seq<Event>, i: nat, j: nat)
    requires 0 < j <= i < |s| && SortedBut(s, i, j) && Before(s[j], s[j - 1])
    ensures SortedBut(s[j - 1 := s[j]][j := s[j - 1]], i, j - 1)
    ensures RankOf(s[j - 1]) != RankOf(s[j])
  {
    var t := s[j - 1 := s[j]][j := s[j - 1]];
    OrderOfEvents(s[j], s[j - 1], s[j]);
    forall a, b | 0 <= a < b <= i && b != j - 1
      ensures AtMost(t[a], t[b])
    {
      var a' := if a == j then j - 1 else if a == j - 1 then j else a;
      if b == j {
        assert a < j - 1 ==> AtMost(s[a], s[j - 1]);
      } else {
        assert AtMost(s[a'], s[b]);
      }
    }
  }

  lemma SettledIsSorted(s: seq<Event>, i: nat, j: nat)
    requires j <= i < |s| && SortedBut(s, i, j) && (j == 0 || AtMost(s[j - 1], s[j]))
    ensures Sorted(s[..i + 1])
  {
    forall a, b | 0 <= a < b <= i
      ensures AtMost(s[a], s[b])
    {
      if b == j && a < j - 1 {
        assert AtMost(s[a], s[j - 1]);
        OrderOfEvents(s[a], s[j - 1], s[j]);
      }
    }
  }

  /** Move the event at index i down to its place among those before it. */
  method InsertLast(events: array<Event>, i: nat, ghost was: seq<Event>)
    requires i < events.Length && Sorted(events[..i])
    requires forall k :: Select(k, events[..]) == Select(k, was)
    modifies events
    ensures Sorted(events[..i + 1])
    ensures forall k :: Select(k, events[..]) == Select(k, was)
  {
    var j := i;
    assert SortedBut(events[..], i, i) by {
      assert forall a :: 0 <= a < i ==> events[..i][a] == events[..][a];
    }
    while j > 0 && Before(events[j], events[j - 1])
      invariant 0 <= j <= i
      invariant SortedBut(events[..], i, j)
      invariant forall k :: Select(k, events[..]) == Select(k, was)
    {
      ghost var s := events[..];
      SwapSortedBut(s, i, j);
      forall k
        ensures Select(k, s[j - 1 := s[j]][j := s[j - 1]]) == Select(k, was)
      {
        SwapKeepsSelections(s, j, k);
      }
      events[j], events[j - 1] := events[j - 1], events[j];
      assert events[..] == s[j - 1 := s[j]][j := s[j - 1]];
      j := j - 1;
    }
    SettledIsSorted(events[..], i, j);
    assert events[..][..i + 1] == events[..i + 1];
  }

  method SortDiagnosticsEvents(events: array<Event>)
    modifies events
    ensures StablySorted(events[..], old(events[..]))
  {
    ghost var was := events[..];
    var i := 0;
    while i < events.Length
      invariant 0 <= i <= events.Length
      invariant Sorted(events[..i])
      invariant forall k :: Select(k, events[..]) == Select(k, was)
    {
      InsertLast(events, i, was);
      i := i + 1;
    }
    assert events[..events.Length] == events[..];
  }

  // ---- consequences ----

  /** A sorted list is oldest first, and by code, in byte order, among events of one time. */
  lemma SortedMeans(s: seq<Event>)
    ensures Sorted(s) <==> forall i, j :: 0 <= i < j < |s| ==>
              || s[i].atMS < s[j].atMS
              || (s[i].atMS == s[j].atMS && (s[i].code == s[j].code || TextBefore(s[i].code, s[j].code)))
  {
    forall i, j | 0 <= i < j < |s|
      ensures AtMost(s[i], s[j]) <==>
              || s[i].atMS < s[j].atMS
              || (s[i].atMS == s[j].atMS && (s[i].code == s[j].code || TextBefore(s[i].code, s[j].code)))
    {
      TextOrder(s[i].code, s[j].code, s[i].code);
      TextAsymmetric(s[i].code, s[j].code);
    }
  }

  lemma {:induction false} SelectCounts(s: seq<Event>, e: Event)
    ensures multiset(s)[e] == multiset(Select(RankOf(e), s))[e]
  {
    if s != [] {
      SelectCounts(s[1..], e);
      assert s == [s[0]] + s[1..];
    }
  }

  /** A stable sort is a permutation, and sorting again changes nothing. */
  lemma SortedIsAPermutation(out: seq<Event>, input: seq<Event>, again: seq<Event>)
    requires StablySorted(out, input) && StablySorted(again, out)
    ensures multiset(out) == multiset(input)
    ensures again == out
  {
    forall e
      ensures multiset(out)[e] == multiset(input)[e]
    {
      SelectCounts(out, e);
      SelectCounts(input, e);
    }
    StableSortIsUnique(again, out);
  }

  /** What an agent sends after sorting and dropping the d oldest events. */
  function Dropped(r: DiagnosticsResult, sorted: seq<Event>, d: nat): DiagnosticsResult
    requires d <= |sorted|
  {
    r.(events := sorted[d..], truncated := true)
  }

  /** From an accepted result, dropping from the front of the sorted events leaves an accepted result
      exactly when at least one event survives; and every survivor is at least as new as every event dropped. */
  lemma DroppingKeepsTheNewest(r: DiagnosticsResult, sorted: seq<Event>, d: nat)
    requires AcceptedResult(r) && StablySorted(sorted, r.events) && d <= |sorted|
    ensures AcceptedResult(Dropped(r, sorted, d)) <==> d < |sorted|
    ensures sorted[..d] + Dropped(r, sorted, d).events == sorted && Dropped(r, sorted, d).truncated
    ensures forall dropped, kept :: dropped in sorted[..d] && kept in Dropped(r, sorted, d).events ==>
              dropped.atMS <= kept.atMS
    ensures |sorted| == |r.events|
  {
    forall e
      ensures multiset(sorted)[e] == multiset(r.events)[e]
    {
      SelectCounts(sorted, e);
      SelectCounts(r.events, e);
    }
    assert multiset(sorted) == multiset(r.events);
    assert |sorted| == |multiset(sorted)| == |r.events|;
    forall e | e in sorted[d..]
      ensures AcceptedEvent(e)
    {
      assert e in multiset(sorted);
      assert e in r.events;
    }
    forall dropped, kept | dropped in sorted[..d] && kept in sorted[d..]
      ensures dropped.atMS <= kept.atMS
    {
      var i :| 0 <= i < d && sorted[i] == dropped;
      var j :| 0 <= j < |sorted| - d && sorted[d..][j] == kept;
      assert AtMost(sorted[i], sorted[d + j]);
    }
  }
}
