/** The merge of a live transcript, from `SessionsPage.tsx`: entries arrive in any order and more than once. */
module Transcript {
  datatype Entry = Entry(id: string, createdAt: string, content: string)

  /** How the times of two entries compare: `a` does not come after `b`. */
  type Order = (string, string) -> bool

  /** A total preorder. */
  ghost predicate IsOrder(leq: Order) {
    && (forall a, b :: leq(a, b) || leq(b, a))
    && forall a, b, c :: leq(a, b) && leq(b, c) ==> leq(a, c)
  }

  predicate Before(leq: Order, x: Entry, y: Entry) {
    leq(x.createdAt, y.createdAt)
  }

  predicate Tied(leq: Order, x: Entry, y: Entry) {
    Before(leq, x, y) && Before(leq, y, x)
  }

  ghost predicate Sorted(leq: Order, s: seq<Entry>) {
    forall i, j | 0 <= i < j < |s| :: Before(leq, s[i], s[j])
  }

  predicate HasId(s: seq<Entry>, id: string) {
    exists i | 0 <= i < |s| :: s[i].id == id
  }

  ghost predicate UniqueIds(s: seq<Entry>) {
    forall i, j | 0 <= i < j < |s| :: s[i].id != s[j].id
  }

  /** Behind every entry that does not come after it. */
  function Placed(leq: Order, s: seq<Entry>, x: Entry): (r: seq<Entry>)
    ensures |r| == |s| + 1
  {
    if s == [] || Before(leq, s[|s| - 1], x) then s + [x]
    else Placed(leq, s[..|s| - 1], x) + [s[|s| - 1]]
  }

  /** The stable sort of the language. */
  function Sort(leq: Order, s: seq<Entry>): (r: seq<Entry>)
    ensures |r| == |s|
  {
    if s == [] then [] else Placed(leq, Sort(leq, s[..|s| - 1]), s[|s| - 1])
  }

  function Upsert(leq: Order, entries: seq<Entry>, next: Entry): seq<Entry> {
    if HasId(entries, next.id) then entries else Sort(leq, entries + [next])
  }

  function Merge(leq: Order, entries: seq<Entry>, events: seq<Entry>): seq<Entry> {
    if events == [] then entries else Upsert(leq, Merge(leq, entries, events[..|events| - 1]), events[|events| - 1])
  }

  // ---------------------------------------------------------------- sorting

  lemma {:induction false} PlacedKeeps(leq: Order, s: seq<Entry>, x: Entry)
    ensures multiset(Placed(leq, s, x)) == multiset(s) + multiset{x}
  {
    if s != [] && !Before(leq, s[|s| - 1], x) {
      var front, last := s[..|s| - 1], s[|s| - 1];
      PlacedKeeps(leq, front, x);
      assert s == front + [last];
    }
  }

  lemma {:induction false} PlacedSorted(leq: Order, s: seq<Entry>, x: Entry)
    requires IsOrder(leq) && Sorted(leq, s)
    ensures Sorted(leq, Placed(leq, s, x))
  {
    if s != [] && !Before(leq, s[|s| - 1], x) {
      var front, last := s[..|s| - 1], s[|s| - 1];
      var r := Placed(leq, front, x);
      PlacedSorted(leq, front, x);
      PlacedKeeps(leq, front, x);
      forall i | 0 <= i < |r| ensures Before(leq, r[i], last) {
        assert r[i] in multiset(r);
        assert r[i] == x || r[i] in front;
      }
    }
  }

  /** The entries that are tied with `x`, in order. */
  function TiedWith(leq: Order, s: seq<Entry>, x: Entry): seq<Entry> {
    if s == [] then []
    else TiedWith(leq, s[..|s| - 1], x) + if Tied(leq, s[|s| - 1], x) then [s[|s| - 1]] else []
  }

  lemma {:induction false} PlacedStable(leq: Order, s: seq<Entry>, y: Entry, x: Entry)
    requires IsOrder(leq)
    ensures TiedWith(leq, Placed(leq, s, y), x) == TiedWith(leq, s + [y], x)
  {
    assert (s + [y])[..|s|] == s;
    if s != [] && !Before(leq, s[|s| - 1], y) {
      var front, last := s[..|s| - 1], s[|s| - 1];
      PlacedStable(leq, front, y, x);
      assert (front + [y])[..|front|] == front;
      assert (Placed(leq, front, y) + [last])[..|s|] == Placed(leq, front, y);
      assert !(Tied(leq, last, x) && Tied(leq, y, x));
    }
  }

  /** Sorting orders the entries, keeps all of them, and keeps tied ones as they were: no other result does. */
  lemma {:induction false} SortSorts(leq: Order, s: seq<Entry>, x: Entry)
    requires IsOrder(leq)
    ensures Sorted(leq, Sort(leq, s))
    ensures multiset(Sort(leq, s)) == multiset(s)
    ensures TiedWith(leq, Sort(leq, s), x) == TiedWith(leq, s, x)
  {
    if s != [] {
      var front, last := s[..|s| - 1], s[|s| - 1];
      SortSorts(leq, front, x);
      PlacedSorted(leq, Sort(leq, front), last);
      PlacedKeeps(leq, Sort(leq, front), last);
      PlacedStable(leq, Sort(leq, front), last, x);
      assert s == front + [last];
      assert (Sort(leq, front) + [last])[..|front|] == Sort(leq, front);
    }
  }

  // ---------------------------------------------------------------- merging

  lemma UniqueByCount(s: seq<Entry>, t: seq<Entry>)
    requires UniqueIds(s) && multiset(s) == multiset(t)
    ensures UniqueIds(t)
  {
    forall i, j | 0 <= i < j < |t| ensures t[i].id != t[j].id {
      assert t[i] in multiset(s) && t[j] in multiset(s);
      if t[i].id == t[j].id {
        var a :| 0 <= a < |s| && s[a] == t[i];
        var b :| 0 <= b < |s| && s[b] == t[j];
        assert a == b;
        TwiceCounts(t, i, j);
        OnceCounts(s, a);
      }
    }
  }

  lemma TwiceCounts(t: seq<Entry>, i: nat, j: nat)
    requires i < j < |t| && t[i] == t[j]
    ensures multiset(t)[t[i]] >= 2
  {
    assert t == t[..i] + [t[i]] + t[i + 1..j] + [t[j]] + t[j + 1..];
  }

  lemma OnceCounts(s: seq<Entry>, a: nat)
    requires UniqueIds(s) && a < |s|
    ensures multiset(s)[s[a]] == 1
  {
    assert s == s[..a] + [s[a]] + s[a + 1..];
    assert s[a] !in s[..a] && s[a] !in s[a + 1..];
  }

  /** Whatever arrives, no entry is there twice, and from the first new entry on the list is sorted. */
  lemma {:induction false} MergeKeeps(leq: Order, entries: seq<Entry>, events: seq<Entry>)
    requires IsOrder(leq) && UniqueIds(entries)
    ensures UniqueIds(Merge(leq, entries, events))
    ensures Merge(leq, entries, events) == entries || Sorted(leq, Merge(leq, entries, events))
  {
    if events != [] {
      var front, next := Merge(leq, entries, events[..|events| - 1]), events[|events| - 1];
      MergeKeeps(leq, entries, events[..|events| - 1]);
      if !HasId(front, next.id) {
        SortSorts(leq, front + [next], next);
        UniqueByCount(front + [next], Sort(leq, front + [next]));
      }
    }
  }

  /** An entry that is on the list stays as it is, also when another one arrives with its id. */
  lemma {:induction false} MergeDropsNothing(leq: Order, entries: seq<Entry>, events: seq<Entry>, x: Entry)
    requires IsOrder(leq) && x in entries
    ensures x in Merge(leq, entries, events)
  {
    if events != [] {
      var front, next := Merge(leq, entries, events[..|events| - 1]), events[|events| - 1];
      MergeDropsNothing(leq, entries, events[..|events| - 1], x);
      SortSorts(leq, front + [next], next);
      assert x in multiset(front + [next]);
      assert x in Sort(leq, front + [next]) <==> x in multiset(Sort(leq, front + [next]));
    }
  }

  /** An id always comes with the same entry. */
  ghost predicate OneEntryPerId(s: seq<Entry>) {
    forall x, y | x in s && y in s && x.id == y.id :: x == y
  }

  lemma {:induction false} MergeHolds(leq: Order, entries: seq<Entry>, events: seq<Entry>, x: Entry)
    requires IsOrder(leq) && OneEntryPerId(entries + events)
    ensures x in Merge(leq, entries, events) <==> x in entries || x in events
  {
    if events != [] {
      var before, next := events[..|events| - 1], events[|events| - 1];
      var front := Merge(leq, entries, before);
      assert events == before + [next];
      assert forall y | y in entries + before :: y in entries + events;
      MergeHolds(leq, entries, before, x);
      if HasId(front, next.id) {
        var i :| 0 <= i < |front| && front[i].id == next.id;
        MergeHolds(leq, entries, before, front[i]);
        assert front[i] in entries + events && next in entries + events;
        assert next in front;
      } else {
        SortSorts(leq, front + [next], next);
        assert x in Sort(leq, front + [next]) <==> x in multiset(Sort(leq, front + [next]));
      }
    }
  }

  lemma SameCounts(s: seq<Entry>, t: seq<Entry>)
    requires UniqueIds(s) && UniqueIds(t) && forall x :: x in s <==> x in t
    ensures multiset(s) == multiset(t)
  {
    forall x ensures multiset(s)[x] == multiset(t)[x] {
      if x in s {
        var i :| 0 <= i < |s| && s[i] == x;
        var j :| 0 <= j < |t| && t[j] == x;
        OnceCounts(s, i);
        OnceCounts(t, j);
      } else {
        assert multiset(s)[x] == 0 && multiset(t)[x] == 0;
      }
    }
  }

  /** The first of a sorted list, found in another one with the same entries. */
  lemma HeadIsTied(leq: Order, s: seq<Entry>, t: seq<Entry>, j: nat)
    requires IsOrder(leq) && Sorted(leq, s) && Sorted(leq, t) && multiset(s) == multiset(t)
    requires s != [] && j < |t| && t[j] == s[0]
    ensures forall k | 0 <= k <= j :: Tied(leq, t[k], s[0])
  {
    forall k | 0 <= k <= j ensures Tied(leq, t[k], s[0]) {
      assert t[k] in multiset(s);
      var i :| 0 <= i < |s| && s[i] == t[k];
    }
  }

  function WithoutAt(t: seq<Entry>, j: nat): seq<Entry>
    requires j < |t|
  {
    t[..j] + t[j + 1..]
  }

  lemma WithoutAtIs(t: seq<Entry>, j: nat, k: nat)
    requires j < |t| && k < |t| - 1
    ensures WithoutAt(t, j)[k] == t[if k < j then k else k + 1]
  {
  }

  lemma WithoutAtSorted(leq: Order, t: seq<Entry>, j: nat)
    requires j < |t| && Sorted(leq, t)
    ensures Sorted(leq, WithoutAt(t, j))
  {
    forall k, l | 0 <= k < l < |t| - 1 ensures Before(leq, WithoutAt(t, j)[k], WithoutAt(t, j)[l]) {
      WithoutAtIs(t, j, k);
      WithoutAtIs(t, j, l);
    }
  }

  lemma WithoutAtCounts(t: seq<Entry>, j: nat)
    requires j < |t|
    ensures multiset(t) == multiset(WithoutAt(t, j)) + multiset{t[j]}
  {
    assert t == t[..j] + [t[j]] + t[j + 1..];
  }

  lemma SameLength(s: seq<Entry>, t: seq<Entry>)
    requires multiset(s) == multiset(t)
    ensures |s| == |t|
  {
    assert |multiset(s)| == |s| && |multiset(t)| == |t|;
  }

  lemma TiedThrough(leq: Order, a: Entry, b: Entry, c: Entry)
    requires IsOrder(leq) && Tied(leq, a, b) && Tied(leq, b, c)
    ensures Tied(leq, a, c) && Tied(leq, c, a)
  {
  }

  /** What is tied without the two firsts is tied with them. */
  lemma TiedWithHeads(leq: Order, s: seq<Entry>, t: seq<Entry>, j: nat, n: nat)
    requires IsOrder(leq) && 0 < n < |s| == |t| && j < |t|
    requires forall k | 0 <= k <= j :: Tied(leq, t[k], s[0])
    requires Tied(leq, WithoutAt(s, 0)[n - 1], WithoutAt(t, j)[n - 1])
    ensures Tied(leq, s[n], t[n])
  {
    WithoutAtIs(s, 0, n - 1);
    WithoutAtIs(t, j, n - 1);
    if n <= j {
      assert Tied(leq, t[n - 1], s[0]) && Tied(leq, t[n], s[0]);
      TiedThrough(leq, t[n - 1], s[0], t[n]);
      TiedThrough(leq, s[n], t[n - 1], t[n]);
    }
  }

  lemma RestsCount(s: seq<Entry>, t: seq<Entry>, j: nat)
    requires s != [] && j < |t| && t[j] == s[0] && multiset(s) == multiset(t)
    ensures multiset(WithoutAt(s, 0)) == multiset(WithoutAt(t, j))
  {
    WithoutAtCounts(s, 0);
    WithoutAtCounts(t, j);
    assert multiset(WithoutAt(s, 0)) == multiset(s) - multiset{s[0]};
    assert multiset(WithoutAt(t, j)) == multiset(t) - multiset{t[j]};
  }

  /** Two sorted lists of the same entries differ among ties only. */
  lemma {:induction false} SortedAreTied(leq: Order, s: seq<Entry>, t: seq<Entry>, n: nat)
    requires IsOrder(leq) && Sorted(leq, s) && Sorted(leq, t) && multiset(s) == multiset(t)
    ensures |s| == |t| && (n < |s| ==> Tied(leq, s[n], t[n]))
    decreases n
  {
    SameLength(s, t);
    if n < |s| {
      assert s[0] in multiset(t);
      var j :| 0 <= j < |t| && t[j] == s[0];
      HeadIsTied(leq, s, t, j);
      if n == 0 {
        assert Tied(leq, t[0], s[0]);
      } else {
        WithoutAtSorted(leq, s, 0);
        WithoutAtSorted(leq, t, j);
        RestsCount(s, t, j);
        SortedAreTied(leq, WithoutAt(s, 0), WithoutAt(t, j), n - 1);
        TiedWithHeads(leq, s, t, j, n);
      }
    }
  }

  // ---------------------------------------------------------------- what a merge comes to

  /** The entries that are new to the list, in the order in which they first arrive. */
  function Fresh(entries: seq<Entry>, events: seq<Entry>): seq<Entry> {
    if events == [] then []
    else
      var front, last := Fresh(entries, events[..|events| - 1]), events[|events| - 1];
      if HasId(entries + front, last.id) then front else front + [last]
  }

  lemma SortedFront(leq: Order, s: seq<Entry>)
    requires Sorted(leq, s) && s != []
    ensures Sorted(leq, s[..|s| - 1])
    ensures Placed(leq, s[..|s| - 1], s[|s| - 1]) == s
  {
    var front := s[..|s| - 1];
    assert s == front + [s[|s| - 1]];
    if front != [] {
      assert Before(leq, s[|s| - 2], s[|s| - 1]) && front[|front| - 1] == s[|s| - 2];
    }
  }

  lemma {:induction false} SortSame(leq: Order, s: seq<Entry>)
    requires Sorted(leq, s)
    ensures Sort(leq, s) == s
    decreases |s|
  {
    if s != [] {
      SortedFront(leq, s);
      SortSame(leq, s[..|s| - 1]);
    }
  }

  lemma SortOnce(leq: Order, s: seq<Entry>, x: Entry)
    requires IsOrder(leq)
    ensures Sort(leq, Sort(leq, s) + [x]) == Sort(leq, s + [x])
  {
    SortSorts(leq, s, x);
    SortSame(leq, Sort(leq, s));
    assert (Sort(leq, s) + [x])[..|s|] == Sort(leq, s) && (s + [x])[..|s|] == s;
  }

  lemma SameIds(s: seq<Entry>, t: seq<Entry>, id: string)
    requires multiset(s) == multiset(t)
    ensures HasId(s, id) <==> HasId(t, id)
  {
    if HasId(s, id) {
      var i :| 0 <= i < |s| && s[i].id == id;
      assert s[i] in multiset(t);
    }
    if HasId(t, id) {
      var i :| 0 <= i < |t| && t[i].id == id;
      assert t[i] in multiset(s);
    }
  }

  lemma SortKeepsIds(leq: Order, s: seq<Entry>, x: Entry)
    requires IsOrder(leq)
    ensures HasId(Sort(leq, s), x.id) <==> HasId(s, x.id)
  {
    SortSorts(leq, s, x);
    SameIds(s, Sort(leq, s), x.id);
  }

  /** The list as it is once `front` has been new to it. */
  function Merged(leq: Order, entries: seq<Entry>, front: seq<Entry>): seq<Entry> {
    if front == [] then entries else Sort(leq, entries + front)
  }

  lemma MergedIds(leq: Order, entries: seq<Entry>, front: seq<Entry>, x: Entry)
    requires IsOrder(leq)
    ensures HasId(Merged(leq, entries, front), x.id) <==> HasId(entries + front, x.id)
  {
    if front == [] {
      assert entries + front == entries;
    } else {
      SortKeepsIds(leq, entries + front, x);
    }
  }

  lemma MergedNext(leq: Order, entries: seq<Entry>, front: seq<Entry>, next: Entry)
    requires IsOrder(leq)
    ensures Sort(leq, Merged(leq, entries, front) + [next]) == Merged(leq, entries, front + [next])
  {
    assert entries + front + [next] == entries + (front + [next]);
    if front == [] {
      assert entries + front == entries;
    } else {
      SortOnce(leq, entries + front, next);
    }
  }

  /** The list stays as it was while nothing new arrives; then it is the old list and the new entries,
      sorted once. */
  lemma {:induction false} MergeIsOneSort(leq: Order, entries: seq<Entry>, events: seq<Entry>)
    requires IsOrder(leq)
    ensures Merge(leq, entries, events) == Merged(leq, entries, Fresh(entries, events))
    decreases |events|
  {
    if events != [] {
      var before, next := events[..|events| - 1], events[|events| - 1];
      var front := Fresh(entries, before);
      MergeIsOneSort(leq, entries, before);
      MergedIds(leq, entries, front, next);
      MergedNext(leq, entries, front, next);
    }
  }

  /** The same entries, in any order and as often as you like. */
  ghost predicate SameMembers(a: seq<Entry>, b: seq<Entry>) {
    forall x :: x in a <==> x in b
  }

  lemma {:induction false} FreshUnique(entries: seq<Entry>, events: seq<Entry>)
    requires UniqueIds(entries)
    ensures UniqueIds(entries + Fresh(entries, events))
  {
    if events != [] {
      FreshUnique(entries, events[..|events| - 1]);
      var front, last := Fresh(entries, events[..|events| - 1]), events[|events| - 1];
      if !HasId(entries + front, last.id) {
        assert entries + (front + [last]) == entries + front + [last];
      }
    } else {
      assert entries + [] == entries;
    }
  }

  lemma IdOfMember(s: seq<Entry>, t: seq<Entry>, x: Entry)
    ensures x in s ==> HasId(s + t, x.id)
  {
    if x in s {
      var i :| 0 <= i < |s| && s[i] == x;
      assert (s + t)[i] == x;
    }
  }

  lemma {:induction false} FreshHolds(entries: seq<Entry>, events: seq<Entry>, x: Entry)
    requires OneEntryPerId(entries + events)
    ensures x in Fresh(entries, events) <==> x in events && x !in entries
  {
    if events != [] {
      var before, last := events[..|events| - 1], events[|events| - 1];
      var front := Fresh(entries, before);
      assert events == before + [last];
      assert forall y | y in entries + before :: y in entries + events;
      FreshHolds(entries, before, x);
      FreshHolds(entries, before, last);
      if HasId(entries + front, last.id) {
        var i :| 0 <= i < |entries + front| && (entries + front)[i].id == last.id;
        var y := (entries + front)[i];
        FreshHolds(entries, before, y);
        assert y in entries || y in front;
        assert y in entries + events && last in entries + events;
      }
      IdOfMember(entries, front, last);
    }
  }

  lemma FreshCounts(entries: seq<Entry>, a: seq<Entry>, b: seq<Entry>)
    requires UniqueIds(entries) && OneEntryPerId(entries + a) && OneEntryPerId(entries + b) && SameMembers(a, b)
    ensures multiset(entries + Fresh(entries, a)) == multiset(entries + Fresh(entries, b))
    ensures Fresh(entries, a) == [] <==> Fresh(entries, b) == []
  {
    forall x ensures x in Fresh(entries, a) <==> x in Fresh(entries, b) {
      FreshHolds(entries, a, x);
      FreshHolds(entries, b, x);
    }
    FreshUnique(entries, a);
    FreshUnique(entries, b);
    SameCounts(entries + Fresh(entries, a), entries + Fresh(entries, b));
    SameEmpty(Fresh(entries, a), Fresh(entries, b));
  }

  lemma SameEmpty(a: seq<Entry>, b: seq<Entry>)
    requires SameMembers(a, b)
    ensures a == [] <==> b == []
  {
    assert a != [] ==> a[0] in b;
    assert b != [] ==> b[0] in a;
  }

  /** Into whatever list they are merged: the order in which the entries arrive, and how often, shows only
      among entries of the same time. */
  lemma ArrivalOrderShowsAmongTiesOnly(leq: Order, entries: seq<Entry>, a: seq<Entry>, b: seq<Entry>, n: nat)
    requires IsOrder(leq) && UniqueIds(entries)
    requires OneEntryPerId(entries + a) && OneEntryPerId(entries + b) && SameMembers(a, b)
    ensures |Merge(leq, entries, a)| == |Merge(leq, entries, b)|
    ensures n < |Merge(leq, entries, a)| ==> Tied(leq, Merge(leq, entries, a)[n], Merge(leq, entries, b)[n])
  {
    var s, t := entries + Fresh(entries, a), entries + Fresh(entries, b);
    MergeIsOneSort(leq, entries, a);
    MergeIsOneSort(leq, entries, b);
    FreshCounts(entries, a, b);
    if Fresh(entries, a) != [] {
      AnySort(leq, s);
      AnySort(leq, t);
      SortedAreTied(leq, Sort(leq, s), Sort(leq, t), n);
    }
  }

  /** Tied entries come in the same order. */
  ghost predicate SameTies(leq: Order, s: seq<Entry>, t: seq<Entry>) {
    forall x :: TiedWith(leq, s, x) == TiedWith(leq, t, x)
  }

  lemma AnySort(leq: Order, s: seq<Entry>)
    requires IsOrder(leq)
    ensures Sorted(leq, Sort(leq, s)) && multiset(Sort(leq, s)) == multiset(s)
    ensures SameTies(leq, Sort(leq, s), s)
  {
    forall x ensures TiedWith(leq, Sort(leq, s), x) == TiedWith(leq, s, x) {
      SortSorts(leq, s, x);
    }
    SortSorts(leq, s, Entry("", "", ""));
  }

  // ---------------------------------------------------------------- when the order does not show at all

  lemma {:induction false} TiedWithConcat(leq: Order, s: seq<Entry>, t: seq<Entry>, x: Entry)
    ensures TiedWith(leq, s + t, x) == TiedWith(leq, s, x) + TiedWith(leq, t, x)
  {
    if t == [] {
      assert s + t == s;
    } else {
      var n := |t| - 1;
      assert (s + t)[..|s + t| - 1] == s + t[..n];
      TiedWithConcat(leq, s, t[..n], x);
    }
  }

  lemma {:induction false} TiedWithHolds(leq: Order, s: seq<Entry>, x: Entry, y: Entry)
    ensures y in TiedWith(leq, s, x) <==> y in s && Tied(leq, y, x)
  {
    if s != [] {
      assert s == s[..|s| - 1] + [s[|s| - 1]];
      TiedWithHolds(leq, s[..|s| - 1], x, y);
    }
  }

  lemma {:induction false} TiedWithUnique(leq: Order, s: seq<Entry>, x: Entry)
    requires UniqueIds(s)
    ensures UniqueIds(TiedWith(leq, s, x))
  {
    if s != [] {
      var front, last := s[..|s| - 1], s[|s| - 1];
      TiedWithUnique(leq, front, x);
      forall y | y in TiedWith(leq, front, x) ensures y.id != last.id {
        TiedWithHolds(leq, front, x, y);
        assert y in front;
      }
    }
  }

  lemma TiedWithLast(leq: Order, front: seq<Entry>, last: Entry, x: Entry)
    ensures TiedWith(leq, front + [last], x) == if Tied(leq, last, x) then TiedWith(leq, front, x) + [last] else TiedWith(leq, front, x)
  {
    assert (front + [last])[..|front|] == front;
  }

  lemma FrontBack(s: seq<Entry>)
    requires s != []
    ensures s == s[..|s| - 1] + [s[|s| - 1]]
  {
  }

  lemma TiesWithoutLast(leq: Order, a: seq<Entry>, b: seq<Entry>, last: Entry)
    requires SameTies(leq, a + [last], b + [last])
    ensures SameTies(leq, a, b)
  {
    forall x ensures TiedWith(leq, a, x) == TiedWith(leq, b, x) {
      TiedWithLast(leq, a, last, x);
      TiedWithLast(leq, b, last, x);
      assert TiedWith(leq, a + [last], x) == TiedWith(leq, b + [last], x);
      SameFronts(TiedWith(leq, a, x), TiedWith(leq, b, x), last);
    }
  }

  lemma SameFronts(a: seq<Entry>, b: seq<Entry>, last: Entry)
    ensures a + [last] == b + [last] ==> a == b
  {
    assert (a + [last])[..|a + [last]| - 1] == a && (b + [last])[..|b + [last]| - 1] == b;
  }

  lemma SameLasts(leq: Order, a: seq<Entry>, x: Entry, b: seq<Entry>, y: Entry)
    requires SameTies(leq, a + [x], b + [y]) && Tied(leq, x, x) && Tied(leq, y, x)
    ensures x == y
  {
    TiedWithLast(leq, a, x, x);
    TiedWithLast(leq, b, y, x);
    var s, t := TiedWith(leq, a + [x], x), TiedWith(leq, b + [y], x);
    assert s[|s| - 1] == x && t[|t| - 1] == y;
  }

  /** The last of a sorted list is the last of those tied with it, in every list of the same entries. */
  lemma LastIsSame(leq: Order, s: seq<Entry>, t: seq<Entry>)
    requires IsOrder(leq) && Sorted(leq, s) && Sorted(leq, t) && multiset(s) == multiset(t) && s != []
    requires SameTies(leq, s, t)
    ensures t != [] && s[|s| - 1] == t[|t| - 1]
  {
    SortedAreTied(leq, s, t, |s| - 1);
    FrontBack(s);
    FrontBack(t);
    SameLasts(leq, s[..|s| - 1], s[|s| - 1], t[..|t| - 1], t[|t| - 1]);
  }

  lemma FrontCounts(s: seq<Entry>, t: seq<Entry>)
    requires s != [] && t != [] && multiset(s) == multiset(t) && s[|s| - 1] == t[|t| - 1]
    ensures multiset(s[..|s| - 1]) == multiset(t[..|t| - 1])
  {
    FrontBack(s);
    FrontBack(t);
    assert multiset(s[..|s| - 1]) == multiset(s) - multiset{s[|s| - 1]};
    assert multiset(t[..|t| - 1]) == multiset(t) - multiset{t[|t| - 1]};
  }

  /** Order, entries and the order among ties determine the list. */
  lemma {:induction false} StableIsUnique(leq: Order, s: seq<Entry>, t: seq<Entry>)
    requires IsOrder(leq) && Sorted(leq, s) && Sorted(leq, t) && multiset(s) == multiset(t)
    requires SameTies(leq, s, t)
    ensures s == t
    decreases |s|
  {
    SameLength(s, t);
    if s != [] {
      LastIsSame(leq, s, t);
      FrontCounts(s, t);
      FrontBack(s);
      FrontBack(t);
      TiesWithoutLast(leq, s[..|s| - 1], t[..|t| - 1], s[|s| - 1]);
      StableIsUnique(leq, s[..|s| - 1], t[..|t| - 1]);
    }
  }

  /** No two of the new entries have the same time. */
  ghost predicate NoNewTies(leq: Order, entries: seq<Entry>, events: seq<Entry>) {
    forall x, y | x in events && y in events && x !in entries && y !in entries && Tied(leq, x, y) :: x == y
  }

  lemma AtMostOneTied(leq: Order, entries: seq<Entry>, a: seq<Entry>, x: Entry)
    requires IsOrder(leq) && UniqueIds(entries) && OneEntryPerId(entries + a) && NoNewTies(leq, entries, a)
    ensures |TiedWith(leq, Fresh(entries, a), x)| <= 1
  {
    var tied := TiedWith(leq, Fresh(entries, a), x);
    FreshUnique(entries, a);
    UniqueBehind(entries, Fresh(entries, a));
    TiedWithUnique(leq, Fresh(entries, a), x);
    if |tied| > 1 {
      TiedWithHolds(leq, Fresh(entries, a), x, tied[0]);
      TiedWithHolds(leq, Fresh(entries, a), x, tied[1]);
      FreshHolds(entries, a, tied[0]);
      FreshHolds(entries, a, tied[1]);
      TiedThrough(leq, tied[0], x, tied[1]);
    }
  }

  lemma UniqueBehind(a: seq<Entry>, b: seq<Entry>)
    requires UniqueIds(a + b)
    ensures UniqueIds(b)
  {
    forall i, j | 0 <= i < j < |b| ensures b[i].id != b[j].id {
      assert (a + b)[|a| + i] == b[i] && (a + b)[|a| + j] == b[j];
    }
  }

  lemma TiedMembers(leq: Order, entries: seq<Entry>, a: seq<Entry>, x: Entry, y: Entry)
    requires OneEntryPerId(entries + a)
    ensures y in TiedWith(leq, Fresh(entries, a), x) <==> y in a && y !in entries && Tied(leq, y, x)
  {
    TiedWithHolds(leq, Fresh(entries, a), x, y);
    FreshHolds(entries, a, y);
  }

  lemma SameSingle(s: seq<Entry>, t: seq<Entry>)
    requires |s| <= 1 && |t| <= 1 && SameMembers(s, t)
    ensures s == t
  {
    assert |s| == 1 ==> s[0] in t;
    assert |t| == 1 ==> t[0] in s;
  }

  lemma SameTied(leq: Order, entries: seq<Entry>, a: seq<Entry>, b: seq<Entry>, x: Entry)
    requires IsOrder(leq) && UniqueIds(entries) && NoNewTies(leq, entries, a)
    requires OneEntryPerId(entries + a) && OneEntryPerId(entries + b) && SameMembers(a, b)
    ensures TiedWith(leq, Fresh(entries, a), x) == TiedWith(leq, Fresh(entries, b), x)
  {
    var s, t := TiedWith(leq, Fresh(entries, a), x), TiedWith(leq, Fresh(entries, b), x);
    AtMostOneTied(leq, entries, a, x);
    AtMostOneTied(leq, entries, b, x);
    forall y ensures y in s <==> y in t {
      TiedMembers(leq, entries, a, x, y);
      TiedMembers(leq, entries, b, x, y);
    }
    SameSingle(s, t);
  }

  lemma NoTiesNoDifference(leq: Order, entries: seq<Entry>, a: seq<Entry>, b: seq<Entry>)
    requires IsOrder(leq) && UniqueIds(entries) && NoNewTies(leq, entries, a)
    requires OneEntryPerId(entries + a) && OneEntryPerId(entries + b) && SameMembers(a, b)
    ensures Merge(leq, entries, a) == Merge(leq, entries, b)
  {
    var s, t := entries + Fresh(entries, a), entries + Fresh(entries, b);
    MergeIsOneSort(leq, entries, a);
    MergeIsOneSort(leq, entries, b);
    FreshCounts(entries, a, b);
    AnySort(leq, s);
    AnySort(leq, t);
    forall x ensures TiedWith(leq, Sort(leq, s), x) == TiedWith(leq, Sort(leq, t), x) {
      SameTied(leq, entries, a, b, x);
      TiedWithConcat(leq, entries, Fresh(entries, a), x);
      TiedWithConcat(leq, entries, Fresh(entries, b), x);
    }
    StableIsUnique(leq, Sort(leq, s), Sort(leq, t));
  }

  lemma {:induction false} FreshGrows(entries: seq<Entry>, a: seq<Entry>, b: seq<Entry>)
    ensures Fresh(entries, a) <= Fresh(entries, a + b)
  {
    if b == [] {
      assert a + b == a;
    } else {
      assert (a + b)[..|a + b| - 1] == a + b[..|b| - 1];
      FreshGrows(entries, a, b[..|b| - 1]);
    }
  }

  lemma NewHasNoId(entries: seq<Entry>, events: seq<Entry>, x: Entry)
    requires OneEntryPerId(entries + events) && x in events && x !in entries
    ensures !HasId(entries, x.id)
  {
    forall i | 0 <= i < |entries| ensures entries[i].id != x.id {
      assert x in entries + events;
      assert entries[i] in entries + events;
    }
  }

  lemma FreshFirst(entries: seq<Entry>, x: Entry, rest: seq<Entry>)
    requires !HasId(entries, x.id)
    ensures Fresh(entries, [x] + rest) != [] && Fresh(entries, [x] + rest)[0] == x
  {
    assert [x][..0] == [] && entries + [] == entries;
    assert Fresh(entries, [x]) == [x];
    FreshGrows(entries, [x], rest);
  }

  lemma FirstTied(leq: Order, entries: seq<Entry>, added: seq<Entry>, z: Entry)
    requires added != [] && Tied(leq, added[0], z)
    ensures var m, k := TiedWith(leq, entries + added, z), |TiedWith(leq, entries, z)|;
            k < |m| && m[k] == added[0]
  {
    assert added == [added[0]] + added[1..];
    TiedWithConcat(leq, entries, added, z);
    TiedWithConcat(leq, [added[0]], added[1..], z);
    assert [added[0]][..0] == [];
    assert TiedWith(leq, [added[0]], z) == [added[0]];
  }

  /** The new entry that arrives first is the first of the new ones among those of its time. */
  lemma FirstInMerge(leq: Order, entries: seq<Entry>, x: Entry, rest: seq<Entry>, z: Entry)
    requires IsOrder(leq) && !HasId(entries, x.id) && Tied(leq, x, z)
    ensures var m, k := TiedWith(leq, Merge(leq, entries, [x] + rest), z), |TiedWith(leq, entries, z)|;
            k < |m| && m[k] == x
  {
    var added := Fresh(entries, [x] + rest);
    FreshFirst(entries, x, rest);
    MergeIsOneSort(leq, entries, [x] + rest);
    SortSorts(leq, entries + added, z);
    FirstTied(leq, entries, added, z);
  }

  /** Every other order of arrival, and every repetition, gives the same list. */
  ghost predicate DoesNotShow(leq: Order, entries: seq<Entry>, a: seq<Entry>) {
    forall b | SameMembers(a, b) :: Merge(leq, entries, b) == Merge(leq, entries, a)
  }

  lemma TiesShow(leq: Order, entries: seq<Entry>, a: seq<Entry>, x: Entry, y: Entry)
    requires IsOrder(leq) && UniqueIds(entries) && OneEntryPerId(entries + a)
    requires x in a && y in a && x !in entries && y !in entries && x != y && Tied(leq, x, y)
    ensures !DoesNotShow(leq, entries, a)
  {
    NewHasNoId(entries, a, x);
    NewHasNoId(entries, a, y);
    FirstInMerge(leq, entries, x, a, x);
    FirstInMerge(leq, entries, y, a, x);
    assert SameMembers(a, [x] + a) && SameMembers(a, [y] + a);
    assert Merge(leq, entries, [x] + a) != Merge(leq, entries, [y] + a);
  }

  lemma NoTiesDoNotShow(leq: Order, entries: seq<Entry>, a: seq<Entry>)
    requires IsOrder(leq) && UniqueIds(entries) && OneEntryPerId(entries + a) && NoNewTies(leq, entries, a)
    ensures DoesNotShow(leq, entries, a)
  {
    forall b | SameMembers(a, b) ensures Merge(leq, entries, b) == Merge(leq, entries, a) {
      assert forall x | x in entries + b :: x in entries + a;
      NoTiesNoDifference(leq, entries, a, b);
    }
  }

  /** The order of arrival does not show at all if and only if no two of the new entries have the same time. */
  lemma ArrivalOrderDoesNotShowIff(leq: Order, entries: seq<Entry>, a: seq<Entry>)
    requires IsOrder(leq) && UniqueIds(entries) && OneEntryPerId(entries + a)
    ensures DoesNotShow(leq, entries, a) <==> NoNewTies(leq, entries, a)
  {
    if NoNewTies(leq, entries, a) {
      NoTiesDoNotShow(leq, entries, a);
    } else {
      var x, y :| x in a && y in a && x !in entries && y !in entries && Tied(leq, x, y) && x != y;
      TiesShow(leq, entries, a, x, y);
    }
  }

  /** Two entries of one time, in the two orders in which they can arrive. */
  lemma TwoOrdersDiffer(leq: Order, x: Entry, y: Entry)
    requires IsOrder(leq) && x.id != y.id && x.createdAt == y.createdAt
    ensures Merge(leq, [], [x, y]) != Merge(leq, [], [y, x])
  {
    FirstInMerge(leq, [], x, [y], x);
    FirstInMerge(leq, [], y, [x], x);
    assert [x] + [y] == [x, y] && [y] + [x] == [y, x];
  }
}
