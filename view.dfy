/** The data part of `renderTasks` and `updateCategoryFilter`: the display
    projection of the task list (search filter, category filter, stable
    priority sort, always in that order) and the list of categories offered
    by the category selector. The values read from the page (search text,
    selected category, sort option) are parameters. */
module View {
  import opened Seqs
  import opened Tasks

  // ---------------------------------------------------------------------
  // Search filter (app.js:53, 58-63)
  // ---------------------------------------------------------------------

  /** `toLowerCase` on one character, restricted to ASCII letters. */
  function LowerChar(c: char): char {
    if 'A' <= c <= 'Z' then (c as int + 32) as char else c
  }

  /** `toLowerCase` on a string, character by character. */
  function Lower(s: string): (r: string)
    ensures |r| == |s|
    ensures forall i :: 0 <= i < |s| ==> r[i] == LowerChar(s[i])
    ensures forall i :: 0 <= i < |r| ==> !('A' <= r[i] <= 'Z')
  {
    seq(|s|, i requires 0 <= i < |s| => LowerChar(s[i]))
  }

  /** Lower-casing twice is lower-casing once. */
  lemma LowerIdempotent(s: string)
    ensures Lower(Lower(s)) == Lower(s)
  {
  }

  /** `String.prototype.includes`: `sub` occurs in `s` at some position. */
  predicate Contains(s: string, sub: string) {
    exists i | 0 <= i <= |s| - |sub| :: OccursAt(s, sub, i)
  }

  /** `sub` occurs in `s` starting at position `i`. */
  predicate OccursAt(s: string, sub: string, i: int) {
    0 <= i <= |s| - |sub| && s[i..i + |sub|] == sub
  }

  /** The search predicate for an already lower-cased query `q`. */
  predicate MatchesQuery(t: Task, q: string) {
    Contains(Lower(t.title), q) || Contains(Lower(t.description), q)
  }

  function Matching(q: string): Task -> bool {
    (t: Task) => MatchesQuery(t, q)
  }

  /** The search step: a non-empty query keeps exactly the tasks whose
      lower-cased title or description contains the lower-cased query,
      in their order; an empty query keeps everything. */
  function SearchFilter(ts: seq<Task>, query: string): (r: seq<Task>)
    ensures query == [] ==> r == ts
    ensures IsSubsequence(r, ts)
    ensures forall t :: t in r <==> t in ts && (query == [] || MatchesQuery(t, Lower(query)))
    ensures forall t :: multiset(r)[t] == if query == [] || MatchesQuery(t, Lower(query)) then multiset(ts)[t] else 0
  {
    var q := Lower(query);
    SubsequenceReflexive(ts);
    FilterIsSubsequence(ts, Matching(q));
    FilterMembers(ts, Matching(q));
    FilterMultiset(ts, Matching(q));
    if q == [] then ts else Filter(ts, Matching(q))
  }

  /** The search is insensitive to the case of the query. */
  lemma SearchIgnoresQueryCase(ts: seq<Task>, query: string)
    ensures SearchFilter(ts, Lower(query)) == SearchFilter(ts, query)
  {
    LowerIdempotent(query);
  }

  /** A task titled "Buy Milk" is found by the query "milk". */
  lemma BuyMilkMatchesMilk(t: Task)
    requires t.title == "Buy Milk"
    ensures MatchesQuery(t, Lower("milk"))
  {
    assert Lower("milk") == "milk";
    assert Lower(t.title) == "buy milk";
    assert OccursAt(Lower(t.title), "milk", 4);
  }

  // ---------------------------------------------------------------------
  // Category filter (app.js:66-68)
  // ---------------------------------------------------------------------

  function InCategory(c: string): Task -> bool {
    (t: Task) => t.category == c
  }

  /** The category step: a non-empty selection keeps exactly the tasks of
      that category, in their order; the empty selection ("All
      Categories") keeps everything. */
  function CategoryFilter(ts: seq<Task>, selected: string): (r: seq<Task>)
    ensures selected == [] ==> r == ts
    ensures IsSubsequence(r, ts)
    ensures forall t :: t in r <==> t in ts && (selected == [] || t.category == selected)
    ensures forall t :: multiset(r)[t] == if selected == [] || t.category == selected then multiset(ts)[t] else 0
  {
    SubsequenceReflexive(ts);
    FilterIsSubsequence(ts, InCategory(selected));
    FilterMembers(ts, InCategory(selected));
    FilterMultiset(ts, InCategory(selected));
    if selected == [] then ts else Filter(ts, InCategory(selected))
  }

  // ---------------------------------------------------------------------
  // Priority sort (app.js:70-75, 111-113)
  // ---------------------------------------------------------------------

  /** Position of a priority in the requested order: 0, 1, 2 for Low,
      Medium, High ascending and for High, Medium, Low descending. */
  function Rank(p: Priority, descending: bool): (k: nat)
    ensures k < 3
  {
    if descending then 3 - PriorityValue(p) else PriorityValue(p) - 1
  }

  /** The priority at position `k` of the requested order. */
  function PriorityAtRank(k: nat, descending: bool): (p: Priority)
    requires k < 3
    ensures Rank(p, descending) == k
  {
    if k == 1 then Medium
    else if (k == 0) == descending then High
    else Low
  }

  /** The comparator handed to `Array.prototype.sort`: `priorityValue(a) -
      priorityValue(b)` ascending, the reverse difference descending. It
      is the difference of the positions in the requested order. */
  function Comparator(a: Task, b: Task, descending: bool): (c: int)
    ensures c == Rank(a.priority, descending) - Rank(b.priority, descending)
  {
    if descending then PriorityValue(b.priority) - PriorityValue(a.priority)
    else PriorityValue(a.priority) - PriorityValue(b.priority)
  }

  /** No pair of tasks is out of order for the comparator. */
  predicate SortedByPriority(s: seq<Task>, descending: bool) {
    forall i, j :: 0 <= i < j < |s| ==> Comparator(s[i], s[j], descending) <= 0
  }

  function HasPriority(p: Priority): Task -> bool {
    (t: Task) => t.priority == p
  }

  /** The tasks of priority `p`, in their order in `s`. */
  function OfPriority(s: seq<Task>, p: Priority): (r: seq<Task>)
    ensures forall i :: 0 <= i < |r| ==> r[i].priority == p
  {
    Filter(s, HasPriority(p))
  }

  /** Stability: `r` holds the tasks of every priority in the same order
      as `s` does. */
  predicate SameOrderWithinPriority(r: seq<Task>, s: seq<Task>) {
    forall p :: OfPriority(r, p) == OfPriority(s, p)
  }

  /** Two sequences that agree priority by priority are permutations of
      each other. */
  lemma SameOrderIsPermutation(r: seq<Task>, s: seq<Task>)
    requires SameOrderWithinPriority(r, s)
    ensures multiset(r) == multiset(s)
  {
    forall t
      ensures multiset(r)[t] == multiset(s)[t]
    {
      var f := HasPriority(t.priority);
      assert OfPriority(r, t.priority) == OfPriority(s, t.priority);
      FilterMultiset(r, f);
      FilterMultiset(s, f);
    }
  }

  lemma OfPriorityTwice(s: seq<Task>, p: Priority, q: Priority)
    ensures OfPriority(OfPriority(s, p), q) == if p == q then OfPriority(s, p) else []
  {
    if p == q {
      FilterIdempotent(s, HasPriority(p));
    } else {
      var r := OfPriority(OfPriority(s, p), q);
      if r != [] {
        assert r[0].priority == q;
        FilterMembers(OfPriority(s, p), HasPriority(q));
        assert r[0] in OfPriority(s, p);
        FilterMembers(s, HasPriority(p));
      }
    }
  }

  /** The reference stable sort: the tasks of the first priority of the
      requested order, then those of the second, then those of the third,
      each group in its original order. */
  function StablePrioritySort(s: seq<Task>, descending: bool): seq<Task> {
    OfPriority(s, PriorityAtRank(0, descending))
      + OfPriority(s, PriorityAtRank(1, descending))
      + OfPriority(s, PriorityAtRank(2, descending))
  }

  lemma RankInverse(p: Priority, descending: bool)
    ensures PriorityAtRank(Rank(p, descending), descending) == p
  {
  }

  /** A task put in front joins the front of its own priority group... */
  lemma OfPriorityConsSame(x: Task, s: seq<Task>)
    ensures OfPriority([x] + s, x.priority) == [x] + OfPriority(s, x.priority)
  {
    assert ([x] + s)[0] == x && ([x] + s)[1..] == s;
  }

  /** ... and leaves the other groups alone. */
  lemma OfPriorityConsOther(x: Task, s: seq<Task>, p: Priority)
    requires x.priority != p
    ensures OfPriority([x] + s, p) == OfPriority(s, p)
  {
    assert ([x] + s)[0] == x && ([x] + s)[1..] == s;
  }

  /** When every task ranks after position `k`, the group at `k` is empty. */
  lemma {:induction false} OfPriorityRankedAfter(s: seq<Task>, k: nat, descending: bool)
    requires k < 3
    requires forall i :: 0 <= i < |s| ==> k < Rank(s[i].priority, descending)
    ensures OfPriority(s, PriorityAtRank(k, descending)) == []
  {
    if s != [] {
      OfPriorityRankedAfter(s[1..], k, descending);
    }
  }

  /** In the reference sort the tasks of rank 0 come first, then those of
      rank 1, then those of rank 2. */
  lemma StablePrioritySortRanks(s: seq<Task>, descending: bool)
    ensures var b0, b1 := OfPriority(s, PriorityAtRank(0, descending)), OfPriority(s, PriorityAtRank(1, descending));
      var r := StablePrioritySort(s, descending);
      forall i :: 0 <= i < |r| ==>
        Rank(r[i].priority, descending) == if i < |b0| then 0 else if i < |b0| + |b1| then 1 else 2
  {
    var d := descending;
    var b0, b1, b2 := OfPriority(s, PriorityAtRank(0, d)), OfPriority(s, PriorityAtRank(1, d)), OfPriority(s, PriorityAtRank(2, d));
    var r := StablePrioritySort(s, d);
    forall i | 0 <= i < |r|
      ensures Rank(r[i].priority, d) == if i < |b0| then 0 else if i < |b0| + |b1| then 1 else 2
    {
      if i < |b0| {
        assert r[i] == b0[i];
      } else if i < |b0| + |b1| {
        assert r[i] == b1[i - |b0|];
      } else {
        assert r[i] == b2[i - |b0| - |b1|];
      }
    }
  }

  /** The reference sort is sorted for the comparator. */
  lemma StablePrioritySortSorted(s: seq<Task>, descending: bool)
    ensures SortedByPriority(StablePrioritySort(s, descending), descending)
  {
    StablePrioritySortRanks(s, descending);
  }

  /** The reference sort keeps every priority group in its original order,
      and so is a permutation of its input. */
  lemma StablePrioritySortStable(s: seq<Task>, descending: bool)
    ensures SameOrderWithinPriority(StablePrioritySort(s, descending), s)
    ensures multiset(StablePrioritySort(s, descending)) == multiset(s)
  {
    forall p
      ensures OfPriority(StablePrioritySort(s, descending), p) == OfPriority(s, p)
    {
      StablePrioritySortGroup(s, descending, p);
    }
    SameOrderIsPermutation(StablePrioritySort(s, descending), s);
  }

  /** One priority group of the reference sort is that group of the input. */
  lemma StablePrioritySortGroup(s: seq<Task>, descending: bool, p: Priority)
    ensures OfPriority(StablePrioritySort(s, descending), p) == OfPriority(s, p)
  {
    var d := descending;
    var p0, p1, p2 := PriorityAtRank(0, d), PriorityAtRank(1, d), PriorityAtRank(2, d);
    var b0, b1, b2 := OfPriority(s, p0), OfPriority(s, p1), OfPriority(s, p2);
    FilterConcat(b0 + b1, b2, HasPriority(p));
    FilterConcat(b0, b1, HasPriority(p));
    OfPriorityTwice(s, p0, p);
    OfPriorityTwice(s, p1, p);
    OfPriorityTwice(s, p2, p);
    RankInverse(p, d);
  }

  lemma SortedTail(r: seq<Task>, descending: bool)
    requires r != [] && SortedByPriority(r, descending)
    ensures SortedByPriority(r[1..], descending)
  {
    var rest := r[1..];
    forall i, j | 0 <= i < j < |rest|
      ensures Comparator(rest[i], rest[j], descending) <= 0
    {
      assert rest[i] == r[i + 1] && rest[j] == r[j + 1];
    }
  }

  /** Putting in front a task that ranks no later than any other puts it
      in front of the reference sort. */
  lemma GroupCons(x: Task, rest: seq<Task>, descending: bool)
    requires forall i :: 0 <= i < |rest| ==> Rank(x.priority, descending) <= Rank(rest[i].priority, descending)
    ensures StablePrioritySort([x] + rest, descending) == [x] + StablePrioritySort(rest, descending)
  {
    var m := Rank(x.priority, descending);
    if m == 0 {
      GroupConsRank0(x, rest, descending);
    } else if m == 1 {
      GroupConsRank1(x, rest, descending);
    } else {
      GroupConsRank2(x, rest, descending);
    }
  }

  lemma GroupConsRank0(x: Task, rest: seq<Task>, descending: bool)
    requires Rank(x.priority, descending) == 0
    ensures StablePrioritySort([x] + rest, descending) == [x] + StablePrioritySort(rest, descending)
  {
    RankInverse(x.priority, descending);
    OfPriorityConsSame(x, rest);
    OfPriorityConsOther(x, rest, PriorityAtRank(1, descending));
    OfPriorityConsOther(x, rest, PriorityAtRank(2, descending));
  }

  lemma GroupConsRank1(x: Task, rest: seq<Task>, descending: bool)
    requires Rank(x.priority, descending) == 1
    requires forall i :: 0 <= i < |rest| ==> 1 <= Rank(rest[i].priority, descending)
    ensures StablePrioritySort([x] + rest, descending) == [x] + StablePrioritySort(rest, descending)
  {
    RankInverse(x.priority, descending);
    OfPriorityConsSame(x, rest);
    OfPriorityRankedAfter(rest, 0, descending);
    OfPriorityConsOther(x, rest, PriorityAtRank(0, descending));
    OfPriorityConsOther(x, rest, PriorityAtRank(2, descending));
  }

  lemma GroupConsRank2(x: Task, rest: seq<Task>, descending: bool)
    requires Rank(x.priority, descending) == 2
    requires forall i :: 0 <= i < |rest| ==> 2 <= Rank(rest[i].priority, descending)
    ensures StablePrioritySort([x] + rest, descending) == [x] + StablePrioritySort(rest, descending)
  {
    RankInverse(x.priority, descending);
    OfPriorityConsSame(x, rest);
    OfPriorityRankedAfter(rest, 0, descending);
    OfPriorityRankedAfter(rest, 1, descending);
    OfPriorityConsOther(x, rest, PriorityAtRank(0, descending));
    OfPriorityConsOther(x, rest, PriorityAtRank(1, descending));
  }

  /** A sorted sequence is already grouped by priority in the requested
      order. */
  lemma {:induction false} SortedIsGrouped(r: seq<Task>, descending: bool)
    requires SortedByPriority(r, descending)
    ensures r == StablePrioritySort(r, descending)
  {
    if r != [] {
      var x, rest := r[0], r[1..];
      SortedTail(r, descending);
      SortedIsGrouped(rest, descending);
      forall i | 0 <= i < |rest|
        ensures Rank(x.priority, descending) <= Rank(rest[i].priority, descending)
      {
        assert Comparator(r[0], r[i + 1], descending) <= 0;
      }
      GroupCons(x, rest, descending);
      assert r == [x] + rest;
    }
  }

  /** A sorted, stable rearrangement of `s` is the reference sort of `s`:
      the comparator determines a stable sort's result uniquely. */
  lemma StableSortUnique(r: seq<Task>, s: seq<Task>, descending: bool)
    requires SortedByPriority(r, descending)
    requires SameOrderWithinPriority(r, s)
    ensures r == StablePrioritySort(s, descending)
  {
    SortedIsGrouped(r, descending);
    assert OfPriority(r, PriorityAtRank(0, descending)) == OfPriority(s, PriorityAtRank(0, descending));
    assert OfPriority(r, PriorityAtRank(1, descending)) == OfPriority(s, PriorityAtRank(1, descending));
    assert OfPriority(r, PriorityAtRank(2, descending)) == OfPriority(s, PriorityAtRank(2, descending));
  }

  /** The sort step: "asc" sorts ascending and "desc" descending, both
      stably; any other option leaves the order unchanged. */
  function SortByOption(s: seq<Task>, sortOption: string): (r: seq<Task>)
    ensures sortOption == "asc" ==> SortedByPriority(r, false)
    ensures sortOption == "desc" ==> SortedByPriority(r, true)
    ensures sortOption != "asc" && sortOption != "desc" ==> r == s
    ensures SameOrderWithinPriority(r, s)
    ensures multiset(r) == multiset(s)
  {
    if sortOption == "asc" then
      StablePrioritySortSorted(s, false);
      StablePrioritySortStable(s, false);
      StablePrioritySort(s, false)
    else if sortOption == "desc" then
      StablePrioritySortSorted(s, true);
      StablePrioritySortStable(s, true);
      StablePrioritySort(s, true)
    else
      s
  }

  /** The priority groups of a High, a Low and a Medium task. */
  lemma ExampleGroups(h: Task, l: Task, m: Task)
    requires h.priority == High && l.priority == Low && m.priority == Medium
    ensures OfPriority([h, l, m], Low) == [l]
    ensures OfPriority([h, l, m], Medium) == [m]
    ensures OfPriority([h, l, m], High) == [h]
  {
    assert [h, l, m] == [h] + ([l] + ([m] + []));
    OfPriorityConsSame(m, []);
    OfPriorityConsOther(m, [], Low);
    OfPriorityConsOther(m, [], High);
    OfPriorityConsSame(l, [m]);
    OfPriorityConsOther(l, [m], Medium);
    OfPriorityConsOther(l, [m], High);
    OfPriorityConsSame(h, [l, m]);
    OfPriorityConsOther(h, [l, m], Low);
    OfPriorityConsOther(h, [l, m], Medium);
  }

  /** A worked instance: a High, a Low and a Medium task come out as
      Low, Medium, High under "asc". */
  lemma SortAscExample(h: Task, l: Task, m: Task)
    requires h.priority == High && l.priority == Low && m.priority == Medium
    ensures SortByOption([h, l, m], "asc") == [l, m, h]
  {
    ExampleGroups(h, l, m);
    assert SortByOption([h, l, m], "asc") == StablePrioritySort([h, l, m], false);
    assert PriorityAtRank(0, false) == Low && PriorityAtRank(1, false) == Medium && PriorityAtRank(2, false) == High;
  }

  /** ... and High, Medium, Low under "desc". */
  lemma SortDescExample(h: Task, l: Task, m: Task)
    requires h.priority == High && l.priority == Low && m.priority == Medium
    ensures SortByOption([h, l, m], "desc") == [h, m, l]
  {
    ExampleGroups(h, l, m);
    assert SortByOption([h, l, m], "desc") == StablePrioritySort([h, l, m], true);
    assert PriorityAtRank(0, true) == High && PriorityAtRank(1, true) == Medium && PriorityAtRank(2, true) == Low;
  }

  /** `filteredTasks.sort(...)` on the copy `renderTasks` works on: the
      elements go into a fresh array, are sorted in place, and come out in
      the order of the reference stable sort. */
  method SortedCopy(s: seq<Task>, descending: bool) returns (r: seq<Task>)
    ensures r == StablePrioritySort(s, descending)
  {
    var a := new Task[|s|](i requires 0 <= i < |s| => s[i]);
    assert a[..] == s;
    SortInPlace(a, descending);
    StableSortUnique(a[..], s, descending);
    r := a[..];
  }

  /** Swapping two neighbours of different priority keeps every priority
      group in order. */
  lemma SwapKeepsOrderWithinPriority(s: seq<Task>, t: seq<Task>, j: nat)
    requires 0 < j < |s| == |t|
    requires s[j - 1].priority != s[j].priority
    requires t[j - 1] == s[j] && t[j] == s[j - 1]
    requires forall k :: 0 <= k < |s| && k != j - 1 && k != j ==> t[k] == s[k]
    ensures SameOrderWithinPriority(t, s)
  {
    var pre, post := s[..j - 1], s[j + 1..];
    assert s == pre + [s[j - 1], s[j]] + post;
    assert t == pre + [s[j], s[j - 1]] + post;
    forall p
      ensures OfPriority(t, p) == OfPriority(s, p)
    {
      FilterSwap(pre, s[j - 1], s[j], post, HasPriority(p));
    }
  }

  /** `Array.prototype.sort` with the priority comparator, as a stable
      insertion sort in place. */
  method SortInPlace(a: array<Task>, descending: bool)
    modifies a
    ensures SortedByPriority(a[..], descending)
    ensures SameOrderWithinPriority(a[..], old(a[..]))
  {
    var i := 0;
    while i < a.Length
      invariant 0 <= i <= a.Length
      invariant forall p, q :: 0 <= p < q < i ==> Comparator(a[p], a[q], descending) <= 0
      invariant SameOrderWithinPriority(a[..], old(a[..]))
    {
      ghost var before := a[..];
      InsertInPlace(a, i, descending);
      assert SameOrderWithinPriority(a[..], before);
      i := i + 1;
    }
  }

  /** One step of the insertion sort: moves `a[i]` left past the tasks the
      comparator puts strictly after it, so that `a[..i + 1]` is sorted. */
  method InsertInPlace(a: array<Task>, i: nat, descending: bool)
    requires i < a.Length
    requires forall p, q :: 0 <= p < q < i ==> Comparator(a[p], a[q], descending) <= 0
    modifies a
    ensures forall p, q :: 0 <= p < q <= i ==> Comparator(a[p], a[q], descending) <= 0
    ensures SameOrderWithinPriority(a[..], old(a[..]))
  {
    var j := i;
    while j > 0 && Comparator(a[j - 1], a[j], descending) > 0
      invariant 0 <= j <= i
      invariant SortedAroundHole(a[..], i, j, descending)
      invariant SameOrderWithinPriority(a[..], old(a[..]))
    {
      MoveLeft(a, i, j, descending);
      j := j - 1;
    }
    HoleClosed(a[..], i, j, descending);
  }

  /** The insertion step ends sorted once the task at the hole is not
      strictly before its left neighbour. */
  lemma HoleClosed(s: seq<Task>, i: nat, j: nat, descending: bool)
    requires j <= i < |s|
    requires SortedAroundHole(s, i, j, descending)
    requires j == 0 || Comparator(s[j - 1], s[j], descending) <= 0
    ensures forall p, q :: 0 <= p < q <= i ==> Comparator(s[p], s[q], descending) <= 0
  {
    forall p, q | 0 <= p < q <= i
      ensures Comparator(s[p], s[q], descending) <= 0
    {
      if q == j {
        assert Comparator(s[p], s[j - 1], descending) <= 0 || p == j - 1;
      }
    }
  }

  /** During an insertion step: `s[..i + 1]` is sorted apart from the task
      at `j`, which the comparator puts strictly before everything after it. */
  predicate SortedAroundHole(s: seq<Task>, i: nat, j: nat, descending: bool)
    requires j <= i < |s|
  {
    (forall p, q :: 0 <= p < q <= i && p != j && q != j ==> Comparator(s[p], s[q], descending) <= 0) &&
    (forall q :: j < q <= i ==> Comparator(s[j], s[q], descending) < 0)
  }

  /** Moves the task at `j` one place to the left, past a task that the
      comparator puts strictly after it. */
  method MoveLeft(a: array<Task>, i: nat, j: nat, descending: bool)
    requires 0 < j <= i < a.Length
    requires SortedAroundHole(a[..], i, j, descending)
    requires Comparator(a[j - 1], a[j], descending) > 0
    modifies a
    ensures SortedAroundHole(a[..], i, j - 1, descending)
    ensures SameOrderWithinPriority(a[..], old(a[..]))
  {
    a[j - 1], a[j] := a[j], a[j - 1];
    SwapKeepsOrderWithinPriority(old(a[..]), a[..], j);
  }

  // ---------------------------------------------------------------------
  // The whole projection (app.js:52-75)
  // ---------------------------------------------------------------------

  /** Whether a stored task survives both filters. */
  predicate Shown(t: Task, query: string, selected: string) {
    (query == [] || MatchesQuery(t, Lower(query))) && (selected == [] || t.category == selected)
  }

  function Showing(query: string, selected: string): Task -> bool {
    (t: Task) => Shown(t, query, selected)
  }

  /** The search step followed by the category step is a single filter by
      `Shown`. */
  lemma FiltersCompose(ts: seq<Task>, query: string, selected: string)
    ensures CategoryFilter(SearchFilter(ts, query), selected) == Filter(ts, Showing(query, selected))
  {
    var q := Lower(query);
    var shown := Showing(query, selected);
    if query == [] && selected == [] {
      FilterKeepsAll(ts, shown);
    } else if query == [] {
      FilterAgree(ts, InCategory(selected), shown);
    } else if selected == [] {
      FilterAgree(ts, Matching(q), shown);
    } else {
      FilterThenFilter(ts, Matching(q), InCategory(selected), shown);
    }
  }

  /** What `renderTasks` displays: the stored tasks, searched, narrowed to
      the category, then sorted. */
  function Projection(ts: seq<Task>, query: string, selected: string, sortOption: string): (r: seq<Task>)
    ensures forall t :: multiset(r)[t] == if Shown(t, query, selected) then multiset(ts)[t] else 0
    ensures forall t :: t in r <==> t in ts && Shown(t, query, selected)
    ensures sortOption == "asc" ==> SortedByPriority(r, false)
    ensures sortOption == "desc" ==> SortedByPriority(r, true)
    ensures forall p :: IsSubsequence(OfPriority(r, p), ts)
    ensures sortOption != "asc" && sortOption != "desc" ==> IsSubsequence(r, ts)
  {
    var searched := SearchFilter(ts, query);
    var narrowed := CategoryFilter(searched, selected);
    var r := SortByOption(narrowed, sortOption);
    assert forall t :: t in r <==> multiset(r)[t] > 0;
    SubsequenceTransitive(narrowed, searched, ts);
    ProjectionKeepsStoreOrder(r, narrowed, ts);
    r
  }

  lemma ProjectionKeepsStoreOrder(r: seq<Task>, narrowed: seq<Task>, ts: seq<Task>)
    requires SameOrderWithinPriority(r, narrowed)
    requires IsSubsequence(narrowed, ts)
    ensures forall p :: IsSubsequence(OfPriority(r, p), ts)
  {
    forall p
      ensures IsSubsequence(OfPriority(r, p), ts)
    {
      assert OfPriority(r, p) == OfPriority(narrowed, p);
      FilterIsSubsequence(narrowed, HasPriority(p));
      SubsequenceTransitive(OfPriority(narrowed, p), narrowed, ts);
    }
  }

  // ---------------------------------------------------------------------
  // Category list (app.js:41)
  // ---------------------------------------------------------------------

  /** `tasks.map(task => task.category)`. */
  function CategoryColumn(ts: seq<Task>): (cs: seq<string>)
    ensures |cs| == |ts|
    ensures forall k :: 0 <= k < |ts| ==> cs[k] == ts[k].category
  {
    seq(|ts|, k requires 0 <= k < |ts| => ts[k].category)
  }

  lemma CategoryColumnMembers(ts: seq<Task>)
    ensures forall c :: c in CategoryColumn(ts) <==> exists t :: t in ts && t.category == c
  {
    var col := CategoryColumn(ts);
    forall c
      ensures c in col <==> exists t :: t in ts && t.category == c
    {
      if c in col {
        var k :| 0 <= k < |col| && col[k] == c;
        assert ts[k] in ts;
      }
      if exists t :: t in ts && t.category == c {
        var t :| t in ts && t.category == c;
        var k :| 0 <= k < |ts| && ts[k] == t;
        assert col[k] == c;
      }
    }
  }

  /** The categories offered by the category selector: every category of
      some task, each once, ordered by the first task that carries it. */
  function Categories(ts: seq<Task>): (cs: seq<string>)
    ensures NoDuplicates(cs)
    ensures forall c :: c in cs <==> exists t :: t in ts && t.category == c
    ensures forall i, j :: 0 <= i < j < |cs| ==>
      cs[i] in CategoryColumn(ts) && cs[j] in CategoryColumn(ts) &&
      IndexOf(CategoryColumn(ts), cs[i]) < IndexOf(CategoryColumn(ts), cs[j])
  {
    CategoryColumnMembers(ts);
    Distinct(CategoryColumn(ts))
  }

  /** Two distinct values met as x, y, x are listed as x, y. */
  lemma DistinctExample(x: string, y: string)
    requires x != y
    ensures Distinct([x, y, x]) == [x, y]
  {
    var xs: seq<string> := [x];
    var xy: seq<string> := [x, y];
    var xyx: seq<string> := [x, y, x];
    assert xs[..0] == [] && Distinct(xs) == xs;
    assert xy[..1] == xs && Distinct(xy) == xy;
    assert xyx[..2] == xy;
  }

  /** Categories Work, Home, Work give the list Work, Home. */
  lemma CategoriesExample(a: Task, b: Task, c: Task)
    requires a.category == "Work" && b.category == "Home" && c.category == "Work"
    ensures Categories([a, b, c]) == ["Work", "Home"]
  {
    assert CategoryColumn([a, b, c]) == ["Work", "Home", "Work"];
    DistinctExample("Work", "Home");
  }

  /** The label of a task's completion button: "Undo" on a completed task,
      "Complete" on an open one. */
  function ButtonLabel(completed: bool): (caption: string)
    ensures caption == "Undo" <==> completed
    ensures caption == "Complete" <==> !completed
  {
    if completed then "Undo" else "Complete"
  }
}
