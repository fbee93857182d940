/** The history of a directive: a sorted union of two tables, read in pages with the limit pushed
    into both of them (asoud_erp/services/directive_paging.py:10-32, 61-79, as used by
    asoud_erp/api/v1/directives.py:575-584). */
module DirectivePaging {
  import opened Basics

  const HISTORY_PAGE: nat := 50

  /** A row; `name` stands for the place of its name in the collation order. */
  datatype Event = Event(createdAt: int, name: int, text: string)

  /** Later rows first, names descending. */
  predicate Before(a: Event, b: Event) {
    a.createdAt > b.createdAt || (a.createdAt == b.createdAt && a.name > b.name)
  }

  predicate SameKey(a: Event, b: Event) {
    a.createdAt == b.createdAt && a.name == b.name
  }

  predicate KeysDistinct(s: seq<Event>) {
    forall i, j {:trigger SameKey(s[i], s[j])} | 0 <= i < j < |s| :: !SameKey(s[i], s[j])
  }

  predicate Sorted(s: seq<Event>) {
    forall i, j | 0 <= i < j < |s| :: Before(s[i], s[j])
  }

  /* ---------- the query ---------- */

  function Insert(e: Event, s: seq<Event>): seq<Event> {
    if s == [] || Before(e, s[0]) then [e] + s else [s[0]] + Insert(e, s[1..])
  }

  /** ORDER BY. */
  function Sort(s: seq<Event>): seq<Event> {
    if s == [] then [] else Insert(s[0], Sort(s[1..]))
  }

  /** LIMIT and OFFSET. */
  function Limit(s: seq<Event>, n: nat): seq<Event> {
    if |s| <= n then s else s[..n]
  }

  function Offset(s: seq<Event>, n: nat): seq<Event> {
    if |s| <= n then [] else s[n..]
  }

  datatype Limits = Limits(offset: nat, branchLimit: nat, pageLimit: nat)

  function HistoryLimits(offset: nat, pageSize: nat): Limits {
    Limits(offset, offset + pageSize + 1, pageSize + 1)
  }

  /** HISTORY_SQL over the rows of its two members. */
  function Query(a: seq<Event>, b: seq<Event>, l: Limits): seq<Event> {
    var events := Limit(Sort(a), l.branchLimit) + Limit(Sort(b), l.branchLimit);
    Limit(Offset(Sort(events), l.offset), l.pageLimit)
  }

  /* ---------- sorting ---------- */

  ghost predicate SameElements(s: seq<Event>, t: seq<Event>) {
    forall x :: x in s <==> x in t
  }

  lemma {:induction false} InsertElements(e: Event, s: seq<Event>)
    ensures |Insert(e, s)| == |s| + 1
    ensures forall x :: x in Insert(e, s) <==> x == e || x in s
  {
    if s != [] {
      InsertElements(e, s[1..]);
      assert forall x :: x in s <==> x == s[0] || x in s[1..];
    }
  }

  lemma SortedCons(e: Event, s: seq<Event>)
    requires Sorted(s) && forall x | x in s :: Before(e, x)
    ensures Sorted([e] + s)
  {
    assert forall k | 0 <= k < |s| :: s[k] in s;
  }

  lemma SortedTail(s: seq<Event>)
    requires Sorted(s) && s != []
    ensures Sorted(s[1..]) && forall x | x in s[1..] :: Before(s[0], x)
  {
  }

  lemma {:induction false} InsertSorts(e: Event, s: seq<Event>)
    requires Sorted(s) && forall x | x in s :: !SameKey(e, x)
    ensures Sorted(Insert(e, s))
  {
    if s == [] {
    } else if Before(e, s[0]) {
      forall x | x in s ensures Before(e, x) {
        var k :| 0 <= k < |s| && s[k] == x;
      }
      SortedCons(e, s);
    } else {
      SortedTail(s);
      assert s[0] in s && forall x | x in s[1..] :: x in s;
      InsertSorts(e, s[1..]);
      InsertElements(e, s[1..]);
      SortedCons(s[0], Insert(e, s[1..]));
    }
  }

  lemma {:induction false} SortElements(s: seq<Event>)
    ensures |Sort(s)| == |s| && SameElements(Sort(s), s)
  {
    if s != [] {
      SortElements(s[1..]);
      InsertElements(s[0], Sort(s[1..]));
      assert forall x :: x in s <==> x == s[0] || x in s[1..];
    }
  }

  lemma {:induction false} SortSorts(s: seq<Event>)
    requires KeysDistinct(s)
    ensures Sorted(Sort(s))
  {
    if s != [] {
      SortSorts(s[1..]);
      SortElements(s[1..]);
      forall x | x in s[1..] ensures !SameKey(s[0], x) {
        var k :| 1 <= k < |s| && s[k] == x;
      }
      InsertSorts(s[0], Sort(s[1..]));
    }
  }

  /* ---------- the limit inside the union ---------- */

  function Elements(s: seq<Event>): set<Event> {
    set x | x in s
  }

  lemma {:induction false} ElementCount(s: seq<Event>)
    ensures |Elements(s)| <= |s|
    ensures Sorted(s) ==> |Elements(s)| == |s|
  {
    if s != [] {
      ElementCount(s[1..]);
      assert Elements(s) == {s[0]} + Elements(s[1..]);
      if Sorted(s) {
        SortedTail(s);
      }
    }
  }

  /** A row among the first n of the union is among the first n of its own table. */
  lemma RankInBranch(all: seq<Event>, branch: seq<Event>, i: nat, j: nat)
    requires Sorted(all) && Sorted(branch) && forall x | x in branch :: x in all
    requires i < |all| && j < |branch| && all[i] == branch[j]
    ensures j <= i
  {
    var before, prior := branch[..j], all[..i];
    forall x | x in before ensures x in prior {
      var k :| 0 <= k < j && branch[k] == x;
      assert Before(x, all[i]) && x in branch;
      var m :| 0 <= m < |all| && all[m] == x;
      assert m < i;
    }
    ElementCount(before);
    ElementCount(prior);
    SubsetSize(Elements(before), Elements(prior));
  }

  lemma FirstStay(a: seq<Event>, b: seq<Event>, n: nat, i: nat)
    requires KeysDistinct(a + b) && i < n && i < |Sort(a + b)|
    ensures Sort(a + b)[i] in Limit(Sort(a), n) + Limit(Sort(b), n)
  {
    var all := Sort(a + b);
    SortSorts(a + b);
    SortElements(a + b);
    SortElements(a);
    SortElements(b);
    DistinctParts(a, b);
    SortSorts(a);
    SortSorts(b);
    var x := all[i];
    assert x in a + b;
    if x in a {
      var j :| 0 <= j < |Sort(a)| && Sort(a)[j] == x;
      RankInBranch(all, Sort(a), i, j);
    } else {
      var j :| 0 <= j < |Sort(b)| && Sort(b)[j] == x;
      RankInBranch(all, Sort(b), i, j);
    }
  }

  lemma DistinctParts(a: seq<Event>, b: seq<Event>)
    requires KeysDistinct(a + b)
    ensures KeysDistinct(a) && KeysDistinct(b)
  {
    var s := a + b;
    assert forall i | 0 <= i < |a| :: s[i] == a[i];
    assert forall i | 0 <= i < |b| :: s[|a| + i] == b[i];
  }

  /** A list that has the first i rows of the union has the next one no earlier than the union. */
  lemma RankInUnion(all: seq<Event>, part: seq<Event>, i: nat, j: nat)
    requires Sorted(all) && Sorted(part) && forall k | 0 <= k < i :: k < |all| && all[k] in part
    requires i < |all| && j < |part| && all[i] == part[j]
    ensures i <= j
  {
    var before, prior := all[..i], part[..j];
    forall x | x in before ensures x in prior {
      var k :| 0 <= k < i && all[k] == x;
      var m :| 0 <= m < |part| && part[m] == x;
      assert Before(x, part[j]);
      assert m < j;
    }
    ElementCount(before);
    ElementCount(prior);
    SubsetSize(Elements(before), Elements(prior));
  }

  /** What is left of both tables when each is cut to n rows. */
  function Kept(a: seq<Event>, b: seq<Event>, n: nat): seq<Event> {
    Limit(Sort(a), n) + Limit(Sort(b), n)
  }

  lemma DistinctAcross(a: seq<Event>, b: seq<Event>)
    requires KeysDistinct(a + b)
    ensures forall x, y | x in a && y in b :: !SameKey(x, y)
  {
    forall x, y | x in a && y in b ensures !SameKey(x, y) {
      var i :| 0 <= i < |a| && a[i] == x;
      var j :| 0 <= j < |b| && b[j] == y;
      assert (a + b)[i] == x && (a + b)[|a| + j] == y;
    }
  }

  lemma KeptRows(a: seq<Event>, b: seq<Event>, n: nat)
    requires KeysDistinct(a + b)
    ensures KeysDistinct(Kept(a, b, n)) && forall x | x in Kept(a, b, n) :: x in a + b
  {
    DistinctParts(a, b);
    SortSorts(a);
    SortSorts(b);
    SortElements(a);
    SortElements(b);
    var left, right := Limit(Sort(a), n), Limit(Sort(b), n);
    forall x | x in left ensures x in Sort(a) && x in a {
    }
    forall x | x in right ensures x in Sort(b) && x in b {
    }
    DistinctAcross(a, b);
    assert Sorted(left) && Sorted(right);
    assert forall k | 0 <= k < |left| :: left[k] in left;
    assert forall k | 0 <= k < |right| :: right[k] in right;
  }

  lemma SameRow(all: seq<Event>, kept: seq<Event>, i: nat)
    requires Sorted(all) && Sorted(kept) && forall x | x in kept :: x in all
    requires i < |all| && forall k | 0 <= k <= i :: all[k] in kept
    ensures i < |kept| && kept[i] == all[i]
  {
    assert all[i] in kept;
    var j :| 0 <= j < |kept| && kept[j] == all[i];
    RankInBranch(all, kept, i, j);
    RankInUnion(all, kept, i, j);
  }

  lemma SamePrefix(all: seq<Event>, kept: seq<Event>, n: nat)
    requires |kept| <= |all| && (|kept| >= n || |kept| == |all|)
    requires forall i | 0 <= i < n && i < |kept| :: kept[i] == all[i]
    ensures Limit(kept, n) == Limit(all, n)
  {
  }

  lemma SortedTables(a: seq<Event>, b: seq<Event>, n: nat)
    requires KeysDistinct(a + b)
    ensures var all, kept := Sort(a + b), Sort(Kept(a, b, n));
            && Sorted(all) && Sorted(kept) && |kept| <= |all|
            && (forall x | x in kept :: x in all)
            && (forall k | 0 <= k < |all| && k < n :: all[k] in kept)
  {
    var all, kept := Sort(a + b), Sort(Kept(a, b, n));
    SortSorts(a + b);
    SortElements(a + b);
    KeptRows(a, b, n);
    SortSorts(Kept(a, b, n));
    SortElements(Kept(a, b, n));
    SortElements(a);
    SortElements(b);
    forall k | 0 <= k < |all| && k < n ensures all[k] in kept {
      FirstStay(a, b, n, k);
    }
  }

  /** Cutting both tables to n rows before the merge leaves its first n rows as they were. */
  lemma LimitBeforeMerge(a: seq<Event>, b: seq<Event>, n: nat)
    requires KeysDistinct(a + b)
    ensures Limit(Sort(Kept(a, b, n)), n) == Limit(Sort(a + b), n)
  {
    var all, kept := Sort(a + b), Sort(Kept(a, b, n));
    SortedTables(a, b, n);
    forall i | 0 <= i < n && i < |all| ensures i < |kept| && kept[i] == all[i] {
      SameRow(all, kept, i);
    }
    if |all| > 0 && n > 0 {
      SameRow(all, kept, if |all| < n then |all| - 1 else n - 1);
    }
    SamePrefix(all, kept, n);
  }

  lemma SliceOfPrefix(s: seq<Event>, offset: nat, n: nat)
    ensures Limit(Offset(s, offset), n) == Offset(Limit(s, offset + n), offset)
  {
  }

  /** The query gives the slice of the whole sorted history. */
  lemma QueryIsSlice(a: seq<Event>, b: seq<Event>, offset: nat, pageSize: nat)
    requires KeysDistinct(a + b)
    ensures Query(a, b, HistoryLimits(offset, pageSize)) == Limit(Offset(Sort(a + b), offset), pageSize + 1)
  {
    var n := offset + pageSize + 1;
    LimitBeforeMerge(a, b, n);
    SliceOfPrefix(Sort(Kept(a, b, n)), offset, pageSize + 1);
    SliceOfPrefix(Sort(a + b), offset, pageSize + 1);
  }

  /* ---------- pages ---------- */

  function LookaheadPage(start: nat, rows: seq<Event>, pageSize: nat): (seq<Event>, Option<nat>) {
    if |rows| <= pageSize then (rows, None) else (rows[..pageSize], Some(start + pageSize))
  }

  function HistoryPageAt(a: seq<Event>, b: seq<Event>, start: nat, pageSize: nat): (seq<Event>, Option<nat>) {
    LookaheadPage(start, Query(a, b, HistoryLimits(start, pageSize)), pageSize)
  }

  lemma NextIsInside(a: seq<Event>, b: seq<Event>, start: nat, pageSize: nat)
    ensures HistoryPageAt(a, b, start, pageSize).1.Some? ==> start + pageSize < |a| + |b|
  {
    var n := start + pageSize + 1;
    SortElements(a);
    SortElements(b);
    SortElements(Kept(a, b, n));
  }

  /** A page is a piece of the sorted history; there is a next one exactly when rows are left. */
  lemma PageIsPiece(a: seq<Event>, b: seq<Event>, start: nat, pageSize: nat)
    requires KeysDistinct(a + b)
    ensures HistoryPageAt(a, b, start, pageSize).0 == Limit(Offset(Sort(a + b), start), pageSize)
    ensures HistoryPageAt(a, b, start, pageSize).1
         == if start + pageSize < |Sort(a + b)| then Some(start + pageSize) else None
  {
    QueryIsSlice(a, b, start, pageSize);
  }

  /* ---------- following the cursors ---------- */

  /** What the endpoint answers to each cursor: the rows of a page and the next cursor. */
  type Pages = nat -> (seq<Event>, Option<nat>)

  ghost predicate IsHistory(pages: Pages, a: seq<Event>, b: seq<Event>, pageSize: nat) {
    forall i: nat {:trigger HistoryPageAt(a, b, i, pageSize)} :: pages(i) == HistoryPageAt(a, b, i, pageSize)
  }

  /** Every next cursor is further on, and none is past the bound. */
  ghost predicate Advances(pages: Pages, bound: nat) {
    forall i: nat :: pages(i).1.Some? ==> i < pages(i).1.value <= bound
  }

  /** All the rows a client sees that follows the cursors from `start`. */
  function Followed(pages: Pages, start: nat, ghost bound: nat): seq<Event>
    requires Advances(pages, bound)
    decreases bound - start
  {
    var (items, next) := pages(start);
    if next == None then items else items + Followed(pages, next.value, bound)
  }

  /** The page of a listing at a cursor. */
  function PageOf(all: seq<Event>, start: nat, pageSize: nat): (seq<Event>, Option<nat>) {
    (Limit(Offset(all, start), pageSize), if start + pageSize < |all| then Some(start + pageSize) else None)
  }

  ghost predicate IsListing(pages: Pages, all: seq<Event>, pageSize: nat) {
    forall i: nat {:trigger PageOf(all, i, pageSize)} :: pages(i) == PageOf(all, i, pageSize)
  }

  lemma HistoryIsListing(pages: Pages, a: seq<Event>, b: seq<Event>, pageSize: nat)
    requires KeysDistinct(a + b) && pageSize > 0 && IsHistory(pages, a, b, pageSize)
    ensures IsListing(pages, Sort(a + b), pageSize) && Advances(pages, |a| + |b|)
  {
    forall i: nat
      ensures pages(i) == PageOf(Sort(a + b), i, pageSize) && (pages(i).1.Some? ==> i < pages(i).1.value <= |a| + |b|)
    {
      PageIsPiece(a, b, i, pageSize);
      NextIsInside(a, b, i, pageSize);
    }
  }

  lemma PiecesJoin(s: seq<Event>, start: nat, n: nat)
    ensures Limit(Offset(s, start), n) + Offset(s, start + n) == Offset(s, start)
  {
  }

  lemma {:induction false} PagesListAll(pages: Pages, all: seq<Event>, start: nat, pageSize: nat, bound: nat)
    requires Advances(pages, bound) && IsListing(pages, all, pageSize)
    ensures Followed(pages, start, bound) == Offset(all, start)
    decreases bound - start
  {
    assert pages(start) == PageOf(all, start, pageSize);
    PiecesJoin(all, start, pageSize);
    if start + pageSize < |all| {
      PagesListAll(pages, all, start + pageSize, pageSize, bound);
    }
  }

  /** Following the cursors lists what is left of the history, every row once and in order. */
  lemma FollowingListsAll(pages: Pages, a: seq<Event>, b: seq<Event>, start: nat, pageSize: nat)
    requires KeysDistinct(a + b) && pageSize > 0 && IsHistory(pages, a, b, pageSize)
    ensures Advances(pages, |a| + |b|) && Followed(pages, start, |a| + |b|) == Offset(Sort(a + b), start)
  {
    HistoryIsListing(pages, a, b, pageSize);
    PagesListAll(pages, Sort(a + b), start, pageSize, |a| + |b|);
  }

  /** The order in words: later rows first, and of two rows of one time the one with the higher name. */
  ghost predicate NewestFirst(s: seq<Event>) {
    forall i, j | 0 <= i < j < |s| ::
      s[i].createdAt > s[j].createdAt || (s[i].createdAt == s[j].createdAt && s[i].name > s[j].name)
  }

  lemma SortedIsNewestFirst(s: seq<Event>)
    ensures Sorted(s) <==> NewestFirst(s)
  {
  }

  lemma HistoryIsComplete(pages: Pages, a: seq<Event>, b: seq<Event>)
    requires KeysDistinct(a + b) && IsHistory(pages, a, b, HISTORY_PAGE)
    ensures Advances(pages, |a| + |b|)
    ensures var seen := Followed(pages, 0, |a| + |b|);
            NewestFirst(seen) && SameElements(seen, a + b) && |seen| == |a| + |b|
  {
    FollowingListsAll(pages, a, b, 0, HISTORY_PAGE);
    SortSorts(a + b);
    SortElements(a + b);
    SortedIsNewestFirst(Sort(a + b));
  }
}
