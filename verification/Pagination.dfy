/** Listing: List and applyFilters of api/internal/db/postgres/notification_repo.go, and the
    page arithmetic of api/internal/transport/http/notification.go. Ids are totally ordered
    values; a query sees one snapshot of the table. */
module Pagination {
  import opened Division
  import opened Listings
  import opened Ports

  datatype Row = Row(status: string, channel: string, batchId: Option<Uuid>, createdAt: int, updatedAt: int)

  type Snapshot = map<Uuid, Row>

  datatype Filter = Filter(status: string, channel: string, batchId: Option<Uuid>,
                           dateFrom: Option<int>, dateTo: Option<int>)

  datatype ListFilter = ListFilter(filter: Filter, pageSize: int, cursor: Option<Uuid>,
                                   page: int, sortByUpdated: bool, ascending: bool)

  /** Absent criteria do not restrict; the date bounds are inclusive. */
  predicate Matches(row: Row, f: Filter) {
    && (f.status != "" ==> row.status == f.status)
    && (f.channel != "" ==> row.channel == f.channel)
    && (f.batchId.Some? ==> row.batchId == f.batchId)
    && (f.dateFrom.Some? ==> f.dateFrom.value <= row.createdAt)
    && (f.dateTo.Some? ==> row.createdAt <= f.dateTo.value)
  }

  function Matching(snap: Snapshot, f: Filter): set<Uuid> {
    set id | id in snap && Matches(snap[id], f)
  }

  function Below(ids: set<Uuid>, cursor: Uuid): set<Uuid> {
    set id | id in ids && id < cursor
  }

  function PageSize(pageSize: int): (size: nat)
    ensures size >= 1
  {
    if pageSize < 1 then 20 else pageSize
  }

  // -------------------------------------------------------------- descending sequences

  ghost predicate IsDescending(s: seq<Uuid>) {
    forall j, k | 0 <= j < k < |s| :: s[j] > s[k]
  }

  predicate IsMaximum(ids: set<Uuid>, m: Uuid) {
    forall id | id in ids :: id <= m
  }

  lemma {:induction false} MaximumExists(ids: set<Uuid>)
    requires ids != {}
    ensures exists m :: m in ids && IsMaximum(ids, m)
    decreases |ids|
  {
    var x :| x in ids;
    var rest := ids - {x};
    if rest == {} {
      assert ids == {x};
      assert IsMaximum(ids, x);
    } else {
      MaximumExists(rest);
      var m :| m in rest && IsMaximum(rest, m);
      var best := if x > m then x else m;
      assert forall id | id in ids :: id == x || id in rest;
      assert IsMaximum(ids, best);
    }
  }

  function Maximum(ids: set<Uuid>): (m: Uuid)
    requires ids != {}
    ensures m in ids && IsMaximum(ids, m)
  {
    MaximumExists(ids);
    var m :| m in ids && IsMaximum(ids, m);
    m
  }

  /** ORDER BY id DESC. */
  function Descending(ids: set<Uuid>): seq<Uuid> {
    if ids == {} then [] else [Maximum(ids)] + Descending(ids - {Maximum(ids)})
  }

  /** s lists exactly the ids, from the highest down. */
  ghost predicate ListsDown(s: seq<Uuid>, ids: set<Uuid>) {
    IsDescending(s) && forall id :: id in s <==> id in ids
  }

  lemma {:induction false} DescendingListsDown(ids: set<Uuid>)
    ensures ListsDown(Descending(ids), ids)
    decreases |ids|
  {
    if ids == {} {
    } else {
      var rest := ids - {Maximum(ids)};
      DescendingListsDown(rest);
      forall k | 0 <= k < |Descending(rest)| ensures Descending(rest)[k] < Maximum(ids) {
        assert Descending(rest)[k] in rest;
      }
    }
  }

  lemma ListsDownUnique(s: seq<Uuid>, ids: set<Uuid>)
    requires ListsDown(s, ids)
    ensures s == Descending(ids)
  {
    DescendingListsDown(ids);
    assert Elements(s) == ids == Elements(Descending(ids));
    StrictlySortedUnique((id: Uuid) => 0 - id, s, Descending(ids));
  }

  /** What follows position k of the descending list are the ids below the one before it. */
  lemma RestIsBelow(ids: set<Uuid>, k: nat)
    requires 1 <= k <= |Descending(ids)|
    ensures Descending(ids)[k..] == Descending(Below(ids, Descending(ids)[k - 1]))
  {
    var s := Descending(ids);
    var below := Below(ids, s[k - 1]);
    DescendingListsDown(ids);
    forall id ensures id in s[k..] <==> id in below {
      if id in s[k..] { assert id in s; }
      if id in below {
        var j :| 0 <= j < |s| && s[j] == id;
        assert s[k..][j - k] == id;
      }
    }
    ListsDownUnique(s[k..], below);
  }

  // ------------------------------------------------------------------------ page queries

  datatype Page = Page(items: seq<Uuid>, next: Option<Uuid>)

  /** One row beyond the page is fetched to learn whether there is more. */
  function Trim(fetched: seq<Uuid>, size: nat): Page
    requires 1 <= size
  {
    if |fetched| == size + 1 then Page(fetched[..size], Some(fetched[size - 1])) else Page(fetched, None)
  }

  function Take(s: seq<Uuid>, n: nat): seq<Uuid> { if |s| <= n then s else s[..n] }

  function Drop(s: seq<Uuid>, n: nat): seq<Uuid> { if |s| <= n then [] else s[n..] }

  function CursorPage(snap: Snapshot, f: Filter, cursor: Uuid, size: nat): Page
    requires 1 <= size
  {
    Trim(Take(Descending(Below(Matching(snap, f), cursor)), size + 1), size)
  }

  function KeyOf(snap: Snapshot, id: Uuid, byUpdated: bool): int {
    if id !in snap then 0 else if byUpdated then snap[id].updatedAt else snap[id].createdAt
  }

  /** What ORDER BY sort, order compares. */
  function RankOf(snap: Snapshot, byUpdated: bool, ascending: bool): Uuid -> int {
    (id: Uuid) => if ascending then KeyOf(snap, id, byUpdated) else -KeyOf(snap, id, byUpdated)
  }

  /** A result of the sorted query: rows of one time come in any order. */
  ghost predicate IsListing(snap: Snapshot, f: Filter, byUpdated: bool, ascending: bool, s: seq<Uuid>) {
    IsRanking(Matching(snap, f), RankOf(snap, byUpdated, ascending), s)
  }

  function OffsetPage(listing: seq<Uuid>, page: int, size: nat): Page
    requires 1 <= size
  {
    var p := if page < 1 then 1 else page;
    Trim(Take(Drop(listing, (p - 1) * size), size + 1), size)
  }

  /** List: the cursor takes precedence over page, sort and order. The total is counted by a
      query of its own, on a snapshot of its own. */
  function List(counted: Snapshot, snap: Snapshot, f: ListFilter, listing: seq<Uuid>): (Page, nat) {
    var size := PageSize(f.pageSize);
    var total := |Matching(counted, f.filter)|;
    match f.cursor
    case Some(cursor) => (CursorPage(snap, f.filter, cursor, size), total)
    case None => (OffsetPage(listing, f.page, size), total)
  }

  lemma BelowTwice(ids: set<Uuid>, cursor: Uuid, lower: Uuid)
    requires lower <= cursor
    ensures Below(Below(ids, cursor), lower) == Below(ids, lower)
  {
  }

  /** A cursor page is the next `size` matching ids below the cursor, and its own next
      cursor is absent exactly when no matching id is left below the page. */
  lemma CursorPageMeaning(snap: Snapshot, f: Filter, cursor: Uuid, size: nat)
    requires size >= 1
    ensures var page := CursorPage(snap, f, cursor, size);
            var rows := Descending(Below(Matching(snap, f), cursor));
            && page.items == Take(rows, size)
            && (page.next.None? <==> |rows| <= size)
            && (page.next.Some? ==>
                  && |page.items| > 0 && page.next.value == page.items[|page.items| - 1]
                  && Drop(rows, size) == Descending(Below(Matching(snap, f), page.next.value)))
  {
    var ids := Below(Matching(snap, f), cursor);
    var rows := Descending(ids);
    if |rows| > size {
      RestIsBelow(ids, size);
      DescendingListsDown(ids);
      assert rows[size - 1] in rows;
      BelowTwice(Matching(snap, f), cursor, rows[size - 1]);
    }
  }

  // ----------------------------------------------- a walk over a table that changes

  datatype Walked = Walked(items: seq<Uuid>, done: bool, fetches: nat)

  /** Keyset page after keyset page, one snapshot each, until a page has no next cursor. */
  function KeysetWalk(snaps: seq<Snapshot>, f: Filter, cursor: Uuid, size: nat): Walked
    requires size >= 1
  {
    if snaps == [] then Walked([], false, 0)
    else
      var page := CursorPage(snaps[0], f, cursor, size);
      if page.next.None? then Walked(page.items, true, 1)
      else
        var rest := KeysetWalk(snaps[1..], f, page.next.value, size);
        Walked(page.items + rest.items, rest.done, rest.fetches + 1)
  }

  ghost predicate AllBelow(s: seq<Uuid>, bound: Uuid) {
    forall k | 0 <= k < |s| :: s[k] < bound
  }

  lemma PageIsDescending(snap: Snapshot, f: Filter, cursor: Uuid, size: nat)
    requires size >= 1
    ensures var page := CursorPage(snap, f, cursor, size);
            && IsDescending(page.items) && AllBelow(page.items, cursor)
            && (page.next.Some? ==> |page.items| > 0 && page.next.value == page.items[|page.items| - 1])
  {
    CursorPageMeaning(snap, f, cursor, size);
    var rows := Descending(Below(Matching(snap, f), cursor));
    DescendingListsDown(Below(Matching(snap, f), cursor));
    forall k | 0 <= k < |rows| ensures rows[k] < cursor { assert rows[k] in rows; }
  }

  lemma JoinDescending(a: seq<Uuid>, b: seq<Uuid>)
    requires |a| > 0 && IsDescending(a) && IsDescending(b) && AllBelow(b, a[|a| - 1])
    ensures IsDescending(a + b)
    ensures forall bound | AllBelow(a, bound) :: AllBelow(a + b, bound)
  {
  }

  lemma {:induction false} KeysetWalkNeverRepeats(snaps: seq<Snapshot>, f: Filter, cursor: Uuid, size: nat)
    requires size >= 1
    ensures IsDescending(KeysetWalk(snaps, f, cursor, size).items)
    ensures AllBelow(KeysetWalk(snaps, f, cursor, size).items, cursor)
    ensures KeysetWalk(snaps, f, cursor, size).fetches <= |snaps|
    decreases |snaps|
  {
    if snaps == [] {
    } else {
      PageIsDescending(snaps[0], f, cursor, size);
      var page := CursorPage(snaps[0], f, cursor, size);
      if page.next.Some? {
        KeysetWalkNeverRepeats(snaps[1..], f, page.next.value, size);
        JoinDescending(page.items, KeysetWalk(snaps[1..], f, page.next.value, size).items);
      }
    }
  }

  /** A matching id below the cursor is on the page or below its next cursor. */
  lemma PageShowsOrContinues(snap: Snapshot, f: Filter, cursor: Uuid, size: nat, id: Uuid)
    requires size >= 1 && id in Matching(snap, f) && id < cursor
    ensures var page := CursorPage(snap, f, cursor, size);
            id in page.items || (page.next.Some? && id < page.next.value)
  {
    CursorPageMeaning(snap, f, cursor, size);
    var rows := Descending(Below(Matching(snap, f), cursor));
    DescendingListsDown(Below(Matching(snap, f), cursor));
    assert id in Below(Matching(snap, f), cursor);
    assert id in rows;
    var j :| 0 <= j < |rows| && rows[j] == id;
    if j < size { assert Take(rows, size)[j] == id; }
  }

  lemma {:induction false} KeysetWalkMissesNothing(snaps: seq<Snapshot>, f: Filter, cursor: Uuid, size: nat, id: Uuid)
    requires size >= 1 && id < cursor
    requires var w := KeysetWalk(snaps, f, cursor, size);
             w.done && forall k | 0 <= k < w.fetches && k < |snaps| :: id in Matching(snaps[k], f)
    ensures id in KeysetWalk(snaps, f, cursor, size).items
    decreases |snaps|
  {
    PageShowsOrContinues(snaps[0], f, cursor, size, id);
    var page := CursorPage(snaps[0], f, cursor, size);
    if page.next.Some? && id < page.next.value {
      forall k | 0 <= k < KeysetWalk(snaps[1..], f, page.next.value, size).fetches && k < |snaps[1..]|
        ensures id in Matching(snaps[1..][k], f)
      {
        assert snaps[1..][k] == snaps[k + 1];
      }
      KeysetWalkMissesNothing(snaps[1..], f, page.next.value, size, id);
    }
  }

  lemma {:induction false} KeysetFixedTableWalk(snap: Snapshot, f: Filter, cursor: Uuid, size: nat, n: nat)
    requires size >= 1
    requires |Descending(Below(Matching(snap, f), cursor))| <= n * size && n >= 1
    ensures var w := KeysetWalk(seq(n, _ => snap), f, cursor, size);
            w.done && w.items == Descending(Below(Matching(snap, f), cursor))
    decreases n
  {
    CursorPageMeaning(snap, f, cursor, size);
    var page := CursorPage(snap, f, cursor, size);
    var rows := Descending(Below(Matching(snap, f), cursor));
    assert seq(n, _ => snap)[1..] == seq(n - 1, _ => snap);
    if page.next.Some? {
      Distribute(n, 1, size);
      KeysetFixedTableWalk(snap, f, page.next.value, size, n - 1);
      assert rows == Take(rows, size) + Drop(rows, size);
    }
  }

  /** One call of List: the snapshots its two queries see, and the order in which the sorted
      query, if it were asked, would give the rows. */
  datatype Query = Query(counted: Snapshot, snap: Snapshot, listing: seq<Uuid>)

  function Answer(q: Query, f: ListFilter): Page {
    List(q.counted, q.snap, f, q.listing).0
  }

  /** What a client collects that calls List with a cursor and then with each next cursor it
      is given, until there is none. */
  function Walk(queries: seq<Query>, f: ListFilter, cursor: Uuid): Walked {
    if queries == [] then Walked([], false, 0)
    else
      var page := Answer(queries[0], f.(cursor := Some(cursor)));
      if page.next.None? then Walked(page.items, true, 1)
      else
        var rest := Walk(queries[1..], f, page.next.value);
        Walked(page.items + rest.items, rest.done, rest.fetches + 1)
  }

  /** With a cursor, List answers the highest matching ids below it, in descending order, as
      many as the page holds; whatever page, sort and order the request names. There is no
      next cursor exactly when no matching id is left below the page. */
  lemma ListWithCursor(q: Query, f: ListFilter, cursor: Uuid)
    requires f.cursor == Some(cursor)
    ensures var page := Answer(q, f);
            var size := PageSize(f.pageSize);
            && IsDescending(page.items) && |page.items| <= size
            && (forall id | id in page.items :: id in q.snap && Matches(q.snap[id], f.filter) && id < cursor)
            && (forall id | id in q.snap && Matches(q.snap[id], f.filter) && id < cursor && id !in page.items ::
                  |page.items| == size && page.next.Some? && id < page.next.value)
            && (page.next.Some? ==>
                  && |page.items| == size && page.next.value == page.items[size - 1]
                  && exists id :: id in q.snap && Matches(q.snap[id], f.filter) && id < page.next.value)
  {
    var size := PageSize(f.pageSize);
    var ids := Below(Matching(q.snap, f.filter), cursor);
    CursorPageMeaning(q.snap, f.filter, cursor, size);
    PageIsDescending(q.snap, f.filter, cursor, size);
    DescendingListsDown(ids);
    forall id | id in Answer(q, f).items ensures id in ids { assert id in Descending(ids); }
    forall id | id in q.snap && Matches(q.snap[id], f.filter) && id < cursor && id !in Answer(q, f).items
      ensures Answer(q, f).next.Some? && id < Answer(q, f).next.value
    {
      PageShowsOrContinues(q.snap, f.filter, cursor, size, id);
    }
    if Answer(q, f).next.Some? {
      var left := Drop(Descending(ids), size);
      assert left[0] in left;
      DescendingListsDown(Below(Matching(q.snap, f.filter), Answer(q, f).next.value));
      assert left[0] in Below(Matching(q.snap, f.filter), Answer(q, f).next.value);
    }
  }

  function SnapsOf(queries: seq<Query>): (snaps: seq<Snapshot>)
    ensures |snaps| == |queries|
  {
    seq(|queries|, k requires 0 <= k < |queries| => queries[k].snap)
  }

  lemma {:induction false} WalkIsKeyset(queries: seq<Query>, f: ListFilter, cursor: Uuid)
    ensures Walk(queries, f, cursor) == KeysetWalk(SnapsOf(queries), f.filter, cursor, PageSize(f.pageSize))
    decreases |queries|
  {
    if queries == [] {
    } else {
      var page := CursorPage(queries[0].snap, f.filter, cursor, PageSize(f.pageSize));
      assert Answer(queries[0], f.(cursor := Some(cursor))) == page;
      assert SnapsOf(queries)[1..] == SnapsOf(queries[1..]);
      if page.next.Some? { WalkIsKeyset(queries[1..], f, page.next.value); }
    }
  }

  /** However the table changes between the calls, and whatever page, sort and order they
      name, a walk shows strictly decreasing ids: no id twice, none at or above the cursor. */
  lemma WalkNeverRepeats(queries: seq<Query>, f: ListFilter, cursor: Uuid)
    ensures IsDescending(Walk(queries, f, cursor).items)
    ensures AllBelow(Walk(queries, f, cursor).items, cursor)
    ensures Walk(queries, f, cursor).fetches <= |queries|
  {
    WalkIsKeyset(queries, f, cursor);
    KeysetWalkNeverRepeats(SnapsOf(queries), f.filter, cursor, PageSize(f.pageSize));
  }

  /** A walk that came to its end has shown every id below the cursor that was there and
      matched at each of its calls. */
  lemma WalkMissesNothing(queries: seq<Query>, f: ListFilter, cursor: Uuid, id: Uuid)
    requires id < cursor
    requires var w := Walk(queries, f, cursor);
             w.done && forall k | 0 <= k < w.fetches && k < |queries| ::
               id in queries[k].snap && Matches(queries[k].snap[id], f.filter)
    ensures id in Walk(queries, f, cursor).items
  {
    WalkIsKeyset(queries, f, cursor);
    KeysetWalkMissesNothing(SnapsOf(queries), f.filter, cursor, PageSize(f.pageSize), id);
  }

  lemma {:induction false} DescendingSize(ids: set<Uuid>)
    ensures |Descending(ids)| == |ids|
  {
    if ids == {} {
    } else {
      DescendingSize(ids - {Maximum(ids)});
    }
  }

  lemma EnoughFetches(ids: set<Uuid>, cursor: Uuid, size: nat, n: nat)
    requires size >= 1 && n >= |ids|
    ensures |Descending(Below(ids, cursor))| <= n * size
  {
    DescendingSize(Below(ids, cursor));
    SubsetSize(Below(ids, cursor), ids);
    assert n * size == n + n * (size - 1);
  }

  /** On a table that does not change, enough calls give the filtered list below the cursor,
      from the highest id down. */
  lemma FixedTableWalk(q: Query, f: ListFilter, cursor: Uuid, n: nat)
    requires n >= 1 && n >= |Matching(q.snap, f.filter)|
    ensures var w := Walk(seq(n, _ => q), f, cursor);
            w.done && ListsDown(w.items, Below(Matching(q.snap, f.filter), cursor))
  {
    var queries := seq(n, _ => q);
    WalkIsKeyset(queries, f, cursor);
    assert SnapsOf(queries) == seq(n, _ => q.snap);
    EnoughFetches(Matching(q.snap, f.filter), cursor, PageSize(f.pageSize), n);
    KeysetFixedTableWalk(q.snap, f.filter, cursor, PageSize(f.pageSize), n);
    DescendingListsDown(Below(Matching(q.snap, f.filter), cursor));
  }

  // ------------------------------------------------------------------------ offset pages

  /** (total + pageSize - 1) / pageSize. */
  function TotalPages(total: nat, size: nat): nat
    requires size >= 1
  {
    (total + size - 1) / size
  }

  lemma OffsetPageMeaning(listing: seq<Uuid>, page: nat, size: nat)
    requires size >= 1 && page >= 1
    ensures var from := (page - 1) * size;
            && OffsetPage(listing, page, size).items == Take(Drop(listing, from), size)
            && (OffsetPage(listing, page, size).next.None? <==> |listing| <= from + size)
  {
  }

  lemma CeilingBounds(total: nat, size: nat)
    requires size >= 1
    ensures TotalPages(total, size) * size >= total
  {
    var x := total + size - 1;
    assert x == x / size * size + x % size;
  }

  lemma CeilingLeast(total: nat, page: nat, size: nat)
    requires size >= 1
    ensures page * size >= total <==> page >= TotalPages(total, size)
  {
    var n := TotalPages(total, size);
    var x := total + size - 1;
    assert x == n * size + x % size;
    Distribute(page, n, size);
    Distribute(n, page, size);
    if page < n { MulGrows(n - page, size); }
    else if page > n { MulGrows(page - n, size); }
  }

  /** The last page a client is told of is the first without a next cursor. */
  lemma LastPageHasNoNext(listing: seq<Uuid>, page: nat, size: nat)
    requires size >= 1 && page >= 1
    ensures OffsetPage(listing, page, size).next.None? <==> page >= TotalPages(|listing|, size)
  {
    OffsetPageMeaning(listing, page, size);
    Distribute(page, 1, size);
    CeilingLeast(|listing|, page, size);
  }

  /** The first n pages, one after the other. */
  function Concat(pages: seq<seq<Uuid>>, n: nat): seq<Uuid>
    requires n <= |pages|
  {
    if n == 0 then [] else Concat(pages, n - 1) + pages[n - 1]
  }

  /** The listings that the queries for pages 1 .. n see: each orders tied rows as it likes. */
  ghost predicate AreRankings(ids: set<Uuid>, key: Uuid -> int, orders: seq<seq<Uuid>>) {
    forall n | 0 <= n < |orders| :: IsRanking(ids, key, orders[n])
  }

  /** The number of rows that n full pages hold. */
  function RowsOn(n: nat, size: nat): nat {
    if n == 0 then 0 else RowsOn(n - 1, size) + size
  }

  lemma {:induction false} RowsOnIsProduct(n: nat, size: nat)
    ensures RowsOn(n, size) == n * size
  {
    if n == 0 {
    } else {
      RowsOnIsProduct(n - 1, size);
      Distribute(n, 1, size);
    }
  }

  /** How many rows of a listing come on its first n pages. */
  function Cut(listing: seq<Uuid>, n: nat, size: nat): (k: nat)
    ensures k <= |listing|
  {
    if RowsOn(n, size) <= |listing| then RowsOn(n, size) else |listing|
  }

  /** The page after n others, of a listing. */
  ghost predicate IsPage(page: seq<Uuid>, listing: seq<Uuid>, n: nat, size: nat) {
    page == listing[Cut(listing, n, size)..Cut(listing, n + 1, size)]
  }

  ghost predicate ArePages(pages: seq<seq<Uuid>>, orders: seq<seq<Uuid>>, size: nat) {
    |pages| == |orders| && forall n | 0 <= n < |pages| :: IsPage(pages[n], orders[n], n, size)
  }

  /** No two rows on different sides of the end of page p tie. */
  ghost predicate CleanAfter(ids: set<Uuid>, key: Uuid -> int, p: nat, size: nat) {
    CleanCut(ids, key, RowsOn(p, size))
  }

  lemma PrefixCounts(ids: set<Uuid>, key: Uuid -> int, s: seq<Uuid>, n: nat, m: Uuid)
    requires IsRanking(ids, key, s) && m in ids && |UpTo(ids, key, m)| == n
    ensures n <= |s| && multiset(s[..n]) == multiset(UpTo(ids, key, m))
  {
    PrefixIsUpTo(ids, key, s, m);
    DistinctCounts(s[..n]);
  }

  /** Listings of the same rows begin with the same rows where no tie straddles the cut. */
  lemma SamePrefix(ids: set<Uuid>, key: Uuid -> int, a: seq<Uuid>, b: seq<Uuid>, p: nat, size: nat)
    requires IsRanking(ids, key, a) && IsRanking(ids, key, b) && CleanAfter(ids, key, p, size)
    ensures multiset(a[..Cut(a, p, size)]) == multiset(b[..Cut(b, p, size)])
  {
    var n := RowsOn(p, size);
    var m :| m in ids && |UpTo(ids, key, m)| == n;
    PrefixCounts(ids, key, a, n, m);
    PrefixCounts(ids, key, b, n, m);
  }

  lemma SliceJoins(s: seq<Uuid>, i: nat, j: nat)
    requires i <= j <= |s|
    ensures s[..i] + s[i..j] == s[..j]
  {
  }

  /** A page carries on where the pages before it ended. */
  lemma PageCarriesOn(listing: seq<Uuid>, shown: seq<Uuid>, page: seq<Uuid>, n: nat, size: nat)
    requires multiset(shown) == multiset(listing[..Cut(listing, n, size)]) && IsPage(page, listing, n, size)
    ensures multiset(shown + page) == multiset(listing[..Cut(listing, n + 1, size)])
  {
    SliceJoins(listing, Cut(listing, n, size), Cut(listing, n + 1, size));
  }

  /** The first n pages show what the n-th query lists on its first n pages. */
  ghost predicate ShowsPrefix(pages: seq<seq<Uuid>>, orders: seq<seq<Uuid>>, n: nat, size: nat)
    requires 1 <= n <= |pages| && n <= |orders|
  {
    multiset(Concat(pages, n)) == multiset(orders[n - 1][..Cut(orders[n - 1], n, size)])
  }

  lemma FirstPageShows(pages: seq<seq<Uuid>>, orders: seq<seq<Uuid>>, size: nat)
    requires ArePages(pages, orders, size) && |pages| >= 1
    ensures ShowsPrefix(pages, orders, 1, size)
  {
    assert IsPage(pages[0], orders[0], 0, size);
    assert Concat(pages, 0) == [];
    PageCarriesOn(orders[0], [], pages[0], 0, size);
  }

  /** Queries n and n + 1 list the same rows on their first n pages. */
  ghost predicate AgreeOn(orders: seq<seq<Uuid>>, n: nat, size: nat)
    requires 1 <= n < |orders|
  {
    var a, b := orders[n - 1], orders[n];
    multiset(a[..Cut(a, n, size)]) == multiset(b[..Cut(b, n, size)])
  }

  ghost predicate AllAgree(orders: seq<seq<Uuid>>, size: nat) {
    forall p: nat | 1 <= p < |orders| :: AgreeOn(orders, p, size)
  }

  lemma NextPageShows(orders: seq<seq<Uuid>>, pages: seq<seq<Uuid>>, k: nat, n: nat, size: nat)
    requires ArePages(pages, orders, size) && 1 <= k < |pages| && n == k + 1
    requires AgreeOn(orders, k, size) && ShowsPrefix(pages, orders, k, size)
    ensures ShowsPrefix(pages, orders, n, size)
  {
    assert IsPage(pages[k], orders[k], k, size);
    PageCarriesOn(orders[k], Concat(pages, k), pages[k], k, size);
  }

  lemma {:induction false} AgreeingPagesShow(orders: seq<seq<Uuid>>, pages: seq<seq<Uuid>>, n: nat, size: nat)
    requires ArePages(pages, orders, size) && 1 <= n <= |pages|
    requires AllAgree(orders, size)
    ensures ShowsPrefix(pages, orders, n, size)
  {
    if n == 1 {
      FirstPageShows(pages, orders, size);
    } else {
      AgreeingPagesShow(orders, pages, n - 1, size);
      NextPageShows(orders, pages, n - 1, n, size);
    }
  }

  lemma CleanMakesAgree(ids: set<Uuid>, key: Uuid -> int, orders: seq<seq<Uuid>>, p: nat, size: nat)
    requires 1 <= p < |orders| && AreRankings(ids, key, orders) && CleanAfter(ids, key, p, size)
    ensures AgreeOn(orders, p, size)
  {
    SamePrefix(ids, key, orders[p - 1], orders[p], p, size);
  }

  lemma WholeListing(ids: set<Uuid>, key: Uuid -> int, listing: seq<Uuid>, n: nat, size: nat)
    requires IsRanking(ids, key, listing) && RowsOn(n, size) >= |ids|
    ensures listing[..Cut(listing, n, size)] == listing && multiset(listing) == multiset(ids)
  {
    RankingSize(ids, key, listing);
    DistinctCounts(listing);
  }

  lemma CleanMakesAllAgree(ids: set<Uuid>, key: Uuid -> int, orders: seq<seq<Uuid>>, size: nat)
    requires AreRankings(ids, key, orders)
    requires forall p: nat | 1 <= p < |orders| :: CleanAfter(ids, key, p, size)
    ensures AllAgree(orders, size)
  {
    forall p: nat | 1 <= p < |orders| ensures AgreeOn(orders, p, size) {
      CleanMakesAgree(ids, key, orders, p, size);
    }
  }

  lemma PrefixIsAll(ids: set<Uuid>, key: Uuid -> int, orders: seq<seq<Uuid>>, pages: seq<seq<Uuid>>,
                    n: nat, size: nat)
    requires 1 <= n <= |pages| && n <= |orders| && ShowsPrefix(pages, orders, n, size)
    requires IsRanking(ids, key, orders[n - 1]) && RowsOn(n, size) >= |ids|
    ensures multiset(Concat(pages, n)) == multiset(ids)
  {
    WholeListing(ids, key, orders[n - 1], n, size);
  }

  lemma CleanPagesComplete(ids: set<Uuid>, key: Uuid -> int, orders: seq<seq<Uuid>>,
                           pages: seq<seq<Uuid>>, size: nat)
    requires |pages| >= 1 && RowsOn(|pages|, size) >= |ids|
    requires AreRankings(ids, key, orders) && ArePages(pages, orders, size)
    requires forall p: nat | 1 <= p < |pages| :: CleanAfter(ids, key, p, size)
    ensures multiset(Concat(pages, |pages|)) == multiset(ids)
  {
    CleanMakesAllAgree(ids, key, orders, size);
    AgreeingPagesShow(orders, pages, |pages|, size);
    PrefixIsAll(ids, key, orders, pages, |pages|, size);
  }

  lemma {:induction false} ShownOnce(pages: seq<seq<Uuid>>, n: nat, i: nat, x: Uuid)
    requires i < n <= |pages| && x in pages[i]
    ensures x in Concat(pages, n)
  {
    if i == n - 1 {
    } else {
      ShownOnce(pages, n - 1, i, x);
    }
  }

  lemma CountJoin(a: seq<Uuid>, b: seq<Uuid>, x: Uuid)
    ensures multiset(a + b)[x] == multiset(a)[x] + multiset(b)[x]
  {
    assert multiset(a + b) == multiset(a) + multiset(b);
  }

  /** A row that is on two pages is shown twice. */
  lemma {:induction false} ShownTwice(pages: seq<seq<Uuid>>, n: nat, i: nat, j: nat, x: Uuid)
    requires i < j < n <= |pages| && x in pages[i] && x in pages[j]
    ensures multiset(Concat(pages, n))[x] >= 2
  {
    CountJoin(Concat(pages, n - 1), pages[n - 1], x);
    if j == n - 1 {
      ShownOnce(pages, n - 1, i, x);
    } else {
      ShownTwice(pages, n - 1, i, j, x);
    }
  }

  lemma OnBothPages(p: nat, size: nat, a: seq<Uuid>, b: seq<Uuid>, first: seq<Uuid>, second: seq<Uuid>)
    requires size >= 1 && p >= 1 && IsPage(first, a, p - 1, size) && IsPage(second, b, p, size)
    requires 1 <= RowsOn(p, size) < |a| == |b| && a[RowsOn(p, size) - 1] == b[RowsOn(p, size)]
    ensures b[RowsOn(p, size)] in first && b[RowsOn(p, size)] in second
  {
    var cut := RowsOn(p, size);
    assert cut == RowsOn(p - 1, size) + size && RowsOn(p + 1, size) == cut + size;
    assert first[|first| - 1] == a[cut - 1];
    assert second[0] == b[cut];
  }

  /** For a tie across the end of page p there are orders in which a row comes last on page p
      and first on the page after it. */
  lemma TieHasBadOrders(ids: set<Uuid>, key: Uuid -> int, cut: nat, p: nat, n: nat) returns (orders: seq<seq<Uuid>>)
    requires 1 <= cut < |ids| && !CleanCut(ids, key, cut) && 1 <= p < n
    ensures |orders| == n && AreRankings(ids, key, orders)
    ensures |orders[p - 1]| == |orders[p]| == |ids| && orders[p - 1][cut - 1] == orders[p][cut]
  {
    var a := RankingExists(ids, key);
    RankingSize(ids, key, a);
    if key(a[cut - 1]) < key(a[cut]) { StepIsClean(ids, key, a, cut - 1); }
    SwapTie(ids, key, a, cut - 1, cut);
    var b := Swapped(a, cut - 1, cut);
    orders := seq(n, k => if k < p then a else b);
  }

  lemma TieRepeatsRow(ids: set<Uuid>, p: nat, size: nat, orders: seq<seq<Uuid>>, pages: seq<seq<Uuid>>)
    requires size >= 1 && 1 <= p < |pages| && ArePages(pages, orders, size)
    requires 1 <= RowsOn(p, size) < |orders[p - 1]| == |orders[p]|
    requires orders[p - 1][RowsOn(p, size) - 1] == orders[p][RowsOn(p, size)]
    ensures multiset(Concat(pages, |pages|)) != multiset(ids)
  {
    var x := orders[p][RowsOn(p, size)];
    assert IsPage(pages[p - 1], orders[p - 1], p - 1, size) && IsPage(pages[p], orders[p], p, size);
    OnBothPages(p, size, orders[p - 1], orders[p], pages[p - 1], pages[p]);
    ShownTwice(pages, |pages|, p - 1, p, x);
    assert multiset(ids)[x] <= 1;
  }

  /** intParam: a positive number, or the default. */
  function IntParam(parsed: Option<int>, default: nat): (n: nat)
    requires default > 0
    ensures n > 0
  {
    if parsed.Some? && parsed.value > 0 then parsed.value else default
  }

  /** The page size the handler asks for and computes totalPages with. */
  function RequestedPageSize(parsed: Option<int>): (size: nat)
    ensures 1 <= size <= 100
  {
    var size := IntParam(parsed, 20);
    if size > 100 then 100 else size
  }

  function ListRank(snap: Snapshot, f: ListFilter): Uuid -> int {
    RankOf(snap, f.sortByUpdated, f.ascending)
  }

  /** The pages of a table that does not change, each by a query of its own. */
  function PagesOf(snap: Snapshot, f: ListFilter, orders: seq<seq<Uuid>>): (pages: seq<seq<Uuid>>)
    ensures |pages| == |orders|
  {
    seq(|orders|, n requires 0 <= n < |orders| => List(snap, snap, f.(page := n + 1), orders[n]).0.items)
  }

  lemma SliceIsPage(listing: seq<Uuid>, n: nat, size: nat)
    ensures IsPage(Take(Drop(listing, RowsOn(n, size)), size), listing, n, size)
  {
    assert RowsOn(n + 1, size) == RowsOn(n, size) + size;
  }

  lemma ListIsPage(snap: Snapshot, f: ListFilter, listing: seq<Uuid>, n: nat, size: nat)
    requires f.cursor.None? && PageSize(f.pageSize) == size
    ensures IsPage(List(snap, snap, f.(page := n + 1), listing).0.items, listing, n, size)
  {
    RowsOnIsProduct(n, size);
    OffsetPageMeaning(listing, n + 1, size);
    SliceIsPage(listing, n, size);
  }

  lemma PagesOfArePages(snap: Snapshot, f: ListFilter, orders: seq<seq<Uuid>>, size: nat)
    requires f.cursor.None? && PageSize(f.pageSize) == size
    ensures ArePages(PagesOf(snap, f, orders), orders, size)
  {
    forall n: nat | n < |orders| ensures IsPage(PagesOf(snap, f, orders)[n], orders[n], n, size) {
      ListIsPage(snap, f, orders[n], n, size);
    }
  }

  /** The number of pages the handler tells the client of. */
  function PagesTold(snap: Snapshot, f: ListFilter, parsed: Option<int>): nat {
    TotalPages(List(snap, snap, f, []).1, RequestedPageSize(parsed))
  }

  /** What the client has seen after one query for each page. */
  function Seen(snap: Snapshot, f: ListFilter, orders: seq<seq<Uuid>>): seq<Uuid> {
    Concat(PagesOf(snap, f, orders), |orders|)
  }

  /** Every way the queries can order tied rows gives the client each matching row once. */
  ghost predicate AlwaysComplete(snap: Snapshot, f: ListFilter, n: nat) {
    forall orders | |orders| == n && AreRankings(Matching(snap, f.filter), ListRank(snap, f), orders) ::
      multiset(Seen(snap, f, orders)) == multiset(Matching(snap, f.filter))
  }

  /** The pages the client is told of have room for all rows. */
  lemma EnoughPages(total: nat, size: nat)
    requires size >= 1
    ensures RowsOn(TotalPages(total, size), size) >= total
  {
    CeilingBounds(total, size);
    RowsOnIsProduct(TotalPages(total, size), size);
  }

  lemma CompleteForOrders(snap: Snapshot, f: ListFilter, orders: seq<seq<Uuid>>)
    ensures AreRankings(Matching(snap, f.filter), ListRank(snap, f), orders) && AlwaysComplete(snap, f, |orders|)
            ==> multiset(Seen(snap, f, orders)) == multiset(Matching(snap, f.filter))
  {
  }

  lemma BadOrdersSeen(snap: Snapshot, f: ListFilter, orders: seq<seq<Uuid>>, p: nat, size: nat)
    requires f.cursor.None? && PageSize(f.pageSize) == size && 1 <= p < |orders|
    requires 1 <= RowsOn(p, size) < |orders[p - 1]| == |orders[p]|
    requires orders[p - 1][RowsOn(p, size) - 1] == orders[p][RowsOn(p, size)]
    ensures multiset(Seen(snap, f, orders)) != multiset(Matching(snap, f.filter))
  {
    PagesOfArePages(snap, f, orders, size);
    TieRepeatsRow(Matching(snap, f.filter), p, size, orders, PagesOf(snap, f, orders));
  }

  lemma TieBreaksPages(snap: Snapshot, f: ListFilter, p: nat, size: nat, orders: seq<seq<Uuid>>)
    requires f.cursor.None? && PageSize(f.pageSize) == size && 1 <= p < |orders|
    requires AreRankings(Matching(snap, f.filter), ListRank(snap, f), orders)
    requires 1 <= RowsOn(p, size) < |orders[p - 1]| == |orders[p]|
    requires orders[p - 1][RowsOn(p, size) - 1] == orders[p][RowsOn(p, size)]
    ensures !AlwaysComplete(snap, f, |orders|)
  {
    BadOrdersSeen(snap, f, orders, p, size);
    CompleteForOrders(snap, f, orders);
  }

  lemma CleanIsComplete(snap: Snapshot, f: ListFilter, n: nat, size: nat)
    requires f.cursor.None? && PageSize(f.pageSize) == size && RowsOn(n, size) >= |Matching(snap, f.filter)|
    requires forall p: nat | 1 <= p < n :: CleanAfter(Matching(snap, f.filter), ListRank(snap, f), p, size)
    ensures AlwaysComplete(snap, f, n)
  {
    var all, key := Matching(snap, f.filter), ListRank(snap, f);
    forall orders | |orders| == n && AreRankings(all, key, orders)
      ensures multiset(Seen(snap, f, orders)) == multiset(all)
    {
      if n == 0 {
        assert all == {} && Seen(snap, f, orders) == [];
      } else {
        PagesOfArePages(snap, f, orders, size);
        CleanPagesComplete(all, key, orders, PagesOf(snap, f, orders), size);
      }
    }
  }

  /** The pages a client is told of show each matching row exactly once, whatever order each
      query gives tied rows, if and only if no tie straddles a page boundary. */
  lemma ListPagesCompleteIff(snap: Snapshot, f: ListFilter, parsed: Option<int>)
    requires f.cursor.None? && f.pageSize == RequestedPageSize(parsed)
    ensures var n := PagesTold(snap, f, parsed);
            AlwaysComplete(snap, f, n) <==>
            forall p: nat | 1 <= p < n :: CleanAfter(Matching(snap, f.filter), ListRank(snap, f), p, f.pageSize)
  {
    var all, key, size: nat, n := Matching(snap, f.filter), ListRank(snap, f), f.pageSize, PagesTold(snap, f, parsed);
    EnoughPages(|all|, size);
    if forall p: nat | 1 <= p < n :: CleanAfter(all, key, p, size) {
      CleanIsComplete(snap, f, n, size);
    } else {
      var p: nat :| 1 <= p < n && !CleanAfter(all, key, p, size);
      CeilingLeast(|all|, p, size);
      MulGrows(p, size);
      RowsOnIsProduct(p, size);
      var orders := TieHasBadOrders(all, key, RowsOn(p, size), p, n);
      TieBreaksPages(snap, f, p, size, orders);
    }
  }

  lemma {:induction false} PagesOfOneListing(listing: seq<Uuid>, orders: seq<seq<Uuid>>, pages: seq<seq<Uuid>>,
                                             n: nat, size: nat)
    requires n <= |pages| && ArePages(pages, orders, size) && forall k | 0 <= k < |orders| :: orders[k] == listing
    ensures Concat(pages, n) == listing[..Cut(listing, n, size)]
  {
    if n == 0 {
    } else {
      PagesOfOneListing(listing, orders, pages, n - 1, size);
      assert IsPage(pages[n - 1], orders[n - 1], n - 1, size);
      SliceJoins(listing, Cut(listing, n - 1, size), Cut(listing, n, size));
    }
  }

  /** Without ties they are the whole list in its order. */
  lemma ListPagesComplete(snap: Snapshot, f: ListFilter, parsed: Option<int>, orders: seq<seq<Uuid>>,
                          listing: seq<Uuid>)
    requires f.cursor.None? && f.pageSize == RequestedPageSize(parsed) && |orders| == PagesTold(snap, f, parsed)
    requires AreRankings(Matching(snap, f.filter), ListRank(snap, f), orders)
    requires IsRanking(Matching(snap, f.filter), ListRank(snap, f), listing)
    requires NoTies(Matching(snap, f.filter), ListRank(snap, f))
    ensures Seen(snap, f, orders) == listing
  {
    var all, size: nat := Matching(snap, f.filter), f.pageSize;
    forall k | 0 <= k < |orders| ensures orders[k] == listing {
      TieFreeRankingUnique(all, ListRank(snap, f), orders[k], listing);
    }
    PagesOfArePages(snap, f, orders, size);
    PagesOfOneListing(listing, orders, PagesOf(snap, f, orders), |orders|, size);
    EnoughPages(|all|, size);
    WholeListing(all, ListRank(snap, f), listing, |orders|, size);
  }

  // ------------------------------------------- a default first page, then cursor pages

  /** What a client sees that takes the first page of a listing and then follows the next
      cursors, on a set of rows that does not change. */
  function FollowedFrom(all: set<Uuid>, listing: seq<Uuid>, size: nat): seq<Uuid>
    requires size >= 1
  {
    var first := OffsetPage(listing, 1, size);
    if first.next.None? then first.items else first.items + Descending(Below(all, first.next.value))
  }

  /** The request for the first page as a client makes it by default: newest first. */
  function FirstRequest(f: ListFilter): ListFilter {
    f.(cursor := None, page := 1, sortByUpdated := false, ascending := false)
  }

  /** What a client collects that calls List without a cursor and then with each next cursor,
      at most n times; every call sees the same table. */
  function MixedWalk(snap: Snapshot, f: ListFilter, listing: seq<Uuid>, n: nat): seq<Uuid> {
    var q := Query(snap, snap, listing);
    var first := Answer(q, FirstRequest(f));
    if first.next.None? then first.items
    else first.items + Walk(seq(n, _ => q), FirstRequest(f), first.next.value).items
  }

  lemma MixedWalkIsFollowed(snap: Snapshot, f: ListFilter, listing: seq<Uuid>, n: nat)
    requires n >= 1 && n >= |Matching(snap, f.filter)|
    ensures MixedWalk(snap, f, listing, n)
            == FollowedFrom(Matching(snap, f.filter), listing, PageSize(f.pageSize))
  {
    var q := Query(snap, snap, listing);
    var first := Answer(q, FirstRequest(f));
    if first.next.Some? {
      FixedTableWalk(q, FirstRequest(f), first.next.value, n);
      ListsDownUnique(Walk(seq(n, _ => q), FirstRequest(f), first.next.value).items,
                      Below(Matching(snap, f.filter), first.next.value));
    }
  }

  lemma SplitCounts(all: set<Uuid>, a: set<Uuid>, b: set<Uuid>)
    requires a <= all && b <= all
    ensures multiset(a) + multiset(b) == multiset(all) <==> forall id | id in all :: id in a <==> id !in b
  {
    if forall id | id in all :: id in a <==> id !in b {
      assert forall id :: (multiset(a) + multiset(b))[id] == multiset(all)[id];
    }
    if multiset(a) + multiset(b) == multiset(all) {
      forall id | id in all ensures id in a <==> id !in b {
        assert (multiset(a) + multiset(b))[id] == multiset(all)[id] == 1;
      }
    }
  }

  lemma FirstPageAndRest(all: set<Uuid>, first: seq<Uuid>, listing: seq<Uuid>, cursor: Uuid)
    requires first <= listing && Elements(listing) == all
    requires forall j, k | 0 <= j < k < |listing| :: listing[j] != listing[k]
    ensures multiset(first + Descending(Below(all, cursor))) == multiset(all)
            <==> forall id | id in all :: id in first <==> id >= cursor
  {
    var rest := Below(all, cursor);
    DescendingListsDown(rest);
    DistinctCounts(first);
    DistinctCounts(Descending(rest));
    assert Elements(Descending(rest)) == rest;
    forall id | id in first ensures id in all {
      assert id in listing;
      assert id in Elements(listing);
    }
    assert forall id :: id in Elements(first) <==> id in first;
    SplitCounts(all, Elements(first), rest);
  }

  ghost predicate ShowsEachOnce(all: set<Uuid>, listing: seq<Uuid>, size: nat)
    requires size >= 1
  {
    multiset(FollowedFrom(all, listing, size)) == multiset(all)
  }

  /** Every id at or above the cursor is on the first page, and no other. */
  ghost predicate PageIsTop(all: set<Uuid>, page: seq<Uuid>, cursor: Uuid) {
    forall id | id in all :: id in page <==> id >= cursor
  }

  /** On a list longer than a page, that client sees every row exactly once if and only if
      the first page and the ids below its last one do not overlap and leave nothing out. */
  lemma EachOnceIffTop(all: set<Uuid>, key: Uuid -> int, listing: seq<Uuid>, size: nat)
    requires size >= 1 && IsRanking(all, key, listing) && |listing| > size
    ensures ShowsEachOnce(all, listing, size) <==> PageIsTop(all, listing[..size], listing[size - 1])
  {
    OffsetPageMeaning(listing, 1, size);
    assert Drop(listing, 0) == listing;
    FirstPageAndRest(all, listing[..size], listing, listing[size - 1]);
  }

  lemma OnePageShowsEachOnce(all: set<Uuid>, key: Uuid -> int, listing: seq<Uuid>, size: nat)
    requires size >= 1 && IsRanking(all, key, listing) && |listing| <= size
    ensures ShowsEachOnce(all, listing, size)
  {
    OffsetPageMeaning(listing, 1, size);
    assert Drop(listing, 0) == listing;
    DistinctCounts(listing);
  }

  /** m ends the first page whatever the order of tied rows, and the rows up to it are those
      whose ids are no lower. */
  ghost predicate SplitsAlike(all: set<Uuid>, key: Uuid -> int, size: nat, m: Uuid) {
    && m in all && |UpTo(all, key, m)| == size
    && (forall id | id in all && key(id) == key(m) :: id == m)
    && (forall id | id in all :: key(id) <= key(m) <==> id >= m)
  }

  lemma AlikeShowsEachOnce(all: set<Uuid>, key: Uuid -> int, listing: seq<Uuid>, size: nat, m: Uuid)
    requires size >= 1 && IsRanking(all, key, listing) && |listing| > size && SplitsAlike(all, key, size, m)
    ensures ShowsEachOnce(all, listing, size)
  {
    PrefixIsUpTo(all, key, listing, m);
    var first := listing[..size];
    var p := PlaceOf(first, m);
    assert first[size - 1] in Elements(first);
    assert key(listing[p]) <= key(listing[size - 1]);
    assert listing[size - 1] == m;
    forall id | id in all ensures id in first <==> id >= m {
      assert id in first <==> id in Elements(first);
    }
    EachOnceIffTop(all, key, listing, size);
  }

  /** The last row of the first page ties with the row after it: in one of their two orders
      the walk repeats or skips a row. */
  lemma TieAcrossPage(all: set<Uuid>, key: Uuid -> int, s: seq<Uuid>, size: nat)
    requires size >= 1 && IsRanking(all, key, s) && |s| > size && key(s[size - 1]) == key(s[size])
    ensures var t := Swapped(s, size - 1, size);
            IsRanking(all, key, t) && !(ShowsEachOnce(all, s, size) && ShowsEachOnce(all, t, size))
  {
    var t := Swapped(s, size - 1, size);
    var x, y := s[size - 1], s[size];
    SwapTie(all, key, s, size - 1, size);
    EachOnceIffTop(all, key, s, size);
    EachOnceIffTop(all, key, t, size);
    assert x in Elements(s) && y in Elements(s);
    assert y !in s[..size] && x !in t[..size];
  }

  /** It ties with an earlier row of the page. */
  lemma TieWithinPage(all: set<Uuid>, key: Uuid -> int, s: seq<Uuid>, size: nat, p: nat)
    requires size >= 1 && IsRanking(all, key, s) && |s| > size && p < size - 1 && key(s[p]) == key(s[size - 1])
    ensures var t := Swapped(s, p, size - 1);
            IsRanking(all, key, t) && !(ShowsEachOnce(all, s, size) && ShowsEachOnce(all, t, size))
  {
    var t := Swapped(s, p, size - 1);
    var x, y := s[p], s[size - 1];
    SwapTie(all, key, s, p, size - 1);
    EachOnceIffTop(all, key, s, size);
    EachOnceIffTop(all, key, t, size);
    assert x in Elements(s) && y in Elements(s);
    assert s[..size][p] == x && t[..size][p] == y;
  }

  ghost predicate AlwaysShowsEachOnce(all: set<Uuid>, key: Uuid -> int, size: nat)
    requires size >= 1
  {
    forall listing | IsRanking(all, key, listing) :: ShowsEachOnce(all, listing, size)
  }

  lemma NothingTiesWithLast(all: set<Uuid>, key: Uuid -> int, s: seq<Uuid>, size: nat, id: Uuid)
    requires size >= 1 && IsRanking(all, key, s) && |s| > size && AlwaysShowsEachOnce(all, key, size)
    requires UpTo(all, key, s[size - 1]) == Elements(s[..size]) && id in all && key(id) == key(s[size - 1])
    ensures id == s[size - 1]
  {
    assert id in UpTo(all, key, s[size - 1]);
    var p := PlaceOf(s[..size], id);
    if p < size - 1 { TieWithinPage(all, key, s, size, p); }
  }

  lemma TopIsUpTo(all: set<Uuid>, key: Uuid -> int, page: seq<Uuid>, m: Uuid)
    requires PageIsTop(all, page, m) && UpTo(all, key, m) == Elements(page)
    ensures forall id | id in all :: key(id) <= key(m) <==> id >= m
  {
    forall id | id in all ensures key(id) <= key(m) <==> id >= m {
      assert id in page <==> id in Elements(page);
    }
  }

  lemma EachOnceMakesAlike(all: set<Uuid>, key: Uuid -> int, size: nat) returns (m: Uuid)
    requires size >= 1 && |all| > size && AlwaysShowsEachOnce(all, key, size)
    ensures SplitsAlike(all, key, size, m)
  {
    var s := RankingExists(all, key);
    RankingSize(all, key, s);
    m := s[size - 1];
    if key(s[size - 1]) == key(s[size]) { TieAcrossPage(all, key, s, size); }
    StepIsClean(all, key, s, size - 1);
    forall id | id in all && key(id) == key(m)
      ensures id == m
    {
      NothingTiesWithLast(all, key, s, size, id);
    }
    EachOnceIffTop(all, key, s, size);
    TopIsUpTo(all, key, s[..size], m);
  }

  lemma EachOnceIffAlike(all: set<Uuid>, key: Uuid -> int, size: nat)
    requires size >= 1
    ensures AlwaysShowsEachOnce(all, key, size) <==> |all| <= size || exists m :: SplitsAlike(all, key, size, m)
  {
    if |all| <= size || exists m :: SplitsAlike(all, key, size, m) {
      forall listing | IsRanking(all, key, listing)
        ensures ShowsEachOnce(all, listing, size)
      {
        RankingSize(all, key, listing);
        if |listing| <= size {
          OnePageShowsEachOnce(all, key, listing, size);
        } else {
          var m :| SplitsAlike(all, key, size, m);
          AlikeShowsEachOnce(all, key, listing, size, m);
        }
      }
    } else if AlwaysShowsEachOnce(all, key, size) {
      var m := EachOnceMakesAlike(all, key, size);
    }
  }

  /** m is the only row of its creation time and the size-th newest, and the rows created no
      earlier than m are those whose ids are no lower. */
  ghost predicate AgeAndIdAgreeAt(snap: Snapshot, f: Filter, size: nat, m: Uuid) {
    var all := Matching(snap, f);
    && m in all && |set id | id in all && snap[id].createdAt >= snap[m].createdAt| == size
    && (forall id | id in all && snap[id].createdAt == snap[m].createdAt :: id == m)
    && (forall id | id in all :: snap[id].createdAt >= snap[m].createdAt <==> id >= m)
  }

  lemma AgreesIffSplitsAlike(snap: Snapshot, f: Filter, size: nat, m: Uuid)
    ensures AgeAndIdAgreeAt(snap, f, size, m)
            <==> SplitsAlike(Matching(snap, f), RankOf(snap, false, false), size, m)
  {
    var all, key := Matching(snap, f), RankOf(snap, false, false);
    if m in all {
      assert UpTo(all, key, m) == set id | id in all && snap[id].createdAt >= snap[m].createdAt;
    }
  }

  lemma SomeoneAgrees(snap: Snapshot, f: Filter, size: nat)
    ensures (exists m :: SplitsAlike(Matching(snap, f), RankOf(snap, false, false), size, m))
            <==> exists m :: AgeAndIdAgreeAt(snap, f, size, m)
  {
    forall m ensures AgeAndIdAgreeAt(snap, f, size, m)
                     <==> SplitsAlike(Matching(snap, f), RankOf(snap, false, false), size, m) {
      AgreesIffSplitsAlike(snap, f, size, m);
    }
  }

  /** Whatever the order of tied rows, n calls show the client each matching row once. */
  ghost predicate MixedWalkComplete(snap: Snapshot, f: ListFilter, n: nat) {
    forall listing | IsListing(snap, f.filter, false, false, listing) ::
      multiset(MixedWalk(snap, f, listing, n)) == multiset(Matching(snap, f.filter))
  }

  lemma CompleteIffEachOnce(snap: Snapshot, f: ListFilter, n: nat)
    requires n >= 1 && n >= |Matching(snap, f.filter)|
    ensures MixedWalkComplete(snap, f, n)
            <==> AlwaysShowsEachOnce(Matching(snap, f.filter), RankOf(snap, false, false), PageSize(f.pageSize))
  {
    var all, size := Matching(snap, f.filter), PageSize(f.pageSize);
    forall listing ensures multiset(MixedWalk(snap, f, listing, n)) == multiset(all)
                           <==> ShowsEachOnce(all, listing, size) {
      MixedWalkIsFollowed(snap, f, listing, n);
    }
    if !AlwaysShowsEachOnce(all, RankOf(snap, false, false), size) {
      var listing :| IsRanking(all, RankOf(snap, false, false), listing) && !ShowsEachOnce(all, listing, size);
      assert IsListing(snap, f.filter, false, false, listing);
    }
  }

  /** A client that takes the newest rows first and then follows the next cursors sees every
      matching row exactly once, whatever the order of tied rows, if and only if the rows fit
      on one page or age and id agree at the row that ends the first page. */
  lemma MixedWalkCompleteIff(snap: Snapshot, f: ListFilter, n: nat)
    requires n >= 1 && n >= |Matching(snap, f.filter)|
    ensures var size := PageSize(f.pageSize);
            MixedWalkComplete(snap, f, n)
            <==> |Matching(snap, f.filter)| <= size || exists m :: AgeAndIdAgreeAt(snap, f.filter, size, m)
  {
    CompleteIffEachOnce(snap, f, n);
    EachOnceIffAlike(Matching(snap, f.filter), RankOf(snap, false, false), PageSize(f.pageSize));
    SomeoneAgrees(snap, f.filter, PageSize(f.pageSize));
  }

  lemma TiedRowsDisagree(snap: Snapshot, f: Filter, size: nat, m: Uuid)
    requires size >= 1 && |Matching(snap, f)| > size
    requires forall x, y | x in Matching(snap, f) && y in Matching(snap, f) :: snap[x].createdAt == snap[y].createdAt
    ensures !AgeAndIdAgreeAt(snap, f, size, m)
  {
    var all := Matching(snap, f);
    if m in all {
      assert all == set id | id in all && snap[id].createdAt >= snap[m].createdAt;
    }
  }

  /** The rows of one batch insert share their creation time: when they do not fit on a page,
      there is an order in which the client does not see each of them once. */
  lemma TiedRowsDoNotPage(snap: Snapshot, f: ListFilter, n: nat)
    requires |Matching(snap, f.filter)| > PageSize(f.pageSize) && n >= |Matching(snap, f.filter)|
    requires forall x, y | x in Matching(snap, f.filter) && y in Matching(snap, f.filter) ::
               snap[x].createdAt == snap[y].createdAt
    ensures !MixedWalkComplete(snap, f, n)
  {
    MixedWalkCompleteIff(snap, f, n);
    forall m ensures !AgeAndIdAgreeAt(snap, f.filter, PageSize(f.pageSize), m) {
      TiedRowsDisagree(snap, f.filter, PageSize(f.pageSize), m);
    }
  }

  lemma ListingIsDescending(snap: Snapshot, f: Filter, listing: seq<Uuid>)
    requires IsListing(snap, f, false, false, listing)
    requires forall x, y | x in Matching(snap, f) && y in Matching(snap, f) && x < y ::
               snap[x].createdAt < snap[y].createdAt
    ensures ListsDown(listing, Matching(snap, f))
  {
    forall id ensures id in listing <==> id in Matching(snap, f) {
      assert id in Elements(listing) <==> id in listing;
    }
    forall j, k | 0 <= j < k < |listing| ensures listing[j] > listing[k] {
      assert listing[j] in Matching(snap, f) && listing[k] in Matching(snap, f);
      assert RankOf(snap, false, false)(listing[j]) <= RankOf(snap, false, false)(listing[k]);
    }
  }

  lemma FollowedDescending(all: set<Uuid>, size: nat)
    requires size >= 1
    ensures FollowedFrom(all, Descending(all), size) == Descending(all)
  {
    var listing := Descending(all);
    OffsetPageMeaning(listing, 1, size);
    assert Drop(listing, 0) == listing;
    if |listing| > size { RestIsBelow(all, size); }
  }

  /** When rows were created in the order of their ids, it is the whole list, newest first. */
  lemma MixedWalkWhenOrdersAgree(snap: Snapshot, f: ListFilter, listing: seq<Uuid>, n: nat)
    requires n >= 1 && n >= |Matching(snap, f.filter)| && IsListing(snap, f.filter, false, false, listing)
    requires forall x, y | x in Matching(snap, f.filter) && y in Matching(snap, f.filter) && x < y ::
               snap[x].createdAt < snap[y].createdAt
    ensures ListsDown(MixedWalk(snap, f, listing, n), Matching(snap, f.filter))
  {
    MixedWalkIsFollowed(snap, f, listing, n);
    ListingIsDescending(snap, f.filter, listing);
    ListsDownUnique(listing, Matching(snap, f.filter));
    FollowedDescending(Matching(snap, f.filter), PageSize(f.pageSize));
  }

  const ANY := Filter("", "", None, None, None)

  const ONE_A_PAGE := ListFilter(ANY, 1, None, 1, false, false)

  /** And it is not in general: two rows created at one time, and page size one. */
  lemma MixedWalkSkipsTied(row: Row, n: nat)
    requires n >= 2
    ensures var snap := map[10 := row, 20 := row];
            IsListing(snap, ANY, false, false, [10, 20]) && 20 !in MixedWalk(snap, ONE_A_PAGE, [10, 20], n)
  {
    var snap := map[10 := row, 20 := row];
    assert Matching(snap, ANY) == {10, 20} == Elements([10, 20]);
    MixedWalkIsFollowed(snap, ONE_A_PAGE, [10, 20], n);
    assert Below(Matching(snap, ANY), 10) == {};
    assert OffsetPage([10, 20], 1, 1) == Page([10], Some(10));
  }

  /** Nor without ties: the older id created later. */
  lemma MixedWalkCanSkip(row: Row, n: nat)
    requires n >= 2
    ensures var snap := map[10 := row.(createdAt := 2), 20 := row.(createdAt := 1)];
            IsListing(snap, ANY, false, false, [10, 20]) && 20 !in MixedWalk(snap, ONE_A_PAGE, [10, 20], n)
  {
    var snap := map[10 := row.(createdAt := 2), 20 := row.(createdAt := 1)];
    assert Matching(snap, ANY) == {10, 20} == Elements([10, 20]);
    MixedWalkIsFollowed(snap, ONE_A_PAGE, [10, 20], n);
    assert Below(Matching(snap, ANY), 10) == {};
    assert OffsetPage([10, 20], 1, 1) == Page([10], Some(10));
  }

  // --------------------------------------------------------- what filters and sorting mean

  /** Each criterion that is given selects, out of what the others select, the rows that meet
      it; with none, every row is selected. */
  lemma CriteriaSelect(snap: Snapshot, f: Filter)
    ensures Matching(snap, ANY) == snap.Keys
    ensures f.status != "" ==>
      Matching(snap, f) == set id | id in Matching(snap, f.(status := "")) && snap[id].status == f.status
    ensures f.channel != "" ==>
      Matching(snap, f) == set id | id in Matching(snap, f.(channel := "")) && snap[id].channel == f.channel
    ensures f.batchId.Some? ==>
      Matching(snap, f) == set id | id in Matching(snap, f.(batchId := None)) && snap[id].batchId == f.batchId
    ensures f.dateFrom.Some? ==>
      Matching(snap, f)
      == set id | id in Matching(snap, f.(dateFrom := None)) && snap[id].createdAt >= f.dateFrom.value
    ensures f.dateTo.Some? ==>
      Matching(snap, f) == set id | id in Matching(snap, f.(dateTo := None)) && snap[id].createdAt <= f.dateTo.value
  {
  }

  /** The sorted query lists each matching row once, by the column and in the direction asked. */
  lemma ListingIsSorted(snap: Snapshot, f: Filter, byUpdated: bool, ascending: bool, s: seq<Uuid>, j: nat, k: nat)
    requires IsListing(snap, f, byUpdated, ascending, s) && j < k < |s|
    ensures s[j] in snap && s[k] in snap && s[j] != s[k]
    ensures byUpdated && ascending ==> snap[s[j]].updatedAt <= snap[s[k]].updatedAt
    ensures byUpdated && !ascending ==> snap[s[j]].updatedAt >= snap[s[k]].updatedAt
    ensures !byUpdated && ascending ==> snap[s[j]].createdAt <= snap[s[k]].createdAt
    ensures !byUpdated && !ascending ==> snap[s[j]].createdAt >= snap[s[k]].createdAt
  {
    assert s[j] in Elements(s) && s[k] in Elements(s);
    var key := RankOf(snap, byUpdated, ascending);
    assert key(s[j]) <= key(s[k]);
  }

  /** The first page, asked for by a number below two, has as many rows as the client asked
      for, if that is between 1 and 100 and there are as many; at most 100, and 20 by default. */
  lemma FirstPageHolds(q: Query, f: ListFilter, parsed: Option<int>)
    requires f.cursor.None? && f.page <= 1 && f.pageSize == RequestedPageSize(parsed)
    ensures var asked := if parsed.None? || parsed.value <= 0 then 20
                         else if parsed.value >= 100 then 100 else parsed.value;
            var page := Answer(q, f);
            && page.items == (if |q.listing| <= asked then q.listing else q.listing[..asked])
            && (page.next.Some? <==> |q.listing| > asked)
            && (page.next.Some? ==> page.next.value == q.listing[asked - 1])
  {
    assert Drop(q.listing, 0) == q.listing;
  }

  /** A request without a usable page size gets pages of twenty. */
  lemma SizelessIsTwenty(counted: Snapshot, snap: Snapshot, f: ListFilter, listing: seq<Uuid>)
    requires f.pageSize < 1
    ensures List(counted, snap, f, listing) == List(counted, snap, f.(pageSize := 20), listing)
  {
  }
}
