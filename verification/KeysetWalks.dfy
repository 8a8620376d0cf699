/** What a client sees that follows the cursors of a keyset-paginated listing, as ranges of ids: each page reports on
    one range, and the ranges follow each other. The table may change arbitrarily between requests. */
module KeysetWalks {
  import opened Wrappers
  import opened Uuids
  import opened Rows
  import opened SortedIds

  datatype Page = Page(items: seq<UserView>, nextCursor: Option<string>)

  /** One request: the table as it is when the request runs, and the page size asked for. */
  datatype Request = Request(table: UserTable, requested: int)

  function Clamp(requested: int): (limit: nat)
    ensures 1 <= limit <= 100
    ensures limit == if requested < 1 then 1 else if requested > 100 then 100 else requested
  {
    var capped := if requested < 100 then requested else 100;
    if 1 < capped then capped else 1
  }

  ghost predicate WellKeyed(table: UserTable) {
    forall u | u in table :: table[u].id == u
  }

  function Ids(views: seq<UserView>): (ids: seq<Uuid>)
    ensures |ids| == |views| && forall i | 0 <= i < |views| :: ids[i] == views[i].id
  {
    seq(|views|, i requires 0 <= i < |views| => views[i].id)
  }

  ghost function Between(table: UserTable, lo: int, hi: int): set<Uuid> {
    set x | x in table && lo < x <= hi
  }

  /** The pages' items in one list. */
  function Items(pages: seq<Page>): seq<UserView> {
    if pages == [] then [] else Items(pages[..|pages| - 1]) + pages[|pages| - 1].items
  }

  /** Request i reports on the ids x with Lo(pages, i) < x <= Hi(pages, i); -1 and 2^128 stand for no bound. */
  function Hi(pages: seq<Page>, i: nat): int
    requires i < |pages|
  {
    Last(pages[i])
  }

  function Last(page: Page): int {
    if page.nextCursor.Some? && page.items != [] then page.items[|page.items| - 1].id else UUID_LIMIT
  }

  function Lo(pages: seq<Page>, i: nat): int
    requires i <= |pages|
  {
    if i == 0 then -1 else Hi(pages, i - 1)
  }

  /** What a page after id lo is: exactly the rows of the table in (lo, hi], sorted by id; a next cursor only on a
      full page that leaves rows behind. */
  ghost predicate PageFor(table: UserTable, limit: nat, lo: int, hi: int, page: Page) {
    && Lists(Ids(page.items), Between(table, lo, hi))
    && (forall i | 0 <= i < |page.items| :: page.items[i].id in table && page.items[i] == View(table[page.items[i].id]))
    && |page.items| <= limit
    && lo < hi <= UUID_LIMIT
    && if page.nextCursor.None? then hi == UUID_LIMIT
       else |page.items| == limit && page.items != [] && exists x :: x in table && x > hi
  }

  /** A walk, possibly unfinished: request after request, each page answering for the range after the previous one. */
  ghost predicate Ranges(requests: seq<Request>, pages: seq<Page>) {
    && |requests| == |pages|
    && (forall i | 0 <= i < |requests| :: WellKeyed(requests[i].table))
    && (forall i | 0 <= i < |pages| :: Covers(requests, pages, i))
  }

  ghost predicate Covers(requests: seq<Request>, pages: seq<Page>, i: nat)
    requires i < |pages| == |requests|
  {
    && (i + 1 < |pages| ==> pages[i].nextCursor.Some?)
    && PageFor(requests[i].table, Clamp(requests[i].requested), Lo(pages, i), Hi(pages, i), pages[i])
  }

  ghost predicate Complete(pages: seq<Page>) {
    pages != [] && pages[|pages| - 1].nextCursor.None?
  }

  lemma BoundsOfPrefix(pages: seq<Page>, n: nat, i: nat)
    requires i <= n <= |pages|
    ensures Lo(pages[..n], i) == Lo(pages, i)
    ensures i < n ==> Hi(pages[..n], i) == Hi(pages, i)
  {
    if i > 0 {
      assert pages[..n][i - 1] == pages[i - 1];
    }
  }

  lemma RangesPrefix(requests: seq<Request>, pages: seq<Page>, n: nat)
    requires Ranges(requests, pages) && n <= |pages|
    ensures Ranges(requests[..n], pages[..n])
  {
    forall i | 0 <= i < n ensures Covers(requests[..n], pages[..n], i) {
      assert Covers(requests, pages, i);
      BoundsOfPrefix(pages, n, i);
    }
  }

  /** Ids are strictly increasing over the whole walk: no row is returned twice. */
  lemma {:induction false} RangesIncreasing(requests: seq<Request>, pages: seq<Page>)
    requires Ranges(requests, pages)
    ensures Increasing(Ids(Items(pages)))
    ensures forall i | 0 <= i < |Items(pages)| :: Ids(Items(pages))[i] <= Lo(pages, |pages|)
    decreases |pages|
  {
    if pages != [] {
      var n := |pages| - 1;
      RangesPrefix(requests, pages, n);
      RangesIncreasing(requests[..n], pages[..n]);
      BoundsOfPrefix(pages, n, n);
      assert Covers(requests, pages, n);
      IdsConcat(Items(pages[..n]), pages[n].items);
      IncreasingConcat(Ids(Items(pages[..n])), Ids(pages[n].items), Lo(pages, n));
    }
  }

  lemma IdsConcat(a: seq<UserView>, b: seq<UserView>)
    ensures Ids(a + b) == Ids(a) + Ids(b)
  {
  }

  lemma IncreasingConcat(a: seq<Uuid>, b: seq<Uuid>, mid: int)
    requires Increasing(a) && Increasing(b)
    requires (forall i | 0 <= i < |a| :: a[i] <= mid) && forall i | 0 <= i < |b| :: mid < b[i]
    ensures Increasing(a + b)
  {
  }

  lemma {:induction false} ItemsMember(pages: seq<Page>, v: UserView)
    ensures v in Items(pages) <==> exists i :: 0 <= i < |pages| && v in pages[i].items
    decreases |pages|
  {
    if pages != [] {
      var n := |pages| - 1;
      ItemsMember(pages[..n], v);
      if i :| 0 <= i < |pages| && v in pages[i].items {
        assert i < n ==> pages[..n][i] == pages[i];
      }
      if i :| 0 <= i < |pages[..n]| && v in pages[..n][i].items {
        assert v in pages[i].items;
      }
    }
  }

  lemma {:induction false} RangeOf(requests: seq<Request>, pages: seq<Page>, x: Uuid, n: nat) returns (i: nat)
    requires Ranges(requests, pages) && 0 < n <= |pages| && x <= Lo(pages, n)
    ensures i < n && Lo(pages, i) < x <= Hi(pages, i)
  {
    i := n - 1;
    if x <= Lo(pages, i) {
      i := RangeOf(requests, pages, x, n - 1);
    }
  }

  lemma {:induction false} RangesDisjoint(requests: seq<Request>, pages: seq<Page>, i: nat, j: nat)
    requires Ranges(requests, pages) && i < j < |pages|
    ensures Hi(pages, i) <= Lo(pages, j)
    decreases j
  {
    if i + 1 < j {
      RangesDisjoint(requests, pages, i, j - 1);
      assert Covers(requests, pages, j - 1);
    }
  }

  /** Exactly one request of a complete walk is responsible for each id. */
  lemma {:induction false} OneRange(requests: seq<Request>, pages: seq<Page>, x: Uuid) returns (i: nat)
    requires Ranges(requests, pages) && Complete(pages)
    ensures i < |pages| && Lo(pages, i) < x <= Hi(pages, i)
    ensures forall k | 0 <= k < |pages| && Lo(pages, k) < x <= Hi(pages, k) :: k == i
  {
    i := RangeOf(requests, pages, x, |pages|);
    forall k | 0 <= k < |pages| && Lo(pages, k) < x <= Hi(pages, k) ensures k == i {
      if k < i { RangesDisjoint(requests, pages, k, i); }
      if i < k { RangesDisjoint(requests, pages, i, k); }
    }
  }

  /** A view is returned if and only if it is the view of that row in the table seen by the request responsible. */
  lemma {:induction false} ViewReturned(requests: seq<Request>, pages: seq<Page>, i: nat, v: UserView)
    requires Ranges(requests, pages) && i < |pages| && Lo(pages, i) < v.id <= Hi(pages, i)
    requires forall k | 0 <= k < |pages| && Lo(pages, k) < v.id <= Hi(pages, k) :: k == i
    ensures v in Items(pages) <==> v.id in requests[i].table && v == View(requests[i].table[v.id])
  {
    ItemsMember(pages, v);
    var table := requests[i].table;
    assert Covers(requests, pages, i);
    if v in Items(pages) {
      var k :| 0 <= k < |pages| && v in pages[k].items;
      var p :| 0 <= p < |pages[k].items| && pages[k].items[p] == v;
      assert Covers(requests, pages, k);
      assert Ids(pages[k].items)[p] in Between(requests[k].table, Lo(pages, k), Hi(pages, k));
      assert k == i;
    }
    if v.id in table && v == View(table[v.id]) {
      assert v.id in Between(table, Lo(pages, i), Hi(pages, i));
      var p :| 0 <= p < |pages[i].items| && Ids(pages[i].items)[p] == v.id;
      assert pages[i].items[p] == v;
    }
  }

  lemma InIds(views: seq<UserView>, v: UserView)
    requires v in views
    ensures v.id in Ids(views)
  {
    var k :| 0 <= k < |views| && views[k] == v;
    assert Ids(views)[k] == v.id;
  }

  // ---------- termination ----------

  lemma {:induction false} CursorClimbs(requests: seq<Request>, pages: seq<Page>, limit: nat, n: nat)
    requires Ranges(requests, pages) && n < |pages|
    requires forall i | 0 <= i < |requests| :: limit <= Clamp(requests[i].requested)
    ensures Lo(pages, n) >= n * limit - 1
  {
    if n > 0 {
      CursorClimbs(requests, pages, limit, n - 1);
      PageClimbs(requests, pages, n - 1);
      assert n * limit == (n - 1) * limit + limit;
    }
  }

  lemma PageClimbs(requests: seq<Request>, pages: seq<Page>, n: nat)
    requires Ranges(requests, pages) && n + 1 < |pages|
    ensures Lo(pages, n + 1) >= Lo(pages, n) + Clamp(requests[n].requested)
  {
    assert Covers(requests, pages, n);
    var ids := Ids(pages[n].items);
    forall i | 0 <= i < |ids| ensures Lo(pages, n) < ids[i] {
      assert ids[i] in Between(requests[n].table, Lo(pages, n), Hi(pages, n));
    }
    IncreasingReach(ids, Lo(pages, n), |ids| - 1);
  }

  lemma {:induction false} IncreasingReach(ids: seq<Uuid>, lo: int, k: nat)
    requires Increasing(ids) && k < |ids| && forall i | 0 <= i < |ids| :: lo < ids[i]
    ensures ids[k] >= lo + k + 1
  {
    if k > 0 {
      IncreasingReach(ids, lo, k - 1);
    }
  }

  // ---------- page counts ----------

  /** Every page but the last is full. */
  lemma {:induction false} FullPages(requests: seq<Request>, pages: seq<Page>, limit: nat, n: nat)
    requires Ranges(requests, pages) && n < |pages|
    requires forall i | 0 <= i < |requests| :: Clamp(requests[i].requested) == limit
    ensures |Items(pages[..n])| == n * limit
  {
    if n > 0 {
      FullPages(requests, pages, limit, n - 1);
      assert Covers(requests, pages, n - 1);
      assert pages[..n][..n - 1] == pages[..n - 1];
      assert n * limit == (n - 1) * limit + limit;
    }
  }

  lemma CeilDiv(n: nat, limit: nat, q: nat, r: nat)
    requires limit >= 1 && n == q * limit + r && r <= limit && (q > 0 ==> r > 0)
    ensures q + 1 == if n == 0 then 1 else (n + limit - 1) / limit
  {
    if n > 0 {
      assert r > 0;
      assert n + limit - 1 == (q + 1) * limit + (r - 1);
      DivUnique(n + limit - 1, limit, q + 1, r - 1);
    }
  }

  lemma DivUnique(a: int, d: int, q: int, r: int)
    requires d > 0 && a == q * d + r && 0 <= r < d
    ensures a / d == q
  {
    var q' := a / d;
    assert q < q' ==> (q + 1) * d <= q' * d;
    assert q' < q ==> (q' + 1) * d <= q * d;
  }
}
