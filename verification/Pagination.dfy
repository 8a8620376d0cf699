/** Listing users page by page: the query service, and the guarantees a client has that follows its cursors. */
module Pagination {
  import opened Wrappers
  import opened Uuids
  import opened Rows
  import opened Cursors
  import opened SortedIds
  import opened KeysetWalks
  import Base64Bits

  // ---------- one request ----------

  /** The ids that WHERE id > after selects; -1 stands for no WHERE clause. */
  ghost function After(table: UserTable, after: int): set<Uuid> {
    set x | x in table && x > after
  }

  function Take<T>(s: seq<T>, n: nat): seq<T> {
    if |s| <= n then s else s[..n]
  }

  lemma TakeTake<T>(s: seq<T>, m: nat, n: nat)
    requires m <= n
    ensures Take(Take(s, n), m) == Take(s, m)
  {
    if n < |s| {
      assert s[..n][..m] == s[..m];
    }
  }

  /** SELECT ... WHERE id > after ORDER BY id LIMIT n. */
  ghost function Select(table: UserTable, after: int, n: nat): (rows: seq<Uuid>)
    ensures forall i | 0 <= i < |rows| :: rows[i] in table
  {
    var s := Sorted(After(table, after));
    assert forall i | 0 <= i < |s| :: s[i] in After(table, after);
    Take(s, n)
  }

  ghost function Views(table: UserTable, ids: seq<Uuid>): (v: seq<UserView>)
    requires forall i | 0 <= i < |ids| :: ids[i] in table
    ensures |v| == |ids| && forall i | 0 <= i < |ids| :: v[i] == View(table[ids[i]])
  {
    seq(|ids|, i requires 0 <= i < |ids| => View(table[ids[i]]))
  }

  /** One page of the ids above `after`: one row more than the limit is fetched to see whether rows are left. */
  ghost function PageAfter(table: UserTable, limit: nat, after: int): Page {
    var rows := Select(table, after, limit + 1);
    var hasMore := |rows| > limit;
    var visible := Take(rows, limit);
    Page(Views(table, visible),
      if hasMore && visible != [] then Some(EncodeCursor(visible[|visible| - 1])) else None)
  }

  ghost function List(table: UserTable, limit: nat, cursor: Option<string>): Result<Page, Error> {
    if cursor.None? then Success(PageAfter(table, limit, -1)) else
      match DecodeCursor(cursor.value)
      case Success(u) => Success(PageAfter(table, limit, u))
      case Failure(e) => Failure(e)
  }

  ghost function ListUsers(table: UserTable, requested: int, cursor: Option<string>): Result<Page, Error> {
    List(table, Clamp(requested), cursor)
  }

  /** A cursor resumes right after the id it was made from. */
  lemma CursorResumes(table: UserTable, requested: int, u: Uuid)
    ensures ListUsers(table, requested, Some(EncodeCursor(u))) == Success(PageAfter(table, Clamp(requested), u))
  {
    CursorRoundTrip(u);
  }

  /** A cursor that does not spell an id by its symbols is refused, whatever the table and the page size; in particular
      every cursor of fewer than 43 symbols is. */
  lemma BadCursorRefused(table: UserTable, requested: int, cursor: string)
    requires |Base64Bits.Values(cursor)| < 43 || !exists u: Uuid :: CursorSpells(cursor, u)
    ensures ListUsers(table, requested, Some(cursor)) == Failure(ValidationFailed)
  {
    hide DecodeCursor, CursorSpells, PageAfter;
    if |Base64Bits.Values(cursor)| < 43 {
      ShortRefused(cursor);
    } else if DecodeCursor(cursor).Success? {
      DecodeSound(cursor);
    }
  }

  // ---------- what one page is ----------

  /** The visible rows are the first `limit` of the matching ids, or all of them when there are no more. */
  lemma VisiblePrefix(table: UserTable, limit: nat, lo: int)
    requires limit >= 1
    ensures var s := Sorted(After(table, lo));
      && (forall i | 0 <= i < |Take(s, limit)| :: Take(s, limit)[i] in table)
      && PageAfter(table, limit, lo) == Page(Views(table, Take(s, limit)),
           if |s| > limit then Some(EncodeCursor(s[limit - 1])) else None)
  {
    var s: seq<Uuid> := Sorted(After(table, lo));
    var rows := Select(table, lo, limit + 1);
    TakeTake(s, limit, limit + 1);
    assert |rows| > limit <==> |s| > limit;
  }

  lemma IdsOfViews(table: UserTable, ids: seq<Uuid>)
    requires WellKeyed(table) && forall i | 0 <= i < |ids| :: ids[i] in table
    ensures Ids(Views(table, ids)) == ids
  {
  }

  /** The first n of the ids above lo are those up to the n-th. */
  lemma SortedPrefix(table: UserTable, lo: int, n: nat, hi: int)
    requires var s := Sorted(After(table, lo)); if n < |s| then n > 0 && hi == s[n - 1] else hi == UUID_LIMIT
    ensures Lists(Take(Sorted(After(table, lo)), n), Between(table, lo, hi))
  {
    var s: seq<Uuid> := Sorted(After(table, lo));
    var t := Take(s, n);
    forall x | x in Between(table, lo, hi) ensures x in t {
      assert x in After(table, lo);
      var k :| 0 <= k < |s| && s[k] == x;
      assert t[k] == x;
    }
    forall i | 0 <= i < |t| ensures t[i] in Between(table, lo, hi) {
      assert s[i] in After(table, lo);
    }
  }

  lemma PageContents(table: UserTable, limit: nat, lo: int)
    requires WellKeyed(table) && limit >= 1 && lo < UUID_LIMIT
    ensures var page := PageAfter(table, limit, lo);
      && PageFor(table, limit, lo, Last(page), page)
      && (page.nextCursor.Some? ==> 0 <= Last(page) < UUID_LIMIT && page.nextCursor.value == EncodeCursor(Last(page)))
  {
    hide EncodeCursor, PageAfter, Sorted;
    var s: seq<Uuid> := Sorted(After(table, lo));
    var page := PageAfter(table, limit, lo);
    VisiblePrefix(table, limit, lo);
    IdsOfViews(table, Take(s, limit));
    if |s| > limit {
      assert s[limit - 1] in After(table, lo);
      assert s[limit] in After(table, lo) && s[limit] in table;
      assert page.items[|page.items| - 1].id == s[limit - 1];
    }
    SortedPrefix(table, lo, limit, Last(page));
  }

  // ---------- a client following the cursors ----------

  /** The client sends the first request without a cursor and every other one with the cursor of the page before. */
  ghost predicate IsWalk(requests: seq<Request>, pages: seq<Page>) {
    && |requests| == |pages|
    && (forall i | 0 <= i < |requests| :: WellKeyed(requests[i].table))
    && (forall i | 0 <= i < |pages| :: Answers(requests, pages, i))
  }

  ghost predicate Answers(requests: seq<Request>, pages: seq<Page>, i: nat)
    requires i < |pages| == |requests|
  {
    && (i > 0 ==> pages[i - 1].nextCursor.Some?)
    && ListUsers(requests[i].table, requests[i].requested, if i == 0 then None else pages[i - 1].nextCursor)
       == Success(pages[i])
  }

  ghost predicate Continues(requests: seq<Request>, pages: seq<Page>, i: nat)
    requires i < |pages| == |requests|
  {
    && Lo(pages, i) < UUID_LIMIT
    && pages[i] == PageAfter(requests[i].table, Clamp(requests[i].requested), Lo(pages, i))
    && PageFor(requests[i].table, Clamp(requests[i].requested), Lo(pages, i), Hi(pages, i), pages[i])
    && (pages[i].nextCursor.Some? ==>
          0 <= Hi(pages, i) < UUID_LIMIT && pages[i].nextCursor.value == EncodeCursor(Hi(pages, i)))
  }

  lemma {:induction false} WalkContinues(requests: seq<Request>, pages: seq<Page>, i: nat)
    requires IsWalk(requests, pages) && i < |pages|
    ensures Continues(requests, pages, i)
  {
    hide PageAfter, PageFor, EncodeCursor;
    assert Answers(requests, pages, i);
    if i > 0 {
      WalkContinues(requests, pages, i - 1);
      CursorResumes(requests[i].table, requests[i].requested, Hi(pages, i - 1));
    }
    PageContents(requests[i].table, Clamp(requests[i].requested), Lo(pages, i));
  }

  /** A walk is a sequence of consecutive ranges of ids. */
  lemma WalkRanges(requests: seq<Request>, pages: seq<Page>)
    requires IsWalk(requests, pages)
    ensures Ranges(requests, pages)
  {
    forall i | 0 <= i < |pages| ensures Covers(requests, pages, i) {
      WalkContinues(requests, pages, i);
      if i + 1 < |pages| {
        assert Answers(requests, pages, i + 1);
      }
    }
  }

  /** Ids are strictly increasing over the whole walk, whatever happens to the table between requests: no row is
      returned twice. */
  lemma WalkIncreasing(requests: seq<Request>, pages: seq<Page>)
    requires IsWalk(requests, pages)
    ensures Increasing(Ids(Items(pages)))
  {
    WalkRanges(requests, pages);
    RangesIncreasing(requests, pages);
  }

  /** Exactly one request of a complete walk is responsible for each id, and a view is returned if and only if it is
      the view of that row in the table which that request saw. */
  lemma ReturnedIff(requests: seq<Request>, pages: seq<Page>, x: Uuid) returns (i: nat)
    requires IsWalk(requests, pages) && Complete(pages)
    ensures i < |pages| && Lo(pages, i) < x <= Hi(pages, i)
    ensures forall k | 0 <= k < |pages| && Lo(pages, k) < x <= Hi(pages, k) :: k == i
    ensures forall v: UserView | v.id == x ::
      v in Items(pages) <==>
        && x in requests[i].table
        && var row := requests[i].table[x]; v == UserView(x, row.email, row.isActive, row.createdAt)
  {
    WalkRanges(requests, pages);
    i := OneRange(requests, pages, x);
    assert WellKeyed(requests[i].table);
    forall v: UserView | v.id == x
      ensures v in Items(pages) <==> x in requests[i].table && v == View(requests[i].table[x])
    {
      ViewReturned(requests, pages, i, v);
    }
  }

  /** A row present during every request of a complete walk is returned, at exactly one position. */
  lemma StableRowOnce(requests: seq<Request>, pages: seq<Page>, x: Uuid)
    requires IsWalk(requests, pages) && Complete(pages)
    requires forall i | 0 <= i < |requests| :: x in requests[i].table
    ensures exists p :: 0 <= p < |Items(pages)| && Items(pages)[p].id == x
    ensures forall p, q | 0 <= p < |Items(pages)| && 0 <= q < |Items(pages)|
                          && Items(pages)[p].id == x && Items(pages)[q].id == x :: p == q
  {
    var i := ReturnedIff(requests, pages, x);
    assert WellKeyed(requests[i].table);
    assert View(requests[i].table[x]) in Items(pages);
    WalkIncreasing(requests, pages);
    var ids := Ids(Items(pages));
    assert forall p | 0 <= p < |ids| :: ids[p] == Items(pages)[p].id;
  }

  // ---------- termination ----------

  /** However the table changes, a client asking for pages of at least a given size makes at most 2^128 / size
      requests beyond the first. */
  lemma WalkBounded(requests: seq<Request>, pages: seq<Page>, limit: nat)
    requires IsWalk(requests, pages) && pages != []
    requires forall i | 0 <= i < |requests| :: limit <= Clamp(requests[i].requested)
    ensures (|pages| - 1) * limit <= UUID_LIMIT
  {
    WalkRanges(requests, pages);
    CursorClimbs(requests, pages, limit, |pages| - 1);
    assert Covers(requests, pages, |pages| - 1);
  }

  lemma Extend(requests: seq<Request>, pages: seq<Page>, next: Request) returns (page: Page)
    requires IsWalk(requests, pages) && !Complete(pages) && WellKeyed(next.table)
    ensures IsWalk(requests + [next], pages + [page])
  {
    if pages == [] {
      page := PageAfter(next.table, Clamp(next.requested), -1);
    } else {
      WalkContinues(requests, pages, |pages| - 1);
      page := AnswerAfter(requests, pages, next);
    }
    WalkSnoc(requests, pages, next, page);
  }

  lemma AnswerAfter(requests: seq<Request>, pages: seq<Page>, next: Request) returns (page: Page)
    requires |requests| == |pages| > 0 && pages[|pages| - 1].nextCursor.Some?
    requires Continues(requests, pages, |pages| - 1)
    ensures Answers(requests + [next], pages + [page], |pages|)
  {
    var lo := Hi(pages, |pages| - 1);
    page := PageAfter(next.table, Clamp(next.requested), lo);
    CursorResumes(next.table, next.requested, lo);
    assert (pages + [page])[|pages| - 1] == pages[|pages| - 1];
  }

  lemma WalkSnoc(requests: seq<Request>, pages: seq<Page>, next: Request, page: Page)
    requires IsWalk(requests, pages) && WellKeyed(next.table)
    requires Answers(requests + [next], pages + [page], |pages|)
    ensures IsWalk(requests + [next], pages + [page])
  {
    hide ListUsers, Answers;
    forall i | 0 <= i <= |pages| ensures Answers(requests + [next], pages + [page], i) {
      if i < |pages| {
        assert Answers(requests, pages, i);
        AnswersPrefix(requests, pages, next, page, i);
      }
    }
  }

  lemma AnswersPrefix(requests: seq<Request>, pages: seq<Page>, next: Request, page: Page, i: nat)
    requires i < |pages| == |requests| && Answers(requests, pages, i)
    ensures Answers(requests + [next], pages + [page], i)
  {
    assert i > 0 ==> (pages + [page])[i - 1] == pages[i - 1];
  }

  /** Whatever tables and page sizes the successive requests meet, the walk completes. */
  lemma WalkTerminates(world: nat -> Request) returns (requests: seq<Request>, pages: seq<Page>)
    requires forall i: nat :: WellKeyed(world(i).table)
    ensures IsWalk(requests, pages) && Complete(pages)
    ensures forall i | 0 <= i < |requests| :: requests[i] == world(i)
  {
    hide Answers, ListUsers, PageAfter;
    requests, pages := [], [];
    while !Complete(pages)
      invariant IsWalk(requests, pages)
      invariant Lo(pages, |pages|) <= UUID_LIMIT
      invariant forall i | 0 <= i < |requests| :: requests[i] == world(i)
      decreases UUID_LIMIT - Lo(pages, |pages|)
    {
      var page := Extend(requests, pages, world(|pages|));
      assert Lo(pages + [page], |pages|) == Lo(pages, |pages|);
      requests, pages := requests + [world(|pages|)], pages + [page];
      WalkContinues(requests, pages, |pages| - 1);
    }
  }

  // ---------- a table that does not change ----------

  /** On a fixed table a complete walk returns exactly the users sorted by id. */
  lemma FixedTableSorted(table: UserTable, requests: seq<Request>, pages: seq<Page>)
    requires IsWalk(requests, pages) && Complete(pages)
    requires forall i | 0 <= i < |requests| :: requests[i].table == table
    ensures Items(pages) == Views(table, Sorted(table.Keys))
  {
    assert WellKeyed(requests[0].table);
    WalkIncreasing(requests, pages);
    var items := Items(pages);
    var ids := Ids(items);
    forall x | x in table.Keys ensures x in ids {
      var i := ReturnedIff(requests, pages, x);
      InIds(items, View(table[x]));
    }
    forall k | 0 <= k < |items| ensures ids[k] in table.Keys && items[k] == View(table[ids[k]]) {
      var i := ReturnedIff(requests, pages, items[k].id);
      assert items[k] in items;
    }
    ListsUnique(ids, Sorted(table.Keys), table.Keys);
  }

  /** It takes max(1, ceil(n / limit)) requests for n users. */
  lemma FixedTableRequests(table: UserTable, requested: int, requests: seq<Request>, pages: seq<Page>)
    requires IsWalk(requests, pages) && Complete(pages)
    requires forall i | 0 <= i < |requests| :: requests[i] == Request(table, requested)
    ensures var n, limit := |table|, Clamp(requested);
      |pages| == if n == 0 then 1 else (n + limit - 1) / limit
  {
    FixedTableSorted(table, requests, pages);
    WalkRanges(requests, pages);
    var n, limit, last := |table|, Clamp(requested), |pages| - 1;
    FullPages(requests, pages, limit, last);
    assert Covers(requests, pages, last);
    assert n == last * limit + |pages[last].items|;
    if last > 0 {
      LastPageNotEmpty(table, requests, pages);
    }
    CeilDiv(n, limit, last, |pages[last].items|);
  }

  lemma LastPageNotEmpty(table: UserTable, requests: seq<Request>, pages: seq<Page>)
    requires Ranges(requests, pages) && Complete(pages) && |pages| > 1
    requires forall i | 0 <= i < |requests| :: requests[i].table == table
    ensures pages[|pages| - 1].items != []
  {
    var last := |pages| - 1;
    assert Covers(requests, pages, last - 1);
    assert Covers(requests, pages, last);
    var x :| x in table && x > Hi(pages, last - 1);
    assert x in Between(table, Lo(pages, last), Hi(pages, last));
    assert x in Ids(pages[last].items);
  }
}
