/** What fixed-window counting guarantees about any interval of one window's length: not the limit, but less than twice
    the limit. Both rate limiters count this way. */
module FixedWindows {

  /** An allowed call: when, and in which window of its key. */
  datatype Hit = Hit(at: real, window: nat)

  datatype Decision = Decision(allowed: bool, retryAfter: int)

  function Max(a: int, b: int): int {
    if a < b then b else a
  }

  function Min(a: int, b: int): int {
    if a < b then a else b
  }

  /** The first allowed call of its window. */
  predicate First(hits: seq<Hit>, i: nat)
    requires i < |hits|
  {
    i == 0 || hits[i - 1].window < hits[i].window
  }

  predicate Ordered(hits: seq<Hit>) {
    forall i, k | 0 <= i <= k < |hits| :: hits[i].at <= hits[k].at && hits[i].window <= hits[k].window
  }

  /** At most `limit` calls in one window. */
  ghost predicate Limited(hits: seq<Hit>, limit: nat) {
    forall i, k | 0 <= i < k < |hits| && k - i == limit :: hits[i].window < hits[k].window
  }

  /** A later window's calls come at least `length` after an earlier window's first call. */
  predicate Spaced(hits: seq<Hit>, length: real) {
    forall i, k | 0 <= i < k < |hits| && First(hits, i) && hits[i].window < hits[k].window ::
      hits[i].at + length <= hits[k].at
  }

  ghost predicate Windowed(hits: seq<Hit>, limit: nat, length: real) {
    Ordered(hits) && Limited(hits, limit) && Spaced(hits, length)
  }

  /** The next window after the one of hit i, if it begins at most n hits later. */
  lemma NextWindow(hits: seq<Hit>, i: nat, n: nat) returns (j: nat)
    requires Ordered(hits) && i + n < |hits| && hits[i].window < hits[i + n].window
    ensures i < j <= i + n && First(hits, j) && hits[i].window < hits[j].window
    ensures hits[j - 1].window == hits[i].window
  {
    j := i + 1;
    while hits[j].window == hits[i].window
      invariant i < j <= i + n && hits[j - 1].window == hits[i].window
      decreases i + n - j
    {
      j := j + 1;
    }
  }

  /** 2 * limit calls in a row span at least a window's length. */
  lemma SpanOfTwice(hits: seq<Hit>, limit: nat, length: real, i: nat)
    requires Windowed(hits, limit, length) && limit >= 1 && i + 2 * limit - 1 < |hits|
    ensures hits[i].at + length <= hits[i + 2 * limit - 1].at
  {
    var k := i + 2 * limit - 1;
    assert hits[i].window < hits[i + limit].window;
    var j := NextWindow(hits, i, limit);
    if j < i + limit {
      assert hits[j].window < hits[j + limit].window <= hits[k].window;
    } else {
      assert hits[i + limit - 1].window == hits[i].window;
      assert i > 0 ==> hits[i - 1].window < hits[i - 1 + limit].window;
      assert First(hits, i);
    }
  }

  /** The calls of the half-open interval that begins at t. */
  function Within(hits: seq<Hit>, t: real, length: real): set<nat> {
    set i: nat | i < |hits| && t <= hits[i].at < t + length
  }

  lemma RangeSize(s: set<nat>, lo: nat, hi: nat)
    requires lo <= hi && forall x | x in s :: lo <= x < hi
    ensures |s| <= hi - lo
    ensures (forall x: nat | lo <= x < hi :: x in s) ==> |s| == hi - lo
    decreases hi
  {
    if lo == hi {
      assert s == {};
    } else if hi - 1 in s {
      RangeSize(s - {hi - 1}, lo, hi - 1);
    } else {
      RangeSize(s, lo, hi - 1);
    }
  }

  lemma Earliest(s: set<nat>) returns (m: nat)
    requires s != {}
    ensures m in s && forall x | x in s :: m <= x
  {
    m :| m in s;
    if x :| x in s && x < m {
      var rest := s - {m};
      assert x in rest;
      m := Earliest(rest);
      assert forall y | y in s :: y in rest || y > x;
    }
  }

  /** Any half-open interval of one window's length holds at most 2 * limit - 1 allowed calls. */
  lemma SlidingBound(hits: seq<Hit>, limit: nat, length: real, t: real)
    requires Windowed(hits, limit, length) && limit >= 1
    ensures |Within(hits, t, length)| <= 2 * limit - 1
  {
    var s := Within(hits, t, length);
    if s != {} {
      var lo := Earliest(s);
      forall x | x in s ensures lo <= x < lo + 2 * limit - 1 {
        if x >= lo + 2 * limit - 1 {
          SpanOfTwice(hits, limit, length, lo);
        }
      }
      RangeSize(s, lo, lo + 2 * limit - 1);
    }
  }

  // ---------- counting as the calls come in ----------

  /** The calls allowed so far, against the counter of the current window: `counted` of them belong to it. */
  ghost predicate Fits(hits: seq<Hit>, limit: nat, length: real, window: nat, start: real, counted: nat) {
    && Windowed(hits, limit, length)
    && counted <= limit && counted <= |hits|
    && (forall i | 0 <= i < |hits| - counted :: hits[i].window < window)
    && (forall i | |hits| - counted <= i < |hits| :: hits[i].window == window && hits[i].at >= start)
    && (counted > 0 ==> hits[|hits| - counted].at == start)
    && (forall i | 0 <= i < |hits| - counted && First(hits, i) :: hits[i].at + length <= start)
  }

  /** One more call in the current window, below the limit. */
  lemma Admit(hits: seq<Hit>, limit: nat, length: real, window: nat, start: real, counted: nat, now: real)
    requires Fits(hits, limit, length, window, start, counted) && counted < limit
    requires now >= start && (counted == 0 ==> now == start)
    requires forall i | 0 <= i < |hits| :: hits[i].at <= now
    ensures Fits(hits + [Hit(now, window)], limit, length, window, start, counted + 1)
  {
    var hits' := hits + [Hit(now, window)];
    AdmitLimited(hits, limit, window, counted, now);
    AdmitSpaced(hits, limit, length, window, start, counted, now);
    hide First, Limited, Spaced;
    assert Ordered(hits');
  }

  lemma AdmitSpaced(hits: seq<Hit>, limit: nat, length: real, window: nat, start: real, counted: nat, now: real)
    requires Fits(hits, limit, length, window, start, counted) && now >= start
    ensures var hits' := hits + [Hit(now, window)];
      && Spaced(hits', length)
      && forall i | 0 <= i < |hits'| - (counted + 1) && First(hits', i) :: hits'[i].at + length <= start
  {
    hide Ordered, Limited;
    var hits' := hits + [Hit(now, window)];
    forall i | 0 <= i < |hits| ensures First(hits', i) <==> First(hits, i) {
      FirstAppended(hits, Hit(now, window), i);
    }
  }

  lemma FirstAppended(hits: seq<Hit>, hit: Hit, i: nat)
    requires i < |hits|
    ensures First(hits + [hit], i) <==> First(hits, i)
  {
    assert i > 0 ==> (hits + [hit])[i - 1] == hits[i - 1];
  }

  lemma AdmitLimited(hits: seq<Hit>, limit: nat, window: nat, counted: nat, now: real)
    requires Limited(hits, limit) && counted < limit && counted <= |hits|
    requires forall i | 0 <= i < |hits| - counted :: hits[i].window < window
    ensures Limited(hits + [Hit(now, window)], limit)
  {
    var hits' := hits + [Hit(now, window)];
    forall i, k | 0 <= i < k < |hits'| && k - i == limit ensures hits'[i].window < hits'[k].window {
      assert k < |hits| ==> hits[i].window < hits[k].window;
    }
  }

  /** A new window begins at least a window's length after the current one. */
  lemma Roll(hits: seq<Hit>, limit: nat, length: real, window: nat, start: real, counted: nat, start': real)
    requires Fits(hits, limit, length, window, start, counted) && start + length <= start' && start <= start'
    ensures Fits(hits, limit, length, window + 1, start', 0)
  {
    forall i | |hits| - counted < i < |hits| ensures !First(hits, i) {
      assert hits[i - 1].window == hits[i].window;
    }
  }
}
