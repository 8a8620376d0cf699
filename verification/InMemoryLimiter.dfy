/** The single-process fixed-window rate limiter: a dictionary from keys to the start and the count of their window. */
module InMemoryLimiter {
  import opened FixedWindows

  datatype Window = Window(start: real, count: nat)

  /** Python's round: to the nearest integer, and halves to the even one. */
  function Round(x: real): int {
    var f := x.Floor;
    var d := x - f as real;
    if d < 0.5 || (d == 0.5 && f % 2 == 0) then f else f + 1
  }

  /** The window that a call falls into, before it is counted. */
  function Current(windows: map<string, Window>, key: string, now: real, length: int): Window {
    var w := if key in windows then windows[key] else Window(now, 0);
    if now - w.start >= length as real then Window(now, 0) else w
  }

  function Counted(windows: map<string, Window>, key: string, now: real, length: int): Window {
    var w := Current(windows, key, now, length);
    Window(w.start, w.count + 1)
  }

  /** What is left of the window. */
  function Remaining(w: Window, now: real, length: int): real {
    length as real - (now - w.start)
  }

  function Decide(w: Window, now: real, limit: int, length: int): Decision {
    if w.count > limit then Decision(false, Max(1, Round(Remaining(w, now, length)))) else Decision(true, 0)
  }

  class InMemoryRateLimiter {
    var windows: map<string, Window>

    constructor ()
      ensures windows == map[]
    {
      windows := map[];
    }

    method Check(now: real, key: string, limit: int, length: int) returns (d: Decision)
      modifies this
      ensures windows == old(windows)[key := Counted(old(windows), key, now, length)]
      ensures d == Decide(Counted(old(windows), key, now, length), now, limit, length)
    {
      var window := if key in windows then windows[key] else Window(now, 0);
      if now - window.start >= length as real {
        window := Window(now, 0);
      }
      window := Window(window.start, window.count + 1);
      windows := windows[key := window];
      if window.count > limit {
        var remaining := length as real - (now - window.start);
        return Decision(false, Max(1, Round(remaining)));
      }
      return Decision(true, 0);
    }

    /** A sequence of calls, one after the other. */
    method CheckAll(calls: seq<Call>) returns (decisions: seq<Decision>)
      requires windows == map[]
      modifies this
      ensures |decisions| == |calls| && windows == After(calls)
      ensures forall i | 0 <= i < |calls| :: decisions[i] == DecisionAt(calls, i)
    {
      decisions := [];
      for i := 0 to |calls|
        invariant |decisions| == i && windows == After(calls[..i])
        invariant forall k | 0 <= k < i :: decisions[k] == DecisionAt(calls, k)
      {
        var c := calls[i];
        var d := Check(c.now, c.key, c.limit, c.length);
        decisions := decisions + [d];
        assert calls[..i + 1][..i] == calls[..i];
      }
      assert calls[..|calls|] == calls;
    }
  }

  datatype Call = Call(now: real, key: string, limit: int, length: int)

  /** The dictionary after a sequence of calls. */
  function After(calls: seq<Call>): map<string, Window> {
    if calls == [] then map[] else
      var windows, c := After(calls[..|calls| - 1]), calls[|calls| - 1];
      windows[c.key := Counted(windows, c.key, c.now, c.length)]
  }

  function DecisionAt(calls: seq<Call>, i: nat): Decision
    requires i < |calls|
  {
    var c := calls[i];
    Decide(Counted(After(calls[..i]), c.key, c.now, c.length), c.now, c.limit, c.length)
  }

  // ---------- how many calls are allowed ----------

  /** The clock does not run backwards, and every call for the key has the same limit and window; other keys are free. */
  ghost predicate Steady(calls: seq<Call>, key: string, limit: int, length: int) {
    && (forall i, k | 0 <= i <= k < |calls| :: calls[i].now <= calls[k].now)
    && (forall i | 0 <= i < |calls| && calls[i].key == key :: calls[i].limit == limit && calls[i].length == length)
  }

  /** The allowed calls for a key, each with the number of its window. */
  function Allowed(calls: seq<Call>, key: string): seq<Hit> {
    if calls == [] then [] else
      var rest, c := calls[..|calls| - 1], calls[|calls| - 1];
      if c.key == key && DecisionAt(calls, |calls| - 1).allowed
      then Allowed(rest, key) + [Hit(c.now, Number(calls, key))]
      else Allowed(rest, key)
  }

  /** How many windows the key has had before its current one. */
  function Number(calls: seq<Call>, key: string): nat {
    if calls == [] then 0 else
      var rest, c := calls[..|calls| - 1], calls[|calls| - 1];
      var before := After(rest);
      if c.key == key && key in before && c.now - before[key].start >= c.length as real
      then Number(rest, key) + 1 else Number(rest, key)
  }

  /** What a window says about the calls allowed up to the time `last`. */
  ghost predicate Explains(w: Window, hits: seq<Hit>, number: nat, limit: nat, length: int, last: real) {
    && w.count > 0 && w.start <= last
    && Fits(hits, limit, length as real, number, w.start, Min(w.count, limit))
    && forall i | 0 <= i < |hits| :: hits[i].at <= last
  }

  ghost predicate Tracks(calls: seq<Call>, key: string, limit: nat, length: int) {
    if key !in After(calls) then Allowed(calls, key) == []
    else Explains(After(calls)[key], Allowed(calls, key), Number(calls, key), limit, length, calls[|calls| - 1].now)
  }

  /** One more call in a window, allowed or not. */
  lemma Recount(hits: seq<Hit>, limit: nat, length: int, number: nat, w: Window, now: real)
    requires limit >= 1 && Fits(hits, limit, length as real, number, w.start, Min(w.count, limit))
    requires w.start <= now && (w.count == 0 ==> w.start == now)
    requires forall i | 0 <= i < |hits| :: hits[i].at <= now
    ensures Explains(Window(w.start, w.count + 1), if w.count + 1 > limit then hits else hits + [Hit(now, number)],
                     number, limit, length, now)
  {
    hide Fits;
    if w.count < limit {
      Admit(hits, limit, length as real, number, w.start, w.count, now);
    }
  }

  lemma FirstEver(number: nat, limit: nat, length: int, now: real)
    requires limit >= 1
    ensures Explains(Window(now, 1), [Hit(now, number)], number, limit, length, now)
  {
    assert [] + [Hit(now, number)] == [Hit(now, number)];
    Recount([], limit, length, number, Window(now, 0), now);
  }

  /** A call for a key with a window. */
  lemma NextCall(w: Window, hits: seq<Hit>, number: nat, limit: nat, length: int, last: real, now: real)
    requires Explains(w, hits, number, limit, length, last) && last <= now && limit >= 1
    ensures var reset := now - w.start >= length as real;
      var cur, number' := if reset then Window(now, 0) else w, if reset then number + 1 else number;
      Explains(Window(cur.start, cur.count + 1),
               if cur.count + 1 > limit then hits else hits + [Hit(now, number')], number', limit, length, now)
  {
    if now - w.start >= length as real {
      Roll(hits, limit, length as real, number, w.start, Min(w.count, limit), now);
      Recount(hits, limit, length, number + 1, Window(now, 0), now);
    } else {
      Recount(hits, limit, length, number, w, now);
    }
  }

  /** What one more call changes, spelled out. */
  lemma LastCall(calls: seq<Call>, key: string)
    requires calls != []
    ensures var rest, c := calls[..|calls| - 1], calls[|calls| - 1];
      var before, hits, number := After(rest), Allowed(rest, key), Number(rest, key);
      if c.key != key then
        && (key in After(calls) <==> key in before) && (key in before ==> After(calls)[key] == before[key])
        && Allowed(calls, key) == hits && Number(calls, key) == number
      else
        var w := Current(before, key, c.now, c.length);
        var reset := key in before && c.now - before[key].start >= c.length as real;
        && key in After(calls) && After(calls)[key] == Window(w.start, w.count + 1)
        && Number(calls, key) == (if reset then number + 1 else number)
        && Allowed(calls, key) ==
             if w.count + 1 > c.limit then hits else hits + [Hit(c.now, Number(calls, key))]
  {
  }

  lemma NothingBefore(key: string)
    ensures key !in After([]) && Allowed([], key) == []
  {
  }

  lemma Later(w: Window, hits: seq<Hit>, number: nat, limit: nat, length: int, last: real, now: real)
    requires Explains(w, hits, number, limit, length, last) && last <= now
    ensures Explains(w, hits, number, limit, length, now)
  {
  }

  lemma TracksCall(calls: seq<Call>, key: string, limit: nat, length: int)
    requires calls != [] && Steady(calls, key, limit, length) && limit >= 1
    requires Tracks(calls[..|calls| - 1], key, limit, length)
    ensures Tracks(calls, key, limit, length)
  {
    hide After, Allowed, Number, Explains, DecisionAt;
    LastCall(calls, key);
    NothingBefore(key);
    var rest, c := calls[..|calls| - 1], calls[|calls| - 1];
    if key in After(rest) {
      assert rest != [];
      assert rest[|rest| - 1].now <= c.now;
      NextCall(After(rest)[key], Allowed(rest, key), Number(rest, key), limit, length, rest[|rest| - 1].now, c.now);
    } else if c.key == key {
      FirstEver(Number(rest, key), limit, length, c.now);
      assert Allowed(rest, key) + [Hit(c.now, Number(rest, key))] == [Hit(c.now, Number(rest, key))];
    }
    assert c == calls[|calls| - 1];
    if c.key != key && key in After(rest) {
      Later(After(rest)[key], Allowed(rest, key), Number(rest, key), limit, length, rest[|rest| - 1].now, c.now);
    }
  }

  lemma {:induction false} Tracked(calls: seq<Call>, key: string, limit: nat, length: int)
    requires Steady(calls, key, limit, length) && limit >= 1
    ensures Tracks(calls, key, limit, length)
  {
    if calls != [] {
      Tracked(calls[..|calls| - 1], key, limit, length);
      TracksCall(calls, key, limit, length);
    }
  }

  /** Over every sequence of calls, at most `limit` calls for a key are allowed in one window of that key, and at most
      2 * limit - 1 in any half-open interval of the window's length. */
  lemma SlidingLimit(calls: seq<Call>, key: string, limit: int, length: int, t: real)
    requires Steady(calls, key, limit, length)
    ensures |Within(Allowed(calls, key), t, length as real)| <= if limit >= 1 then 2 * limit - 1 else 0
    ensures limit >= 0 ==> Limited(Allowed(calls, key), limit)
  {
    if limit < 1 {
      NoneAllowed(calls, key, limit, length);
    } else {
      Tracked(calls, key, limit, length);
      Allows(calls, key, limit, length);
      SlidingBound(Allowed(calls, key), limit, length as real, t);
    }
  }

  lemma Allows(calls: seq<Call>, key: string, limit: nat, length: int)
    requires Tracks(calls, key, limit, length)
    ensures Windowed(Allowed(calls, key), limit, length as real)
  {
  }

  lemma {:induction false} NoneAllowed(calls: seq<Call>, key: string, limit: int, length: int)
    requires Steady(calls, key, limit, length) && limit < 1
    ensures Allowed(calls, key) == []
  {
    if calls != [] {
      NoneAllowed(calls[..|calls| - 1], key, limit, length);
    }
  }

  // ---------- the bound is attained ----------

  function Repeated(c: Call, n: nat): seq<Call> {
    if n == 0 then [] else Repeated(c, n - 1) + [c]
  }

  /** The calls allowed so far, and n more at one time. */
  ghost predicate Extended(hits: seq<Hit>, hits': seq<Hit>, n: nat, at: real) {
    && |hits'| == |hits| + n && hits <= hits'
    && forall i | |hits| <= i < |hits'| :: hits'[i].at == at
  }

  /** n calls at one time in a window that has room for them are all allowed. */
  lemma {:induction false} Burst(calls: seq<Call>, c: Call, n: nat)
    requires c.length >= 1 && Current(After(calls), c.key, c.now, c.length).count + n <= c.limit
    ensures var w, after := Current(After(calls), c.key, c.now, c.length), calls + Repeated(c, n);
      && Current(After(after), c.key, c.now, c.length) == Window(w.start, w.count + n)
      && (n > 0 ==> c.key in After(after) && After(after)[c.key] == Window(w.start, w.count + n))
      && Extended(Allowed(calls, c.key), Allowed(after, c.key), n, c.now)
  {
    hide After, Allowed, Number, Current, Extended;
    NoneMore(Allowed(calls, c.key), c.now);
    if n == 0 {
      assert calls + Repeated(c, 0) == calls;
    } else {
      Burst(calls, c, n - 1);
      var rest := calls + Repeated(c, n - 1);
      assert calls + Repeated(c, n) == rest + [c];
      OneMore(rest, c);
      ExtendedMore(Allowed(calls, c.key), Allowed(rest, c.key), n - 1, c.now, Number(rest + [c], c.key));
    }
  }

  lemma NoneMore(hits: seq<Hit>, at: real)
    ensures Extended(hits, hits, 0, at)
  {
  }

  /** One call in a window that has room for it. */
  lemma OneMore(rest: seq<Call>, c: Call)
    requires c.length >= 1 && Current(After(rest), c.key, c.now, c.length).count + 1 <= c.limit
    ensures var w, after := Current(After(rest), c.key, c.now, c.length), rest + [c];
      && Current(After(after), c.key, c.now, c.length) == Window(w.start, w.count + 1)
      && c.key in After(after) && After(after)[c.key] == Window(w.start, w.count + 1)
      && Allowed(after, c.key) == Allowed(rest, c.key) + [Hit(c.now, Number(after, c.key))]
  {
    hide After, Allowed, Number;
    assert (rest + [c])[..|rest|] == rest && (rest + [c])[|rest|] == c;
    LastCall(rest + [c], c.key);
  }

  lemma ExtendedMore(hits: seq<Hit>, hits': seq<Hit>, n: nat, at: real, number: nat)
    requires Extended(hits, hits', n, at)
    ensures Extended(hits, hits' + [Hit(at, number)], n + 1, at)
  {
  }

  /** One call at 0, the rest of the window half a second before its end, and the next window's calls at its start. */
  ghost predicate Packed(hits: seq<Hit>, limit: nat, length: nat) {
    && |hits| == 2 * limit > 0
    && hits[0].at == 0.0
    && (forall i | 1 <= i < limit :: hits[i].at == length as real - 0.5)
    && (forall i | limit <= i < 2 * limit :: hits[i].at == length as real)
  }

  lemma PackedWithin(hits: seq<Hit>, limit: nat, length: nat)
    requires limit >= 1 && length >= 1 && Packed(hits, limit, length)
    ensures |Within(hits, length as real - 0.5, length as real)| == 2 * limit - 1
  {
    RangeSize(Within(hits, length as real - 0.5, length as real), 1, 2 * limit);
  }

  lemma PackedCalls(key: string, limit: nat, length: nat) returns (calls: seq<Call>)
    requires limit >= 1 && length >= 1
    ensures calls == Repeated(Call(0.0, key, limit, length), 1)
      + Repeated(Call(length as real - 0.5, key, limit, length), limit - 1)
      + Repeated(Call(length as real, key, limit, length), limit)
    ensures Packed(Allowed(calls, key), limit, length)
  {
    hide After, Allowed, Number, Repeated;
    var c0, c1 := Call(0.0, key, limit, length), Call(length as real - 0.5, key, limit, length);
    var c2 := Call(length as real, key, limit, length);
    NothingBefore(key);
    Burst([], c0, 1);
    var s1 := [] + Repeated(c0, 1);
    Burst(s1, c1, limit - 1);
    var s2 := s1 + Repeated(c1, limit - 1);
    assert s2 == Repeated(c0, 1) + Repeated(c1, limit - 1);
    assert Current(After(s2), key, c1.now, length) == Window(0.0, limit);
    assert key in After(s2) && After(s2)[key] == Window(0.0, limit);
    Burst(s2, c2, limit);
    calls := s2 + Repeated(c2, limit);
  }

  /** For every limit and window there are calls of which 2 * limit - 1 are allowed within one window's length. */
  lemma BoundAttained(key: string, limit: nat, length: nat) returns (calls: seq<Call>, t: real)
    requires limit >= 1 && length >= 1
    ensures Steady(calls, key, limit, length)
    ensures |Within(Allowed(calls, key), t, length as real)| == 2 * limit - 1
  {
    hide After, Allowed, Number, Repeated, Packed, Within;
    t := length as real - 0.5;
    calls := PackedCalls(key, limit, length);
    InBursts(Call(0.0, key, limit, length), 1);
    InBursts(Call(t, key, limit, length), limit - 1);
    InBursts(Call(length as real, key, limit, length), limit);
    PackedWithin(Allowed(calls, key), limit, length);
  }

  lemma InBursts(c: Call, n: nat)
    ensures |Repeated(c, n)| == n && forall i | 0 <= i < n :: Repeated(c, n)[i] == c
  {
  }

  // ---------- how long a refused client is told to wait ----------

  lemma {:induction false} StartsBefore(calls: seq<Call>, key: string)
    requires forall i, k | 0 <= i <= k < |calls| :: calls[i].now <= calls[k].now
    ensures key in After(calls) ==> calls != [] && After(calls)[key].start <= calls[|calls| - 1].now
  {
    if calls != [] {
      var rest := calls[..|calls| - 1];
      StartsBefore(rest, key);
      assert rest != [] ==> rest[|rest| - 1].now <= calls[|calls| - 1].now;
    }
  }

  lemma RoundBetween(x: real, n: int)
    ensures x - 0.5 <= Round(x) as real <= x + 0.5
    ensures x <= n as real ==> Round(x) <= n
  {
  }

  /** An allowed call is told 0; a refused one between one second and the window. */
  lemma RetryAfterBounds(calls: seq<Call>, i: nat)
    requires forall j, k | 0 <= j <= k < |calls| :: calls[j].now <= calls[k].now
    requires i < |calls|
    ensures var d := DecisionAt(calls, i);
      if d.allowed then d.retryAfter == 0 else 1 <= d.retryAfter <= Max(1, calls[i].length)
  {
    var c := calls[i];
    StartsBefore(calls[..i], c.key);
    assert i > 0 ==> calls[..i][i - 1].now <= c.now;
    var w := Counted(After(calls[..i]), c.key, c.now, c.length);
    RoundBetween(Remaining(w, c.now, c.length), c.length);
  }

  /** The wait is what is left of the window, give or take half a second, but never less than one second. */
  lemma RoundedWait(w: Window, now: real, limit: int, length: int)
    requires w.start <= now && w.count > limit
    ensures var retry, left := Decide(w, now, limit, length).retryAfter, Remaining(w, now, length);
      && (now + retry as real - w.start >= length as real <==> !RoundsDown(left))
      && left - retry as real <= 0.5
      && (retry == 1 || retry as real - left <= 0.5)
  {
    RoundBetween(Remaining(w, now, length), length);
  }

  /** More than a second is left, and the fraction is below one half, or one half above an even number of seconds. */
  predicate RoundsDown(left: real) {
    var fraction := left - left.Floor as real;
    left > 1.0 && (0.0 < fraction < 0.5 || (fraction == 0.5 && left.Floor % 2 == 0))
  }

  /** The window in which call i for the key was counted is the current one until a call comes after its end. */
  lemma {:induction false} WindowLasts(calls: seq<Call>, key: string, limit: int, length: int, i: nat, k: nat)
    requires Steady(calls, key, limit, length) && i < k < |calls| && calls[i].key == key
    ensures key in After(calls[..i + 1]) && key in After(calls[..k])
    ensures var w := After(calls[..i + 1])[key];
      || (Number(calls[..k], key) == Number(calls[..i + 1], key) && After(calls[..k])[key].start == w.start)
      || (Number(calls[..k], key) > Number(calls[..i + 1], key) && calls[k].now - w.start >= length as real)
    decreases k
  {
    hide After, Number, Allowed, DecisionAt;
    LastCall(calls[..i + 1], key);
    assert calls[..i + 1][|calls[..i + 1]| - 1] == calls[i];
    if i + 1 < k {
      WindowLasts(calls, key, limit, length, i, k - 1);
      assert calls[..k][|calls[..k]| - 1] == calls[k - 1] && calls[..k][..|calls[..k]| - 1] == calls[..k - 1];
      assert calls[k - 1].now <= calls[k].now;
      LastCall(calls[..k], key);
    }
  }

  /** A refused client that comes back exactly as late as it was told is counted in a new window, whatever other calls are
      made meanwhile, exactly unless rounding took something off. */
  lemma WaitSufficesIff(calls: seq<Call>, key: string, limit: int, length: int, i: nat, k: nat)
    requires Steady(calls, key, limit, length) && i < k < |calls| && calls[i].key == calls[k].key == key
    requires !DecisionAt(calls, i).allowed && calls[k].now == calls[i].now + DecisionAt(calls, i).retryAfter as real
    ensures key in After(calls[..i + 1])
    ensures Number(calls[..k + 1], key) > Number(calls[..i + 1], key) <==>
      !RoundsDown(Remaining(After(calls[..i + 1])[key], calls[i].now, length))
  {
    hide After, Number, Allowed, DecisionAt, Decide, RoundsDown;
    WindowLasts(calls, key, limit, length, i, k);
    var w := After(calls[..i + 1])[key];
    RefusedWait(calls, key, limit, length, i);
    assert calls[..k + 1][..k] == calls[..k] && calls[..k + 1][k] == calls[k];
    LastCall(calls[..k + 1], key);
  }

  lemma RefusedWait(calls: seq<Call>, key: string, limit: int, length: int, i: nat)
    requires Steady(calls, key, limit, length) && i < |calls| && calls[i].key == key && !DecisionAt(calls, i).allowed
    ensures key in After(calls[..i + 1])
    ensures var w, now := After(calls[..i + 1])[key], calls[i].now;
      now + DecisionAt(calls, i).retryAfter as real - w.start >= length as real <==> !RoundsDown(Remaining(w, now, length))
  {
    hide RoundsDown, Allowed, Number;
    StartsBefore(calls[..i + 1], key);
    assert calls[..i + 1][..i] == calls[..i] && calls[..i + 1][i] == calls[i];
    var w := After(calls[..i + 1])[key];
    assert DecisionAt(calls, i) == Decide(w, calls[i].now, limit, length);
    RoundedWait(w, calls[i].now, limit, length);
  }

  /** Limit 1 and a window of 10 seconds: a client refused at 7.5 is told 2 seconds, since 2.5 rounds to the even 2, waits
      exactly that long and is refused again. */
  lemma EarlyWait(key: string) returns (calls: seq<Call>)
    ensures calls == [Call(0.0, key, 1, 10), Call(7.5, key, 1, 10), Call(9.5, key, 1, 10)]
    ensures DecisionAt(calls, 0) == Decision(true, 0)
    ensures DecisionAt(calls, 1) == Decision(false, 2) && calls[2].now == calls[1].now + 2 as real
    ensures !DecisionAt(calls, 2).allowed
  {
    calls := [Call(0.0, key, 1, 10), Call(7.5, key, 1, 10), Call(9.5, key, 1, 10)];
    var one, two := calls[..1], calls[..2];
    assert calls[..0] == [] && one[..0] == [] && two[..1] == one;
    assert After(one) == map[key := Window(0.0, 1)];
    assert After(two) == map[key := Window(0.0, 2)];
    assert 2.5.Floor == 2 && 0.5.Floor == 0;
  }
}
