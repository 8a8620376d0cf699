/** ORDER BY id: the increasing sequence of a set of ids. */
module SortedIds {
  import opened Uuids

  predicate Increasing(s: seq<Uuid>) {
    forall i, j | 0 <= i < j < |s| :: s[i] < s[j]
  }

  ghost predicate IsLeast(m: Uuid, ids: set<Uuid>) {
    m in ids && forall x | x in ids :: m <= x
  }

  ghost function Least(ids: set<Uuid>): (m: Uuid)
    requires ids != {}
    ensures IsLeast(m, ids)
  {
    LeastExists(ids);
    var m :| IsLeast(m, ids);
    m
  }

  lemma {:induction false} LeastExists(ids: set<Uuid>)
    requires ids != {}
    ensures exists m :: IsLeast(m, ids)
  {
    var y :| y in ids;
    var rest := ids - {y};
    if rest == {} {
      assert ids == {y};
      assert IsLeast(y, ids);
    } else {
      LeastExists(rest);
      var m :| IsLeast(m, rest);
      assert ids == rest + {y};
      assert IsLeast(if m < y then m else y, ids);
    }
  }

  /** s lists ids, in increasing order. */
  ghost predicate Lists(s: seq<Uuid>, ids: set<Uuid>) {
    && Increasing(s)
    && (forall i | 0 <= i < |s| :: s[i] in ids)
    && (forall x | x in ids :: x in s)
  }

  lemma {:induction false} ListsExists(ids: set<Uuid>) returns (s: seq<Uuid>)
    ensures Lists(s, ids) && |s| == |ids|
    decreases |ids|
  {
    if ids == {} {
      s := [];
    } else {
      var m := Least(ids);
      var rest := ids - {m};
      assert ids == {m} + rest;
      var t := ListsExists(rest);
      s := [m] + t;
      ListsCons(m, t, rest);
    }
  }

  lemma ListsCons(m: Uuid, t: seq<Uuid>, rest: set<Uuid>)
    requires Lists(t, rest) && forall x | x in rest :: m < x
    ensures Lists([m] + t, {m} + rest)
  {
    var s := [m] + t;
    forall i | 0 <= i < |s| ensures s[i] in {m} + rest && (i > 0 ==> m < s[i]) {
      assert i > 0 ==> s[i] == t[i - 1] && t[i - 1] in rest;
    }
  }

  lemma SortedExists(ids: set<Uuid>)
    ensures exists s :: Lists(s, ids) && |s| == |ids|
  {
    var s := ListsExists(ids);
  }

  ghost function Sorted(ids: set<Uuid>): (s: seq<Uuid>)
    ensures Lists(s, ids) && |s| == |ids|
  {
    SortedExists(ids);
    var s :| Lists(s, ids) && |s| == |ids|;
    s
  }

  lemma Inhabited(t: seq<Uuid>, ids: set<Uuid>)
    requires Lists(t, ids)
    ensures t != [] ==> ids != {}
  {
    if t != [] {
      assert t[0] in ids;
    }
  }

  lemma {:induction false} ListsUnique(s: seq<Uuid>, t: seq<Uuid>, ids: set<Uuid>)
    requires Lists(s, ids) && Lists(t, ids)
    ensures s == t
    decreases |s|
  {
    Inhabited(t, ids);
    if s != [] {
      assert s[0] in ids;
      FirstIsLeast(s, ids);
      FirstIsLeast(t, ids);
      ListsTail(s, ids);
      ListsTail(t, ids);
      ListsUnique(s[1..], t[1..], ids - {s[0]});
      assert s == [s[0]] + s[1..] && t == [t[0]] + t[1..];
    }
  }

  lemma FirstIsLeast(s: seq<Uuid>, ids: set<Uuid>)
    requires Lists(s, ids) && ids != {}
    ensures s != [] && IsLeast(s[0], ids)
  {
    var y :| y in ids;
    assert y in s;
    forall x | x in ids ensures s[0] <= x {
      assert x in s;
      var k :| 0 <= k < |s| && s[k] == x;
    }
  }

  lemma ListsTail(s: seq<Uuid>, ids: set<Uuid>)
    requires Lists(s, ids) && s != []
    ensures Lists(s[1..], ids - {s[0]})
  {
    forall x | x in ids - {s[0]} ensures x in s[1..] {
      assert x in s;
      var k :| 0 <= k < |s| && s[k] == x;
      assert s[1..][k - 1] == x;
    }
  }
}
