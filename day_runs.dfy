/** Sorting the rows of one group by date and cutting them into runs of
    consecutive days (views/islem_ozeti.py, the inner `groupby('group_id')`).
    A row is carried with its day number, `date.toordinal()`; everything here
    depends on the day numbers only. */
module DayRuns {

  /** An item with its day number. */
  datatype Stamped<P> = Stamped(n: int, item: P)

  /** `(b - a).days`. */
  function Gap<P>(a: Stamped<P>, b: Stamped<P>): int
  {
    b.n - a.n
  }

  predicate Ascending<P>(s: seq<Stamped<P>>)
  {
    forall i, j :: 0 <= i < j < |s| ==> s[i].n <= s[j].n
  }

  function InsertByDay<P(==)>(x: Stamped<P>, s: seq<Stamped<P>>): (r: seq<Stamped<P>>)
    requires Ascending(s)
    ensures Ascending(r)
    ensures multiset(r) == multiset(s) + multiset{x}
  {
    if s == [] || x.n <= s[0].n then [x] + s
    else
      var t := InsertByDay(x, s[1..]);
      InsertedBehindHead(x, s, t);
      [s[0]] + t
  }

  /** The head, then the insertion into the tail: still ascending, and the
      same rows with `x` added. */
  lemma InsertedBehindHead<P>(x: Stamped<P>, s: seq<Stamped<P>>, t: seq<Stamped<P>>)
    requires Ascending(s) && s != [] && s[0].n < x.n
    requires Ascending(t) && multiset(t) == multiset(s[1..]) + multiset{x}
    ensures Ascending([s[0]] + t)
    ensures multiset([s[0]] + t) == multiset(s) + multiset{x}
  {
    assert s == [s[0]] + s[1..];
    InsertedAbove(x, s, t);
    var r := [s[0]] + t;
    forall i, j | 0 <= i < j < |r| ensures r[i].n <= r[j].n {
      if i > 0 {
        assert r[i] == t[i - 1] && r[j] == t[j - 1];
      } else {
        assert r[j] == t[j - 1];
      }
    }
  }

  /** Every day of the insertion into the tail is at least the head's day. */
  lemma InsertedAbove<P>(x: Stamped<P>, s: seq<Stamped<P>>, t: seq<Stamped<P>>)
    requires Ascending(s) && s != [] && s[0].n < x.n
    requires multiset(t) == multiset(s[1..]) + multiset{x}
    ensures forall j :: 0 <= j < |t| ==> s[0].n <= t[j].n
  {
    forall j | 0 <= j < |t| ensures s[0].n <= t[j].n {
      assert t[j] in multiset(t);
      if t[j] != x {
        assert t[j] in s[1..];
      }
    }
  }

  /** `group.sort_values('Tarih')`: the same rows, by ascending date. */
  function SortByDay<P(==)>(s: seq<Stamped<P>>): (r: seq<Stamped<P>>)
    ensures Ascending(r)
    ensures multiset(r) == multiset(s)
  {
    if s == [] then []
    else
      assert s == [s[0]] + s[1..];
      InsertByDay(s[0], SortByDay(s[1..]))
  }

  /** The runs `(date_diff > 1).cumsum()` numbers: a new run starts at every
      row more than one day after the row before it. */
  function Runs<P>(s: seq<Stamped<P>>): (rs: seq<seq<Stamped<P>>>)
    ensures |rs| == 0 <==> |s| == 0
    ensures forall i :: 0 <= i < |rs| ==> |rs[i]| > 0
  {
    if |s| <= 1 then (if s == [] then [] else [s])
    else
      var n := |s| - 1;
      var rs := Runs(s[..n]);
      if Gap(s[n - 1], s[n]) > 1 then rs + [[s[n]]]
      else rs[..|rs| - 1] + [rs[|rs| - 1] + [s[n]]]
  }

  /** The runs laid end to end. */
  function Flatten<P>(rs: seq<seq<Stamped<P>>>): seq<Stamped<P>>
  {
    if rs == [] then [] else Flatten(rs[..|rs| - 1]) + rs[|rs| - 1]
  }

  lemma FlattenSnoc<P>(rs: seq<seq<Stamped<P>>>, r: seq<Stamped<P>>)
    ensures Flatten(rs + [r]) == Flatten(rs) + r
  {
    assert (rs + [r])[..|rs|] == rs;
  }

  /** Adding a row to the last run adds it at the end of the flattening. */
  lemma FlattenExtendLast<P>(front: seq<seq<Stamped<P>>>, last: seq<Stamped<P>>, x: Stamped<P>)
    ensures Flatten(front + [last + [x]]) == Flatten(front + [last]) + [x]
  {
    FlattenSnoc(front, last);
    FlattenSnoc(front, last + [x]);
    var f := Flatten(front);
    assert f + (last + [x]) == (f + last) + [x];
  }

  /** The runs split the rows without dropping or reordering any. */
  lemma {:induction false} RunsFlatten<P>(s: seq<Stamped<P>>)
    ensures Flatten(Runs(s)) == s
  {
    if |s| == 1 {
      assert Flatten([s]) == Flatten([]) + s;
    } else if |s| > 1 {
      var n := |s| - 1;
      RunsFlatten(s[..n]);
      if Gap(s[n - 1], s[n]) > 1 {
        RunsFlattenNewRun(s);
      } else {
        RunsFlattenSameRun(s);
      }
    }
  }

  /** A row that opens a new run lands at the end of the flattening. */
  lemma RunsFlattenNewRun<P>(s: seq<Stamped<P>>)
    requires |s| > 1 && Gap(s[|s| - 2], s[|s| - 1]) > 1
    ensures Flatten(Runs(s)) == Flatten(Runs(s[..|s| - 1])) + [s[|s| - 1]]
  {
    FlattenSnoc(Runs(s[..|s| - 1]), [s[|s| - 1]]);
  }

  /** A row that joins the last run lands at the end of the flattening. */
  lemma RunsFlattenSameRun<P>(s: seq<Stamped<P>>)
    requires |s| > 1 && Gap(s[|s| - 2], s[|s| - 1]) <= 1
    ensures Flatten(Runs(s)) == Flatten(Runs(s[..|s| - 1])) + [s[|s| - 1]]
  {
    var rs := Runs(s[..|s| - 1]);
    var x := s[|s| - 1];
    assert Runs(s) == rs[..|rs| - 1] + [rs[|rs| - 1] + [x]];
    FlattenGrowLast(rs, x);
  }

  lemma FlattenGrowLast<P>(rs: seq<seq<Stamped<P>>>, x: Stamped<P>)
    requires rs != []
    ensures Flatten(rs[..|rs| - 1] + [rs[|rs| - 1] + [x]]) == Flatten(rs) + [x]
  {
    var front, last := rs[..|rs| - 1], rs[|rs| - 1];
    FlattenExtendLast(front, last, x);
    FlattenSnoc(front, last);
    assert Flatten(rs) == Flatten(front) + last;
  }

  function Last<T>(r: seq<T>): T
    requires r != []
  {
    r[|r| - 1]
  }

  /** The last run ends with the last row. */
  lemma RunsLast<P>(s: seq<Stamped<P>>)
    requires s != []
    ensures Last(Last(Runs(s))) == Last(s)
  {
  }

  /** Within a run each row is on the day of the row before it or the next
      day. */
  predicate Steps<P>(r: seq<Stamped<P>>)
  {
    forall k :: 0 <= k < |r| - 1 ==> 0 <= Gap(r[k], r[k + 1]) <= 1
  }

  /** Cut from rows sorted by day, every run steps by at most one day. */
  lemma {:induction false} RunsSteps<P>(s: seq<Stamped<P>>)
    requires Ascending(s)
    ensures forall i :: 0 <= i < |Runs(s)| ==> Steps(Runs(s)[i])
  {
    if |s| > 1 {
      var n := |s| - 1;
      var rs := Runs(s[..n]);
      RunsSteps(s[..n]);
      if Gap(s[n - 1], s[n]) <= 1 {
        RunsLast(s[..n]);
        var m := |rs| - 1;
        assert Last(rs[m]) == s[n - 1];
        ExtendSteps(rs[m], s[n]);
      }
    }
  }

  lemma ExtendSteps<P>(r: seq<Stamped<P>>, x: Stamped<P>)
    requires r != [] && Steps(r) && 0 <= Gap(Last(r), x) <= 1
    ensures Steps(r + [x])
  {
    forall k | 0 <= k < |r| ensures 0 <= Gap((r + [x])[k], (r + [x])[k + 1]) <= 1 {
      if k < |r| - 1 {
        assert (r + [x])[k] == r[k] && (r + [x])[k + 1] == r[k + 1];
      }
    }
  }

  /** Consecutive runs are more than one day apart. */
  lemma {:induction false} RunsSeparated<P>(s: seq<Stamped<P>>)
    ensures forall i :: 0 <= i < |Runs(s)| - 1 ==> Gap(Last(Runs(s)[i]), Runs(s)[i + 1][0]) > 1
  {
    if |s| > 1 {
      var n := |s| - 1;
      RunsSeparated(s[..n]);
      RunsLast(s[..n]);
    }
  }

  /** Inside a run, a later row is no earlier and at most as many days later
      as it is rows further on. */
  lemma {:induction false} StepsBetween<P>(r: seq<Stamped<P>>, k: nat, l: nat)
    requires Steps(r) && k <= l < |r|
    ensures 0 <= r[l].n - r[k].n <= l - k
  {
    if k < l {
      StepsBetween(r, k, l - 1);
      assert 0 <= Gap(r[l - 1], r[l]) <= 1;
    }
  }

  /** Every row of the flattening lies in some run. */
  lemma {:induction false} FlattenMember<P>(rs: seq<seq<Stamped<P>>>, x: Stamped<P>)
    requires x in Flatten(rs)
    ensures exists i :: 0 <= i < |rs| && x in rs[i]
  {
    var m := |rs| - 1;
    if x !in rs[m] {
      FlattenMember(rs[..m], x);
      var i :| 0 <= i < m && x in rs[..m][i];
    }
  }

  /** Every row of a run is a row of the flattening. */
  lemma {:induction false} FlattenIn<P>(rs: seq<seq<Stamped<P>>>, i: nat, x: Stamped<P>)
    requires i < |rs| && x in rs[i]
    ensures x in Flatten(rs)
  {
    var m := |rs| - 1;
    if i < m {
      assert rs[..m][i] == rs[i];
      FlattenIn(rs[..m], i, x);
    }
  }
}
