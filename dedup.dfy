/**
 * Removing rows that share a `date_time` value, keeping the last
 * occurrence of each (pandas `drop_duplicates(subset=['date_time'],
 * keep='last')`), and the `duplicated().sum()` count reported before and
 * after it.
 */
module Dedup {

  import opened Traffic

  /** The set of `date_time` values of a table. */
  function Timestamps(s: seq<Record>): set<Timestamp>
  {
    if s == [] then {} else {s[0].dateTime} + Timestamps(s[1..])
  }

  /** No row's timestamp occurs again in a later row. */
  predicate UniqueTimestamps(s: seq<Record>)
  {
    s == [] || (s[0].dateTime !in Timestamps(s[1..]) && UniqueTimestamps(s[1..]))
  }

  lemma TimestampsCons(x: Record, t: seq<Record>)
    ensures Timestamps([x] + t) == {x.dateTime} + Timestamps(t)
  {
    assert ([x] + t)[1..] == t;
  }

  lemma {:induction false} TimestampsSnoc(t: seq<Record>, x: Record)
    ensures Timestamps(t + [x]) == Timestamps(t) + {x.dateTime}
  {
    if t != [] {
      TimestampsSnoc(t[1..], x);
      assert (t + [x])[1..] == t[1..] + [x];
    } else {
      assert t + [x] == [x];
    }
  }

  /** A timestamp is in the set exactly when some row carries it. */
  lemma {:induction false} TimestampsMembership(s: seq<Record>, u: Timestamp)
    ensures u in Timestamps(s) <==> exists i :: 0 <= i < |s| && s[i].dateTime == u
  {
    if s != [] {
      TimestampsMembership(s[1..], u);
      if u in Timestamps(s[1..]) {
        var i :| 0 <= i < |s| - 1 && s[1..][i].dateTime == u;
        assert s[i + 1].dateTime == u;
      }
      if exists i :: 0 <= i < |s| && s[i].dateTime == u {
        var i :| 0 <= i < |s| && s[i].dateTime == u;
        if i > 0 { assert s[1..][i - 1].dateTime == u; }
      }
    }
  }

  lemma TimestampsAll(s: seq<Record>)
    ensures forall i :: 0 <= i < |s| ==> s[i].dateTime in Timestamps(s)
  {
    forall i | 0 <= i < |s| ensures s[i].dateTime in Timestamps(s) {
      TimestampsMembership(s, s[i].dateTime);
    }
  }

  /**
   * The recursive definition of uniqueness agrees with the pairwise one:
   * no two rows share a timestamp.
   */
  lemma {:induction false} UniqueTimestampsPairwise(s: seq<Record>)
    ensures UniqueTimestamps(s) <==>
      forall i, j :: 0 <= i < j < |s| ==> s[i].dateTime != s[j].dateTime
  {
    if s != [] {
      var t := s[1..];
      UniqueTimestampsPairwise(t);
      TimestampsMembership(t, s[0].dateTime);
      if UniqueTimestamps(s) {
        forall i, j | 0 <= i < j < |s| ensures s[i].dateTime != s[j].dateTime {
          assert s[j] == t[j - 1];
          if i > 0 { assert s[i] == t[i - 1]; }
        }
      }
      if forall i, j :: 0 <= i < j < |s| ==> s[i].dateTime != s[j].dateTime {
        forall i, j | 0 <= i < j < |t| ensures t[i].dateTime != t[j].dateTime {
          assert t[i] == s[i + 1] && t[j] == s[j + 1];
        }
        forall i | 0 <= i < |t| ensures t[i].dateTime != s[0].dateTime {
          assert t[i] == s[i + 1];
        }
      }
    }
  }

  /**
   * A table never has more timestamps than rows, and has exactly as many
   * when its timestamps are unique.
   */
  lemma {:induction false} TimestampsCardinality(s: seq<Record>)
    ensures |Timestamps(s)| <= |s|
    ensures |Timestamps(s)| == |s| <==> UniqueTimestamps(s)
  {
    if s != [] {
      TimestampsCardinality(s[1..]);
    }
  }

  /**
   * Specification of keep-last de-duplication: a row survives exactly
   * when no later row has its timestamp; survivors keep their order.
   */
  ghost function KeepLast(s: seq<Record>): (r: seq<Record>)
    ensures |r| <= |s|
    ensures Timestamps(r) == Timestamps(s)
    ensures UniqueTimestamps(r)
  {
    if s == [] then []
    else if s[0].dateTime in Timestamps(s[1..]) then KeepLast(s[1..])
    else
      var rest := KeepLast(s[1..]);
      assert ([s[0]] + rest)[1..] == rest;
      [s[0]] + rest
  }

  /** Index of the last row of `s` whose timestamp is `t`. */
  ghost function LastIndex(s: seq<Record>, t: Timestamp): (i: nat)
    requires t in Timestamps(s)
    ensures i < |s| && s[i].dateTime == t
    ensures forall j :: i < j < |s| ==> s[j].dateTime != t
  {
    if s[0].dateTime == t && t !in Timestamps(s[1..]) then
      TimestampsAll(s[1..]);
      assert forall j :: 1 <= j < |s| ==> s[j] == s[1..][j - 1];
      0
    else
      1 + LastIndex(s[1..], t)
  }

  /** A timestamp that recurs after the first row is found one position later. */
  lemma LastIndexCons(s: seq<Record>, u: Timestamp)
    requires |s| > 0 && u in Timestamps(s[1..])
    ensures u in Timestamps(s) && LastIndex(s, u) == 1 + LastIndex(s[1..], u)
  {
  }

  /**
   * Last wins: every surviving row is the last input row carrying its
   * timestamp.
   */
  lemma {:induction false} KeepLastKeepsLastRow(s: seq<Record>)
    ensures forall k :: 0 <= k < |KeepLast(s)| ==>
      KeepLast(s)[k].dateTime in Timestamps(s) &&
      KeepLast(s)[k] == s[LastIndex(s, KeepLast(s)[k].dateTime)]
  {
    if s != [] {
      var t := s[1..];
      KeepLastKeepsLastRow(t);
      var r, rest := KeepLast(s), KeepLast(t);
      TimestampsAll(r);
      TimestampsAll(rest);
      forall k | 0 <= k < |r|
        ensures r[k].dateTime in Timestamps(s) && r[k] == s[LastIndex(s, r[k].dateTime)]
      {
        var u := r[k].dateTime;
        if s[0].dateTime in Timestamps(t) {
          assert r[k] == rest[k];
          LastIndexCons(s, u);
        } else if k == 0 {
          assert LastIndex(s, u) == 0;
        } else {
          assert r[k] == rest[k - 1];
          LastIndexCons(s, u);
        }
      }
    }
  }

  /**
   * Conversely, the last row carrying each timestamp survives, so no
   * timestamp of the input is lost.
   */
  lemma KeepLastKeepsEveryLastRow(s: seq<Record>, i: nat)
    requires i < |s|
    requires forall j :: i < j < |s| ==> s[j].dateTime != s[i].dateTime
    ensures s[i] in KeepLast(s)
  {
    var r := KeepLast(s);
    var u := s[i].dateTime;
    TimestampsAll(s);
    TimestampsMembership(r, u);
    var k :| 0 <= k < |r| && r[k].dateTime == u;
    KeepLastKeepsLastRow(s);
    assert LastIndex(s, u) == i;
  }

  /** Two survivors, in the order of their last occurrences in the input. */
  lemma {:induction false} KeepLastOrderAt(s: seq<Record>, k1: nat, k2: nat)
    requires k1 < k2 < |KeepLast(s)|
    ensures KeepLast(s)[k1].dateTime in Timestamps(s)
    ensures KeepLast(s)[k2].dateTime in Timestamps(s)
    ensures LastIndex(s, KeepLast(s)[k1].dateTime) < LastIndex(s, KeepLast(s)[k2].dateTime)
  {
    var t := s[1..];
    var r, rest := KeepLast(s), KeepLast(t);
    TimestampsAll(r);
    TimestampsAll(rest);
    var u1, u2 := r[k1].dateTime, r[k2].dateTime;
    if s[0].dateTime in Timestamps(t) {
      KeepLastOrderAt(t, k1, k2);
      LastIndexCons(s, u1);
      LastIndexCons(s, u2);
    } else {
      assert r[k2] == rest[k2 - 1];
      LastIndexCons(s, u2);
      if k1 == 0 {
        assert LastIndex(s, u1) == 0;
      } else {
        KeepLastOrderAt(t, k1 - 1, k2 - 1);
        assert r[k1] == rest[k1 - 1];
        LastIndexCons(s, u1);
      }
    }
  }

  /**
   * Order is preserved: survivors appear in the order of their last
   * occurrences in the input.
   */
  lemma KeepLastPreservesOrder(s: seq<Record>)
    ensures forall k1, k2 :: 0 <= k1 < k2 < |KeepLast(s)| ==>
      KeepLast(s)[k1].dateTime in Timestamps(s) &&
      KeepLast(s)[k2].dateTime in Timestamps(s) &&
      LastIndex(s, KeepLast(s)[k1].dateTime) < LastIndex(s, KeepLast(s)[k2].dateTime)
  {
    var r := KeepLast(s);
    forall k1: nat, k2: nat | k1 < k2 < |r|
      ensures r[k1].dateTime in Timestamps(s) && r[k2].dateTime in Timestamps(s)
      ensures LastIndex(s, r[k1].dateTime) < LastIndex(s, r[k2].dateTime)
    {
      KeepLastOrderAt(s, k1, k2);
    }
  }

  /** A table whose timestamps are already unique loses no row. */
  lemma {:induction false} KeepLastOfUnique(s: seq<Record>)
    requires UniqueTimestamps(s)
    ensures KeepLast(s) == s
  {
    if s != [] {
      KeepLastOfUnique(s[1..]);
    }
  }

  /** De-duplicating an already de-duplicated table changes nothing. */
  lemma {:induction false} KeepLastIdempotent(s: seq<Record>)
    ensures KeepLast(KeepLast(s)) == KeepLast(s)
  {
    KeepLastOfUnique(KeepLast(s));
  }

  /**
   * `duplicated().sum()` on the `date_time` column: the number of rows
   * whose timestamp already occurred in an earlier row.
   */
  function CountDuplicated(s: seq<Record>): (n: nat)
    ensures n + |Timestamps(s)| == |s|
  {
    if s == [] then 0
    else
      var init, last := s[..|s| - 1], s[|s| - 1];
      TimestampsSnoc(init, last);
      assert s == init + [last];
      if last.dateTime in Timestamps(init) then
        assert Timestamps(s) == Timestamps(init);
        CountDuplicated(init) + 1
      else
        assert |Timestamps(s)| == |Timestamps(init)| + 1;
        CountDuplicated(init)
  }

  /** The duplicate count is zero exactly when timestamps are unique. */
  lemma {:induction false} NoDuplicatesIffUnique(s: seq<Record>)
    ensures CountDuplicated(s) == 0 <==> UniqueTimestamps(s)
  {
    TimestampsCardinality(s);
  }

  /**
   * The duplicate count reported before de-duplication is the number of
   * rows it removes, and the count reported afterwards is zero.
   */
  lemma {:induction false} DuplicatesRemoved(s: seq<Record>)
    ensures |s| - |KeepLast(s)| == CountDuplicated(s)
    ensures CountDuplicated(KeepLast(s)) == 0
  {
    TimestampsCardinality(KeepLast(s));
  }

  /**
   * `drop_duplicates(subset=['date_time'], keep='last')`: scans the table
   * from the end, keeping a row when its timestamp has not been seen yet.
   */
  method DropDuplicatesKeepLast(df: seq<Record>) returns (kept: seq<Record>)
    ensures kept == KeepLast(df)
  {
    kept := [];
    var seen: set<Timestamp> := {};
    var i := |df|;
    while i > 0
      invariant 0 <= i <= |df|
      invariant kept == KeepLast(df[i..])
      invariant seen == Timestamps(df[i..])
    {
      i := i - 1;
      assert df[i..][1..] == df[i + 1..];
      if df[i].dateTime !in seen {
        kept := [df[i]] + kept;
        seen := seen + {df[i].dateTime};
      }
    }
    assert df[0..] == df;
  }
}
