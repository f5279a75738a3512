/**
 * Row-level operations behind the partitioned store: merge-on-write with the last row per timestamp
 * winning, grouping a sorted batch by calendar day, and grouping a batch by train.
 */
module Partitions {
  import opened Base
  import opened Seqs
  import opened Time
  import opened Frames

  predicate UniqueStamps(rows: seq<Row>) {
    forall i, j :: 0 <= i < j < |rows| ==> rows[i].ts != rows[j].ts
  }

  lemma {:induction false} HasStampCons(rows: seq<Row>, t: int)
    requires rows != []
    ensures HasStamp(rows, t) <==> rows[0].ts == t || HasStamp(rows[1..], t)
  {
    if HasStamp(rows[1..], t) {
      var i :| 0 <= i < |rows[1..]| && rows[1..][i].ts == t;
      assert rows[i + 1].ts == t;
    }
    if HasStamp(rows, t) && rows[0].ts != t {
      var i :| 0 <= i < |rows| && rows[i].ts == t;
      assert rows[1..][i - 1].ts == t;
    }
  }

  lemma {:induction false} HasStampConcat(a: seq<Row>, b: seq<Row>, t: int)
    ensures HasStamp(a + b, t) <==> HasStamp(a, t) || HasStamp(b, t)
  {
    if HasStamp(a + b, t) {
      var i :| 0 <= i < |a + b| && (a + b)[i].ts == t;
      if i < |a| {
        assert a[i].ts == t;
      } else {
        assert b[i - |a|].ts == t;
      }
    }
    if HasStamp(a, t) {
      var i :| 0 <= i < |a| && a[i].ts == t;
      assert (a + b)[i].ts == t;
    }
    if HasStamp(b, t) {
      var i :| 0 <= i < |b| && b[i].ts == t;
      assert (a + b)[|a| + i].ts == t;
    }
  }

  lemma HasStampMember(rows: seq<Row>, r: Row)
    requires r in rows
    ensures HasStamp(rows, r.ts)
  {
    var i :| 0 <= i < |rows| && rows[i] == r;
  }

  /**
   * `df[~df.index.duplicated(keep="last")]`: of the rows sharing a timestamp only the last stays;
   * the survivors keep their order.
   */
  function KeepLast(rows: seq<Row>): (r: seq<Row>)
    ensures |r| <= |rows|
    ensures forall x :: x in r ==> x in rows
    ensures UniqueStamps(r)
    ensures forall t :: HasStamp(r, t) <==> HasStamp(rows, t)
    decreases |rows|
  {
    if rows == [] then []
    else
      var rest := KeepLast(rows[1..]);
      assert forall t :: HasStamp(rows, t) <==> rows[0].ts == t || HasStamp(rows[1..], t) by {
        forall t
          ensures HasStamp(rows, t) <==> rows[0].ts == t || HasStamp(rows[1..], t)
        {
          HasStampCons(rows, t);
        }
      }
      if HasStamp(rows[1..], rows[0].ts) then rest
      else
        assert forall i :: 0 <= i < |rest| ==> rest[i].ts != rows[0].ts by {
          forall i | 0 <= i < |rest|
            ensures rest[i].ts != rows[0].ts
          {
            if rest[i].ts == rows[0].ts {
              assert HasStamp(rest, rows[0].ts);
            }
          }
        }
        var r := [rows[0]] + rest;
        assert forall t :: HasStamp(r, t) <==> rows[0].ts == t || HasStamp(rest, t) by {
          forall t
            ensures HasStamp(r, t) <==> rows[0].ts == t || HasStamp(rest, t)
          {
            HasStampCons(r, t);
            assert r[1..] == rest;
          }
        }
        r
  }

  /** A row survives when no later row carries its timestamp: the newest write wins. */
  lemma {:induction false} KeepLastSurvivor(rows: seq<Row>, i: int)
    requires 0 <= i < |rows| && !HasStamp(rows[i + 1..], rows[i].ts)
    ensures rows[i] in KeepLast(rows)
    decreases |rows|
  {
    if i > 0 {
      assert rows[1..][i - 1] == rows[i];
      assert rows[1..][i..] == rows[i + 1..];
      KeepLastSurvivor(rows[1..], i - 1);
    } else {
      assert rows[1..] == rows[i + 1..];
    }
  }

  /** Every surviving row is the last occurrence of its timestamp. */
  lemma {:induction false} KeepLastOnlyLast(rows: seq<Row>, x: Row)
    requires x in KeepLast(rows)
    ensures exists i :: 0 <= i < |rows| && rows[i] == x && !HasStamp(rows[i + 1..], x.ts)
    decreases |rows|
  {
    if HasStamp(rows[1..], rows[0].ts) || x != rows[0] {
      assert x in KeepLast(rows[1..]);
      KeepLastOnlyLast(rows[1..], x);
      var i :| 0 <= i < |rows[1..]| && rows[1..][i] == x && !HasStamp(rows[1..][i + 1..], x.ts);
      assert rows[1..][i + 1..] == rows[i + 2..];
      assert rows[i + 1] == x;
    } else {
      assert rows[1..] == rows[0 + 1..];
    }
  }

  /** A batch whose timestamps are already unique is left as it is. */
  lemma {:induction false} KeepLastUnique(rows: seq<Row>)
    requires UniqueStamps(rows)
    ensures KeepLast(rows) == rows
    decreases |rows|
  {
    if rows != [] {
      assert UniqueStamps(rows[1..]);
      KeepLastUnique(rows[1..]);
      assert forall i :: 0 <= i < |rows[1..]| ==> rows[1..][i].ts != rows[0].ts by {
        forall i | 0 <= i < |rows[1..]|
          ensures rows[1..][i].ts != rows[0].ts
        {
          assert rows[1..][i] == rows[i + 1];
        }
      }
      assert rows == [rows[0]] + rows[1..];
    }
  }

  /** The rows whose timestamp does not occur in `batch`. */
  function Outside(batch: seq<Row>): Row -> bool {
    (r: Row) => !HasStamp(batch, r.ts)
  }

  lemma {:induction false} FilterOutsideStamp(a: seq<Row>, b: seq<Row>, t: int)
    requires HasStamp(a, t) && !HasStamp(b, t)
    ensures HasStamp(Filter(a, Outside(b)), t)
  {
    var i :| 0 <= i < |a| && a[i].ts == t;
    assert a[i] in a && Outside(b)(a[i]);
    HasStampMember(Filter(a, Outside(b)), a[i]);
  }

  lemma KeepLastCons(x: Row, rest: seq<Row>)
    ensures KeepLast([x] + rest) == if HasStamp(rest, x.ts) then KeepLast(rest) else [x] + KeepLast(rest)
  {
    assert ([x] + rest)[0] == x && ([x] + rest)[1..] == rest;
  }

  lemma ConsConcat<T>(x: T, a: seq<T>, b: seq<T>)
    ensures [x] + (a + b) == ([x] + a) + b
  {
  }

  lemma FilterCons<T>(x: T, rest: seq<T>, p: T -> bool)
    ensures Filter([x] + rest, p) == if p(x) then [x] + Filter(rest, p) else Filter(rest, p)
  {
    assert ([x] + rest)[0] == x && ([x] + rest)[1..] == rest;
  }

  lemma NoStampInFilter(a: seq<Row>, b: seq<Row>, t: int)
    requires !HasStamp(a, t)
    ensures !HasStamp(Filter(a, Outside(b)), t)
  {
    var fa := Filter(a, Outside(b));
    forall i | 0 <= i < |fa|
      ensures fa[i].ts != t
    {
      assert fa[i] in a;
      HasStampMember(a, fa[i]);
    }
  }

  /** The batch carries the first row's timestamp: the row is dropped on both sides. */
  lemma KeepLastConcatBatch(x: Row, a: seq<Row>, b: seq<Row>)
    requires HasStamp(b, x.ts)
    requires KeepLast(a + b) == KeepLast(Filter(a, Outside(b))) + KeepLast(b)
    ensures KeepLast([x] + a + b) == KeepLast(Filter([x] + a, Outside(b))) + KeepLast(b)
  {
    var ab := a + b;
    assert [x] + a + b == [x] + ab;
    HasStampConcat(a, b, x.ts);
    assert HasStamp(ab, x.ts);
    KeepLastCons(x, ab);
    assert !Outside(b)(x);
    FilterCons(x, a, Outside(b));
  }

  /** A later existing row carries the first row's timestamp: the row is dropped on both sides. */
  lemma KeepLastConcatLater(x: Row, a: seq<Row>, b: seq<Row>)
    requires !HasStamp(b, x.ts) && HasStamp(a, x.ts)
    requires KeepLast(a + b) == KeepLast(Filter(a, Outside(b))) + KeepLast(b)
    ensures KeepLast([x] + a + b) == KeepLast(Filter([x] + a, Outside(b))) + KeepLast(b)
  {
    var fa := Filter(a, Outside(b));
    assert [x] + a + b == [x] + (a + b);
    HasStampConcat(a, b, x.ts);
    KeepLastCons(x, a + b);
    assert KeepLast([x] + a + b) == KeepLast(a + b);
    assert Outside(b)(x);
    FilterCons(x, a, Outside(b));
    assert Filter([x] + a, Outside(b)) == [x] + fa;
    FilterOutsideStamp(a, b, x.ts);
    KeepLastCons(x, fa);
    assert KeepLast([x] + fa) == KeepLast(fa);
  }

  /** No other row carries the first row's timestamp: it stays in front on both sides. */
  lemma KeepLastConcatFresh(x: Row, a: seq<Row>, b: seq<Row>)
    requires !HasStamp(b, x.ts) && !HasStamp(a, x.ts)
    requires KeepLast(a + b) == KeepLast(Filter(a, Outside(b))) + KeepLast(b)
    ensures KeepLast([x] + a + b) == KeepLast(Filter([x] + a, Outside(b))) + KeepLast(b)
  {
    var fa := Filter(a, Outside(b));
    var kb := KeepLast(b);
    var kfa := KeepLast(fa);
    HasStampConcat(a, b, x.ts);
    NoStampInFilter(a, b, x.ts);
    assert [x] + a + b == [x] + (a + b);
    KeepLastCons(x, a + b);
    KeepLastCons(x, fa);
    assert Outside(b)(x);
    FilterCons(x, a, Outside(b));
    ConsConcat(x, kfa, kb);
  }

  /**
   * Merging a batch into existing rows keeps the existing rows whose timestamps the batch does not
   * carry, followed by the batch itself, each with its own duplicates resolved to the last one.
   */
  lemma {:induction false} KeepLastConcat(a: seq<Row>, b: seq<Row>)
    ensures KeepLast(a + b) == KeepLast(Filter(a, Outside(b))) + KeepLast(b)
    decreases |a|
  {
    if a == [] {
      assert a + b == b;
    } else {
      var x := a[0];
      assert a == [x] + a[1..];
      KeepLastConcat(a[1..], b);
      if HasStamp(b, x.ts) {
        KeepLastConcatBatch(x, a[1..], b);
      } else if HasStamp(a[1..], x.ts) {
        KeepLastConcatLater(x, a[1..], b);
      } else {
        KeepLastConcatFresh(x, a[1..], b);
      }
    }
  }

  lemma {:induction false} FilterKeepsAll<T>(s: seq<T>, p: T -> bool)
    requires forall x :: x in s ==> p(x)
    ensures Filter(s, p) == s
  {
    if s != [] {
      FilterKeepsAll(s[1..], p);
      assert s == [s[0]] + s[1..];
    }
  }

  lemma {:induction false} FilterDropsAll<T>(s: seq<T>, p: T -> bool)
    requires forall x :: x in s ==> !p(x)
    ensures Filter(s, p) == []
  {
    if s != [] {
      FilterDropsAll(s[1..], p);
    }
  }

  /** Merging the same batch a second time into a merged partition changes nothing. */
  lemma MergeTwice(existing: seq<Row>, batch: seq<Row>)
    ensures KeepLast(KeepLast(existing + batch) + batch) == KeepLast(existing + batch)
  {
    var a := KeepLast(Filter(existing, Outside(batch)));
    var b := KeepLast(batch);
    KeepLastConcat(existing, batch);
    var merged := KeepLast(existing + batch);
    assert merged == a + b;
    KeepLastConcat(merged, batch);
    FilterConcat(a, b, Outside(batch));
    FilterKeepsAll(a, Outside(batch));
    forall x | x in b
      ensures !Outside(batch)(x)
    {
      HasStampMember(b, x);
    }
    FilterDropsAll(b, Outside(batch));
    assert Filter(merged, Outside(batch)) == a;
    KeepLastUnique(a);
  }

  /** Merging a batch into a copy of itself keeps only the last row per timestamp. */
  lemma MergeIntoItself(batch: seq<Row>)
    ensures KeepLast(batch + batch) == KeepLast(batch)
  {
    KeepLastConcat(batch, batch);
    forall x | x in batch
      ensures !Outside(batch)(x)
    {
      HasStampMember(batch, x);
    }
    FilterDropsAll(batch, Outside(batch));
  }

  // ---------------------------------------------------------------------------------------------
  // Grouping by day

  /** The length of the leading run of rows that fall on `day`. */
  function DayRun(rows: seq<Row>, day: int): (n: nat)
    ensures n <= |rows|
    ensures forall i :: 0 <= i < n ==> Day(rows[i].ts) == day
    ensures n < |rows| ==> Day(rows[n].ts) != day
  {
    if rows == [] || Day(rows[0].ts) != day then 0 else 1 + DayRun(rows[1..], day)
  }

  function Flatten(gs: seq<seq<Row>>): seq<Row> {
    if gs == [] then [] else gs[0] + Flatten(gs[1..])
  }

  /** A group per calendar day, in the order the days first appear (`groupby(index.floor("d"))` on sorted rows). */
  function DayGroups(rows: seq<Row>): (gs: seq<seq<Row>>)
    ensures Flatten(gs) == rows
    ensures forall i :: 0 <= i < |gs| ==> gs[i] != [] && forall r :: r in gs[i] ==> Day(r.ts) == Day(gs[i][0].ts)
    decreases |rows|
  {
    if rows == [] then []
    else
      var n := DayRun(rows, Day(rows[0].ts));
      var rest := DayGroups(rows[n..]);
      assert rows == rows[..n] + rows[n..];
      assert forall r :: r in rows[..n] ==> Day(r.ts) == Day(rows[0].ts);
      var gs := [rows[..n]] + rest;
      assert forall i :: 0 < i < |gs| ==> gs[i] == rest[i - 1];
      gs
  }

  /** Each group falls on a later day than the groups before it. */
  predicate DaysAscending(gs: seq<seq<Row>>) {
    forall i, j :: 0 <= i < j < |gs| && gs[i] != [] && gs[j] != [] ==> Day(gs[i][0].ts) < Day(gs[j][0].ts)
  }

  lemma ConsAscending(g: seq<Row>, rest: seq<seq<Row>>)
    requires g != [] && DaysAscending(rest)
    requires forall k :: 0 <= k < |rest| && rest[k] != [] ==> Day(g[0].ts) < Day(rest[k][0].ts)
    ensures DaysAscending([g] + rest)
  {
    var gs: seq<seq<Row>> := [g] + rest;
    forall i, j | 0 <= i < j < |gs| && gs[i] != [] && gs[j] != []
      ensures Day(gs[i][0].ts) < Day(gs[j][0].ts)
    {
      assert gs[j] == rest[j - 1];
      if i > 0 {
        assert gs[i] == rest[i - 1];
      }
    }
  }

  /** On rows sorted by timestamp every day forms exactly one group, the groups in ascending day order. */
  lemma {:induction false} DayGroupsOrdered(rows: seq<Row>)
    requires SortedBy(rows, Ts)
    ensures DaysAscending(DayGroups(rows))
    decreases |rows|
  {
    if rows != [] {
      var n := DayRun(rows, Day(rows[0].ts));
      var rest: seq<seq<Row>> := DayGroups(rows[n..]);
      assert SortedBy(rows[n..], Ts);
      DayGroupsOrdered(rows[n..]);
      forall k | 0 <= k < |rest| && rest[k] != []
        ensures Day(rows[..n][0].ts) < Day(rest[k][0].ts)
      {
        assert rest[k] in rest;
        FlattenMember(rest, rest[k], rest[k][0]);
        LaterRunsLaterDays(rows, n, rest[k][0]);
      }
      ConsAscending(rows[..n], rest);
    }
  }

  /** In sorted rows, everything after the first day's run falls on a later day. */
  lemma LaterRunsLaterDays(rows: seq<Row>, n: int, x: Row)
    requires SortedBy(rows, Ts) && rows != [] && n == DayRun(rows, Day(rows[0].ts))
    requires x in rows[n..]
    ensures Day(rows[0].ts) < Day(x.ts)
  {
    var k :| 0 <= k < |rows[n..]| && rows[n..][k] == x;
    assert rows[n + k] == x;
    assert Ts(rows[0]) <= Ts(rows[n]) <= Ts(rows[n + k]);
    DayMonotone(rows[0].ts, rows[n].ts);
    DayMonotone(rows[n].ts, x.ts);
  }

  lemma {:induction false} FlattenMember(gs: seq<seq<Row>>, g: seq<Row>, r: Row)
    requires g in gs && r in g
    ensures r in Flatten(gs)
  {
    if gs[0] != g {
      FlattenMember(gs[1..], g, r);
    }
  }

  // ---------------------------------------------------------------------------------------------
  // Grouping by train

  function OfTrain(t: TrainId): Row -> bool {
    (r: Row) => r.train == Some(t)
  }

  function NotOfTrain(t: TrainId): Row -> bool {
    (r: Row) => r.train != Some(t)
  }

  /**
   * `groupby("train_id")`: one group per train value present, rows without a train value dropped.
   * Groups come in order of first appearance (pandas sorts the keys; see the model's notes).
   */
  function TrainGroups(rows: seq<Row>): (gs: seq<(TrainId, seq<Row>)>)
    ensures GroupsOf(rows, gs)
    decreases |rows|
  {
    if rows == [] then []
    else if rows[0].train.None? then
      var gs := TrainGroups(rows[1..]);
      GroupsSkip(rows, gs);
      gs
    else
      var t := rows[0].train.value;
      var rest := TrainGroups(Filter(rows[1..], NotOfTrain(t)));
      GroupsCons(rows, t, rest);
      [(t, Filter(rows, OfTrain(t)))] + rest
  }

  /**
   * `gs` groups `rows` by train: every group is non-empty and holds exactly the rows of `rows` of its own
   * train, in their order and as often as they occur; every row with a train value is in its train's group,
   * and no train has two groups.
   */
  predicate GroupsOf(rows: seq<Row>, gs: seq<(TrainId, seq<Row>)>) {
    (forall i :: 0 <= i < |gs| ==> gs[i].1 != [] && forall r :: r in gs[i].1 ==> r in rows && r.train == Some(gs[i].0)) &&
    (forall i :: 0 <= i < |gs| ==> gs[i].1 == Filter(rows, OfTrain(gs[i].0))) &&
    (forall r :: r in rows && r.train.Some? ==> exists i :: 0 <= i < |gs| && gs[i].0 == r.train.value && r in gs[i].1) &&
    (forall i, j :: 0 <= i < j < |gs| ==> gs[i].0 != gs[j].0)
  }

  /** A first row without a train value belongs to no group. */
  lemma GroupsSkip(rows: seq<Row>, gs: seq<(TrainId, seq<Row>)>)
    requires rows != [] && rows[0].train.None? && GroupsOf(rows[1..], gs)
    ensures GroupsOf(rows, gs)
  {
    assert forall r :: r in rows && r.train.Some? ==> r in rows[1..];
    forall i | 0 <= i < |gs|
      ensures gs[i].1 == Filter(rows, OfTrain(gs[i].0))
    {
      assert !OfTrain(gs[i].0)(rows[0]);
    }
  }

  /** Dropping the rows of train `t` leaves the rows of any other train as they were. */
  lemma {:induction false} FilterOtherTrain(s: seq<Row>, t: TrainId, u: TrainId)
    requires u != t
    ensures Filter(Filter(s, NotOfTrain(t)), OfTrain(u)) == Filter(s, OfTrain(u))
    decreases |s|
  {
    if s != [] {
      FilterOtherTrain(s[1..], t, u);
      var rest := Filter(s[1..], NotOfTrain(t));
      if NotOfTrain(t)(s[0]) {
        assert Filter(s, NotOfTrain(t)) == [s[0]] + rest;
        assert ([s[0]] + rest)[1..] == rest;
      } else {
        assert !OfTrain(u)(s[0]);
      }
    }
  }

  /** The first row's train gets the group of all its rows, in front of the groups of the other rows. */
  lemma GroupsCons(rows: seq<Row>, t: TrainId, rest: seq<(TrainId, seq<Row>)>)
    requires rows != [] && rows[0].train == Some(t)
    requires GroupsOf(Filter(rows[1..], NotOfTrain(t)), rest)
    ensures GroupsOf(rows, [(t, Filter(rows, OfTrain(t)))] + rest)
  {
    var gs := [(t, Filter(rows, OfTrain(t)))] + rest;
    GroupsConsMembers(rows, t, rest, gs);
    forall k | 0 <= k < |rest|
      ensures rest[k].0 != t
    {
      FirstOfGroup(rows, t, rest, k);
    }
    GroupsConsExact(rows, t, rest, gs);
    GroupsConsCover(rows, t, rest, gs);
    GroupsConsDistinct(rows, t, rest, gs);
  }

  /** Every group holds exactly its train's rows. */
  lemma GroupsConsExact(rows: seq<Row>, t: TrainId, rest: seq<(TrainId, seq<Row>)>, gs: seq<(TrainId, seq<Row>)>)
    requires rows != [] && rows[0].train == Some(t)
    requires forall k :: 0 <= k < |rest| ==> rest[k].0 != t && rest[k].1 == Filter(Filter(rows[1..], NotOfTrain(t)), OfTrain(rest[k].0))
    requires gs == [(t, Filter(rows, OfTrain(t)))] + rest
    ensures forall i :: 0 <= i < |gs| ==> gs[i].1 == Filter(rows, OfTrain(gs[i].0))
  {
    var others := Filter(rows[1..], NotOfTrain(t));
    forall i | 0 <= i < |gs|
      ensures gs[i].1 == Filter(rows, OfTrain(gs[i].0))
    {
      if i > 0 {
        var g := rest[i - 1];
        assert gs[i] == g;
        assert g.1 == Filter(others, OfTrain(g.0));
        assert g.0 != t;
        OtherGroupExact(rows, t, g.0);
      }
    }
  }

  /** The rows of another train are the same among the rows without train `t`. */
  lemma OtherGroupExact(rows: seq<Row>, t: TrainId, u: TrainId)
    requires rows != [] && rows[0].train == Some(t) && u != t
    ensures Filter(Filter(rows[1..], NotOfTrain(t)), OfTrain(u)) == Filter(rows, OfTrain(u))
  {
    FilterOtherTrain(rows[1..], t, u);
    assert !OfTrain(u)(rows[0]);
  }

  /** Every group is non-empty and holds rows of its own train. */
  lemma {:induction false} GroupsConsMembers(rows: seq<Row>, t: TrainId, rest: seq<(TrainId, seq<Row>)>, gs: seq<(TrainId, seq<Row>)>)
    requires rows != [] && rows[0].train == Some(t)
    requires GroupsOf(Filter(rows[1..], NotOfTrain(t)), rest)
    requires gs == [(t, Filter(rows, OfTrain(t)))] + rest
    ensures forall i :: 0 <= i < |gs| ==> gs[i].1 != [] && forall r :: r in gs[i].1 ==> r in rows && r.train == Some(gs[i].0)
  {
    assert rows[0] in gs[0].1;
    forall i | 0 <= i < |gs|
      ensures gs[i].1 != [] && forall r :: r in gs[i].1 ==> r in rows && r.train == Some(gs[i].0)
    {
      if i > 0 {
        assert gs[i] == rest[i - 1];
      }
    }
  }

  /** Every row with a train value is in its train's group. */
  lemma {:induction false} GroupsConsCover(rows: seq<Row>, t: TrainId, rest: seq<(TrainId, seq<Row>)>, gs: seq<(TrainId, seq<Row>)>)
    requires rows != [] && rows[0].train == Some(t)
    requires GroupsOf(Filter(rows[1..], NotOfTrain(t)), rest)
    requires gs == [(t, Filter(rows, OfTrain(t)))] + rest
    ensures forall r :: r in rows && r.train.Some? ==> exists i :: 0 <= i < |gs| && gs[i].0 == r.train.value && r in gs[i].1
  {
    forall r | r in rows && r.train.Some?
      ensures exists i :: 0 <= i < |gs| && gs[i].0 == r.train.value && r in gs[i].1
    {
      if r.train.value == t {
        assert OfTrain(t)(r);
        assert gs[0].0 == r.train.value && r in gs[0].1;
      } else {
        var i := OtherGroup(rows, t, rest, r);
        assert gs[i + 1] == rest[i];
      }
    }
  }

  /** The groups of the other rows are of other trains. */
  lemma FirstOfGroup(rows: seq<Row>, t: TrainId, rest: seq<(TrainId, seq<Row>)>, k: int)
    requires rows != [] && rows[0].train == Some(t)
    requires GroupsOf(Filter(rows[1..], NotOfTrain(t)), rest)
    requires 0 <= k < |rest|
    ensures rest[k].0 != t
  {
    var r := rest[k].1[0];
    assert r in rest[k].1;
    assert r in Filter(rows[1..], NotOfTrain(t));
  }

  /** A row of another train is in that train's group among the groups of the other rows. */
  lemma OtherGroup(rows: seq<Row>, t: TrainId, rest: seq<(TrainId, seq<Row>)>, r: Row) returns (i: int)
    requires rows != [] && rows[0].train == Some(t)
    requires GroupsOf(Filter(rows[1..], NotOfTrain(t)), rest)
    requires r in rows && r.train.Some? && r.train.value != t
    ensures 0 <= i < |rest| && rest[i].0 == r.train.value && r in rest[i].1
  {
    assert r in rows[1..] && NotOfTrain(t)(r);
    assert r in Filter(rows[1..], NotOfTrain(t));
    i :| 0 <= i < |rest| && rest[i].0 == r.train.value && r in rest[i].1;
  }

  /** No train has two groups. */
  lemma {:induction false} GroupsConsDistinct(rows: seq<Row>, t: TrainId, rest: seq<(TrainId, seq<Row>)>, gs: seq<(TrainId, seq<Row>)>)
    requires rows != [] && rows[0].train == Some(t)
    requires GroupsOf(Filter(rows[1..], NotOfTrain(t)), rest)
    requires gs == [(t, Filter(rows, OfTrain(t)))] + rest
    ensures forall i, j :: 0 <= i < j < |gs| ==> gs[i].0 != gs[j].0
  {
    forall i, j | 0 <= i < j < |gs|
      ensures gs[i].0 != gs[j].0
    {
      assert gs[j] == rest[j - 1];
      if i > 0 {
        assert gs[i] == rest[i - 1];
      } else {
        FirstOfGroup(rows, t, rest, j - 1);
      }
    }
  }
}
