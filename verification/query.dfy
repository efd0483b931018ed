/** The two pieces of SQL the services lean on beyond plain filtering:
    ORDER BY (a sort on a composite key with a direction per column) and
    GROUP BY with COUNT(*) / COALESCE(SUM(...), 0) per group, ordered by the group key. */
module Query {
  import opened Wrappers
  import opened Text

  /** A column value as ORDER BY and GROUP BY see it. */
  datatype Datum = Num(n: int) | Str(s: string) | Null

  /** A nullable text column. */
  function OptStr(v: Option<string>): Datum {
    if v.Some? then Str(v.value) else Null
  }

  /** A nullable numeric column. */
  function OptNum(v: Option<int>): Datum {
    if v.Some? then Num(v.value) else Null
  }

  /** A boolean column, stored as 0 or 1. */
  function Flag(b: bool): Datum {
    Num(if b then 1 else 0)
  }

  /** The query builder sorts descending for `desc` in any letter case and ascending for
      anything else, including an absent or empty direction. */
  predicate Descending(order: Option<string>) {
    Given(order) && LowerStr(order.value) == "desc"
  }

  /** The order of values in one column. NULL is the greatest value, as in PostgreSQL
      (NULLS LAST when ascending, NULLS FIRST when descending); SQLite would put it first. A column holds either
      numbers or text, so the Num/Str case only makes the order total. */
  predicate DatumLeq(a: Datum, b: Datum) {
    match (a, b)
    case (_, Null) => true
    case (Null, _) => false
    case (Num(x), Num(y)) => x <= y
    case (Num(_), Str(_)) => true
    case (Str(_), Num(_)) => false
    case (Str(x), Str(y)) => StrLeq(x, y)
  }

  lemma DatumLeqReflexive(a: Datum)
    ensures DatumLeq(a, a)
  {
    if a.Str? {
      StrLeqReflexive(a.s);
    }
  }

  lemma DatumLeqTotal(a: Datum, b: Datum)
    ensures DatumLeq(a, b) || DatumLeq(b, a)
  {
    if a.Str? && b.Str? {
      StrLeqTotal(a.s, b.s);
    }
  }

  lemma DatumLeqAntisymmetric(a: Datum, b: Datum)
    requires DatumLeq(a, b) && DatumLeq(b, a)
    ensures a == b
  {
    if a.Str? && b.Str? {
      StrLeqAntisymmetric(a.s, b.s);
    }
  }

  lemma DatumLeqTransitive(a: Datum, b: Datum, c: Datum)
    requires DatumLeq(a, b) && DatumLeq(b, c)
    ensures DatumLeq(a, c)
  {
    if a.Str? && b.Str? && c.Str? {
      StrLeqTransitive(a.s, b.s, c.s);
    }
  }

  /** One ORDER BY term: a column value and its direction. */
  datatype KeyPart = Asc(d: Datum) | Desc(d: Datum)

  /** A whole ORDER BY clause, most significant term first. */
  type Key = seq<KeyPart>

  predicate PartLeq(p: KeyPart, q: KeyPart) {
    match (p, q)
    case (Asc(x), Asc(y)) => DatumLeq(x, y)
    case (Desc(x), Desc(y)) => DatumLeq(y, x)
    case (Asc(_), Desc(_)) => true
    case (Desc(_), Asc(_)) => false
  }

  /** Lexicographic order on keys: the first term that differs decides. */
  predicate KeyLeq(a: Key, b: Key) {
    |a| == 0 || (|b| > 0 && (if a[0] == b[0] then KeyLeq(a[1..], b[1..]) else PartLeq(a[0], b[0])))
  }

  lemma PartLeqTotal(p: KeyPart, q: KeyPart)
    ensures PartLeq(p, q) || PartLeq(q, p)
  {
    DatumLeqTotal(p.d, q.d);
  }

  lemma PartLeqAntisymmetric(p: KeyPart, q: KeyPart)
    requires PartLeq(p, q) && PartLeq(q, p)
    ensures p == q
  {
    if p.Asc? == q.Asc? {
      DatumLeqAntisymmetric(p.d, q.d);
    }
  }

  lemma PartLeqTransitive(p: KeyPart, q: KeyPart, r: KeyPart)
    requires PartLeq(p, q) && PartLeq(q, r)
    ensures PartLeq(p, r)
  {
    if p.Asc? == q.Asc? && q.Asc? == r.Asc? {
      if p.Asc? {
        DatumLeqTransitive(p.d, q.d, r.d);
      } else {
        DatumLeqTransitive(r.d, q.d, p.d);
      }
    }
  }

  lemma {:induction false} KeyLeqReflexive(a: Key)
    ensures KeyLeq(a, a)
  {
    if |a| > 0 {
      KeyLeqReflexive(a[1..]);
    }
  }

  lemma {:induction false} KeyLeqTotal(a: Key, b: Key)
    ensures KeyLeq(a, b) || KeyLeq(b, a)
  {
    if |a| > 0 && |b| > 0 {
      if a[0] == b[0] {
        KeyLeqTotal(a[1..], b[1..]);
      } else {
        PartLeqTotal(a[0], b[0]);
      }
    }
  }

  lemma {:induction false} KeyLeqTransitive(a: Key, b: Key, c: Key)
    requires KeyLeq(a, b) && KeyLeq(b, c)
    ensures KeyLeq(a, c)
  {
    if |a| > 0 {
      assert |b| > 0 && |c| > 0;
      if a[0] == b[0] && b[0] == c[0] {
        KeyLeqTransitive(a[1..], b[1..], c[1..]);
      } else if a[0] == b[0] {
        assert PartLeq(b[0], c[0]);
      } else if b[0] == c[0] {
        assert PartLeq(a[0], b[0]);
      } else {
        PartLeqTransitive(a[0], b[0], c[0]);
        if a[0] == c[0] {
          PartLeqAntisymmetric(a[0], b[0]);
        }
      }
    }
  }

  /** The first terms of two ordered keys are ordered. */
  lemma KeyLeqHead(a: Key, b: Key)
    requires |a| > 0 && |b| > 0 && KeyLeq(a, b)
    ensures PartLeq(a[0], b[0])
  {
    if a[0] == b[0] {
      DatumLeqReflexive(a[0].d);
    }
  }

  /** Every pair of rows appears in key order. */
  ghost predicate SortedBy<T>(s: seq<T>, key: T -> Key) {
    forall i, j :: 0 <= i < j < |s| ==> KeyLeq(key(s[i]), key(s[j]))
  }

  /** Places `x` before the first row whose key is not smaller. */
  function Insert<T>(x: T, s: seq<T>, key: T -> Key): (r: seq<T>)
    requires SortedBy(s, key)
    ensures multiset(r) == multiset(s) + multiset{x}
    ensures SortedBy(r, key)
  {
    if |s| == 0 then [x]
    else if KeyLeq(key(x), key(s[0])) then
      var r := [x] + s;
      assert SortedBy(r, key) by {
        forall i, j | 0 <= i < j < |r|
          ensures KeyLeq(key(r[i]), key(r[j]))
        {
          if i == 0 && j > 1 {
            KeyLeqTransitive(key(x), key(s[0]), key(s[j - 1]));
          }
        }
      }
      assert s == [s[0]] + s[1..];
      [x] + s
    else
      KeyLeqTotal(key(x), key(s[0]));
      assert s == [s[0]] + s[1..];
      var rest := Insert(x, s[1..], key);
      assert SortedBy([s[0]] + rest, key) by {
        forall j | 0 <= j < |rest|
          ensures KeyLeq(key(s[0]), key(rest[j]))
        {
          assert rest[j] in multiset(rest);
          if rest[j] != x {
            assert rest[j] in s[1..];
          }
        }
      }
      [s[0]] + rest
  }

  /** ORDER BY: the rows rearranged into key order (an insertion sort). */
  function SortBy<T>(s: seq<T>, key: T -> Key): (r: seq<T>)
    ensures multiset(r) == multiset(s)
    ensures |r| == |s|
    ensures SortedBy(r, key)
  {
    if |s| == 0 then []
    else
      assert s == [s[0]] + s[1..];
      Insert(s[0], SortBy(s[1..], key), key)
  }

  // ---------------------------------------------------------------------------
  // GROUP BY

  /** One output row of `GROUP BY k` with `COUNT(*)` and `COALESCE(SUM(v), 0)`. */
  datatype Group = Group(key: Datum, count: nat, total: int)

  /** Group keys are strictly increasing: each key once, in ORDER BY k order. */
  ghost predicate StrictlyOrdered(g: seq<Group>) {
    forall i, j :: 0 <= i < j < |g| ==> g[i].key != g[j].key && DatumLeq(g[i].key, g[j].key)
  }

  /** Rows whose key is `k`. */
  function CountKey<T>(rows: seq<T>, key: T -> Datum, k: Datum): nat {
    if |rows| == 0 then 0
    else CountKey(rows[..|rows| - 1], key, k) + (if key(rows[|rows| - 1]) == k then 1 else 0)
  }

  /** Sum of the values of the rows whose key is `k`. */
  function SumKey<T>(rows: seq<T>, key: T -> Datum, value: T -> int, k: Datum): int {
    if |rows| == 0 then 0
    else SumKey(rows[..|rows| - 1], key, value, k) + (if key(rows[|rows| - 1]) == k then value(rows[|rows| - 1]) else 0)
  }

  function SumValues<T>(rows: seq<T>, value: T -> int): int {
    if |rows| == 0 then 0 else SumValues(rows[..|rows| - 1], value) + value(rows[|rows| - 1])
  }

  /** The count the groups record for key `k` (0 when there is no such group). */
  function CountOf(g: seq<Group>, k: Datum): nat {
    if |g| == 0 then 0 else (if g[0].key == k then g[0].count else 0) + CountOf(g[1..], k)
  }

  function TotalOf(g: seq<Group>, k: Datum): int {
    if |g| == 0 then 0 else (if g[0].key == k then g[0].total else 0) + TotalOf(g[1..], k)
  }

  function SumCounts(g: seq<Group>): nat {
    if |g| == 0 then 0 else g[0].count + SumCounts(g[1..])
  }

  function SumTotals(g: seq<Group>): int {
    if |g| == 0 then 0 else g[0].total + SumTotals(g[1..])
  }

  /** `r` is `g` with one more row of key `k` and value `v`: still ordered, one more in the
      count and `v` more in the total of key `k` and of the whole, no empty group made, and no
      key that was neither `k` nor already a group. */
  ghost predicate Tallied(g: seq<Group>, r: seq<Group>, k: Datum, v: int) {
    && StrictlyOrdered(r)
    && (forall k' :: CountOf(r, k') == CountOf(g, k') + (if k' == k then 1 else 0))
    && (forall k' :: TotalOf(r, k') == TotalOf(g, k') + (if k' == k then v else 0))
    && SumCounts(r) == SumCounts(g) + 1
    && SumTotals(r) == SumTotals(g) + v
    && ((forall i :: 0 <= i < |g| ==> g[i].count > 0) ==> forall i :: 0 <= i < |r| ==> r[i].count > 0)
    && (forall i :: 0 <= i < |r| ==> r[i].key == k || exists j :: 0 <= j < |g| && g[j].key == r[i].key)
  }

  /** The row joins the first group, which has its key. */
  lemma TallyIntoHead(g: seq<Group>, k: Datum, v: int)
    requires StrictlyOrdered(g) && |g| > 0 && g[0].key == k
    ensures Tallied(g, [g[0].(count := g[0].count + 1, total := g[0].total + v)] + g[1..], k, v)
  {
    var r := [g[0].(count := g[0].count + 1, total := g[0].total + v)] + g[1..];
    assert r[1..] == g[1..];
    forall i | 0 <= i < |r| ensures r[i].key == g[i].key {
    }
  }

  /** The row opens a new group in front of the first one, whose key is greater. */
  lemma TallyBeforeHead(g: seq<Group>, k: Datum, v: int)
    requires StrictlyOrdered(g) && |g| > 0 && g[0].key != k && DatumLeq(k, g[0].key)
    ensures Tallied(g, [Group(k, 1, v)] + g, k, v)
  {
    var r := [Group(k, 1, v)] + g;
    assert r[1..] == g;
    forall j | 0 <= j < |g|
      ensures k != g[j].key && DatumLeq(k, g[j].key)
    {
      if j > 0 {
        DatumLeqTransitive(k, g[0].key, g[j].key);
        if k == g[j].key {
          DatumLeqAntisymmetric(k, g[0].key);
        }
      }
    }
    assert StrictlyOrdered(r) by {
      forall i, j | 0 <= i < j < |r| ensures r[i].key != r[j].key && DatumLeq(r[i].key, r[j].key) {
        if i > 0 {
          assert r[i] == g[i - 1] && r[j] == g[j - 1];
        } else {
          assert r[j] == g[j - 1];
        }
      }
    }
    forall i | 0 <= i < |r| && r[i].key != k ensures exists j :: 0 <= j < |g| && g[j].key == r[i].key {
      assert r[i] == g[i - 1];
    }
  }

  /** The row goes after the first group, whose key is smaller. */
  lemma TallyAfterHead(g: seq<Group>, rest: seq<Group>, k: Datum, v: int)
    requires StrictlyOrdered(g) && |g| > 0 && g[0].key != k && DatumLeq(g[0].key, k)
    requires Tallied(g[1..], rest, k, v)
    ensures Tallied(g, [g[0]] + rest, k, v)
  {
    var r := [g[0]] + rest;
    assert r[1..] == rest;
    forall k' ensures CountOf(r, k') == CountOf(g, k') + (if k' == k then 1 else 0)
      && TotalOf(r, k') == TotalOf(g, k') + (if k' == k then v else 0)
    {
      assert CountOf(r, k') == (if g[0].key == k' then g[0].count else 0) + CountOf(rest, k');
      assert TotalOf(r, k') == (if g[0].key == k' then g[0].total else 0) + TotalOf(rest, k');
    }
    assert SumCounts(r) == g[0].count + SumCounts(rest);
    assert SumTotals(r) == g[0].total + SumTotals(rest);
    forall j | 0 <= j < |rest|
      ensures g[0].key != rest[j].key && DatumLeq(g[0].key, rest[j].key)
    {
      if rest[j].key != k {
        var m :| 0 <= m < |g[1..]| && g[1..][m].key == rest[j].key;
        assert g[m + 1].key == rest[j].key;
      }
    }
    assert StrictlyOrdered(r) by {
      forall i, j | 0 <= i < j < |r| ensures r[i].key != r[j].key && DatumLeq(r[i].key, r[j].key) {
        if i > 0 {
          assert r[i] == rest[i - 1] && r[j] == rest[j - 1];
        } else {
          assert r[j] == rest[j - 1];
        }
      }
    }
    forall i | 0 <= i < |r| && r[i].key != k ensures exists j :: 0 <= j < |g| && g[j].key == r[i].key {
      if i > 0 {
        var m :| 0 <= m < |g[1..]| && g[1..][m].key == rest[i - 1].key;
        assert g[m + 1].key == r[i].key;
      } else {
        assert g[0].key == r[i].key;
      }
    }
  }

  /** Adds one row with key `k` and value `v` to ordered groups. */
  function Tally(g: seq<Group>, k: Datum, v: int): (r: seq<Group>)
    requires StrictlyOrdered(g)
    ensures StrictlyOrdered(r)
    ensures forall k' :: CountOf(r, k') == CountOf(g, k') + (if k' == k then 1 else 0)
    ensures forall k' :: TotalOf(r, k') == TotalOf(g, k') + (if k' == k then v else 0)
    ensures SumCounts(r) == SumCounts(g) + 1
    ensures SumTotals(r) == SumTotals(g) + v
    ensures (forall i :: 0 <= i < |g| ==> g[i].count > 0) ==> forall i :: 0 <= i < |r| ==> r[i].count > 0
    ensures forall i :: 0 <= i < |r| ==> r[i].key == k || exists j :: 0 <= j < |g| && g[j].key == r[i].key
  {
    var r := (
      if |g| == 0 then
        assert [Group(k, 1, v)][1..] == [];
        [Group(k, 1, v)]
      else if g[0].key == k then
        TallyIntoHead(g, k, v);
        [g[0].(count := g[0].count + 1, total := g[0].total + v)] + g[1..]
      else if DatumLeq(k, g[0].key) then
        TallyBeforeHead(g, k, v);
        [Group(k, 1, v)] + g
      else
        DatumLeqTotal(k, g[0].key);
        var rest := Tally(g[1..], k, v);
        TallyAfterHead(g, rest, k, v);
        [g[0]] + rest);
    assert Tallied(g, r, k, v);
    r
  }

  /** GROUP BY `key` ORDER BY `key`, with COUNT(*) and the sum of `value` per group. */
  function GroupBy<T>(rows: seq<T>, key: T -> Datum, value: T -> int): (r: seq<Group>)
    ensures StrictlyOrdered(r)
    ensures forall k :: CountOf(r, k) == CountKey(rows, key, k)
    ensures forall k :: TotalOf(r, k) == SumKey(rows, key, value, k)
    ensures forall i :: 0 <= i < |r| ==> r[i].count > 0
    ensures SumCounts(r) == |rows|
    ensures SumTotals(r) == SumValues(rows, value)
  {
    if |rows| == 0 then []
    else
      var last := rows[|rows| - 1];
      Tally(GroupBy(rows[..|rows| - 1], key, value), key(last), value(last))
  }
}
