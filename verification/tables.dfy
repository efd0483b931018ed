/** Generic operations on a table, modelled as the sequence of its rows.
    Each table's rows carry a primary key (`idOf`), distinct across the table. */
module Tables {
  import opened Wrappers

  /** A primary key or foreign key value; also used for user ids. */
  type Id = string

  /** WHERE p: the rows that satisfy `p`, in table order, each as often as in the table. */
  function Filter<T(!new)>(s: seq<T>, p: T -> bool): (r: seq<T>)
    ensures |r| <= |s|
    ensures forall x :: x in r <==> x in s && p(x)
    ensures forall x :: multiset(r)[x] == if p(x) then multiset(s)[x] else 0
  {
    if |s| == 0 then []
    else
      assert s == [s[0]] + s[1..];
      if p(s[0]) then [s[0]] + Filter(s[1..], p) else Filter(s[1..], p)
  }

  /** COUNT(*) ... WHERE p. */
  function Count<T(!new)>(s: seq<T>, p: T -> bool): (n: nat)
    ensures n <= |s|
  {
    |Filter(s, p)|
  }

  /** Rows matching `p` and rows not matching it partition the table. */
  lemma {:induction false} CountPartition<T(!new)>(s: seq<T>, p: T -> bool, q: T -> bool)
    requires forall x :: q(x) == !p(x)
    ensures Count(s, p) + Count(s, q) == |s|
  {
    if |s| > 0 {
      CountPartition(s[1..], p, q);
    }
  }

  /** A stricter condition never counts more rows. */
  lemma {:induction false} CountMonotonic<T(!new)>(s: seq<T>, p: T -> bool, q: T -> bool)
    requires forall x :: p(x) ==> q(x)
    ensures Count(s, p) <= Count(s, q)
  {
    if |s| > 0 {
      CountMonotonic(s[1..], p, q);
    }
  }

  /** Two conditions no row satisfies together count, between them, the rows satisfying either. */
  lemma {:induction false} CountDisjointUnion<T(!new)>(s: seq<T>, p: T -> bool, q: T -> bool, pq: T -> bool)
    requires forall x :: pq(x) == (p(x) || q(x))
    requires forall x :: !(p(x) && q(x))
    ensures Count(s, p) + Count(s, q) == Count(s, pq)
  {
    if |s| > 0 {
      CountDisjointUnion(s[1..], p, q, pq);
    }
  }

  /** A condition every row satisfies counts the whole table. */
  lemma {:induction false} CountAll<T(!new)>(s: seq<T>, p: T -> bool)
    requires forall x :: x in s ==> p(x)
    ensures Count(s, p) == |s|
  {
    if |s| > 0 {
      assert forall x :: x in s[1..] ==> x in s;
      CountAll(s[1..], p);
    }
  }

  /** Counting does not depend on the order of the rows. */
  lemma CountPermutation<T(!new)>(a: seq<T>, b: seq<T>, p: T -> bool)
    requires multiset(a) == multiset(b)
    ensures Count(a, p) == Count(b, p)
  {
    assert multiset(Filter(a, p)) == multiset(Filter(b, p));
    assert |multiset(Filter(a, p))| == |Filter(a, p)|;
    assert |multiset(Filter(b, p))| == |Filter(b, p)|;
  }

  /** Counting over one more row at the end. */
  lemma {:induction false} CountSnoc<T(!new)>(s: seq<T>, x: T, p: T -> bool)
    ensures Count(s + [x], p) == Count(s, p) + (if p(x) then 1 else 0)
  {
    if |s| == 0 {
      assert s + [x] == [x];
    } else {
      assert (s + [x])[1..] == s[1..] + [x];
      CountSnoc(s[1..], x, p);
    }
  }

  /** SUM(f) over the whole table. */
  function Sum<T>(s: seq<T>, f: T -> int): int {
    if |s| == 0 then 0 else f(s[0]) + Sum(s[1..], f)
  }

  /** No two rows share a primary key. */
  ghost predicate UniqueIds<T>(s: seq<T>, idOf: T -> Id) {
    forall i, j :: 0 <= i < j < |s| ==> idOf(s[i]) != idOf(s[j])
  }

  /** Some row has primary key `id`. */
  ghost predicate HasId<T>(s: seq<T>, idOf: T -> Id, id: Id) {
    exists i :: 0 <= i < |s| && idOf(s[i]) == id
  }

  /** The position of the row with primary key `id`, if any (the first such row). */
  function IndexOf<T>(s: seq<T>, idOf: T -> Id, id: Id): (r: Option<nat>)
    ensures r.Some? ==> r.value < |s| && idOf(s[r.value]) == id
    ensures r.Some? ==> forall i :: 0 <= i < r.value ==> idOf(s[i]) != id
    ensures r.None? <==> !HasId(s, idOf, id)
  {
    if |s| == 0 then None
    else if idOf(s[0]) == id then Some(0)
    else
      match IndexOf(s[1..], idOf, id)
      case None =>
        assert !HasId(s, idOf, id) by {
          forall i | 0 < i < |s|
            ensures idOf(s[i]) != id
          {
            assert s[i] == s[1..][i - 1];
          }
        }
        None
      case Some(k) =>
        assert s[k + 1] == s[1..][k];
        Some(k + 1)
  }

  /** A key is present iff some row carries it. */
  lemma HasIdMember<T>(s: seq<T>, idOf: T -> Id, k: Id)
    ensures HasId(s, idOf, k) <==> exists x :: x in s && idOf(x) == k
  {
    if exists x :: x in s && idOf(x) == k {
      var x :| x in s && idOf(x) == k;
      var i :| 0 <= i < |s| && s[i] == x;
    }
  }

  /** With unique keys no row occurs twice. */
  lemma {:induction false} UniqueIdsAtMostOnce<T>(s: seq<T>, idOf: T -> Id, x: T)
    requires UniqueIds(s, idOf)
    ensures multiset(s)[x] <= 1
  {
    if |s| > 0 {
      assert s == [s[0]] + s[1..];
      assert UniqueIds(s[1..], idOf) by {
        forall i, j | 0 <= i < j < |s[1..]| ensures idOf(s[1..][i]) != idOf(s[1..][j]) {
          assert s[1..][i] == s[i + 1] && s[1..][j] == s[j + 1];
        }
      }
      UniqueIdsAtMostOnce(s[1..], idOf, x);
      if s[0] == x {
        assert x !in s[1..] by {
          forall i | 0 <= i < |s[1..]| ensures s[1..][i] != x {
            assert s[1..][i] == s[i + 1];
          }
        }
      }
    }
  }

  /** Rows taken from a table with unique keys, no row more often than there, have unique keys. */
  lemma UniqueIdsSubMultiset<T>(r: seq<T>, s: seq<T>, idOf: T -> Id)
    requires UniqueIds(s, idOf)
    requires forall x :: multiset(r)[x] <= multiset(s)[x]
    ensures UniqueIds(r, idOf)
  {
    forall i, j | 0 <= i < j < |r| ensures idOf(r[i]) != idOf(r[j]) {
      assert r[i] in multiset(s) && r[j] in multiset(s);
      var p :| 0 <= p < |s| && s[p] == r[i];
      var q :| 0 <= q < |s| && s[q] == r[j];
      if r[i] == r[j] {
        assert r == r[..j] + [r[j]] + r[j + 1..];
        assert r[i] in r[..j];
        assert multiset(r)[r[j]] == multiset(r[..j])[r[j]] + 1 + multiset(r[j + 1..])[r[j]];
        UniqueIdsAtMostOnce(s, idOf, r[j]);
      } else {
        assert p != q;
      }
    }
  }

  /** SELECT ... WHERE p LIMIT 1: the first row satisfying `p`, if any. */
  function Find<T>(s: seq<T>, p: T -> bool): (r: Option<T>)
    ensures r.Some? <==> exists i :: 0 <= i < |s| && p(s[i])
    ensures r.Some? ==> r.value in s && p(r.value)
  {
    if |s| == 0 then None
    else if p(s[0]) then Some(s[0])
    else
      var rest := Find(s[1..], p);
      assert (exists i :: 0 <= i < |s| && p(s[i])) ==> exists i :: 0 <= i < |s[1..]| && p(s[1..][i]) by {
        if exists i :: 0 <= i < |s| && p(s[i]) {
          var i :| 0 <= i < |s| && p(s[i]);
          assert s[1..][i - 1] == s[i];
        }
      }
      rest
  }

  /** SELECT ... WHERE id = ?: the row with that primary key, if any. */
  function Lookup<T(!new)>(s: seq<T>, idOf: T -> Id, id: Id): (r: Option<T>)
    ensures r.Some? <==> HasId(s, idOf, id)
    ensures r.Some? ==> r.value in s && idOf(r.value) == id
    ensures UniqueIds(s, idOf) ==> forall x :: x in s && idOf(x) == id ==> r == Some(x)
  {
    match IndexOf(s, idOf, id)
    case None => None
    case Some(k) => Some(s[k])
  }

  /** DELETE ... WHERE id = ?: every row except the one with that key. */
  function Without<T(!new)>(s: seq<T>, idOf: T -> Id, id: Id): (r: seq<T>)
    ensures forall x :: x in r <==> x in s && idOf(x) != id
    ensures UniqueIds(s, idOf) ==> UniqueIds(r, idOf)
    ensures HasId(s, idOf, id) && UniqueIds(s, idOf) ==> |r| == |s| - 1
    ensures !HasId(s, idOf, id) ==> r == s
  {
    if |s| == 0 then []
    else
      var rest := Without(s[1..], idOf, id);
      assert s == [s[0]] + s[1..];
      if idOf(s[0]) == id then
        assert UniqueIds(s, idOf) ==> !HasId(s[1..], idOf, id) by {
          if UniqueIds(s, idOf) {
            forall i | 0 <= i < |s[1..]|
              ensures idOf(s[1..][i]) != id
            {
              assert s[1..][i] == s[i + 1];
            }
          }
        }
        rest
      else
        assert HasId(s, idOf, id) ==> HasId(s[1..], idOf, id) by {
          if HasId(s, idOf, id) {
            var i :| 0 <= i < |s| && idOf(s[i]) == id;
            assert s[1..][i - 1] == s[i];
          }
        }
        var r := [s[0]] + rest;
        assert UniqueIds(s, idOf) ==> UniqueIds(r, idOf) by {
          if UniqueIds(s, idOf) {
            forall i, j | 0 <= i < j < |r|
              ensures idOf(r[i]) != idOf(r[j])
            {
              if i == 0 {
                assert r[j] in s[1..];
                var m :| 0 <= m < |s[1..]| && s[1..][m] == r[j];
                assert idOf(s[m + 1]) != idOf(s[0]);
              }
            }
          }
        }
        r
  }

  /** Removing rows cannot create a duplicate key. */
  lemma {:induction false} FilterUniqueIds<T(!new)>(s: seq<T>, p: T -> bool, idOf: T -> Id)
    ensures UniqueIds(s, idOf) ==> UniqueIds(Filter(s, p), idOf)
  {
    if |s| > 0 && UniqueIds(s, idOf) {
      assert s == [s[0]] + s[1..];
      assert UniqueIds(s[1..], idOf) by {
        forall i, j | 0 <= i < j < |s[1..]|
          ensures idOf(s[1..][i]) != idOf(s[1..][j])
        {
          assert s[1..][i] == s[i + 1] && s[1..][j] == s[j + 1];
        }
      }
      FilterUniqueIds(s[1..], p, idOf);
      var rest := Filter(s[1..], p);
      if p(s[0]) {
        var r := [s[0]] + rest;
        forall i, j | 0 <= i < j < |r|
          ensures idOf(r[i]) != idOf(r[j])
        {
          if i == 0 {
            assert r[j] in s[1..];
            var m :| 0 <= m < |s[1..]| && s[1..][m] == r[j];
            assert s[m + 1] == r[j];
          }
        }
      }
    }
  }

  /** Two tables whose rows carry the same keys position by position. */
  ghost predicate SameKeys<T>(s: seq<T>, t: seq<T>, idOf: T -> Id) {
    |s| == |t| && forall i :: 0 <= i < |s| ==> idOf(s[i]) == idOf(t[i])
  }

  /** An UPDATE that leaves primary keys alone leaves key lookups and uniqueness alone. */
  lemma SameKeysAgree<T>(s: seq<T>, t: seq<T>, idOf: T -> Id)
    requires SameKeys(s, t, idOf)
    ensures forall id :: HasId(s, idOf, id) <==> HasId(t, idOf, id)
    ensures UniqueIds(s, idOf) <==> UniqueIds(t, idOf)
  {
    forall id
      ensures HasId(s, idOf, id) <==> HasId(t, idOf, id)
    {
      if HasId(s, idOf, id) {
        var i :| 0 <= i < |s| && idOf(s[i]) == id;
        assert idOf(t[i]) == id;
      }
      if HasId(t, idOf, id) {
        var i :| 0 <= i < |t| && idOf(t[i]) == id;
        assert idOf(s[i]) == id;
      }
    }
  }

  /** INSERT: the new key is found, old keys are still found, and a fresh key keeps keys unique. */
  lemma AppendRow<T>(s: seq<T>, x: T, idOf: T -> Id)
    ensures forall id :: HasId(s + [x], idOf, id) <==> HasId(s, idOf, id) || idOf(x) == id
    ensures UniqueIds(s, idOf) && !HasId(s, idOf, idOf(x)) ==> UniqueIds(s + [x], idOf)
  {
    var t := s + [x];
    forall id
      ensures HasId(t, idOf, id) <==> HasId(s, idOf, id) || idOf(x) == id
    {
      if HasId(s, idOf, id) {
        var i :| 0 <= i < |s| && idOf(s[i]) == id;
        assert t[i] == s[i];
      }
      if idOf(x) == id {
        assert t[|s|] == x;
      }
      if HasId(t, idOf, id) {
        var i :| 0 <= i < |t| && idOf(t[i]) == id;
        if i < |s| {
          assert t[i] == s[i];
        }
      }
    }
  }

  /** Deleting the row with key `id` keeps the other rows in table order: the result is the
      `WHERE id <> k` selection. */
  lemma {:induction false} WithoutKeepsOrder<T(!new)>(s: seq<T>, idOf: T -> Id, id: Id)
    ensures Without(s, idOf, id) == Filter(s, (x: T) => idOf(x) != id)
  {
    if |s| > 0 {
      WithoutKeepsOrder(s[1..], idOf, id);
    }
  }

  /** Deleting the row with key `id` removes exactly that key. */
  lemma WithoutHasId<T(!new)>(s: seq<T>, idOf: T -> Id, id: Id, k: Id)
    ensures HasId(Without(s, idOf, id), idOf, k) <==> HasId(s, idOf, k) && k != id
  {
    var r := Without(s, idOf, id);
    if HasId(s, idOf, k) && k != id {
      var i :| 0 <= i < |s| && idOf(s[i]) == k;
      assert s[i] in r;
      var j :| 0 <= j < |r| && r[j] == s[i];
    }
    if HasId(r, idOf, k) {
      var j :| 0 <= j < |r| && idOf(r[j]) == k;
      assert r[j] in s;
      var i :| 0 <= i < |s| && s[i] == r[j];
    }
  }

  /** The same for any WHERE clause: a key survives iff some row carrying it passes the filter. */
  lemma FilterHasId<T(!new)>(s: seq<T>, p: T -> bool, idOf: T -> Id, k: Id)
    ensures HasId(Filter(s, p), idOf, k) <==> exists x :: x in s && p(x) && idOf(x) == k
  {
    var r := Filter(s, p);
    if exists x :: x in s && p(x) && idOf(x) == k {
      var x :| x in s && p(x) && idOf(x) == k;
      assert x in r;
      var j :| 0 <= j < |r| && r[j] == x;
    }
    if HasId(r, idOf, k) {
      var j :| 0 <= j < |r| && idOf(r[j]) == k;
      assert r[j] in s;
    }
  }

  /** SELECT f(row), or UPDATE ... SET f when `U` is `T`: one output row per table row, in table
      order. */
  function MapRowsTo<T, U>(s: seq<T>, f: T -> U): (r: seq<U>)
    ensures |r| == |s|
    ensures forall i :: 0 <= i < |s| ==> r[i] == f(s[i])
  {
    seq(|s|, i requires 0 <= i < |s| => f(s[i]))
  }

  /** UPDATE ... SET f WHERE id = ?: `f` applied to the rows with that key, other rows untouched.
      `f` must leave the key alone. */
  function UpdateWhere<T(!new)>(s: seq<T>, idOf: T -> Id, id: Id, f: T -> T): (r: seq<T>)
    requires forall x :: idOf(f(x)) == idOf(x)
    ensures SameKeys(s, r, idOf)
    ensures forall i :: 0 <= i < |s| ==> r[i] == if idOf(s[i]) == id then f(s[i]) else s[i]
    ensures forall x :: x in s && idOf(x) != id ==> x in r
    ensures forall x :: x in s && idOf(x) == id ==> f(x) in r
    ensures forall y :: y in r ==> (y in s && idOf(y) != id) || exists x :: x in s && idOf(x) == id && y == f(x)
    ensures forall k :: HasId(r, idOf, k) <==> HasId(s, idOf, k)
    ensures UniqueIds(r, idOf) <==> UniqueIds(s, idOf)
  {
    var r := MapRowsTo(s, (x: T) => if idOf(x) == id then f(x) else x);
    SameKeysAgree(s, r, idOf);
    assert forall x :: x in s ==> (if idOf(x) == id then f(x) else x) in r by {
      forall x | x in s ensures (if idOf(x) == id then f(x) else x) in r {
        var i :| 0 <= i < |s| && s[i] == x;
        assert r[i] == (if idOf(x) == id then f(x) else x);
      }
    }
    assert forall y :: y in r ==> (y in s && idOf(y) != id) || exists x :: x in s && idOf(x) == id && y == f(x) by {
      forall y | y in r ensures (y in s && idOf(y) != id) || exists x :: x in s && idOf(x) == id && y == f(x) {
        var i :| 0 <= i < |r| && r[i] == y;
        assert s[i] in s;
      }
    }
    r
  }
}
