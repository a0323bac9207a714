/** Sequence helpers shared by the store and its views: the row filter that every
    `query.filter_by(...)` amounts to, first-match search, strictly increasing keys
    (primary keys in insertion order) and sums over an enumeration of keys. */
module Collections {

  datatype Option<T> = None | Some(value: T)

  /** The elements of `s` that satisfy `p`, in their original order. */
  function Filter<T(!new)>(s: seq<T>, p: T -> bool): (r: seq<T>)
    ensures |r| <= |s|
    ensures forall x :: x in r <==> x in s && p(x)
  {
    if s == [] then []
    else
      var init := Filter(s[..|s| - 1], p);
      assert s == s[..|s| - 1] + [s[|s| - 1]];
      if p(s[|s| - 1]) then init + [s[|s| - 1]] else init
  }

  lemma FilterSnoc<T(!new)>(s: seq<T>, x: T, p: T -> bool)
    ensures Filter(s + [x], p) == if p(x) then Filter(s, p) + [x] else Filter(s, p)
  {
    assert (s + [x])[..|s|] == s;
  }

  /** Splitting the last element off the right operand of a concatenation. */
  lemma AppendSnoc<T>(a: seq<T>, b: seq<T>)
    requires b != []
    ensures b == b[..|b| - 1] + [b[|b| - 1]]
    ensures a + b == (a + b[..|b| - 1]) + [b[|b| - 1]]
  {
    assert b == b[..|b| - 1] + [b[|b| - 1]];
  }

  /** Filtering distributes over concatenation: rows added later come later. */
  lemma {:induction false} FilterAppend<T(!new)>(a: seq<T>, b: seq<T>, p: T -> bool)
    ensures Filter(a + b, p) == Filter(a, p) + Filter(b, p)
    decreases |b|
  {
    if b == [] {
      assert a + b == a;
    } else {
      var b', x := b[..|b| - 1], b[|b| - 1];
      assert a + b == (a + b') + [x];
      assert b == b' + [x];
      FilterAppend(a, b', p);
      FilterSnoc(a + b', x, p);
      FilterSnoc(b', x, p);
    }
  }

  /** Filtering with a predicate every element meets changes nothing. */
  lemma {:induction false} FilterAll<T(!new)>(s: seq<T>, p: T -> bool)
    requires forall x :: x in s ==> p(x)
    ensures Filter(s, p) == s
    decreases |s|
  {
    if s != [] {
      var s', x := s[..|s| - 1], s[|s| - 1];
      assert s == s' + [x];
      FilterAll(s', p);
    }
  }

  /** Filtering with a predicate no element meets leaves nothing. */
  lemma FilterNone<T(!new)>(s: seq<T>, p: T -> bool)
    requires forall x :: x in s ==> !p(x)
    ensures Filter(s, p) == []
  {
  }

  /** Filtering with `q` after filtering with a weaker `p` is filtering with `q` alone. */
  lemma {:induction false} FilterNested<T(!new)>(s: seq<T>, p: T -> bool, q: T -> bool)
    requires forall x :: x in s && q(x) ==> p(x)
    ensures Filter(Filter(s, p), q) == Filter(s, q)
    decreases |s|
  {
    if s != [] {
      var s', x := s[..|s| - 1], s[|s| - 1];
      assert s == s' + [x];
      FilterNested(s', p, q);
      FilterSnoc(s', x, p);
      FilterSnoc(s', x, q);
      if p(x) {
        FilterSnoc(Filter(s', p), x, q);
      }
    }
  }

  /** The index of the first element of `s` that satisfies `p`, if there is one. */
  function FindFirst<T>(s: seq<T>, p: T -> bool): (r: Option<nat>)
    ensures r.Some? ==> r.value < |s| && p(s[r.value]) && forall j :: 0 <= j < r.value ==> !p(s[j])
    ensures r.None? ==> forall j :: 0 <= j < |s| ==> !p(s[j])
  {
    if s == [] then None
    else if p(s[0]) then Some(0)
    else
      match FindFirst(s[1..], p)
      case None => None
      case Some(i) => Some(i + 1)
  }

  /** `key` strictly increases along `s`: the shape of a table's rows in primary-key order. */
  ghost predicate IncreasingBy<T>(s: seq<T>, key: T -> nat)
  {
    forall i, j :: 0 <= i < j < |s| ==> key(s[i]) < key(s[j])
  }

  /** Under strictly increasing keys, a key identifies one element. */
  lemma IncreasingUnique<T>(s: seq<T>, key: T -> nat, x: T, y: T)
    requires IncreasingBy(s, key)
    requires x in s && y in s && key(x) == key(y)
    ensures x == y
  {
    var i :| 0 <= i < |s| && s[i] == x;
    var j :| 0 <= j < |s| && s[j] == y;
    assert !(i < j) && !(j < i);
  }

  lemma IncreasingAppend<T>(a: seq<T>, b: seq<T>, key: T -> nat)
    requires IncreasingBy(a, key) && IncreasingBy(b, key)
    requires forall x, y :: x in a && y in b ==> key(x) < key(y)
    ensures IncreasingBy(a + b, key)
  {
    forall i, j | 0 <= i < j < |a + b|
      ensures key((a + b)[i]) < key((a + b)[j])
    {
      if j < |a| {
        assert (a + b)[i] == a[i] && (a + b)[j] == a[j];
      } else if i < |a| {
        assert (a + b)[i] == a[i] && (a + b)[j] == b[j - |a|];
      } else {
        assert (a + b)[i] == b[i - |a|] && (a + b)[j] == b[j - |a|];
      }
    }
  }

  /** Filtering keeps keys strictly increasing. */
  lemma {:induction false} FilterIncreasing<T(!new)>(s: seq<T>, key: T -> nat, p: T -> bool)
    requires IncreasingBy(s, key)
    ensures IncreasingBy(Filter(s, p), key)
    decreases |s|
  {
    if s != [] {
      var s', x := s[..|s| - 1], s[|s| - 1];
      assert s == s' + [x];
      assert IncreasingBy(s', key);
      FilterIncreasing(s', key, p);
      FilterSnoc(s', x, p);
      if p(x) {
        forall y | y in Filter(s', p) ensures key(y) < key(x) {
          var i :| 0 <= i < |s'| && s'[i] == y;
          assert s[i] == y && s[|s| - 1] == x;
        }
        IncreasingAppend(Filter(s', p), [x], key);
      }
    }
  }

  /** One more than the largest key in `rows` (1 for no rows): the primary key a
      table without AUTOINCREMENT gives its next row. */
  function NextId<T>(rows: seq<T>, key: T -> nat): (r: nat)
    ensures r >= 1
    ensures forall x :: x in rows ==> key(x) < r
    ensures r == 1 || exists x :: x in rows && key(x) + 1 == r
  {
    if rows == [] then 1
    else
      var init := rows[..|rows| - 1];
      var last := rows[|rows| - 1];
      assert rows == init + [last];
      var m := NextId(init, key);
      if key(last) + 1 > m then key(last) + 1 else m
  }

  ghost predicate NoDuplicates<T>(s: seq<T>)
  {
    forall i, j :: 0 <= i < j < |s| ==> s[i] != s[j]
  }

  /** The sum of `g` over the keys `ks`. */
  function Sum<T>(ks: seq<T>, g: T -> int): int
  {
    if ks == [] then 0 else g(ks[0]) + Sum(ks[1..], g)
  }

  lemma {:induction false} SumEqual<T>(ks: seq<T>, a: T -> int, b: T -> int)
    requires forall k :: k in ks ==> a(k) == b(k)
    ensures Sum(ks, a) == Sum(ks, b)
  {
    if ks != [] {
      SumEqual(ks[1..], a, b);
    }
  }

  lemma {:induction false} SumZero<T>(ks: seq<T>, g: T -> int)
    requires forall k :: k in ks ==> g(k) == 0
    ensures Sum(ks, g) == 0
  {
    if ks != [] {
      SumZero(ks[1..], g);
    }
  }

  /** Adding one at a single key `x` adds one to the sum exactly when `x` is
      enumerated, since a duplicate-free enumeration meets `x` at most once. */
  lemma {:induction false} SumBump<T>(ks: seq<T>, a: T -> int, b: T -> int, x: T)
    requires NoDuplicates(ks)
    requires forall k :: k in ks ==> b(k) == a(k) + (if k == x then 1 else 0)
    ensures Sum(ks, b) == Sum(ks, a) + (if x in ks then 1 else 0)
  {
    if ks != [] {
      assert NoDuplicates(ks[1..]);
      SumBump(ks[1..], a, b, x);
      assert ks[0] == x ==> x !in ks[1..];
      assert x in ks <==> ks[0] == x || x in ks[1..];
    }
  }
}
