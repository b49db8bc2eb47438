/** Small datatypes and facts about finite sets of ids that the other modules share. */
module Basics {

  datatype Option<+T> = None | Some(value: T)

  datatype Result<+T, +E> = Success(value: T) | Failure(error: E)

  function Min(a: int, b: int): int {
    if a <= b then a else b
  }

  function Max(a: int, b: int): int {
    if a <= b then b else a
  }

  lemma NextMultiple(n: nat, p: nat, q: nat)
    requires p < q
    ensures n * p + n <= n * q
    decreases q - p
  {
    if p + 1 == q {
    } else {
      NextMultiple(n, p + 1, q);
    }
  }

  lemma DivisionUnique(a: nat, q: nat, r: nat, n: nat)
    requires r < n && a == n * q + r
    ensures a / n == q && a % n == r
  {
    var p, s := a / n, a % n;
    assert a == n * p + s;
    if p < q {
      NextMultiple(n, p, q);
    } else if q < p {
      NextMultiple(n, q, p);
    }
  }

  lemma AnyOf<T>(s: set<T>) returns (x: T)
    requires s != {}
    ensures x in s
  {
    x :| x in s;
  }

  lemma SameSet<T>(a: set<T>, b: set<T>)
    requires forall x :: x in a <==> x in b
    ensures a == b
  {
  }

  lemma MoveOne<T>(done: set<T>, todo: set<T>, x: T)
    requires x in todo
    ensures done + todo == (done + {x}) + (todo - {x})
  {
  }

  lemma HasMember<T>(q: seq<T>)
    requires q != []
    ensures exists x :: x in q
  {
    var x := q[0];
    assert x in q;
  }

  lemma NoMembers<T>(q: seq<T>)
    requires forall x :: x !in q
    ensures q == []
  {
    if q != [] { HasMember(q); }
  }

  lemma {:induction false} HasLeast(s: set<int>)
    requires s != {}
    ensures exists m :: m in s && forall x | x in s :: m <= x
  {
    var a := AnyOf(s);
    if s == {a} {
      assert forall x | x in s :: a <= x;
    } else {
      var rest := s - {a};
      HasLeast(rest);
      var b :| b in rest && forall x | x in rest :: b <= x;
      var m := Min(a, b);
      assert forall x | x in s :: x == a || x in rest;
      assert m in s && forall x | x in s :: m <= x;
    }
  }

  lemma {:induction false} HasGreatest(s: set<int>)
    requires s != {}
    ensures exists m :: m in s && forall x | x in s :: x <= m
  {
    var a := AnyOf(s);
    if s == {a} {
      assert forall x | x in s :: x <= a;
    } else {
      var rest := s - {a};
      HasGreatest(rest);
      var b :| b in rest && forall x | x in rest :: x <= b;
      var m := Max(a, b);
      assert forall x | x in s :: x == a || x in rest;
      assert m in s && forall x | x in s :: x <= m;
    }
  }

  /** SQL's MIN over a non-empty column. */
  function Least(s: set<int>): (m: int)
    requires s != {}
    ensures m in s && forall x | x in s :: m <= x
  {
    HasLeast(s);
    var m :| m in s && forall x | x in s :: m <= x;
    m
  }

  /** SQL's MAX over a non-empty column. */
  function Greatest(s: set<int>): (m: int)
    requires s != {}
    ensures m in s && forall x | x in s :: x <= m
  {
    HasGreatest(s);
    var m :| m in s && forall x | x in s :: x <= m;
    m
  }

  ghost predicate Ascending(q: seq<int>) {
    forall i, j | 0 <= i < j < |q| :: q[i] < q[j]
  }

  /** SQL's ORDER BY over distinct ids. */
  function Sorted(s: set<int>): (q: seq<int>)
    ensures Ascending(q)
    ensures forall x :: x in q <==> x in s
    ensures |q| == |s|
  {
    if s == {} then []
    else
      var m := Least(s);
      [m] + Sorted(s - {m})
  }

  lemma {:induction false} AscendingUnique(a: seq<int>, b: seq<int>)
    requires Ascending(a) && Ascending(b)
    requires forall x :: x in a <==> x in b
    ensures a == b
  {
    if a == [] {
      assert forall x :: x !in b;
      NoMembers(b);
    } else {
      var x := a[0];
      assert x in a;
      assert x in b;
      var y := b[0];
      assert y in b;
      assert y in a;
      assert a[0] == b[0];
      forall x ensures x in a[1..] <==> x in b[1..] {
        assert x in a <==> x == a[0] || x in a[1..];
        assert x in b <==> x == b[0] || x in b[1..];
      }
      AscendingUnique(a[1..], b[1..]);
      assert a == [a[0]] + a[1..] && b == [b[0]] + b[1..];
    }
  }
}
