/** `[...items].sort(cmp)`: JavaScript's `Array.prototype.sort` on a copy,
    which is stable (ECMAScript 2019 onward). It is modelled as a stable
    insertion sort driven by a comparator returning a negative number, zero
    or a positive number. */
module Sorting {

  /** What the language demands of a comparator for the sort to be well
      defined: `cmp(a, b)` and `cmp(b, a)` have opposite signs, and "not
      after" is transitive. */
  ghost predicate IsComparator<T(!new)>(cmp: (T, T) -> int) {
    Antisymmetric(cmp) && Transitive(cmp)
  }

  ghost predicate Antisymmetric<T(!new)>(cmp: (T, T) -> int) {
    forall a, b :: cmp(a, b) < 0 <==> cmp(b, a) > 0
  }

  ghost predicate Transitive<T(!new)>(cmp: (T, T) -> int) {
    forall a, b, c :: cmp(a, b) <= 0 && cmp(b, c) <= 0 ==> cmp(a, c) <= 0
  }

  /** No element is placed after one the comparator puts before it. */
  ghost predicate Sorted<T>(s: seq<T>, cmp: (T, T) -> int) {
    forall i, j :: 0 <= i < j < |s| ==> cmp(s[i], s[j]) <= 0
  }

  /** Inserts `x` before the first element it does not come after. */
  function Insert<T>(x: T, s: seq<T>, cmp: (T, T) -> int): (r: seq<T>)
    ensures multiset(r) == multiset(s) + multiset{x}
  {
    if |s| == 0 || cmp(x, s[0]) <= 0 then [x] + s
    else
      assert s == [s[0]] + s[1..];
      [s[0]] + Insert(x, s[1..], cmp)
  }

  lemma {:induction false} InsertKeepsSorted<T(!new)>(x: T, s: seq<T>, cmp: (T, T) -> int)
    requires IsComparator(cmp)
    requires Sorted(s, cmp)
    ensures Sorted(Insert(x, s, cmp), cmp)
  {
    if |s| > 0 && cmp(x, s[0]) > 0 {
      var t := s[1..];
      assert Sorted(t, cmp) by {
        forall i, j | 0 <= i < j < |t| ensures cmp(t[i], t[j]) <= 0 {
          assert t[i] == s[i + 1] && t[j] == s[j + 1];
        }
      }
      InsertKeepsSorted(x, t, cmp);
      var r := Insert(x, s, cmp);
      var u := Insert(x, t, cmp);
      assert r == [s[0]] + u;
      forall j | 1 <= j < |r| ensures cmp(s[0], r[j]) <= 0 {
        var y := r[j];
        assert y in multiset(u);
        assert y in multiset(t) || y == x;
        if y == x {
          assert cmp(s[0], x) < 0;
        } else {
          var k :| 0 <= k < |t| && t[k] == y;
          assert s[k + 1] == y;
        }
      }
    } else if |s| > 0 {
      SortedCons(x, s, cmp);
    }
  }

  /** An element that does not go after the head of a sorted sequence can
      be put in front of it. */
  lemma SortedCons<T(!new)>(x: T, s: seq<T>, cmp: (T, T) -> int)
    requires Transitive(cmp)
    requires Sorted(s, cmp) && |s| > 0 && cmp(x, s[0]) <= 0
    ensures Sorted([x] + s, cmp)
  {
    var r := [x] + s;
    forall j | 1 <= j < |r| ensures cmp(x, r[j]) <= 0 {
      assert r[j] == s[j - 1];
    }
  }

  /** The stable sort of `s` under `cmp`: a permutation of `s` in which no
      element follows one that the comparator puts after it. */
  function Sort<T(!new)>(s: seq<T>, cmp: (T, T) -> int): (r: seq<T>)
    requires IsComparator(cmp)
    ensures multiset(r) == multiset(s)
    ensures Sorted(r, cmp)
  {
    if |s| == 0 then []
    else
      var rest := Sort(s[1..], cmp);
      InsertKeepsSorted(s[0], rest, cmp);
      assert s == [s[0]] + s[1..];
      Insert(s[0], rest, cmp)
  }

  /** The elements of `s` the comparator ties with `e`, in their order in `s`. */
  function TiesOf<T>(s: seq<T>, e: T, cmp: (T, T) -> int): seq<T> {
    if |s| == 0 then []
    else (if cmp(s[0], e) == 0 then [s[0]] else []) + TiesOf(s[1..], e, cmp)
  }

  /** Inserting `x` adds it to the ties of `e` in front of the old ones,
      provided `x` goes after none of the elements tied with `e` when `x`
      itself is. */
  lemma {:induction false} InsertTies<T(!new)>(x: T, s: seq<T>, e: T, cmp: (T, T) -> int)
    requires cmp(x, e) == 0 ==> forall i :: 0 <= i < |s| && cmp(s[i], e) == 0 ==> cmp(x, s[i]) <= 0
    ensures TiesOf(Insert(x, s, cmp), e, cmp) == (if cmp(x, e) == 0 then [x] else []) + TiesOf(s, e, cmp)
  {
    if |s| == 0 || cmp(x, s[0]) <= 0 {
      TiesCons(x, s, e, cmp);
    } else {
      var t := s[1..];
      if cmp(x, e) == 0 {
        forall i | 0 <= i < |t| && cmp(t[i], e) == 0 ensures cmp(x, t[i]) <= 0 {
          assert t[i] == s[i + 1];
        }
      }
      InsertTies(x, t, e, cmp);
      assert s == [s[0]] + t;
      TiesCons(s[0], t, e, cmp);
      TiesCons(s[0], Insert(x, t, cmp), e, cmp);
      InsertPastHead(x, s[0], TiesOf(t, e, cmp), e, cmp);
    }
  }

  lemma TiesCons<T>(a: T, t: seq<T>, e: T, cmp: (T, T) -> int)
    ensures TiesOf([a] + t, e, cmp) == (if cmp(a, e) == 0 then [a] else []) + TiesOf(t, e, cmp)
  {
    assert ([a] + t)[1..] == t;
  }

  /** The sequence step of `InsertTies` when `x` is inserted past `a`, which
      does not tie with `e` when `x` does. */
  lemma InsertPastHead<T>(x: T, a: T, rest: seq<T>, e: T, cmp: (T, T) -> int)
    requires cmp(x, e) == 0 ==> cmp(a, e) != 0
    ensures var hx := if cmp(x, e) == 0 then [x] else [];
      var ha := if cmp(a, e) == 0 then [a] else [];
      ha + (hx + rest) == hx + (ha + rest)
  {}

  /** Under a comparator, `x` goes after none of the elements tied with
      `e` when `x` itself is. */
  lemma AfterIsNotTied<T(!new)>(x: T, s: seq<T>, e: T, cmp: (T, T) -> int)
    requires IsComparator(cmp)
    ensures cmp(x, e) == 0 ==> forall i :: 0 <= i < |s| && cmp(s[i], e) == 0 ==> cmp(x, s[i]) <= 0
  {
    if cmp(x, e) == 0 {
      forall i | 0 <= i < |s| && cmp(s[i], e) == 0 ensures cmp(x, s[i]) <= 0 {
        assert cmp(e, s[i]) <= 0;
      }
    }
  }

  /** Stability: elements that compare equal keep their input order. */
  lemma {:induction false} SortIsStable<T(!new)>(s: seq<T>, e: T, cmp: (T, T) -> int)
    requires IsComparator(cmp)
    ensures TiesOf(Sort(s, cmp), e, cmp) == TiesOf(s, e, cmp)
  {
    if |s| > 0 {
      SortIsStable(s[1..], e, cmp);
      AfterIsNotTied(s[0], Sort(s[1..], cmp), e, cmp);
      InsertTies(s[0], Sort(s[1..], cmp), e, cmp);
    }
  }

  /** When every element ties with `e`, the ties of `s` are all of `s`. */
  lemma {:induction false} AllTied<T>(s: seq<T>, e: T, cmp: (T, T) -> int)
    requires forall i :: 0 <= i < |s| ==> cmp(s[i], e) == 0
    ensures TiesOf(s, e, cmp) == s
  {
    if |s| > 0 {
      AllTied(s[1..], e, cmp);
      assert s == [s[0]] + s[1..];
    }
  }

  /** The ties of a prefix form a prefix of the ties. */
  lemma {:induction false} TiesOfPrefix<T>(s: seq<T>, n: nat, e: T, cmp: (T, T) -> int)
    requires n <= |s|
    ensures var t := TiesOf(s[..n], e, cmp);
      |t| <= |TiesOf(s, e, cmp)| && t == TiesOf(s, e, cmp)[..|t|]
  {
    if n > 0 {
      assert s[..n][1..] == s[1..][..n - 1];
      TiesOfPrefix(s[1..], n - 1, e, cmp);
    }
  }
}
