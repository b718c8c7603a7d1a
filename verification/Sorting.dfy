// Sorting a slice: what any sort gives, and the order on strings.
module Sorting {

  /** On the elements of `s` the comparison is total and transitive, though different ones may rank equal. */
  ghost predicate Ranks<T(!new)>(le: (T, T) -> bool, s: multiset<T>) {
    && (forall x, y {:trigger le(x, y)} :: x in s && y in s ==> le(x, y) || le(y, x))
    && (forall x, y, z {:trigger le(x, y), le(y, z)} :: x in s && y in s && z in s && le(x, y) && le(y, z) ==> le(x, z))
  }

  /** And only equal ones rank equal. */
  ghost predicate Orders<T(!new)>(le: (T, T) -> bool, s: multiset<T>) {
    Ranks(le, s) && forall x, y {:trigger le(x, y)} :: x in s && y in s && le(x, y) && le(y, x) ==> x == y
  }

  lemma RanksPart<T(!new)>(le: (T, T) -> bool, s: multiset<T>, t: multiset<T>)
    requires Ranks(le, s) && t <= s
    ensures Ranks(le, t)
  {
  }

  lemma OrdersPart<T(!new)>(le: (T, T) -> bool, s: multiset<T>, t: multiset<T>)
    requires Orders(le, s) && t <= s
    ensures Orders(le, t)
  {
    RanksPart(le, s, t);
  }

  predicate IsSorted<T>(le: (T, T) -> bool, s: seq<T>) {
    forall i, j | 0 <= i < j < |s| :: le(s[i], s[j])
  }

  lemma TailMultiset<T>(s: seq<T>)
    requires s != []
    ensures multiset(s[1..]) == multiset(s) - multiset{s[0]}
  {
    assert s == [s[0]] + s[1..];
  }

  /** The first element of a sorted sequence comes before any of its elements. */
  lemma FirstIsLeast<T(!new)>(le: (T, T) -> bool, s: seq<T>, x: T)
    requires Ranks(le, multiset(s)) && IsSorted(le, s) && x in multiset(s)
    ensures s != [] && le(s[0], x)
  {
    var i :| 0 <= i < |s| && s[i] == x;
    assert s[0] in multiset(s);
    if i == 0 {
      assert le(x, x);
    }
  }

  lemma SameFirst<T(!new)>(le: (T, T) -> bool, a: seq<T>, b: seq<T>)
    requires Orders(le, multiset(a)) && multiset(a) == multiset(b) && a != []
    requires IsSorted(le, a) && IsSorted(le, b)
    ensures b != [] && a[0] == b[0]
  {
    assert a[0] in multiset(a);
    FirstIsLeast(le, b, a[0]);
    assert b[0] in multiset(b);
    FirstIsLeast(le, a, b[0]);
  }

  lemma EmptyAlike<T>(a: seq<T>)
    requires multiset(a) == multiset{}
    ensures a == []
  {
    assert |multiset(a)| == |a|;
  }

  /** Two sorted arrangements of the same elements are one: the order of the input does not matter. */
  lemma {:induction false} SortedIsUnique<T(!new)>(le: (T, T) -> bool, a: seq<T>, b: seq<T>)
    requires Orders(le, multiset(a)) && multiset(a) == multiset(b)
    requires IsSorted(le, a) && IsSorted(le, b)
    ensures a == b
  {
    if a == [] {
      EmptyAlike(b);
    } else {
      SameFirst(le, a, b);
      TailMultiset(a);
      TailMultiset(b);
      OrdersPart(le, multiset(a), multiset(a[1..]));
      SortedIsUnique(le, a[1..], b[1..]);
      SameCons(a, b);
    }
  }

  lemma SameCons<T>(a: seq<T>, b: seq<T>)
    requires a != [] && b != [] && a[0] == b[0] && a[1..] == b[1..]
    ensures a == b
  {
    assert a == [a[0]] + a[1..] && b == [b[0]] + b[1..];
  }

  /** The position where `x` belongs, and `x` put there. */
  function Insert<T>(le: (T, T) -> bool, x: T, s: seq<T>): (r: seq<T>)
    ensures multiset(r) == multiset{x} + multiset(s)
  {
    if s == [] then [x]
    else if le(x, s[0]) then [x] + s
    else
      assert s == [s[0]] + s[1..];
      [s[0]] + Insert(le, x, s[1..])
  }

  lemma SortedCons<T>(le: (T, T) -> bool, x: T, s: seq<T>)
    requires IsSorted(le, s) && forall y | y in multiset(s) :: le(x, y)
    ensures IsSorted(le, [x] + s)
  {
    forall i, j | 0 <= i < j < |s| + 1
      ensures le(([x] + s)[i], ([x] + s)[j])
    {
      assert s[j - 1] in multiset(s);
    }
  }

  lemma {:induction false} InsertSorted<T(!new)>(le: (T, T) -> bool, x: T, s: seq<T>)
    requires IsSorted(le, s) && Ranks(le, multiset{x} + multiset(s))
    ensures IsSorted(le, Insert(le, x, s))
  {
    var all := multiset{x} + multiset(s);
    RanksPart(le, all, multiset(s));
    if s != [] {
      assert x in all && s[0] in all;
      if le(x, s[0]) {
        forall y | y in multiset(s)
          ensures le(x, y)
        {
          FirstIsLeast(le, s, y);
          assert y in all;
        }
        SortedCons(le, x, s);
      } else {
        TailMultiset(s);
        RanksPart(le, all, multiset{x} + multiset(s[1..]));
        InsertSorted(le, x, s[1..]);
        forall y | y in multiset(Insert(le, x, s[1..]))
          ensures le(s[0], y)
        {
          if y in multiset(s[1..]) {
            FirstIsLeast(le, s, y);
          } else {
            assert le(x, s[0]) || le(s[0], x);
          }
        }
        SortedCons(le, s[0], Insert(le, x, s[1..]));
      }
    }
  }

  /** A sort; callers rely on its contract only. */
  method Sort<T(!new)>(s: seq<T>, le: (T, T) -> bool) returns (r: seq<T>)
    requires Ranks(le, multiset(s))
    ensures IsSorted(le, r) && multiset(r) == multiset(s)
  {
    r := [];
    for i := 0 to |s|
      invariant IsSorted(le, r) && multiset(r) == multiset(s[..i])
    {
      assert s[..i + 1] == s[..i] + [s[i]];
      assert s == s[..i + 1] + s[i + 1..];
      RanksPart(le, multiset(s), multiset{s[i]} + multiset(r));
      InsertSorted(le, s[i], r);
      r := Insert(le, s[i], r);
    }
    assert s[..|s|] == s;
  }

  /** Character by character, a prefix first. */
  predicate StringLe(a: string, b: string) {
    a == "" || (b != "" && (a[0] < b[0] || (a[0] == b[0] && StringLe(a[1..], b[1..]))))
  }

  lemma {:induction false} StringTotal(a: string, b: string)
    ensures StringLe(a, b) || StringLe(b, a)
    ensures StringLe(a, b) && StringLe(b, a) ==> a == b
  {
    if a != "" && b != "" {
      StringTotal(a[1..], b[1..]);
      assert a == [a[0]] + a[1..] && b == [b[0]] + b[1..];
    }
  }

  lemma {:induction false} StringTransitive(a: string, b: string, c: string)
    requires StringLe(a, b) && StringLe(b, c)
    ensures StringLe(a, c)
  {
    if a != "" && a[0] == b[0] && b[0] == c[0] {
      StringTransitive(a[1..], b[1..], c[1..]);
    }
  }

  lemma StringsOrdered(s: multiset<string>)
    ensures Orders(StringLe, s)
  {
    forall x, y | x in s && y in s
      ensures (StringLe(x, y) || StringLe(y, x)) && (StringLe(x, y) && StringLe(y, x) ==> x == y)
    {
      StringTotal(x, y);
    }
    forall x, y, z | x in s && y in s && z in s && StringLe(x, y) && StringLe(y, z)
      ensures StringLe(x, z)
    {
      StringTransitive(x, y, z);
    }
  }

  /** The strings in order. */
  function SortedStrings(s: seq<string>): seq<string> {
    if s == [] then [] else Insert(StringLe, s[0], SortedStrings(s[1..]))
  }

  lemma {:induction false} SortedStringsSorted(s: seq<string>)
    ensures IsSorted(StringLe, SortedStrings(s)) && multiset(SortedStrings(s)) == multiset(s)
  {
    if s != [] {
      var x, later := s[0], SortedStrings(s[1..]);
      SortedStringsSorted(s[1..]);
      StringsOrdered(multiset{x} + multiset(later));
      InsertSorted(StringLe, x, later);
      TailMultiset(s);
    }
  }

  method SortStrings(s: seq<string>) returns (r: seq<string>)
    ensures r == SortedStrings(s)
  {
    StringsOrdered(multiset(s));
    r := Sort(s, StringLe);
    SortedStringsSorted(s);
    SortedIsUnique(StringLe, r, SortedStrings(s));
  }
}
