// The "did you mean" suggestion: edit distance by rows, and the nearest legal key.
module EditDistance {
  import opened Prelude

  /** One change to a string, at a position. */
  datatype Edit = Insert(at: nat, c: char) | Delete(at: nat) | Substitute(at: nat, c: char) {
    predicate Fits(s: string) {
      if Insert? then at <= |s| else at < |s|
    }

    function Do(s: string): string
      requires Fits(s)
    {
      match this
      case Insert(i, c) => s[..i] + [c] + s[i..]
      case Delete(i) => s[..i] + s[i + 1..]
      case Substitute(i, c) => s[i := c]
    }

    /** The change that undoes this one. */
    function Undo(s: string): Edit
      requires Fits(s)
    {
      match this
      case Insert(i, _) => Delete(i)
      case Delete(i) => Insert(i, s[i])
      case Substitute(i, _) => Substitute(i, s[i])
    }
  }

  /** The script can be carried out on `a` and turns it into `b`. */
  predicate Turns(script: seq<Edit>, a: string, b: string) {
    if script == [] then a == b else script[0].Fits(a) && Turns(script[1..], script[0].Do(a), b)
  }

  function Min3(a: nat, b: nat, c: nat): nat { Min(Min(a, b), c) }

  function Cost(x: char, y: char): nat { if x == y then 0 else 1 }

  /** The recurrence the rows are filled by, on prefixes. */
  function Distance(a: string, b: string): nat
    decreases |a| + |b|
  {
    if a == [] then |b|
    else if b == [] then |a|
    else
      var n, m := |a| - 1, |b| - 1;
      Min3(Distance(a[..n], b) + 1, Distance(a, b[..m]) + 1, Distance(a[..n], b[..m]) + Cost(a[n], b[m]))
  }

  /** `d` is the length of a shortest script from `a` to `b`. */
  ghost predicate IsShortest(a: string, b: string, d: nat) {
    && (exists script: seq<Edit> :: |script| == d && Turns(script, a, b))
    && forall script: seq<Edit> :: Turns(script, a, b) ==> d <= |script|
  }

  // ---------------------------------------------------------------- a script as short as the distance

  lemma {:induction false} TurnsMore(script: seq<Edit>, a: string, b: string, e: Edit)
    requires Turns(script, a, b) && e.Fits(b)
    ensures Turns(script + [e], a, e.Do(b))
  {
    if script == [] {
      assert Turns([e][1..], e.Do(a), e.Do(b));
    } else {
      assert (script + [e])[0] == script[0] && (script + [e])[1..] == script[1..] + [e];
      TurnsMore(script[1..], script[0].Do(a), b, e);
    }
  }

  /** A script leaves whatever follows the string alone. */
  lemma {:induction false} TurnsBefore(script: seq<Edit>, a: string, b: string, tail: string)
    requires Turns(script, a, b)
    ensures Turns(script, a + tail, b + tail)
  {
    if script != [] {
      var e := script[0];
      assert e.Fits(a + tail) && e.Do(a + tail) == e.Do(a) + tail;
      TurnsBefore(script[1..], e.Do(a), b, tail);
    }
  }

  lemma {:induction false} InsertAll(b: string) returns (script: seq<Edit>)
    ensures |script| == |b| && Turns(script, [], b)
  {
    script := [];
    if b != [] {
      var m := |b| - 1;
      script := InsertAll(b[..m]);
      var e := Insert(m, b[m]);
      assert e.Do(b[..m]) == b[..m] + [b[m]] == b;
      TurnsMore(script, [], b[..m], e);
      script := script + [e];
    }
  }

  lemma {:induction false} DeleteAll(a: string) returns (script: seq<Edit>)
    ensures |script| == |a| && Turns(script, a, [])
  {
    script := [];
    if a != [] {
      script := DeleteAll(a[1..]);
      assert Delete(0).Do(a) == a[1..];
      script := [Delete(0)] + script;
    }
  }

  /** The recurrence, for strings written as a prefix and a last character. */
  lemma Recurrence(a: string, x: char, b: string, y: char)
    ensures Distance(a + [x], b + [y]) ==
      Min3(Distance(a, b + [y]) + 1, Distance(a + [x], b) + 1, Distance(a, b) + Cost(x, y))
  {
    assert (a + [x])[..|a|] == a && (b + [y])[..|b|] == b;
  }

  lemma DeleteLast(script: seq<Edit>, a: string, x: char, b: string)
    requires Turns(script, a, b)
    ensures Turns(script + [Delete(|b|)], a + [x], b)
  {
    TurnsBefore(script, a, b, [x]);
    TurnsMore(script, a + [x], b + [x], Delete(|b|));
    assert Delete(|b|).Do(b + [x]) == b;
  }

  lemma InsertLast(script: seq<Edit>, a: string, b: string, y: char)
    requires Turns(script, a, b)
    ensures Turns(script + [Insert(|b|, y)], a, b + [y])
  {
    TurnsMore(script, a, b, Insert(|b|, y));
    assert Insert(|b|, y).Do(b) == b + [y];
  }

  lemma SubstituteLast(script: seq<Edit>, a: string, x: char, b: string, y: char)
    requires Turns(script, a, b)
    ensures Turns(script + [Substitute(|b|, y)], a + [x], b + [y])
  {
    TurnsBefore(script, a, b, [x]);
    TurnsMore(script, a + [x], b + [x], Substitute(|b|, y));
    assert Substitute(|b|, y).Do(b + [x]) == b + [y];
  }

  lemma {:induction false} ShortScript(a: string, b: string) returns (script: seq<Edit>)
    ensures |script| == Distance(a, b) && Turns(script, a, b)
    decreases |a| + |b|
  {
    if a == [] {
      script := InsertAll(b);
    } else if b == [] {
      script := DeleteAll(a);
    } else {
      var a', x, b', y := a[..|a| - 1], a[|a| - 1], b[..|b| - 1], b[|b| - 1];
      assert a == a' + [x] && b == b' + [y];
      Recurrence(a', x, b', y);
      if Distance(a, b) == Distance(a', b) + 1 {
        script := ShortScript(a', b);
        DeleteLast(script, a', x, b);
        script := script + [Delete(|b|)];
      } else if Distance(a, b) == Distance(a, b') + 1 {
        script := ShortScript(a, b');
        InsertLast(script, a, b', y);
        script := script + [Insert(|b'|, y)];
      } else {
        script := ShortScript(a', b');
        if x == y {
          TurnsBefore(script, a', b', [x]);
        } else {
          SubstituteLast(script, a', x, b', y);
          script := script + [Substitute(|b'|, y)];
        }
      }
    }
  }

  // ---------------------------------------------------------------- no script is shorter

  /** One more character on either side costs at most one. */
  lemma OneMore(a: string, b: string, x: char)
    ensures Distance(a + [x], b) <= Distance(a, b) + 1 && Distance(a, b + [x]) <= Distance(a, b) + 1
  {
    assert (a + [x])[..|a|] == a && (b + [x])[..|b|] == b;
  }

  lemma NoChangeLeft(p: string, s: string, b: string)
    requires |s| <= 1
    ensures Distance(p + s, b) <= Distance(p, b) + |s|
  {
    if s == [] {
      assert p + s == p;
    } else {
      assert s == [s[0]];
      OneMore(p, b, s[0]);
    }
  }

  lemma AtEnd(q: string, p: string, s': string, b: string, y: char)
    requires |s'| <= 1 && Distance(q, b) <= Distance(p + s', b) + 1
    requires Distance(q, b + [y]) <= Distance(p, b + [y]) + 1 && Distance(q, b + [y]) <= Distance(p, b) + 1
    ensures Distance(q, b + [y]) <= Distance(p + s', b + [y]) + 1
  {
    if s' == [] {
      assert p + s' == p;
    } else {
      var c := s'[0];
      assert s' == [c];
      OneMore(q, b, y);
      Recurrence(p, c, b, y);
    }
  }

  /** At most one character on the left and one on the right cost at most one together. */
  lemma OneEach(p: string, s: string, b: string, y: char)
    requires |s| <= 1
    ensures Distance(p + s, b + [y]) <= Distance(p, b) + 1
  {
    if s == [] {
      assert p + s == p;
      OneMore(p, b, y);
    } else {
      assert p + s == p + [s[0]];
      Recurrence(p, s[0], b, y);
    }
  }

  lemma OneChangeAtEnd(p: string, s: string, s': string, b: string, y: char)
    requires |s| <= 1 && |s'| <= 1 && Distance(p + s, b) <= Distance(p + s', b) + 1
    ensures Distance(p + s, b + [y]) <= Distance(p + s', b + [y]) + 1
  {
    NoChangeLeft(p, s, b + [y]);
    OneEach(p, s, b, y);
    AtEnd(p + s, p, s', b, y);
  }

  lemma AtMostEach(a: string, x: char, b: string, y: char, d: nat)
    requires d == Distance(a + [x], b + [y])
    ensures d <= Distance(a, b + [y]) + 1 && d <= Distance(a + [x], b) + 1 && d <= Distance(a, b) + Cost(x, y)
  {
    Recurrence(a, x, b, y);
  }

  lemma OneOfThem(a: string, x: char, b: string, y: char, d: nat)
    requires d == Distance(a + [x], b + [y])
    ensures d == Distance(a, b + [y]) + 1 || d == Distance(a + [x], b) + 1 || d == Distance(a, b) + Cost(x, y)
  {
    Recurrence(a, x, b, y);
  }

  lemma OneChangeBefore(a: string, a': string, z: char, b: string, y: char)
    requires Distance(a, b) <= Distance(a', b) + 1 && Distance(a, b + [y]) <= Distance(a', b + [y]) + 1
    requires Distance(a + [z], b) <= Distance(a' + [z], b) + 1
    ensures Distance(a + [z], b + [y]) <= Distance(a' + [z], b + [y]) + 1
  {
    AtMostEach(a, z, b, y, Distance(a + [z], b + [y]));
    OneOfThem(a', z, b, y, Distance(a' + [z], b + [y]));
  }

  /** Replacing at most one character by at most one moves the distance to any string by at most one. */
  lemma {:induction false} OneChange(p: string, s: string, s': string, t: string, b: string)
    requires |s| <= 1 && |s'| <= 1
    ensures Distance(p + s + t, b) <= Distance(p + s' + t, b) + 1
    decreases |t| + |b|
  {
    if b != [] {
      var b', y := b[..|b| - 1], b[|b| - 1];
      assert b == b' + [y];
      OneChange(p, s, s', t, b');
      if t == [] {
        assert p + s + t == p + s && p + s' + t == p + s';
        OneChangeAtEnd(p, s, s', b', y);
      } else {
        var t', z := t[..|t| - 1], t[|t| - 1];
        assert p + s + t == p + s + t' + [z] && p + s' + t == p + s' + t' + [z];
        OneChange(p, s, s', t', b);
        OneChange(p, s, s', t', b');
        OneChangeBefore(p + s + t', p + s' + t', z, b', y);
      }
    }
  }

  lemma OneEdit(a: string, e: Edit, b: string)
    requires e.Fits(a)
    ensures Distance(a, b) <= Distance(e.Do(a), b) + 1
  {
    var i := e.at;
    match e {
      case Insert(_, c) =>
        assert a == a[..i] + [] + a[i..];
        OneChange(a[..i], [], [c], a[i..], b);
      case Delete(_) =>
        assert a == a[..i] + [a[i]] + a[i + 1..] && e.Do(a) == a[..i] + [] + a[i + 1..];
        OneChange(a[..i], [a[i]], [], a[i + 1..], b);
      case Substitute(_, c) =>
        assert a == a[..i] + [a[i]] + a[i + 1..] && e.Do(a) == a[..i] + [c] + a[i + 1..];
        OneChange(a[..i], [a[i]], [c], a[i + 1..], b);
    }
  }

  /** The distance is at least the difference of the lengths. */
  lemma {:induction false} DistanceAtLeast(a: string, b: string)
    ensures |a| - |b| <= Distance(a, b) && |b| - |a| <= Distance(a, b)
    decreases |a| + |b|
  {
    if a != [] && b != [] {
      var n, m := |a| - 1, |b| - 1;
      DistanceAtLeast(a[..n], b);
      DistanceAtLeast(a, b[..m]);
      DistanceAtLeast(a[..n], b[..m]);
    }
  }

  lemma {:induction false} DistanceToSelf(a: string)
    ensures Distance(a, a) == 0
  {
    if a != [] {
      DistanceToSelf(a[..|a| - 1]);
    }
  }

  lemma {:induction false} NoShorterScript(script: seq<Edit>, a: string, b: string)
    requires Turns(script, a, b)
    ensures Distance(a, b) <= |script|
  {
    if script == [] {
      DistanceToSelf(a);
    } else {
      NoShorterScript(script[1..], script[0].Do(a), b);
      OneEdit(a, script[0], b);
    }
  }

  /** The rows compute the length of a shortest edit script. */
  lemma DistanceIsShortest(a: string, b: string)
    ensures IsShortest(a, b, Distance(a, b))
  {
    var script := ShortScript(a, b);
    forall other: seq<Edit> | Turns(other, a, b)
      ensures Distance(a, b) <= |other|
    {
      NoShorterScript(other, a, b);
    }
  }

  // ---------------------------------------------------------------- a metric

  lemma UndoDoes(e: Edit, a: string)
    requires e.Fits(a)
    ensures e.Undo(a).Fits(e.Do(a)) && e.Undo(a).Do(e.Do(a)) == a
  {
  }

  lemma {:induction false} Reversed(script: seq<Edit>, a: string, b: string) returns (back: seq<Edit>)
    requires Turns(script, a, b)
    ensures |back| == |script| && Turns(back, b, a)
  {
    back := [];
    if script != [] {
      var e := script[0];
      back := Reversed(script[1..], e.Do(a), b);
      UndoDoes(e, a);
      TurnsMore(back, b, e.Do(a), e.Undo(a));
      back := back + [e.Undo(a)];
    }
  }

  lemma {:induction false} Chained(first: seq<Edit>, a: string, b: string, second: seq<Edit>, c: string)
    requires Turns(first, a, b) && Turns(second, b, c)
    ensures Turns(first + second, a, c)
  {
    if first == [] {
      assert first + second == second;
    } else {
      assert (first + second)[0] == first[0] && (first + second)[1..] == first[1..] + second;
      Chained(first[1..], first[0].Do(a), b, second, c);
    }
  }

  lemma Metric(a: string, b: string, c: string)
    ensures Distance(a, b) == 0 <==> a == b
    ensures Distance(a, b) == Distance(b, a)
    ensures Distance(a, c) <= Distance(a, b) + Distance(b, c)
  {
    DistanceToSelf(a);
    var ab := ShortScript(a, b);
    var bc := ShortScript(b, c);
    var ba := ShortScript(b, a);
    var back := Reversed(ab, a, b);
    NoShorterScript(back, b, a);
    var forth := Reversed(ba, b, a);
    NoShorterScript(forth, a, b);
    Chained(ab, a, b, bc, c);
    NoShorterScript(ab + bc, a, c);
  }

  // ---------------------------------------------------------------- the two loops

  /** The first `n` entries of the row of `a`. */
  ghost predicate IsRow(row: seq<nat>, a: string, b: string, n: nat) {
    |row| == |b| + 1 && n <= |row| && forall j | 0 <= j < n :: row[j] == Distance(a, b[..j])
  }

  lemma RowStart(row: seq<nat>, a: string, b: string)
    requires |row| == |b| + 1 && row[0] == |a|
    ensures IsRow(row, a, b, 1)
  {
    assert b[..0] == [];
  }

  function Entry(prev: seq<nat>, cur: seq<nat>, x: char, b: string, j: nat): nat
    requires |prev| == |cur| == |b| + 1 && 0 < j <= |b|
  {
    Min3(prev[j] + 1, cur[j - 1] + 1, prev[j - 1] + Cost(x, b[j - 1]))
  }

  lemma RowStep(prev: seq<nat>, cur: seq<nat>, a: string, x: char, b: string, j: nat)
    requires 0 < j <= |b| && IsRow(prev, a, b, |b| + 1) && IsRow(cur, a + [x], b, j)
    ensures IsRow(cur[j := Entry(prev, cur, x, b, j)], a + [x], b, j + 1)
  {
    assert b[..j] == b[..j - 1] + [b[j - 1]];
    Recurrence(a, x, b[..j - 1], b[j - 1]);
  }

  /** The inner loop: the row below `prev`, in a new slice. */
  method NextRow(prev: array<nat>, a: string, i: nat, b: string) returns (cur: array<nat>)
    requires 0 < i <= |a| && IsRow(prev[..], a[..i - 1], b, |b| + 1)
    ensures IsRow(cur[..], a[..i], b, |b| + 1)
  {
    cur := new nat[|b| + 1](j => 0);
    cur[0] := i;
    RowStart(cur[..], a[..i], b);
    assert a[..i] == a[..i - 1] + [a[i - 1]];
    for j := 1 to |b| + 1
      invariant prev != cur && prev[..] == old(prev[..])
      invariant IsRow(cur[..], a[..i], b, j)
    {
      RowStep(prev[..], cur[..], a[..i - 1], a[i - 1], b, j);
      var cost: nat := 1;
      if a[i - 1] == b[j - 1] {
        cost := 0;
      }
      ghost var left, d := cur[..], Entry(prev[..], cur[..], a[i - 1], b, j);
      cur[j] := Min3(prev[j] + 1, cur[j - 1] + 1, prev[j - 1] + cost);
      assert cur[j] == d;
      assert cur[..] == left[j := d];
    }
  }

  /** Fills one row after the other; each row is a new slice. */
  method Levenshtein(a: string, b: string) returns (d: nat)
    ensures d == Distance(a, b)
  {
    var prev := new nat[|b| + 1](j => j);
    for i := 1 to |a| + 1
      invariant IsRow(prev[..], a[..i - 1], b, |b| + 1)
    {
      prev := NextRow(prev, a, i, b);
    }
    assert a[..|a|] == a && b[..|b|] == b;
    d := prev[|b|];
  }

  /** Bytes of a character in UTF-8. */
  function Width(c: char): nat {
    if c < '\U{80}' then 1 else if c < '\U{800}' then 2 else if c < '\U{10000}' then 3 else 4
  }

  function ByteLength(s: string): nat { Sum(Width, s) }

  const FAR := 0x4000_0000

  /** How far a suggestion may be: a third of the misspelt key's bytes and one, at least 2. */
  function Limit(bad: string): nat { Max(ByteLength(bad) / 3 + 1, 2) }

  /** The key at `i` is nearest, and no earlier one is as near. */
  ghost predicate IsFirstNearest(bad: string, legal: seq<string>, i: nat)
    requires i < |legal|
  {
    && (forall j | 0 <= j < |legal| :: Distance(bad, legal[i]) <= Distance(bad, legal[j]))
    && (forall j | 0 <= j < i :: Distance(bad, legal[i]) < Distance(bad, legal[j]))
  }

  /** The scan takes it. */
  predicate Taken(bad: string, key: string) { Distance(bad, key) <= Limit(bad) && Distance(bad, key) < FAR }

  /** What the scan answers: the first nearest key if it is taken, else nothing. */
  ghost predicate Answers(bad: string, legal: seq<string>, r: string) {
    if exists k <- legal :: Taken(bad, k) then
      exists i | 0 <= i < |legal| :: IsFirstNearest(bad, legal, i) && legal[i] == r
    else r == ""
  }

  /** Keeps the closest key seen. */
  method NearestKey(bad: string, legal: seq<string>) returns (best: string)
    ensures Answers(bad, legal, best)
  {
    best := "";
    var bestDist := FAR;
    ghost var at := 0;
    for i := 0 to |legal|
      invariant bestDist <= FAR && forall j | 0 <= j < i :: bestDist <= Distance(bad, legal[j])
      invariant bestDist == FAR ==> best == ""
      invariant bestDist < FAR ==> at < i && legal[at] == best && bestDist == Distance(bad, best)
      invariant bestDist < FAR ==> forall j | 0 <= j < at :: bestDist < Distance(bad, legal[j])
    {
      var d := Levenshtein(bad, legal[i]);
      if d < bestDist {
        best, bestDist, at := legal[i], d, i;
      }
    }
    var limit := ByteLength(bad) / 3 + 1;
    if limit < 2 {
      limit := 2;
    }
    assert limit == Limit(bad);
    if bestDist > limit {
      best := "";
    }
    if bestDist <= limit && bestDist < FAR {
      assert Taken(bad, legal[at]) && IsFirstNearest(bad, legal, at);
    } else {
      assert forall k <- legal :: !Taken(bad, k);
    }
  }

  predicate IsNearest(bad: string, legal: seq<string>, k: string) {
    k in legal && forall l <- legal :: Distance(bad, k) <= Distance(bad, l)
  }

  lemma AnswerIsNearest(bad: string, legal: seq<string>, r: string)
    requires Answers(bad, legal, r) && exists k <- legal :: Taken(bad, k)
    ensures IsNearest(bad, legal, r) && Taken(bad, r)
  {
    var k :| k in legal && Taken(bad, k);
    var i :| 0 <= i < |legal| && IsFirstNearest(bad, legal, i) && legal[i] == r;
    assert forall l <- legal :: Distance(bad, r) <= Distance(bad, l);
  }

  /** Whatever order the keys come in, they give one answer. */
  ghost predicate OneAnswer(bad: string, legal: seq<string>) {
    forall x: seq<string>, y: seq<string>, r, q
      | multiset(x) == multiset(y) == multiset(legal) && Answers(bad, x, r) && Answers(bad, y, q) :: r == q
  }

  lemma FirstOfSome(bad: string, legal: seq<string>, k: string) returns (x: seq<string>)
    requires IsNearest(bad, legal, k) && Taken(bad, k)
    ensures multiset(x) == multiset(legal) && Answers(bad, x, k)
  {
    var i :| 0 <= i < |legal| && legal[i] == k;
    x := [k] + legal[..i] + legal[i + 1..];
    assert multiset(x) == multiset(legal) by {
      assert legal == legal[..i] + [k] + legal[i + 1..];
    }
    assert x[0] in x && Taken(bad, x[0]);
    forall j | 0 <= j < |x|
      ensures Distance(bad, k) <= Distance(bad, x[j])
    {
      assert x[j] in multiset(x) && x[j] in legal;
    }
    assert IsFirstNearest(bad, x, 0);
  }

  /** The schema's keys come in no fixed order: it shows exactly when two nearest keys are within the limit. */
  lemma OrderShows(bad: string, legal: seq<string>)
    ensures OneAnswer(bad, legal) <==>
      forall k, l | IsNearest(bad, legal, k) && IsNearest(bad, legal, l) && Taken(bad, k) :: k == l
  {
    if k, l :| IsNearest(bad, legal, k) && IsNearest(bad, legal, l) && Taken(bad, k) && k != l {
      var x := FirstOfSome(bad, legal, k);
      var y := FirstOfSome(bad, legal, l);
    } else {
      forall x: seq<string>, y: seq<string>, r, q
        | multiset(x) == multiset(y) == multiset(legal) && Answers(bad, x, r) && Answers(bad, y, q)
        ensures r == q
      {
        assert forall l :: l in x <==> l in multiset(legal);
        assert forall l :: l in y <==> l in multiset(legal);
        if exists k <- legal :: Taken(bad, k) {
          AnswerIsNearest(bad, x, r);
          AnswerIsNearest(bad, y, q);
          assert IsNearest(bad, legal, r) && IsNearest(bad, legal, q);
        }
      }
    }
  }

  // ---------------------------------------------------------------- what is documented

  /** Within a third of the longer of the two, or within 2. */
  predicate CloseEnough(bad: string, k: string) {
    Distance(bad, k) <= 2 || 3 * Distance(bad, k) <= Max(|bad|, |k|)
  }

  /** A nearest key that is close enough if there is one, else nothing. */
  ghost predicate Documented(bad: string, legal: seq<string>, r: string) {
    if exists k <- legal :: IsNearest(bad, legal, k) && CloseEnough(bad, k) then
      IsNearest(bad, legal, r) && CloseEnough(bad, r)
    else r == ""
  }

  /** A nearest key is close enough, and the limit, taken from the misspelt key alone, leaves it out. */
  ghost predicate Missed(bad: string, legal: seq<string>) {
    exists k <- legal :: IsNearest(bad, legal, k) && CloseEnough(bad, k) && !Taken(bad, k)
  }

  /** The first nearest key is within the limit and is not close enough. */
  ghost predicate Overreached(bad: string, legal: seq<string>) {
    exists i | 0 <= i < |legal| :: IsFirstNearest(bad, legal, i) && Taken(bad, legal[i]) && !CloseEnough(bad, legal[i])
  }

  lemma OneFirstNearest(bad: string, legal: seq<string>, i: nat, j: nat)
    requires i < |legal| && j < |legal| && IsFirstNearest(bad, legal, i) && IsFirstNearest(bad, legal, j)
    ensures i == j
  {
    var d := seq(|legal|, n requires 0 <= n < |legal| => Distance(bad, legal[n]));
    assert d[i] <= d[j] && d[j] <= d[i];
  }

  /** The answer is as documented exactly when no key is missed and none overreached. */
  lemma DocumentedExactly(bad: string, legal: seq<string>, r: string)
    requires "" !in legal && Answers(bad, legal, r)
    ensures Documented(bad, legal, r) <==> !Missed(bad, legal) && !Overreached(bad, legal)
  {
    if exists k <- legal :: Taken(bad, k) {
      AnswerIsNearest(bad, legal, r);
      var i :| 0 <= i < |legal| && IsFirstNearest(bad, legal, i) && legal[i] == r;
      assert !Missed(bad, legal) by {
        assert forall k <- legal :: IsNearest(bad, legal, k) ==> Distance(bad, k) == Distance(bad, r);
      }
      forall j | 0 <= j < |legal| && IsFirstNearest(bad, legal, j)
        ensures legal[j] == r
      {
        OneFirstNearest(bad, legal, i, j);
      }
      assert Overreached(bad, legal) <==> !CloseEnough(bad, r);
    }
  }

  // ---------------------------------------------------------------- when it is met whatever is legal

  lemma {:induction false} LengthInBytes(s: string)
    ensures |s| <= ByteLength(s)
  {
    if s != [] {
      LengthInBytes(s[1..]);
    }
  }

  lemma {:induction false} DistanceToLonger(a: string, t: string)
    ensures Distance(a, a + t) == Distance(a + t, a) == |t|
  {
    if t == [] {
      assert a + t == a;
      DistanceToSelf(a);
    } else {
      var t', x := t[..|t| - 1], t[|t| - 1];
      assert a + t == (a + t') + [x];
      DistanceToLonger(a, t');
      OneMore(a, a + t', x);
      DistanceAtLeast(a, a + t);
    }
    Metric(a, a + t, a);
  }

  /** One legal key: the answer is wrong when it is taken without being close enough, or the other way round. */
  lemma OneKeyDiffers(bad: string, k: string)
    requires k != "" && (Taken(bad, k) <==> !CloseEnough(bad, k))
    ensures exists legal: seq<string>, r :: "" !in legal && Answers(bad, legal, r) && !Documented(bad, legal, r)
  {
    var legal, r := [k], if Taken(bad, k) then k else "";
    assert legal[0] in legal && IsFirstNearest(bad, legal, 0) && IsNearest(bad, legal, k);
    assert Answers(bad, legal, r);
    assert !Documented(bad, legal, r);
  }

  /** For a key of six bytes or more some schema makes the limit too wide or too narrow. */
  lemma LongKeyDiffers(bad: string)
    requires 6 <= ByteLength(bad)
    ensures exists legal: seq<string>, r :: "" !in legal && Answers(bad, legal, r) && !Documented(bad, legal, r)
  {
    LengthInBytes(bad);
    if |bad| < 6 {
      DistanceToLonger(bad, "aaa");
      OneKeyDiffers(bad, bad + "aaa");
    } else if |bad| < 2 * FAR {
      var n := |bad| / 3 + 1;
      var k := bad[..|bad| - n];
      assert bad == k + bad[|bad| - n..];
      DistanceToLonger(k, bad[|bad| - n..]);
      OneKeyDiffers(bad, k);
    } else {
      var far := seq(FAR, i => 'a');
      DistanceToLonger(bad, far);
      OneKeyDiffers(bad, bad + far);
    }
  }

  /** The answers are the documented ones, whatever is legal, exactly for keys of fewer than six bytes. */
  lemma DocumentedForShortKeys(bad: string)
    ensures ByteLength(bad) < 6 <==>
      forall legal: seq<string>, r | "" !in legal && Answers(bad, legal, r) :: Documented(bad, legal, r)
  {
    if ByteLength(bad) < 6 {
      forall legal: seq<string>, r | "" !in legal && Answers(bad, legal, r)
        ensures Documented(bad, legal, r)
      {
        LengthInBytes(bad);
        forall k: string
          ensures CloseEnough(bad, k) <==> Taken(bad, k)
        {
          DistanceAtLeast(bad, k);
        }
        DocumentedExactly(bad, legal, r);
      }
    } else {
      LongKeyDiffers(bad);
    }
  }

  // ---------------------------------------------------------------- two families it fails on

  /** A common ending makes nothing dearer. */
  lemma {:induction false} SameEnding(a: string, b: string, s: string)
    ensures Distance(a + s, b + s) <= Distance(a, b)
  {
    if s == [] {
      assert a + s == a && b + s == b;
    } else {
      var s', z := s[..|s| - 1], s[|s| - 1];
      assert a + s == a + s' + [z] && b + s == b + s' + [z];
      SameEnding(a, b, s');
      Recurrence(a + s', z, b + s', z);
    }
  }

  /** A key with a part left out is at that part's length. */
  lemma PartLeftOut(p: string, m: string, s: string)
    ensures Distance(p + s, p + m + s) == |m|
  {
    DistanceToLonger(p, m);
    SameEnding(p, p + m, s);
    DistanceAtLeast(p + s, p + m + s);
  }

  /** When the nearest key is `bad` with a part put in: nothing is suggested, and a suggestion was promised. */
  lemma PartLeftOutMissed(p: string, m: string, s: string, legal: seq<string>, r: string)
    requires IsNearest(p + s, legal, p + m + s) && Limit(p + s) < |m| && Answers(p + s, legal, r)
    ensures r == ""
    ensures 2 * |m| <= |p + s| ==> Missed(p + s, legal) && !Documented(p + s, legal, "")
  {
    PartLeftOut(p, m, s);
    assert forall k <- legal :: |m| <= Distance(p + s, k);
    if 2 * |m| <= |p + s| {
      assert CloseEnough(p + s, p + m + s) && !Taken(p + s, p + m + s);
    }
  }

  lemma {:induction false} AsciiLength(s: string)
    requires forall c <- s :: c < '\U{80}'
    ensures ByteLength(s) == |s|
  {
    if s != [] {
      assert s[0] in s && forall c <- s[1..] :: c in s;
      AsciiLength(s[1..]);
    }
  }

  const BEFORE := "open_egress_"
  const MIDDLE := "during_"
  const AFTER := "build"

  lemma SchemaKeyLimit()
    ensures Limit(BEFORE + AFTER) == 6
  {
    assert forall c <- BEFORE :: c < '\U{80}';
    assert forall c <- AFTER :: c < '\U{80}';
    AsciiLength(BEFORE + AFTER);
  }

  /** A key of the schema without its middle word: 7 away, a limit of 6, and 7 is within a third of 24. */
  lemma SchemaKeyMissed(legal: seq<string>, r: string)
    requires IsNearest(BEFORE + AFTER, legal, BEFORE + MIDDLE + AFTER)
    requires Answers(BEFORE + AFTER, legal, r)
    ensures r == "" && !Documented(BEFORE + AFTER, legal, r)
  {
    SchemaKeyLimit();
    PartLeftOutMissed(BEFORE, MIDDLE, AFTER, legal, r);
  }

  /** Strings without a common character are as far apart as the longer one is long. */
  lemma {:induction false} NothingInCommon(a: string, b: string)
    requires forall c <- a :: c !in b
    ensures Distance(a, b) == Max(|a|, |b|)
    decreases |a| + |b|
  {
    if a != [] && b != [] {
      var n, m := |a| - 1, |b| - 1;
      assert a[n] !in b && b[m] in b;
      NothingInCommon(a[..n], b);
      NothingInCommon(a, b[..m]);
      NothingInCommon(a[..n], b[..m]);
    }
  }

  /**
   * A key that shares no character with the misspelt one is suggested exactly when both are as short as the
   * limit. The rule allows it for two characters only; the limit counts bytes, so wider characters raise it.
   */
  lemma WildTypo(bad: string, k: string, r: string)
    requires k != "" && Answers(bad, [k], r) && forall c <- bad :: c !in k
    ensures r == k <==> Max(|bad|, |k|) <= Limit(bad) && Max(|bad|, |k|) < FAR
    ensures Documented(bad, [k], r) <==> (r == k <==> Max(|bad|, |k|) <= 2)
  {
    NothingInCommon(bad, k);
    assert [k][0] == k;
    assert IsNearest(bad, [k], k);
  }

  /** Four emoji: 16 bytes and so a limit of 6. */
  lemma EmojiSuggestsName(r: string)
    requires Answers("\U{1F600}\U{1F600}\U{1F600}\U{1F600}", ["name"], r)
    ensures r == "name" && !Documented("\U{1F600}\U{1F600}\U{1F600}\U{1F600}", ["name"], r)
  {
    WildTypo("\U{1F600}\U{1F600}\U{1F600}\U{1F600}", "name", r);
  }

  /** A key of the wrong length alone can lie past the cap, and then only under a limit that reaches it. */
  lemma CapDecides(bad: string)
    ensures (exists k :: Distance(bad, k) <= Limit(bad) && !Taken(bad, k)) <==> FAR <= Limit(bad)
  {
    if FAR <= Limit(bad) {
      var far := seq(FAR, i => 'a');
      DistanceToLonger(bad, far);
      assert Distance(bad, bad + far) <= Limit(bad) && !Taken(bad, bad + far);
    }
  }
}
