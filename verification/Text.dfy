// Splitting and joining on a separator character, white space, and decimal numbers.
module Text {
  import opened Prelude

  /** The pieces of `s` between separators; one more than there are separators. */
  function Split(s: string, sep: char): (parts: seq<string>)
    ensures parts != []
  {
    if s == "" then [""]
    else
      var rest := Split(s[1..], sep);
      if s[0] == sep then [""] + rest else [[s[0]] + rest[0]] + rest[1..]
  }

  function Join(parts: seq<string>, sep: char): string {
    if parts == [] then "" else if |parts| == 1 then parts[0] else parts[0] + [sep] + Join(parts[1..], sep)
  }

  predicate Free(s: string, sep: char) { sep !in s }

  lemma {:induction false} SplitFree(s: string, sep: char)
    requires Free(s, sep)
    ensures Split(s, sep) == [s]
  {
    if s != "" {
      SplitFree(s[1..], sep);
      assert [s[0]] + s[1..] == s;
    }
  }

  /** A first piece without separators comes back whole. */
  lemma {:induction false} SplitHead(head: string, rest: string, sep: char)
    requires Free(head, sep)
    ensures Split(head + [sep] + rest, sep) == [head] + Split(rest, sep)
  {
    var s := head + [sep] + rest;
    if head == "" {
      assert s[1..] == rest;
    } else {
      assert s[1..] == head[1..] + [sep] + rest;
      SplitHead(head[1..], rest, sep);
      assert [head[0]] + head[1..] == head;
    }
  }

  /** Splitting undoes joining when no part has a separator. */
  lemma {:induction false} SplitJoin(parts: seq<string>, sep: char)
    requires parts != [] && forall p <- parts :: Free(p, sep)
    ensures Split(Join(parts, sep), sep) == parts
  {
    if |parts| == 1 {
      SplitFree(parts[0], sep);
    } else {
      SplitJoin(parts[1..], sep);
      SplitHead(parts[0], Join(parts[1..], sep), sep);
      assert parts == [parts[0]] + parts[1..];
    }
  }

  lemma Reassociate(a: string, b: string, c: string)
    ensures a + b + c == a + (b + c)
  {
  }

  lemma JoinMore(x: char, rest: seq<string>, sep: char)
    requires rest != []
    ensures Join([""] + rest, sep) == [sep] + Join(rest, sep)
    ensures Join([[x] + rest[0]] + rest[1..], sep) == [x] + Join(rest, sep)
  {
    assert ([""] + rest)[1..] == rest && "" + [sep] == [sep];
    var parts := [[x] + rest[0]] + rest[1..];
    assert parts[1..] == rest[1..];
    if |rest| > 1 {
      assert [x] + rest[0] + [sep] + Join(rest[1..], sep) == [x] + (rest[0] + [sep] + Join(rest[1..], sep));
    }
  }

  /** Joining undoes splitting, and the parts have no separator. */
  lemma {:induction false} JoinSplit(s: string, sep: char)
    ensures Join(Split(s, sep), sep) == s
    ensures forall p <- Split(s, sep) :: Free(p, sep)
  {
    if s != "" {
      JoinSplit(s[1..], sep);
      var rest := Split(s[1..], sep);
      JoinMore(s[0], rest, sep);
      assert s == [s[0]] + s[1..];
      forall p <- Split(s, sep)
        ensures Free(p, sep)
      {
        assert rest[0] in rest;
        assert p in rest || p == "" || p == [s[0]] + rest[0];
      }
    }
  }

  /** The pieces when one more character comes at the end. */
  function Extended(parts: seq<string>, c: char, sep: char): seq<string>
    requires parts != []
  {
    var last := |parts| - 1;
    if c == sep then parts + [""] else parts[..last] + [parts[last] + [c]]
  }

  lemma ExtendedTail(head: string, rest: seq<string>, c: char, sep: char)
    requires rest != []
    ensures Extended([head] + rest, c, sep) == [head] + Extended(rest, c, sep)
  {
    var parts := [head] + rest;
    assert parts[..|rest|] == [head] + rest[..|rest| - 1] && parts[|rest|] == rest[|rest| - 1];
  }

  lemma ExtendedHead(x: char, rest: seq<string>, c: char, sep: char)
    requires rest != []
    ensures var more := Extended(rest, c, sep);
      more != [] && Extended([[x] + rest[0]] + rest[1..], c, sep) == [[x] + more[0]] + more[1..]
  {
    var parts := [[x] + rest[0]] + rest[1..];
    if |rest| == 1 {
      assert [x] + rest[0] + [c] == [x] + (rest[0] + [c]);
    } else {
      ExtendedTail([x] + rest[0], rest[1..], c, sep);
      ExtendedTail(rest[0], rest[1..], c, sep);
      assert rest == [rest[0]] + rest[1..];
    }
  }

  /** Splitting a longer string: the last piece of the first part runs into the first of the second. */
  lemma {:induction false} SplitSnoc(s: string, c: char, sep: char)
    ensures Split(s + [c], sep) == Extended(Split(s, sep), c, sep)
  {
    if s == "" {
      assert s + [c] == [c] && [c][1..] == "" && [c] + "" == [c];
      assert Extended([""], c, sep) == if c == sep then ["", ""] else [[c]];
    } else {
      assert (s + [c])[1..] == s[1..] + [c];
      SplitSnoc(s[1..], c, sep);
      ExtendedTail("", Split(s[1..], sep), c, sep);
      ExtendedHead(s[0], Split(s[1..], sep), c, sep);
    }
  }

  /** How far the line goes. */
  function ToNewline(t: string): (n: nat)
    ensures n <= |t|
  {
    if t == "" || t[0] == '\n' then 0 else 1 + ToNewline(t[1..])
  }

  /** Unicode white space. */
  predicate IsSpace(c: char) {
    || '\t' <= c <= '\r' || c == ' ' || c == '\U{85}' || c == '\U{A0}' || c == '\U{1680}'
    || '\U{2000}' <= c <= '\U{200A}' || c == '\U{2028}' || c == '\U{2029}' || c == '\U{202F}' || c == '\U{205F}'
    || c == '\U{3000}'
  }

  function TrimSpace(s: string): string {
    if s == "" then ""
    else if IsSpace(s[0]) then TrimSpace(s[1..])
    else if IsSpace(s[|s| - 1]) then TrimSpace(s[..|s| - 1])
    else s
  }

  predicate IsDigit(c: char) { '0' <= c <= '9' }

  /** The value of a string of decimal digits. */
  function Decimal(s: string): Option<nat> {
    if s == "" then None
    else
      var last := s[|s| - 1];
      if !IsDigit(last) then None
      else if |s| == 1 then Some(last as nat - '0' as nat)
      else
        var before := Decimal(s[..|s| - 1]);
        if before.None? then None else Some(before.value * 10 + (last as nat - '0' as nat))
  }

  lemma {:induction false} DecimalDigits(s: string)
    requires Decimal(s).Some?
    ensures s != "" && forall c <- s :: IsDigit(c)
  {
    if |s| > 1 {
      DecimalDigits(s[..|s| - 1]);
      assert s == s[..|s| - 1] + [s[|s| - 1]];
    }
  }

  /** A number written in decimal. */
  function Digits(n: nat): string {
    if n < 10 then [('0' as int + n) as char] else Digits(n / 10) + [('0' as int + n % 10) as char]
  }

  /** Reading undoes writing, so no two numbers are written alike. */
  lemma {:induction false} DecimalOfDigits(n: nat)
    ensures Decimal(Digits(n)) == Some(n)
  {
    if n >= 10 {
      DecimalOfDigits(n / 10);
      var s := Digits(n);
      assert s[..|s| - 1] == Digits(n / 10);
    }
  }
}
