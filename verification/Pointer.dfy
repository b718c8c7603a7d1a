// Splitting a JSON pointer into its unescaped tokens (RFC 6901).
module Pointer {
  import opened Text

  /** Every occurrence of `from`, leftmost first and not overlapping, becomes `to`. */
  function Replaced(s: string, from: string, to: string): string
    requires from != ""
  {
    if s == "" then ""
    else if from <= s then to + Replaced(s[|from|..], from, to)
    else [s[0]] + Replaced(s[1..], from, to)
  }

  /** Writing a token: section 3 of RFC 6901. */
  function Escape(token: string): string {
    if token == "" then ""
    else (if token[0] == '~' then "~0" else if token[0] == '/' then "~1" else [token[0]]) + Escape(token[1..])
  }

  /** Reading a token in one pass: section 4 of RFC 6901. A tilde that escapes nothing stands for itself. */
  function Unescape(s: string): string {
    if s == "" then ""
    else if "~1" <= s then "/" + Unescape(s[2..])
    else if "~0" <= s then "~" + Unescape(s[2..])
    else [s[0]] + Unescape(s[1..])
  }

  /** The pointer with these tokens. */
  function PointerTo(tokens: seq<string>): string {
    if tokens == [] then "" else "/" + Escape(tokens[0]) + PointerTo(tokens[1..])
  }

  function NonEmpty(tokens: seq<string>): seq<string> {
    if tokens == [] then [] else (if tokens[0] == "" then [] else [tokens[0]]) + NonEmpty(tokens[1..])
  }

  function Unescaped(parts: seq<string>): seq<string> {
    if parts == [] then [] else (if parts[0] == "" then [] else [Unescape(parts[0])]) + Unescaped(parts[1..])
  }

  // ---------------------------------------------------------------- two passes are one

  /** After the first pass a leading `~0` was there before it. */
  lemma FirstPassMakesNoTilde(s: string)
    requires "~0" <= Replaced(s, "~1", "/")
    ensures "~0" <= s
  {
    var once := Replaced(s, "~1", "/");
    assert once == [s[0]] + Replaced(s[1..], "~1", "/");
  }

  /** Replacing `~1` first can neither make nor break a `~0`, so the two passes read what one pass reads. */
  lemma {:induction false} TwoPassesAreOne(s: string)
    ensures Replaced(Replaced(s, "~1", "/"), "~0", "~") == Unescape(s)
  {
    if s != "" {
      if "~1" <= s {
        var rest := Replaced(s[2..], "~1", "/");
        TwoPassesAreOne(s[2..]);
        assert ("/" + rest)[1..] == rest;
      } else {
        var rest := Replaced(s[1..], "~1", "/");
        var once := [s[0]] + rest;
        assert once[1..] == rest;
        if "~0" <= s {
          var tail := Replaced(s[2..], "~1", "/");
          assert s[1..][0] == '0' && s[1..][1..] == s[2..];
          assert rest == ['0'] + tail && once == "~0" + tail && once[2..] == tail;
          TwoPassesAreOne(s[2..]);
        } else {
          if "~0" <= once {
            FirstPassMakesNoTilde(s);
          }
          TwoPassesAreOne(s[1..]);
        }
      }
    }
  }

  lemma {:induction false} UnescapeEscape(token: string)
    ensures Unescape(Escape(token)) == token && Free(Escape(token), '/')
    ensures Escape(token) == "" <==> token == ""
  {
    if token != "" {
      var rest := Escape(token[1..]);
      UnescapeEscape(token[1..]);
      if token[0] == '~' {
        assert ("~0" + rest)[2..] == rest;
      } else if token[0] == '/' {
        assert ("~1" + rest)[2..] == rest;
      } else {
        assert ([token[0]] + rest)[1..] == rest && ([token[0]] + rest)[0] == token[0];
      }
    }
  }

  // ---------------------------------------------------------------- round trip

  function Escaped(tokens: seq<string>): seq<string> {
    if tokens == [] then [] else [Escape(tokens[0])] + Escaped(tokens[1..])
  }

  lemma {:induction false} SplitPointerTo(tokens: seq<string>)
    ensures Split(PointerTo(tokens), '/') == [""] + Escaped(tokens)
  {
    if tokens != [] {
      SplitEscaped(tokens);
      var rest := Escape(tokens[0]) + PointerTo(tokens[1..]);
      assert PointerTo(tokens) == "" + ['/'] + rest;
      SplitHead("", rest, '/');
    }
  }

  lemma {:induction false} SplitEscaped(tokens: seq<string>)
    requires tokens != []
    ensures Split(Escape(tokens[0]) + PointerTo(tokens[1..]), '/') == Escaped(tokens)
  {
    UnescapeEscape(tokens[0]);
    if |tokens| == 1 {
      SplitFree(Escape(tokens[0]), '/');
      assert Escape(tokens[0]) + "" == Escape(tokens[0]);
    } else {
      SplitEscaped(tokens[1..]);
      var rest := Escape(tokens[1]) + PointerTo(tokens[2..]);
      assert tokens[1..][1..] == tokens[2..];
      SlashBetween(Escape(tokens[0]), Escape(tokens[1]), PointerTo(tokens[2..]));
      SplitHead(Escape(tokens[0]), rest, '/');
    }
  }

  lemma SlashBetween(a: string, b: string, c: string)
    ensures a + ("/" + b + c) == a + ['/'] + (b + c)
  {
    assert "/" + b + c == "/" + (b + c);
  }

  lemma {:induction false} UnescapedEscaped(tokens: seq<string>)
    ensures Unescaped(Escaped(tokens)) == NonEmpty(tokens)
  {
    if tokens != [] {
      UnescapeEscape(tokens[0]);
      UnescapedEscaped(tokens[1..]);
    }
  }

  lemma {:induction false} NonEmptyIsAll(tokens: seq<string>)
    ensures NonEmpty(tokens) == tokens <==> "" !in tokens
    ensures |NonEmpty(tokens)| <= |tokens|
  {
    if tokens != [] {
      NonEmptyIsAll(tokens[1..]);
      assert tokens == [tokens[0]] + tokens[1..];
    }
  }

  /** Splitting the pointer to some tokens gives the non-empty ones: all of them exactly when none is empty. */
  lemma RoundTrip(tokens: seq<string>)
    ensures Unescaped(Split(PointerTo(tokens), '/')) == NonEmpty(tokens)
    ensures Unescaped(Split(PointerTo(tokens), '/')) == tokens <==> "" !in tokens
  {
    SplitPointerTo(tokens);
    assert ([""] + Escaped(tokens))[1..] == Escaped(tokens);
    UnescapedEscaped(tokens);
    NonEmptyIsAll(tokens);
  }

  // ---------------------------------------------------------------- the loops

  method SplitSlash(s: string) returns (out: seq<string>)
    ensures out == Split(s, '/')
  {
    out := [];
    var start := 0;
    for i := 0 to |s|
      invariant start <= i && out + [s[start..i]] == Split(s[..i], '/')
    {
      assert s[..i + 1] == s[..i] + [s[i]];
      SplitSnoc(s[..i], s[i], '/');
      if s[i] == '/' {
        assert s[i + 1..i + 1] == "";
        out := out + [s[start..i]];
        start := i + 1;
      } else {
        assert s[start..i + 1] == s[start..i] + [s[i]] && (out + [s[start..i]])[..|out|] == out;
      }
    }
    assert s[..|s|] == s && s[start..|s|] == s[start..];
    out := out + [s[start..]];
  }

  lemma ReplacedHere(b: string, s: string, i: nat, from: string, to: string)
    requires from != "" && i + |from| <= |s| && s[i..i + |from|] == from
    ensures b + to + Replaced(s[i + |from|..], from, to) == b + Replaced(s[i..], from, to)
  {
    assert from <= s[i..] && s[i..][|from|..] == s[i + |from|..];
    assert b + to + Replaced(s[i + |from|..], from, to) == b + (to + Replaced(s[i + |from|..], from, to));
  }

  lemma KeptHere(b: string, s: string, i: nat, from: string, to: string)
    requires from != "" && i < |s| && !(i + |from| <= |s| && s[i..i + |from|] == from)
    ensures b + [s[i]] + Replaced(s[i + 1..], from, to) == b + Replaced(s[i..], from, to)
  {
    assert |from| <= |s[i..]| ==> s[i..][..|from|] == s[i..i + |from|];
    assert s[i..][1..] == s[i + 1..];
    assert b + [s[i]] + Replaced(s[i + 1..], from, to) == b + ([s[i]] + Replaced(s[i + 1..], from, to));
  }

  method ReplaceAll(s: string, from: string, to: string) returns (b: string)
    requires from != ""
    ensures b == Replaced(s, from, to)
  {
    b := "";
    var i := 0;
    while i < |s|
      invariant i <= |s| && b + Replaced(s[i..], from, to) == Replaced(s, from, to)
    {
      if i + |from| <= |s| && s[i..i + |from|] == from {
        ReplacedHere(b, s, i, from, to);
        b := b + to;
        i := i + |from|;
      } else {
        KeptHere(b, s, i, from, to);
        b := b + [s[i]];
        i := i + 1;
      }
    }
  }

  lemma UnescapedHere(out: seq<string>, parts: seq<string>, i: nat)
    requires i < |parts|
    ensures out + Unescaped(parts[i..]) ==
      out + (if parts[i] == "" then [] else [Unescape(parts[i])]) + Unescaped(parts[i + 1..])
  {
    assert parts[i..][1..] == parts[i + 1..];
    if parts[i] != "" {
      var first, later := [Unescape(parts[i])], Unescaped(parts[i + 1..]);
      assert out + (first + later) == out + first + later;
    } else {
      assert out + [] == out;
    }
  }

  /** A pointer's tokens, the empty ones skipped. */
  method SplitPointer(ptr: string) returns (out: seq<string>)
    ensures out == Unescaped(Split(ptr, '/'))
    ensures forall tokens: seq<string> :: ptr == PointerTo(tokens) && "" !in tokens ==> out == tokens
  {
    var parts := SplitSlash(ptr);
    out := [];
    for i := 0 to |parts|
      invariant out + Unescaped(parts[i..]) == Unescaped(parts)
    {
      UnescapedHere(out, parts, i);
      var p := parts[i];
      if p != "" {
        p := ReplaceAll(p, "~1", "/");
        p := ReplaceAll(p, "~0", "~");
        TwoPassesAreOne(parts[i]);
        out := out + [p];
      }
    }
    forall tokens: seq<string> | ptr == PointerTo(tokens) && "" !in tokens
      ensures out == tokens
    {
      RoundTrip(tokens);
    }
  }
}
