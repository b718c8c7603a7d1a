// Removing comments from JSON with comments, against a token grammar.
module JsonComments {
  import opened Text

  /** A string literal, a line comment and whether a newline follows it, a block comment, or any other character. */
  datatype Token = Literal(text: string) | Line(text: string, newline: bool) | Block(text: string) | Other(c: char) {
    function Source(): string {
      match this
      case Literal(t) => t
      case Line(t, newline) => if newline then t + "\n" else t
      case Block(t) => t
      case Other(c) => [c]
    }

    /** What is left of the token: literals whole, a line comment's newline, nothing of a block comment. */
    function Kept(): string {
      match this
      case Literal(t) => t
      case Line(_, newline) => if newline then "\n" else ""
      case Block(_) => ""
      case Other(c) => [c]
    }

    predicate IsComment() { Line? || Block? }
  }

  // ---------------------------------------------------------------- the grammar

  predicate Begins(s: string, x: char, y: char) { 2 <= |s| && s[0] == x && s[1] == y }

  /** The rest of a literal up to and with its closing quote; a backslash takes the next character with it. */
  predicate Closes(t: string) {
    t != "" && (if t[0] == '\\' then 2 <= |t| && Closes(t[2..]) else if t[0] == '"' then |t| == 1 else Closes(t[1..]))
  }

  /** The rest of a literal that is never closed. */
  predicate StaysOpen(t: string) {
    t == "" || (if t[0] == '\\' then |t| == 1 || StaysOpen(t[2..]) else t[0] != '"' && StaysOpen(t[1..]))
  }

  predicate EndsBlock(t: string, at: nat) { at + 2 <= |t| && t[at] == '*' && t[at + 1] == '/' }

  /** `tok` is the token a text starts with when `rest` is what follows it. */
  ghost predicate Is(tok: Token, rest: string) {
    match tok
    case Literal(t) => t != "" && t[0] == '"' && (Closes(t[1..]) || (rest == "" && StaysOpen(t[1..])))
    case Line(t, newline) => Begins(t, '/', '/') && '\n' !in t && (newline || rest == "")
    case Block(t) =>
      && Begins(t, '/', '*')
      && (forall i | 2 <= i < |t| - 2 :: !EndsBlock(t, i))
      && ((4 <= |t| && EndsBlock(t, |t| - 2)) || (rest == "" && !(4 <= |t| && EndsBlock(t, |t| - 2))))
    case Other(c) => c != '"' && !Begins([c] + rest, '/', '/') && !Begins([c] + rest, '/', '*')
  }

  function Source(toks: seq<Token>): string {
    if toks == [] then "" else toks[0].Source() + Source(toks[1..])
  }

  function Kept(toks: seq<Token>): string {
    if toks == [] then "" else toks[0].Kept() + Kept(toks[1..])
  }

  /** Each token is what the grammar says before what follows it. */
  ghost predicate Grammatical(toks: seq<Token>) {
    toks == [] || (Is(toks[0], Source(toks[1..])) && Grammatical(toks[1..]))
  }

  predicate HasComment(toks: seq<Token>) {
    exists i | 0 <= i < |toks| :: toks[i].IsComment()
  }

  // ---------------------------------------------------------------- a scanner for it

  /** Characters of a literal left, the closing quote included. */
  function LiteralLeft(t: string, escaped: bool): (n: nat)
    ensures n <= |t|
  {
    if t == "" then 0
    else if !escaped && t[0] == '"' then 1
    else 1 + LiteralLeft(t[1..], !escaped && t[0] == '\\')
  }

  /** Characters of a block comment left, its end included. */
  function BlockLeft(t: string): (n: nat)
    ensures n <= |t|
  {
    if t == "" then 0 else if EndsBlock(t, 0) then 2 else 1 + BlockLeft(t[1..])
  }

  lemma {:induction false} NewlineIsNext(t: string)
    ensures var n := ToNewline(t); '\n' !in t[..n] && (n < |t| ==> t[n] == '\n')
  {
    if t != "" && t[0] != '\n' {
      NewlineIsNext(t[1..]);
      assert t[..ToNewline(t)] == [t[0]] + t[1..][..ToNewline(t) - 1];
    }
  }

  lemma {:induction false} BlockEndIsNext(t: string)
    ensures var n := BlockLeft(t);
      && (forall i | 0 <= i < n - 2 :: !EndsBlock(t, i))
      && ((2 <= n && EndsBlock(t, n - 2)) || (n == |t| && forall i | 0 <= i < |t| :: !EndsBlock(t, i)))
  {
    if t != "" && !EndsBlock(t, 0) {
      BlockEndIsNext(t[1..]);
      assert forall i | 1 <= i < |t| :: EndsBlock(t, i) == EndsBlock(t[1..], i - 1);
    }
  }

  function First(b: string): (tok: Token)
    requires b != ""
    ensures tok.Source() != "" && |tok.Source()| <= |b|
  {
    if b[0] == '"' then Literal(b[..1 + LiteralLeft(b[1..], false)])
    else if Begins(b, '/', '/') then
      var n := ToNewline(b);
      if n < |b| then Line(b[..n], true) else Line(b, false)
    else if Begins(b, '/', '*') then Block(b[..2 + BlockLeft(b[2..])])
    else Other(b[0])
  }

  function Tokens(b: string): seq<Token>
    decreases |b|
  {
    if b == "" then [] else [First(b)] + Tokens(b[|First(b).Source()|..])
  }

  lemma {:induction false} LiteralLeftCloses(t: string, n: nat)
    requires n <= |t|
    ensures n == LiteralLeft(t, false) <==> Closes(t[..n]) || (n == |t| && StaysOpen(t))
    decreases |t|
  {
    if t != "" && n != 0 {
      if t[0] == '\\' {
        if |t| == 1 {
          assert t[1..] == "" && t[..n] == t;
        } else if n == 1 {
          assert t[1..][1..] == t[2..];
        } else {
          assert t[..n][2..] == t[2..][..n - 2] && t[1..][1..] == t[2..];
          LiteralLeftCloses(t[2..], n - 2);
        }
      } else if t[0] != '"' {
        assert t[..n][1..] == t[1..][..n - 1];
        LiteralLeftCloses(t[1..], n - 1);
      }
    }
  }

  lemma {:induction false} NewlineAfter(t: string, tail: string)
    requires '\n' !in t && (tail == "" || tail[0] == '\n')
    ensures ToNewline(t + tail) == |t|
  {
    if t != "" {
      assert (t + tail)[1..] == t[1..] + tail;
      NewlineAfter(t[1..], tail);
    }
  }

  /** The token a text starts with is the scanner's. */
  lemma FirstIsTheOne(tok: Token, rest: string)
    ensures Is(tok, rest) ==> tok.Source() + rest != "" && First(tok.Source() + rest) == tok
  {
    if Is(tok, rest) {
      var b := tok.Source() + rest;
      match tok {
        case Literal(t) =>
          assert b[1..] == t[1..] + rest && b[1..][..|t| - 1] == t[1..];
          assert rest == "" ==> b[1..] == t[1..];
          LiteralLeftCloses(b[1..], |t| - 1);
          assert b[..|t|] == t;
        case Line(t, newline) =>
          var tail := if newline then "\n" + rest else "";
          assert b == t + tail && b[..|t|] == t;
          NewlineAfter(t, tail);
        case Block(t) =>
          BlockIsTheOne(t, rest);
        case Other(c) =>
          assert b == [c] + rest;
      }
    }
  }

  lemma BlockIsTheOne(t: string, rest: string)
    requires Is(Block(t), rest)
    ensures Begins(t + rest, '/', '*') && First(t + rest) == Block(t)
  {
    var b := t + rest;
    BlockEndIsNext(b[2..]);
    assert forall i | 0 <= i < |b| - 2 :: EndsBlock(b[2..], i) == EndsBlock(b, i + 2);
    assert forall i | 0 <= i < |t| - 1 :: EndsBlock(t, i) == EndsBlock(b, i);
    if 4 <= |t| && EndsBlock(t, |t| - 2) {
      assert EndsBlock(b[2..], |t| - 4);
    } else {
      assert b == t;
    }
    assert b[..|t|] == t;
  }

  /** The scanner's first token is one. */
  lemma FirstIsOne(b: string)
    requires b != ""
    ensures Is(First(b), b[|First(b).Source()|..]) && b == First(b).Source() + b[|First(b).Source()|..]
  {
    var tok := First(b);
    var rest := b[|tok.Source()|..];
    match tok {
      case Literal(t) =>
        assert t[1..] == b[1..][..|t| - 1];
        assert |t| == |b| ==> t[1..] == b[1..];
        LiteralLeftCloses(b[1..], |t| - 1);
      case Line(t, newline) =>
        NewlineIsNext(b);
      case Block(t) =>
        BlockEndIsNext(b[2..]);
        assert forall i | 2 <= i < |b| :: EndsBlock(b, i) == EndsBlock(b[2..], i - 2);
        assert forall i | 0 <= i < |t| - 1 :: EndsBlock(t, i) == EndsBlock(b, i);
      case Other(c) =>
        assert [c] + rest == b;
    }
  }

  lemma ScansFirst(tok: Token, rest: string)
    requires Is(tok, rest)
    ensures Tokens(tok.Source() + rest) == [tok] + Tokens(rest)
  {
    FirstIsTheOne(tok, rest);
    assert (tok.Source() + rest)[|tok.Source()|..] == rest;
  }

  lemma {:induction false} ReadingIsScanned(toks: seq<Token>)
    requires Grammatical(toks)
    ensures Tokens(Source(toks)) == toks
  {
    if toks != [] {
      ScansFirst(toks[0], Source(toks[1..]));
      ReadingIsScanned(toks[1..]);
      assert toks == [toks[0]] + toks[1..];
    }
  }

  lemma {:induction false} ScannedIsReading(b: string)
    ensures Grammatical(Tokens(b)) && Source(Tokens(b)) == b
    decreases |b|
  {
    if b != "" {
      var tok := First(b);
      var rest := b[|tok.Source()|..];
      FirstIsOne(b);
      ScannedIsReading(rest);
      assert ([tok] + Tokens(rest))[1..] == Tokens(rest);
    }
  }

  /** The grammar is unambiguous and covers every text: its one reading is the scanner's. */
  lemma OneReading(toks: seq<Token>, b: string)
    ensures Grammatical(toks) && Source(toks) == b <==> toks == Tokens(b)
  {
    ScannedIsReading(b);
    if Grammatical(toks) {
      ReadingIsScanned(toks);
    }
  }

  // ---------------------------------------------------------------- stripping

  /** The tokens that are left, a line comment's newline being an ordinary character. */
  function Cleaned(toks: seq<Token>): seq<Token> {
    if toks == [] then [] else Clean(toks[0]) + Cleaned(toks[1..])
  }

  function Clean(tok: Token): (r: seq<Token>)
    ensures |r| <= 1 && (r != [] ==> !r[0].IsComment() && r[0].Source() == tok.Kept()) && (r == [] ==> tok.Kept() == "")
  {
    match tok
    case Line(_, newline) => if newline then [Other('\n')] else []
    case Block(_) => []
    case _ => [tok]
  }

  lemma Consed(head: seq<Token>, rest: seq<Token>)
    requires |head| <= 1
    ensures Source(head + rest) == (if head == [] then "" else head[0].Source()) + Source(rest)
    ensures HasComment(head + rest) <==> (head != [] && head[0].IsComment()) || HasComment(rest)
  {
    var all := head + rest;
    if head == [] {
      assert all == rest;
    } else {
      assert all[1..] == rest && all[0] == head[0];
      assert forall i | 0 <= i < |rest| :: all[i + 1] == rest[i];
      assert forall i | 1 <= i < |all| :: all[i] == rest[i - 1];
    }
  }

  lemma {:induction false} CleanedSource(toks: seq<Token>)
    ensures Source(Cleaned(toks)) == Kept(toks) && !HasComment(Cleaned(toks))
    ensures !HasComment(toks) ==> Kept(toks) == Source(toks)
  {
    if toks != [] {
      CleanedSource(toks[1..]);
      Consed(Clean(toks[0]), Cleaned(toks[1..]));
      Consed([toks[0]], toks[1..]);
      assert toks == [toks[0]] + toks[1..];
    }
  }

  /** Removing comments joins no two characters into a comment, so what is left still reads as the tokens kept. */
  lemma {:induction false} CleanedGrammatical(toks: seq<Token>)
    requires Grammatical(toks)
    ensures Grammatical(Cleaned(toks))
  {
    if toks != [] {
      var head, rest := Clean(toks[0]), Cleaned(toks[1..]);
      CleanedGrammatical(toks[1..]);
      CleanedSource(toks[1..]);
      if head == [] {
        assert Cleaned(toks) == rest;
      } else {
        assert Cleaned(toks)[0] == head[0] && Cleaned(toks)[1..] == rest;
        CleanIs(toks[0], toks[1..]);
      }
    }
  }

  lemma CleanIs(tok: Token, rest: seq<Token>)
    requires Grammatical(rest) && Is(tok, Source(rest)) && Clean(tok) != []
    ensures Is(Clean(tok)[0], Kept(rest))
  {
    match tok {
      case Literal(t) =>
        if Source(rest) == "" {
          OneReading(rest, "");
        }
      case Line(_, _) =>
      case Other(c) => SlashStaysAlone(c, rest);
    }
  }

  lemma SlashStaysAlone(c: char, rest: seq<Token>)
    requires Grammatical(rest) && Is(Other(c), Source(rest))
    ensures Is(Other(c), Kept(rest))
  {
    if c == '/' && rest != [] {
      var next := rest[0].Source();
      assert Source(rest)[0] == next[0];
      assert !rest[0].IsComment();
      assert Kept(rest)[0] == next[0];
    }
  }

  /** What stripping means: the one reading's tokens without the comments. */
  function Stripped(b: string): string { Kept(Tokens(b)) }

  /** Stripping again changes nothing and finds nothing; finding nothing means changing nothing. */
  lemma StripTwice(b: string)
    ensures Stripped(Stripped(b)) == Stripped(b) && !HasComment(Tokens(Stripped(b)))
    ensures !HasComment(Tokens(b)) ==> Stripped(b) == b
    ensures HasComment(Tokens(b)) ==> |Stripped(b)| < |b|
  {
    var toks := Tokens(b);
    OneReading(toks, b);
    CleanedSource(toks);
    CleanedGrammatical(toks);
    OneReading(Cleaned(toks), Stripped(b));
    CleanedSource(Cleaned(toks));
    Shorter(toks);
  }

  lemma {:induction false} Shorter(toks: seq<Token>)
    requires Grammatical(toks)
    ensures |Kept(toks)| <= |Source(toks)|
    ensures HasComment(toks) ==> |Kept(toks)| < |Source(toks)|
  {
    if toks != [] {
      Shorter(toks[1..]);
      if HasComment(toks) && !toks[0].IsComment() {
        var i :| 0 <= i < |toks| && toks[i].IsComment();
        assert toks[1..][i - 1].IsComment();
      }
    }
  }

  // ---------------------------------------------------------------- the pass

  function From(b: string, i: nat): string { if i <= |b| then b[i..] else "" }

  /** What the pass emits from here on and whether it finds a comment, character by character. */
  function Pass(t: string, inStr: bool, esc: bool): (string, bool)
    decreases |t|
  {
    if t == "" then ("", false)
    else if inStr then Emit(t[0], Pass(t[1..], esc || t[0] != '"', !esc && t[0] == '\\'))
    else if Begins(t, '/', '/') then
      var n := ToNewline(t);
      if n < |t| then ("\n" + Pass(t[n + 1..], false, false).0, true) else ("", true)
    else if Begins(t, '/', '*') then (Pass(t[2 + BlockLeft(t[2..])..], false, false).0, true)
    else Emit(t[0], Pass(t[1..], t[0] == '"', false))
  }

  function Emit(c: char, later: (string, bool)): (string, bool) { ([c] + later.0, later.1) }

  lemma NothingFirst(a: string)
    ensures "" + a == a
  {
  }

  lemma AtToken(t: string)
    requires t != ""
    ensures var tok := First(t); var rest := t[|tok.Source()|..];
      && Stripped(t) == tok.Kept() + Stripped(rest)
      && (HasComment(Tokens(t)) <==> tok.IsComment() || HasComment(Tokens(rest)))
  {
    var tok := First(t);
    Consed([tok], Tokens(t[|tok.Source()|..]));
    assert ([tok] + Tokens(t[|tok.Source()|..]))[1..] == Tokens(t[|tok.Source()|..]);
  }

  /** Inside a literal the pass emits the rest of it and goes on after it. */
  lemma {:induction false} PassLiteral(t: string, esc: bool)
    ensures var n := LiteralLeft(t, esc); var later := Pass(t[n..], false, false);
      Pass(t, true, esc) == (t[..n] + later.0, later.1)
  {
    if t != "" {
      var n := LiteralLeft(t, esc);
      var inStr', esc' := esc || t[0] != '"', !esc && t[0] == '\\';
      if inStr' {
        PassLiteral(t[1..], esc');
        assert t[..n] == [t[0]] + t[1..][..n - 1] && t[n..] == t[1..][n - 1..];
        Reassociate([t[0]], t[1..][..n - 1], Pass(t[n..], false, false).0);
      } else {
        assert t[..n] == [t[0]] && t[n..] == t[1..];
      }
    } else {
      assert t[0..] == "" && t[..0] == "";
      NothingFirst("");
    }
  }

  lemma PassWholeLiteral(t: string)
    requires t != "" && t[0] == '"'
    ensures var n := 1 + LiteralLeft(t[1..], false); var later := Pass(t[n..], false, false);
      Pass(t, false, false) == (t[..n] + later.0, later.1)
  {
    var n := 1 + LiteralLeft(t[1..], false);
    PassLiteral(t[1..], false);
    assert t[..n] == [t[0]] + t[1..][..n - 1] && t[n..] == t[1..][n - 1..];
    Reassociate([t[0]], t[1..][..n - 1], Pass(t[n..], false, false).0);
  }

  lemma PassComment(t: string)
    requires Begins(t, '/', '/') || Begins(t, '/', '*')
    ensures var tok := First(t); var later := Pass(t[|tok.Source()|..], false, false);
      Pass(t, false, false) == (tok.Kept() + later.0, true)
  {
    var n := |First(t).Source()|;
    assert n == |t| ==> t[n..] == "";
    NothingFirst(Pass(t[n..], false, false).0);
  }

  /** The pass emits one token's kept part and goes on behind the token. */
  lemma PassToken(t: string)
    requires t != ""
    ensures var tok := First(t); var later := Pass(t[|tok.Source()|..], false, false);
      Pass(t, false, false) == (tok.Kept() + later.0, tok.IsComment() || later.1)
  {
    if t[0] == '"' {
      PassWholeLiteral(t);
    } else if Begins(t, '/', '/') || Begins(t, '/', '*') {
      PassComment(t);
    }
  }

  /** The pass removes exactly the comments of the text's one reading. */
  lemma {:induction false} PassStrips(t: string)
    ensures Pass(t, false, false) == (Stripped(t), HasComment(Tokens(t)))
    decreases |t|
  {
    if t != "" {
      PassToken(t);
      AtToken(t);
      PassStrips(t[|First(t).Source()|..]);
    }
  }

  /** Runs to the end of a line comment. */
  method SkipLine(b: string, start: nat) returns (i: nat)
    requires start <= |b|
    ensures start <= i <= |b| && i - start == ToNewline(b[start..])
  {
    i := start;
    while i < |b| && b[i] != '\n'
      invariant start <= i <= |b| && ToNewline(b[start..]) == i - start + ToNewline(b[i..])
    {
      assert b[i..][1..] == b[i + 1..];
      i := i + 1;
    }
  }

  /** Runs to the last character of a block comment, or past the end when there is none. */
  method SkipBlock(b: string, start: nat) returns (i: nat)
    requires start + 2 <= |b|
    ensures start < i && From(b, i + 1) == From(b, start + 2 + BlockLeft(b[start + 2..]))
  {
    i := start + 2;
    while i + 1 < |b| && !(b[i] == '*' && b[i + 1] == '/')
      invariant start + 2 <= i <= |b| && BlockLeft(b[start + 2..]) == i - (start + 2) + BlockLeft(b[i..])
    {
      assert b[i..][1..] == b[i + 1..];
      i := i + 1;
    }
    if i + 1 == |b| {
      assert b[i..][1..] == "";
    }
    i := i + 1;
  }

  /** The pass at `i`: what it has emitted and found, then what it still will. */
  ghost predicate Passing(b: string, i: nat, inStr: bool, esc: bool, res: string, had: bool) {
    var later := Pass(From(b, i), inStr, esc);
    (esc ==> inStr) && Pass(b, false, false) == (res + later.0, had || later.1)
  }

  lemma PassOne(b: string, i: nat, inStr: bool, esc: bool, res: string, had: bool)
    requires i < |b| && Passing(b, i, inStr, esc, res, had)
    requires inStr || !(Begins(b[i..], '/', '/') || Begins(b[i..], '/', '*'))
    ensures var inStr' := if inStr then esc || b[i] != '"' else b[i] == '"';
      Passing(b, i + 1, inStr', inStr && !esc && b[i] == '\\', res + [b[i]], had)
  {
    var t := b[i..];
    assert t[1..] == From(b, i + 1);
    var inStr' := if inStr then esc || b[i] != '"' else b[i] == '"';
    Reassociate(res, [b[i]], Pass(t[1..], inStr', inStr && !esc && b[i] == '\\').0);
  }

  lemma PassLine(b: string, start: nat, i: nat, res: string, had: bool)
    requires start <= i <= |b| && Begins(b[start..], '/', '/') && Passing(b, start, false, false, res, had)
    requires i - start == ToNewline(b[start..])
    ensures Passing(b, i + 1, false, false, if i < |b| then res + ['\n'] else res, true)
  {
    if i < |b| {
      assert b[start..][i + 1 - start..] == From(b, i + 1);
      Reassociate(res, "\n", Pass(From(b, i + 1), false, false).0);
    }
  }

  lemma PassBlock(b: string, start: nat, i: nat, res: string, had: bool)
    requires start <= |b| && Begins(b[start..], '/', '*') && Passing(b, start, false, false, res, had)
    requires From(b, i + 1) == From(b, start + 2 + BlockLeft(b[start + 2..]))
    ensures Passing(b, i + 1, false, false, res, true)
  {
    assert b[start..][2..] == b[start + 2..];
    assert b[start..][2 + BlockLeft(b[start + 2..])..] == From(b, i + 1);
  }

  /** One pass over the bytes. */
  method StripJsonComments(b: string) returns (res: string, had: bool)
    ensures res == Stripped(b) && had == HasComment(Tokens(b))
  {
    res, had := "", false;
    var inStr, esc := false, false;
    var i := 0;
    NothingFirst(Pass(b, false, false).0);
    while i < |b|
      invariant Passing(b, i, inStr, esc, res, had)
      decreases |b| - i
    {
      var c := b[i];
      ghost var start := i;
      if inStr {
        PassOne(b, i, inStr, esc, res, had);
        res := res + [c];
        if esc {
          esc := false;
        } else if c == '\\' {
          esc := true;
        } else if c == '"' {
          inStr := false;
        }
      } else if c == '/' && i + 1 < |b| && b[i + 1] == '/' {
        i := SkipLine(b, i);
        PassLine(b, start, i, res, had);
        had := true;
        if i < |b| {
          res := res + ['\n'];
        }
      } else if c == '/' && i + 1 < |b| && b[i + 1] == '*' {
        i := SkipBlock(b, i);
        PassBlock(b, start, i, res, had);
        had := true;
      } else {
        PassOne(b, i, inStr, esc, res, had);
        inStr := c == '"';
        res := res + [c];
      }
      i := i + 1;
    }
    PassStrips(b);
  }
}
