// Validation issues: rendering their paths and dropping the ones that add nothing.
module Issues {
  import opened Prelude
  import opened Text

  datatype FieldIssue = FieldIssue(line: int, col: int, path: string, message: string, unknown: bool)

  // ---------------------------------------------------------------- dotted paths

  /** A decimal number with an optional sign that fits 64 bits. */
  predicate IsNumber(s: string) {
    if s != "" && s[0] == '-' then Decimal(s[1..]).Some? && Decimal(s[1..]).value <= 0x8000_0000_0000_0000
    else
      var digits := Decimal(if s != "" && s[0] == '+' then s[1..] else s);
      digits.Some? && digits.value < 0x8000_0000_0000_0000
  }

  /** One segment appended to what is written already. */
  function Write(b: string, seg: string): string {
    if IsNumber(seg) then b + "[" + seg + "]" else if b != "" then b + "." + seg else b + seg
  }

  function HumanPathFrom(b: string, segs: seq<string>): string
    decreases |segs|
  {
    if segs == [] then b else HumanPathFrom(Write(b, segs[0]), segs[1..])
  }

  function HumanPath(segs: seq<string>): string { HumanPathFrom("", segs) }

  predicate IsStop(c: char) { c == '.' || c == '[' }

  predicate NoStop(s: string) { forall c <- s :: !IsStop(c) }

  /** A number, or a key in which the punctuation of paths does not occur. */
  predicate Plain(seg: string) { IsNumber(seg) || (seg != "" && NoStop(seg)) }

  /** A segment as it is written after another one: a stop, then characters that are not stops. */
  datatype Piece = Piece(mark: char, body: string) {
    predicate Fine() { IsStop(mark) && body != "" && NoStop(body) }
  }

  function PieceOf(seg: string): Piece { if IsNumber(seg) then Piece('[', seg + "]") else Piece('.', seg) }

  function Pieces(segs: seq<string>): seq<Piece> { seq(|segs|, i requires 0 <= i < |segs| => PieceOf(segs[i])) }

  function Later(pieces: seq<Piece>): string {
    if pieces == [] then "" else [pieces[0].mark] + (pieces[0].body + Later(pieces[1..]))
  }

  /** The first key has no dot before it. */
  function Trimmed(x: string): string { if x != "" && x[0] == '.' then x[1..] else x }

  /** `x` goes on after `y` with another segment, or ends there. */
  predicate GoesOn(x: string, y: string) { y <= x && (|x| == |y| || IsStop(x[|y|])) }

  /** The test for a path below another: the other one, then a dot or a bracket. */
  predicate Under(x: string, y: string) { y + "." <= x || y + "[" <= x }

  lemma UnderGoesOn(x: string, y: string)
    ensures Under(x, y) <==> GoesOn(x, y) && x != y
  {
    if GoesOn(x, y) && x != y {
      assert x[..|y| + 1] == y + [x[|y|]];
      assert [x[|y|]] == "." || [x[|y|]] == "[";
    }
  }

  lemma NumberChars(s: string)
    requires IsNumber(s)
    ensures s != "" && forall c <- s :: !IsStop(c) && c != ']'
  {
    var digits := if s[0] == '-' || s[0] == '+' then s[1..] else s;
    DecimalDigits(digits);
    forall c | c in s
      ensures !IsStop(c) && c != ']'
    {
      assert c == s[0] || c in digits;
    }
  }

  lemma PieceFine(seg: string)
    requires Plain(seg)
    ensures PieceOf(seg).Fine() && (!IsNumber(seg) ==> seg != "")
  {
    if IsNumber(seg) {
      NumberChars(seg);
    }
  }

  lemma WriteAfter(b: string, seg: string)
    requires b != ""
    ensures Write(b, seg) == b + ([PieceOf(seg).mark] + PieceOf(seg).body)
  {
    var stop := [PieceOf(seg).mark];
    Reassociate(b, stop, seg);
    if IsNumber(seg) {
      Reassociate(b + stop, seg, "]");
      Reassociate(b, stop, seg + "]");
    }
  }

  lemma WriteFirst(seg: string)
    requires Plain(seg)
    ensures var first := Write("", seg); first != "" && first == Trimmed([PieceOf(seg).mark] + PieceOf(seg).body)
  {
    PieceFine(seg);
    if IsNumber(seg) {
      assert "" + "[" == "[";
      Reassociate("[", seg, "]");
    } else {
      assert ("." + seg)[1..] == seg && "" + seg == seg;
    }
  }

  lemma {:induction false} HumanPathIsLater(b: string, segs: seq<string>)
    requires b != ""
    ensures HumanPathFrom(b, segs) == b + Later(Pieces(segs))
    decreases |segs|
  {
    if segs != [] {
      var p := PieceOf(segs[0]);
      WriteAfter(b, segs[0]);
      HumanPathIsLater(Write(b, segs[0]), segs[1..]);
      LaterPieces(segs);
      Reassociate(b, [p.mark] + p.body, Later(Pieces(segs[1..])));
    }
  }

  lemma LaterPieces(segs: seq<string>)
    requires segs != []
    ensures var p := PieceOf(segs[0]); Later(Pieces(segs)) == [p.mark] + p.body + Later(Pieces(segs[1..]))
  {
    assert Pieces(segs)[1..] == Pieces(segs[1..]);
    var p := PieceOf(segs[0]);
    Reassociate([p.mark], p.body, Later(Pieces(segs[1..])));
  }

  lemma TrimmedFirst(a: string, b: string)
    requires a != ""
    ensures Trimmed(a + b) == Trimmed(a) + b
  {
    assert (a + b)[1..] == a[1..] + b;
  }

  lemma PathShape(segs: seq<string>)
    requires segs != [] && Plain(segs[0])
    ensures HumanPath(segs) == Trimmed(Later(Pieces(segs)))
  {
    var p := PieceOf(segs[0]);
    WriteFirst(segs[0]);
    HumanPathIsLater(Write("", segs[0]), segs[1..]);
    LaterPieces(segs);
    TrimmedFirst([p.mark] + p.body, Later(Pieces(segs[1..])));
  }

  lemma Extend(p: string, t': string, t: string)
    requires GoesOn(t', t)
    ensures GoesOn(p + t', p + t)
  {
    assert p + t' == p + t + t'[|t|..];
  }

  lemma RunsApart(p: string, t: string, p': string, t': string)
    requires NoStop(p) && NoStop(p') && (t == "" || IsStop(t[0])) && (t' == "" || IsStop(t'[0]))
    requires |p| != |p'|
    ensures !GoesOn(p' + t', p + t)
  {
    var x, y := p' + t', p + t;
    if |p| < |p'| {
      assert p'[|p|] in p' && x[|p|] == p'[|p|];
      assert t != "" ==> y[|p|] == t[0];
    } else {
      assert p[|p'|] in p && y[|p'|] == p[|p'|];
      assert t' != "" ==> x[|p'|] == t'[0];
    }
  }

  /** Two runs of ordinary characters, each followed by a stop or nothing, are read alike. */
  lemma SameRun(p: string, t: string, p': string, t': string)
    requires NoStop(p) && NoStop(p') && (t == "" || IsStop(t[0])) && (t' == "" || IsStop(t'[0]))
    ensures GoesOn(p' + t', p + t) <==> p == p' && GoesOn(t', t)
  {
    var x, y := p' + t', p + t;
    if |p| != |p'| {
      RunsApart(p, t, p', t');
    } else {
      if p == p' && GoesOn(t', t) {
        Extend(p, t', t);
      }
      if GoesOn(x, y) {
        assert x[..|p|] == p' && y[..|p|] == p && x[|p|..] == t' && y[|p|..] == t;
        assert x[..|y|][|p|..] == t'[..|t|];
      }
    }
  }

  lemma Prepend(x: string, y: string, c: char, d: char)
    ensures GoesOn([c] + x, [d] + y) <==> c == d && GoesOn(x, y)
  {
    var x', y' := [c] + x, [d] + y;
    assert x'[1..] == x && y'[1..] == y;
    if y' <= x' {
      assert x'[0] == y'[0] && x'[..|y'|][1..] == x[..|y|];
    }
    if c == d && GoesOn(x, y) {
      Extend([c], x, y);
    }
  }

  predicate StartsWithStop(pieces: seq<Piece>, t: string)
    requires t == Later(pieces) && forall p <- pieces :: p.Fine()
  {
    assert pieces != [] ==> pieces[0].Fine();
    t == "" || IsStop(t[0])
  }

  lemma {:induction false} LaterPrefix(pieces: seq<Piece>, above: seq<Piece>)
    requires (forall p <- pieces :: p.Fine()) && forall p <- above :: p.Fine()
    ensures GoesOn(Later(pieces), Later(above)) <==> above <= pieces
  {
    if above != [] && pieces != [] {
      var (p, a) := (pieces[0], above[0]);
      var t, u := Later(pieces[1..]), Later(above[1..]);
      LaterPrefix(pieces[1..], above[1..]);
      assert p.Fine() && a.Fine() && StartsWithStop(pieces[1..], t) && StartsWithStop(above[1..], u);
      SameRun(a.body, u, p.body, t);
      Prepend(p.body + t, a.body + u, p.mark, a.mark);
      assert above == [a] + above[1..] && pieces == [p] + pieces[1..];
    } else {
      assert StartsWithStop(pieces, Later(pieces));
    }
  }

  lemma TrimGoesOn(x: string, y: string)
    requires 2 <= |x| && IsStop(x[0]) && !IsStop(x[1]) && 2 <= |y| && IsStop(y[0]) && !IsStop(y[1])
    ensures GoesOn(Trimmed(x), Trimmed(y)) <==> GoesOn(x, y)
  {
    assert x == [x[0]] + x[1..] && y == [y[0]] + y[1..];
    Prepend(x[1..], y[1..], x[0], y[0]);
  }

  lemma LaterStart(pieces: seq<Piece>)
    requires pieces != [] && pieces[0].Fine()
    ensures var x := Later(pieces); 2 <= |x| && IsStop(x[0]) && !IsStop(x[1])
  {
    assert Later(pieces)[1] == pieces[0].body[0] && pieces[0].body[0] in pieces[0].body;
  }

  lemma PathsGoOn(segs: seq<string>, above: seq<string>)
    requires segs != [] && above != [] && (forall s <- segs :: Plain(s)) && forall s <- above :: Plain(s)
    ensures GoesOn(HumanPath(segs), HumanPath(above)) <==> above <= segs
  {
    var ps, qs := Pieces(segs), Pieces(above);
    PathShape(segs);
    PathShape(above);
    forall s | s in segs + above ensures PieceOf(s).Fine() { PieceFine(s); }
    assert forall p <- ps :: p.Fine() by {
      assert forall i | 0 <= i < |ps| :: ps[i] == PieceOf(segs[i]) && segs[i] in segs + above;
    }
    assert forall p <- qs :: p.Fine() by {
      assert forall i | 0 <= i < |qs| :: qs[i] == PieceOf(above[i]) && above[i] in segs + above;
    }
    LaterStart(ps);
    LaterStart(qs);
    TrimGoesOn(Later(ps), Later(qs));
    LaterPrefix(ps, qs);
    PiecesPrefix(segs, above);
  }

  lemma PieceOne(s: string, t: string)
    ensures PieceOf(s) == PieceOf(t) <==> s == t
  {
    if PieceOf(s) == PieceOf(t) && IsNumber(s) {
      assert s == PieceOf(s).body[..|s|] && t == PieceOf(t).body[..|t|];
    }
  }

  lemma PiecesPrefix(segs: seq<string>, above: seq<string>)
    ensures Pieces(above) <= Pieces(segs) <==> above <= segs
  {
    forall i | 0 <= i < |segs| && i < |above| ensures Pieces(segs)[i] == Pieces(above)[i] <==> segs[i] == above[i] {
      PieceOne(segs[i], above[i]);
    }
  }

  /** Among plain segments the test on rendered paths is the test on the segments. */
  lemma UnderIsBelow(segs: seq<string>, above: seq<string>)
    requires (forall s <- segs :: Plain(s)) && (forall s <- above :: Plain(s)) && above != []
    ensures Under(HumanPath(segs), HumanPath(above)) <==> above < segs
    ensures HumanPath(segs) == HumanPath(above) <==> segs == above
  {
    var x, y := HumanPath(segs), HumanPath(above);
    UnderGoesOn(x, y);
    if segs == [] {
      PathShape(above);
      PieceFine(above[0]);
      LaterStart(Pieces(above));
    } else {
      PathsGoOn(segs, above);
      PathsGoOn(above, segs);
      assert x == y <==> GoesOn(x, y) && GoesOn(y, x);
    }
  }

  // ---------------------------------------------------------------- what is kept

  /** Below an unknown field of the list. */
  ghost predicate Hidden(all: seq<FieldIssue>, path: string) {
    exists o <- all :: o.unknown && o.path != "" && Under(path, o.path)
  }

  /** Not below an unknown field and, unless it is about the root, the first at its path. */
  ghost predicate Kept(all: seq<FieldIssue>, i: nat)
    requires i < |all|
  {
    !Hidden(all, all[i].path) && (all[i].path == "" || forall j | 0 <= j < i :: all[j].path != all[i].path)
  }

  /** Where the kept issues among the first `n` are. */
  ghost function KeptAt(all: seq<FieldIssue>, n: nat): seq<nat>
    requires n <= |all|
  {
    if n == 0 then [] else KeptAt(all, n - 1) + if Kept(all, n - 1) then [n - 1] else []
  }

  predicate Within(all: seq<FieldIssue>, at: seq<nat>) { forall i | i in at :: i < |all| }

  ghost function Pick(all: seq<FieldIssue>, at: seq<nat>): seq<FieldIssue>
    requires Within(all, at)
  {
    seq(|at|, k requires 0 <= k < |at| => assert at[k] in at; all[at[k]])
  }

  predicate Increasing(at: seq<nat>) { forall k, l | 0 <= k < l < |at| :: at[k] < at[l] }

  lemma OneMoreIndex(at: seq<nat>, i: nat, more: bool)
    requires Increasing(at) && forall k <- at :: k < i
    ensures var longer := at + if more then [i] else [];
      Increasing(longer) && forall k :: k in longer <==> k in at || (more && k == i)
  {
    assert forall k | 0 <= k < |at| :: at[k] in at;
  }

  /** In order, each of them once, and no others. */
  lemma {:induction false} KeptInOrder(all: seq<FieldIssue>, n: nat)
    requires n <= |all|
    ensures forall i :: i in KeptAt(all, n) <==> 0 <= i < n && Kept(all, i)
    ensures Increasing(KeptAt(all, n))
  {
    if n > 0 {
      KeptInOrder(all, n - 1);
      OneMoreIndex(KeptAt(all, n - 1), n - 1, Kept(all, n - 1));
    }
  }

  ghost function Deduped(all: seq<FieldIssue>): seq<FieldIssue> {
    KeptInOrder(all, |all|);
    Pick(all, KeptAt(all, |all|))
  }

  lemma InDeduped(all: seq<FieldIssue>, i: nat)
    requires i < |all| && Kept(all, i)
    ensures all[i] in Deduped(all)
  {
    KeptInOrder(all, |all|);
    var at := KeptAt(all, |all|);
    var k :| 0 <= k < |at| && at[k] == i;
    assert Deduped(all)[k] == all[i];
  }

  lemma UnderTransitive(x: string, y: string, z: string)
    requires Under(x, y) && Under(y, z)
    ensures Under(x, z)
  {
    UnderGoesOn(x, y);
    UnderGoesOn(y, z);
    UnderGoesOn(x, z);
    assert x[..|y|][..|z|] == x[..|z|];
  }

  /** No issue is lost without one at the same path or above it that is kept, through chains of unknown fields. */
  lemma {:induction false} NothingLost(all: seq<FieldIssue>, i: nat)
    requires i < |all|
    ensures exists kept | 0 <= kept < |all| && Kept(all, kept) ::
      all[kept] in Deduped(all) && (all[kept].path == all[i].path || Under(all[i].path, all[kept].path))
    decreases |all[i].path|, i
  {
    var path := all[i].path;
    if Hidden(all, path) {
      var j :| 0 <= j < |all| && all[j].unknown && all[j].path != "" && Under(path, all[j].path);
      NothingLost(all, j);
      var kept :| 0 <= kept < |all| && Kept(all, kept) && all[kept] in Deduped(all)
        && (all[kept].path == all[j].path || Under(all[j].path, all[kept].path));
      if all[kept].path != all[j].path {
        UnderTransitive(path, all[j].path, all[kept].path);
      }
    } else if path != "" && exists j | 0 <= j < i :: all[j].path == path {
      var j :| 0 <= j < i && all[j].path == path;
      NothingLost(all, j);
    } else {
      InDeduped(all, i);
    }
  }

  /** The same about the places themselves, when their segments are plain. */
  lemma NoPlaceLost(all: seq<FieldIssue>, at: seq<seq<string>>, i: nat)
    requires |at| == |all| && i < |all|
    requires forall j | 0 <= j < |all| :: all[j].path == HumanPath(at[j]) && forall s <- at[j] :: Plain(s)
    ensures exists kept | 0 <= kept < |all| :: all[kept] in Deduped(all) && at[kept] <= at[i]
  {
    NothingLost(all, i);
    var kept :| 0 <= kept < |all| && Kept(all, kept) && all[kept] in Deduped(all)
      && (all[kept].path == all[i].path || Under(all[i].path, all[kept].path));
    if at[kept] != [] {
      UnderIsBelow(at[i], at[kept]);
    }
  }

  /** No two share a path other than the root, and none is below an unknown field that was reported. */
  lemma NothingTwice(all: seq<FieldIssue>)
    ensures forall k, l | 0 <= k < l < |Deduped(all)| ::
      Deduped(all)[k].path == "" || Deduped(all)[k].path != Deduped(all)[l].path
    ensures forall kept <- Deduped(all) :: kept in all && !Hidden(all, kept.path)
  {
    KeptInOrder(all, |all|);
    var at := KeptAt(all, |all|);
    assert forall k | 0 <= k < |at| :: at[k] in at && Deduped(all)[k] == all[at[k]];
  }

  /** Nothing is left to drop. */
  lemma DedupedAgain(all: seq<FieldIssue>)
    ensures Deduped(Deduped(all)) == Deduped(all)
  {
    var out := Deduped(all);
    NothingTwice(all);
    forall i | 0 <= i < |out|
      ensures Kept(out, i)
    {
      assert out[i] in out;
      assert Hidden(out, out[i].path) ==> Hidden(all, out[i].path);
    }
    AllKept(out, |out|);
  }

  lemma {:induction false} AllKept(all: seq<FieldIssue>, n: nat)
    requires n <= |all| && forall i | 0 <= i < |all| :: Kept(all, i)
    ensures KeptAt(all, n) == seq(n, i => i)
  {
    if n > 0 {
      AllKept(all, n - 1);
    }
  }

  // ---------------------------------------------------------------- keys with punctuation

  lemma {:induction false} PathOfTwoFrom(b: string, first: seq<string>, second: seq<string>)
    ensures HumanPathFrom(b, first + second) == HumanPathFrom(HumanPathFrom(b, first), second)
    decreases |first|
  {
    if first == [] {
      assert first + second == second;
    } else {
      assert (first + second)[0] == first[0] && (first + second)[1..] == first[1..] + second;
      PathOfTwoFrom(Write(b, first[0]), first[1..], second);
    }
  }

  lemma PathSnoc(obj: seq<string>, x: string)
    ensures HumanPath(obj + [x]) == Write(HumanPath(obj), x)
  {
    PathOfTwoFrom("", obj, [x]);
    var b := HumanPath(obj);
    assert [x][1..] == [] && HumanPathFrom(Write(b, x), []) == Write(b, x);
  }

  lemma UnderBehind(p: string, x: string, y: string)
    ensures Under(p + x, p + y) <==> Under(x, y)
  {
    assert forall c :: p + y + [c] == p + (y + [c]);
    assert forall z :: p + z <= p + x <==> z <= x by {
      forall z
        ensures p + z <= p + x <==> z <= x
      {
        assert (p + x)[|p|..] == x && (p + z)[|p|..] == z;
        assert p + z <= p + x ==> z == (p + x)[..|p| + |z|][|p|..] == x[..|z|];
      }
    }
  }

  /** What stands before a key of the object. */
  function Lead(obj: seq<string>): string { if HumanPath(obj) == "" then "" else HumanPath(obj) + "." }

  /** A place as it is written from one of its keys on. */
  function FromKey(x: string, rest: seq<string>): string { x + Later(Pieces(rest)) }

  lemma WrittenFrom(obj: seq<string>, x: string, rest: seq<string>)
    requires !IsNumber(x) && HumanPath(obj + [x]) != ""
    ensures HumanPath(obj + [x] + rest) == Lead(obj) + FromKey(x, rest)
  {
    PathSnoc(obj, x);
    PathOfTwoFrom("", obj + [x], rest);
    HumanPathIsLater(HumanPath(obj + [x]), rest);
    Reassociate(Lead(obj), x, Later(Pieces(rest)));
    assert HumanPath(obj + [x]) == Lead(obj) + x;
  }

  lemma KeyWritten(obj: seq<string>, key: string)
    requires !IsNumber(key)
    ensures HumanPath(obj + [key]) == Lead(obj) + key
  {
    PathSnoc(obj, key);
  }

  lemma BracketNoNumber(y: string)
    requires y != "" && y[0] == '['
    ensures !IsNumber(y)
  {
    assert y[0] in y;
    if Decimal(y).Some? {
      DecimalDigits(y);
    }
  }

  /** Another key of the object, unknown, hides what is at or below `x`. */
  predicate HidesBeside(obj: seq<string>, x: string, rest: seq<string>, bad: string) {
    bad != x && HumanPath(obj + [bad]) != "" && Under(HumanPath(obj + [x] + rest), HumanPath(obj + [bad]))
  }

  /** A stop in the path, and between it and the object something other than `x` that can be a key. */
  predicate StopAt(obj: seq<string>, x: string, path: string, i: nat) {
    var from := |Lead(obj)|;
    && 0 < i && from <= i < |path| && Lead(obj) <= path && IsStop(path[i])
    && !IsNumber(path[from..i]) && path[from..i] != x
  }

  /** At the root a key in brackets is written like the number in them; this is below such a key. */
  predicate LikeNumber(obj: seq<string>, x: string, rest: seq<string>) {
    && HumanPath(obj) == "" && rest != [] && 2 <= |x| && x[0] == '[' && x[|x| - 1] == ']'
    && IsNumber(x[1..|x| - 1])
  }

  lemma NumberWritten(obj: seq<string>, index: string)
    requires IsNumber(index)
    ensures HumanPath(obj + [index]) == HumanPath(obj) + ("[" + index + "]")
  {
    PathSnoc(obj, index);
    Reassociate(HumanPath(obj), "[", index);
    Reassociate(HumanPath(obj), "[" + index, "]");
  }

  /** Of two bracketed numbers that begin a text alike, neither goes on. */
  lemma SameNumber(x: string, index: string, t: string)
    requires IsNumber(x) && IsNumber(index) && "[" + index + "]" <= "[" + x + "]" + t
    ensures x == index
  {
    NumberChars(x);
    NumberChars(index);
    var v, y := "[" + x + "]" + t, "[" + index + "]";
    assert v[|x| + 1] == ']' && y[|index| + 1] == ']';
    assert forall i | 0 <= i < |x| :: v[i + 1] == x[i] && x[i] in x;
    assert forall i | 0 <= i < |index| :: y[i + 1] == index[i] && index[i] in index;
    assert |x| == |index|;
  }

  /** What a place below a key of the object is written as: the object, the key, then the rest. */
  lemma WrittenOn(obj: seq<string>, x: string, rest: seq<string>)
    requires HumanPath(obj + [x]) != ""
    ensures HumanPath(obj + [x] + rest) == HumanPath(obj + [x]) + Later(Pieces(rest))
  {
    PathOfTwoFrom("", obj + [x], rest);
    HumanPathIsLater(HumanPath(obj + [x]), rest);
  }

  /** Below another object than the root, a number hides nothing but what is nested in it. */
  lemma NumberHidesItsOwn(obj: seq<string>, x: string, rest: seq<string>, index: string)
    requires HumanPath(obj) != "" && IsNumber(index)
    requires Under(HumanPath(obj + [x] + rest), HumanPath(obj + [index]))
    ensures x == index
  {
    var b, y, t := HumanPath(obj), "[" + index + "]", Later(Pieces(rest));
    NumberWritten(obj, index);
    PathSnoc(obj, x);
    WrittenOn(obj, x, rest);
    var path := HumanPath(obj + [x] + rest);
    UnderGoesOn(path, b + y);
    assert path[|b|] == (b + y)[|b|] == '[';
    if IsNumber(x) {
      NumberWritten(obj, x);
      Reassociate(b, "[" + x + "]", t);
      assert path[|b|..] == "[" + x + "]" + t;
      assert y == path[..|b| + |y|][|b|..] == path[|b|..][..|y|];
      SameNumber(x, index, t);
    }
  }

  lemma StopBehind(obj: seq<string>, x: string, rest: seq<string>, bad: string)
    requires HidesBeside(obj, x, rest, bad)
    ensures LikeNumber(obj, x, rest) || exists i: nat :: StopAt(obj, x, HumanPath(obj + [x] + rest), i)
  {
    var path, y := HumanPath(obj + [x] + rest), HumanPath(obj + [bad]);
    UnderGoesOn(path, y);
    assert path[..|y|] == y;
    if !IsNumber(bad) {
      KeyWritten(obj, bad);
      assert StopAt(obj, x, path, |y|);
    } else if HumanPath(obj) != "" {
      NumberHidesItsOwn(obj, x, rest, bad);
    } else {
      NumberWritten(obj, bad);
      assert "" + ("[" + bad + "]") == "[" + bad + "]";
      BracketNoNumber(y);
      if x == y {
        KeyWritten(obj, x);
        assert rest == [] ==> obj + [x] + rest == obj + [x];
        assert x[1..|x| - 1] == bad;
      } else {
        assert StopAt(obj, x, path, |y|);
      }
    }
  }

  lemma CutBetween(s: string, i: nat, j: nat)
    requires i <= j <= |s|
    ensures s[..i] + s[i..j] == s[..j]
  {
  }

  lemma HiddenBehind(obj: seq<string>, x: string, rest: seq<string>, i: nat)
    requires StopAt(obj, x, HumanPath(obj + [x] + rest), i)
    ensures HidesBeside(obj, x, rest, HumanPath(obj + [x] + rest)[|Lead(obj)|..i])
  {
    var path, lead := HumanPath(obj + [x] + rest), Lead(obj);
    var bad := path[|lead|..i];
    KeyWritten(obj, bad);
    var y := lead + bad;
    assert y == path[..i] by {
      CutBetween(path, |lead|, i);
    }
    UnderGoesOn(path, y);
  }

  /** What is below a key is under that key's own rendering. */
  lemma BelowKey(obj: seq<string>, x: string, rest: seq<string>)
    requires HumanPath(obj + [x]) != "" && rest != []
    ensures Under(HumanPath(obj + [x] + rest), HumanPath(obj + [x]))
  {
    WrittenOn(obj, x, rest);
    LaterMark(rest);
    UnderGoesOn(HumanPath(obj + [x] + rest), HumanPath(obj + [x]));
  }

  lemma BracketsOff(x: string)
    requires 2 <= |x| && x[0] == '[' && x[|x| - 1] == ']'
    ensures x == "[" + x[1..|x| - 1] + "]" && x != x[1..|x| - 1]
  {
  }

  lemma HiddenByNumber(obj: seq<string>, x: string, rest: seq<string>)
    requires LikeNumber(obj, x, rest)
    ensures HidesBeside(obj, x, rest, x[1..|x| - 1])
  {
    BracketsOff(x);
    BracketNoNumber(x);
    KeyWritten(obj, x);
    NumberWritten(obj, x[1..|x| - 1]);
    assert "" + x == x;
    BelowKey(obj, x, rest);
  }

  /**
    * At every place: an unknown field beside `x` can hide what is at or below `x` exactly when there is such a stop,
    * or `x` is written like a number. For `x` itself that is a dot or bracket in the key; two segments further down
    * there always is one, unless `x` is an index, which below the root nothing beside it hides.
    */
  lemma HiddenBeside(obj: seq<string>, x: string, rest: seq<string>)
    ensures (exists bad :: HidesBeside(obj, x, rest, bad)) <==>
      LikeNumber(obj, x, rest) || exists i: nat :: StopAt(obj, x, HumanPath(obj + [x] + rest), i)
  {
    if bad :| HidesBeside(obj, x, rest, bad) {
      StopBehind(obj, x, rest, bad);
    } else if LikeNumber(obj, x, rest) {
      HiddenByNumber(obj, x, rest);
    } else if i: nat :| StopAt(obj, x, HumanPath(obj + [x] + rest), i) {
      HiddenBehind(obj, x, rest, i);
    }
  }

  lemma LaterMark(segs: seq<string>)
    requires segs != []
    ensures var t := Later(Pieces(segs)); t != "" && IsStop(t[0])
  {
    LaterPieces(segs);
  }

  lemma CutAt(lead: string, first: string, later: string)
    requires later != ""
    ensures var path, i := lead + (first + later), |lead| + |first|;
      lead <= path && path[|lead|..i] == first && i < |path| && path[i] == later[0]
  {
  }

  lemma StopBetween(obj: seq<string>, x: string, first: string, later: string)
    requires later != "" && IsStop(later[0]) && !IsNumber(first) && |x| < |first|
    ensures StopAt(obj, x, Lead(obj) + (first + later), |Lead(obj)| + |first|)
  {
    CutAt(Lead(obj), first, later);
  }

  lemma FromKeyOn(x: string, rest: seq<string>)
    requires rest != []
    ensures var p := PieceOf(rest[0]); FromKey(x, rest) == x + ([p.mark] + p.body) + Later(Pieces(rest[1..]))
  {
    var p := PieceOf(rest[0]);
    LaterPieces(rest);
    Reassociate(x, [p.mark] + p.body, Later(Pieces(rest[1..])));
  }

  lemma NoNumberWithStop(x: string, stop: char, body: string)
    requires IsStop(stop)
    ensures !IsNumber(x + ([stop] + body))
  {
    var s := x + ([stop] + body);
    assert s[|x|] == stop && s[|x|] in s;
    if IsNumber(s) {
      NumberChars(s);
    }
  }

  /** Two segments below a key there always is a stop to be hidden by. */
  lemma DeepStop(obj: seq<string>, x: string, rest: seq<string>)
    requires !IsNumber(x) && HumanPath(obj + [x]) != "" && 2 <= |rest|
    ensures exists i: nat :: StopAt(obj, x, HumanPath(obj + [x] + rest), i)
  {
    var p, later := PieceOf(rest[0]), Later(Pieces(rest[1..]));
    WrittenFrom(obj, x, rest);
    FromKeyOn(x, rest);
    LaterMark(rest[1..]);
    NoNumberWithStop(x, p.mark, p.body);
    StopBetween(obj, x, x + ([p.mark] + p.body), later);
  }

  /** Below the root nothing beside an index hides it. */
  lemma IndexNeverHidden(obj: seq<string>, x: string, rest: seq<string>, bad: string)
    requires IsNumber(x) && HumanPath(obj) != ""
    ensures !HidesBeside(obj, x, rest, bad)
  {
    NumberWritten(obj, x);
    WrittenOn(obj, x, rest);
    assert HumanPath(obj + [x] + rest)[|HumanPath(obj)|] == '[';
    if HidesBeside(obj, x, rest, bad) {
      StopBehind(obj, x, rest, bad);
    }
  }

  /** Two keys of one object: the object's place does not matter. */
  lemma SiblingsUnder(obj: seq<string>, x: string, bad: string)
    requires !IsNumber(x) && !IsNumber(bad)
    ensures Under(HumanPath(obj + [x]), HumanPath(obj + [bad])) <==> Under(x, bad)
  {
    KeyWritten(obj, x);
    KeyWritten(obj, bad);
    UnderBehind(Lead(obj), x, bad);
  }

  /** A key that goes on with a dot or a bracket after the name of an unknown one is hidden with it. */
  lemma DottedSiblingHidden(obj: seq<string>, bad: string, x: string, unknown: FieldIssue, sibling: FieldIssue)
    requires Under(x, bad) && !IsNumber(bad) && !IsNumber(x) && HumanPath(obj + [bad]) != ""
    requires unknown.unknown && unknown.path == HumanPath(obj + [bad]) && sibling.path == HumanPath(obj + [x])
    ensures !(obj + [bad] <= obj + [x]) && sibling !in Deduped([unknown, sibling])
  {
    var all := [unknown, sibling];
    SiblingsUnder(obj, x, bad);
    assert unknown in all && Under(sibling.path, unknown.path);
    NothingTwice(all);
    assert (obj + [bad])[|obj|] != (obj + [x])[|obj|];
  }

  lemma UnderWithoutStops(x: string, t: string, bad: string)
    requires bad != "" && NoStop(bad) && (t == "" || IsStop(t[0]))
    ensures Under(x + t, bad) <==> (x == bad && t != "") || Under(x, bad)
  {
    UnderGoesOn(x + t, bad);
    UnderGoesOn(x, bad);
    var xt := x + t;
    if |x| < |bad| {
      assert bad[|x|] in bad;
      assert t != "" ==> xt[|x|] == t[0];
    } else {
      assert xt[..|bad|] == x[..|bad|];
    }
  }

  /**
    * An unknown key without punctuation hides what is nested in it and, at any depth below the same object, what
    * is under a key that goes on with a dot or a bracket after its name: nothing else.
    */
  lemma HiddenByKey(obj: seq<string>, x: string, rest: seq<string>, bad: string)
    requires bad != "" && NoStop(bad) && !IsNumber(bad) && HumanPath(obj + [x]) != ""
    ensures Under(HumanPath(obj + [x] + rest), HumanPath(obj + [bad])) <==> (x == bad && rest != []) || Under(x, bad)
  {
    var t := Later(Pieces(rest));
    assert rest == [] <==> t == "";
    assert t != "" ==> t[0] == PieceOf(rest[0]).mark;
    UnderWithoutStops(x, t, bad);
    if IsNumber(x) {
      PathSnoc(obj, x);
      PathSnoc(obj, bad);
      PathOfTwoFrom("", obj + [x], rest);
      HumanPathIsLater(HumanPath(obj + [x]), rest);
      IndexHidesNothing(HumanPath(obj), x, t, bad);
    } else {
      WrittenFrom(obj, x, rest);
      KeyWritten(obj, bad);
      UnderBehind(Lead(obj), x + t, bad);
    }
  }

  lemma IndexHidesNothing(b: string, index: string, t: string, bad: string)
    requires IsNumber(index) && bad != "" && NoStop(bad) && !IsNumber(bad)
    ensures !Under(Write(b, index) + t, Write(b, bad)) && index != bad && !Under(index, bad)
  {
    UnderGoesOn(Write(b, index) + t, Write(b, bad));
    UnderGoesOn(index, bad);
    assert bad[0] in bad;
    assert (Write(b, index) + t)[|b|] == '[';
    PieceFine(index);
    assert forall c <- index :: c in index + "]";
    assert |bad| < |index| ==> index[|bad|] in index;
  }

  /** The inner loop: is the path below an unknown field? */
  method IsDescendant(all: seq<FieldIssue>, path: string) returns (descendant: bool)
    ensures descendant <==> Hidden(all, path)
  {
    for k := 0 to |all|
      invariant forall j | 0 <= j < k :: !(all[j].unknown && all[j].path != "" && Under(path, all[j].path))
    {
      var other := all[k];
      if !other.unknown || other.path == path || other.path == "" {
        UnderGoesOn(path, other.path);
        continue;
      }
      if other.path + "." <= path || other.path + "[" <= path {
        return true;
      }
    }
    return false;
  }

  /** The paths of kept issues among the first `n`. */
  ghost predicate Seen(all: seq<FieldIssue>, n: nat, path: string)
    requires n <= |all|
  {
    !Hidden(all, path) && exists j | 0 <= j < n :: all[j].path == path
  }

  lemma PickMore(all: seq<FieldIssue>, i: nat, out: seq<FieldIssue>)
    requires i < |all| && Within(all, KeptAt(all, i)) && out == Pick(all, KeptAt(all, i))
    ensures Within(all, KeptAt(all, i + 1))
    ensures Pick(all, KeptAt(all, i + 1)) == if Kept(all, i) then out + [all[i]] else out
  {
    KeptInOrder(all, i + 1);
    if !Kept(all, i) {
      assert KeptAt(all, i) + [] == KeptAt(all, i);
    }
  }

  lemma SeenMore(all: seq<FieldIssue>, i: nat, path: string)
    requires i < |all|
    ensures Seen(all, i + 1, path) <==> Seen(all, i, path) || (path == all[i].path && !Hidden(all, path))
    ensures Kept(all, i) <==> !Hidden(all, all[i].path) && (all[i].path == "" || !Seen(all, i, all[i].path))
  {
  }

  lemma SeenNow(all: seq<FieldIssue>, i: nat, seen: set<string>)
    requires i < |all| && forall p :: p in seen <==> Seen(all, i, p)
    ensures var more := if Hidden(all, all[i].path) then seen else seen + {all[i].path};
      forall p :: p in more <==> Seen(all, i + 1, p)
  {
    var more := if Hidden(all, all[i].path) then seen else seen + {all[i].path};
    forall p ensures p in more <==> Seen(all, i + 1, p) {
      SeenMore(all, i, p);
    }
  }

  /** One loop over the issues, with the set of paths seen. */
  method DedupeIssues(all: seq<FieldIssue>) returns (out: seq<FieldIssue>)
    ensures out == Deduped(all)
  {
    out := [];
    var seen: set<string> := {};
    for i := 0 to |all|
      invariant Within(all, KeptAt(all, i))
      invariant out == Pick(all, KeptAt(all, i))
      invariant forall p :: p in seen <==> Seen(all, i, p)
    {
      var issue := all[i];
      PickMore(all, i, out);
      SeenNow(all, i, seen);
      SeenMore(all, i, issue.path);
      if issue.path != "" && issue.path in seen {
        continue;
      }
      var descendant := IsDescendant(all, issue.path);
      if descendant {
        continue;
      }
      seen := seen + {issue.path};
      out := out + [issue];
    }
  }
}
