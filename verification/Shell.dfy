// Commands nested in quotes, and how a shell reads them back (POSIX.1-2017 Shell Command Language,
// sections 2.2 quoting and 2.3 token recognition).
module Shell {
  import opened Prelude
  import Text

  // ---------------------------------------------------------------- reading

  /** A character of a word: active when an expansion may act on it, literal when quoted. */
  datatype Cell = Bare(c: char) | Quoted(c: char)

  datatype Token = Word(cells: seq<Cell>) | IoNumber(digits: string) | Operator(op: string)

  /** Between tokens, in a word, or in a quoted part of a word. */
  datatype Mode = Between | InWord(w: seq<Cell>) | InSingle(w: seq<Cell>) | InDouble(w: seq<Cell>) {
    function Word(): seq<Cell> { if Between? then [] else w }
  }

  predicate IsBlank(c: char) { c == ' ' || c == '\t' }

  predicate StartsOperator(c: char) {
    c == '&' || c == '|' || c == ';' || c == '<' || c == '>' || c == '(' || c == ')' || c == '\n'
  }

  function OperatorAt(s: string): (n: nat)
    requires s != ""
    ensures 1 <= n <= |s|
  {
    if |s| >= 2 && InOperator(s[0], s[1]) then
      if |s| >= 3 && s[0] == '<' && s[1] == '<' && s[2] == '-' then 3 else 2
    else 1
  }

  /** The operators of two characters. */
  predicate InOperator(c: char, d: char) {
    || (c == d && (c == '&' || c == '|' || c == ';' || c == '<' || c == '>'))
    || ((c == '<' || c == '>') && d == '&')
    || (c == '<' && d == '>') || (c == '>' && d == '|')
  }

  /** The word so far as a token; bare digits before a redirection are its file descriptor. */
  function Flush(m: Mode, before: char): seq<Token>
    requires m.Between? || m.InWord?
  {
    if m.Between? then []
    else if (before == '<' || before == '>') && m.w != [] && forall x <- m.w :: x.Bare? && '0' <= x.c <= '9' then
      [IoNumber(Chars(m.w))]
    else [Token.Word(m.w)]
  }

  function Prepend(toks: seq<Token>, later: Option<seq<Token>>): Option<seq<Token>> {
    if later.None? then None else Some(toks + later.value)
  }

  /** What the next characters do: how many they are, the tokens they complete, and where the reader is then. */
  datatype Step = Step(n: nat, toks: seq<Token>, next: Mode) | Unfinished

  function Single(s: string, w: seq<Cell>): Step
    requires s != ""
  {
    if s[0] == '\'' then Step(1, [], InWord(w)) else Step(1, [], InSingle(w + [Quoted(s[0])]))
  }

  /** In double quotes a backslash is special only before these. */
  predicate Escapable(c: char) { c == '$' || c == '`' || c == '"' || c == '\\' }

  function Double(s: string, w: seq<Cell>): Step
    requires s != ""
  {
    if s[0] == '"' then Step(1, [], InWord(w))
    else if s[0] == '\\' && |s| >= 2 && s[1] == '\n' then Step(2, [], InDouble(w))
    else if s[0] == '\\' && |s| >= 2 && Escapable(s[1]) then Step(2, [], InDouble(w + [Quoted(s[1])]))
    else if s[0] == '$' || s[0] == '`' then Step(1, [], InDouble(w + [Bare(s[0])]))
    else Step(1, [], InDouble(w + [Quoted(s[0])]))
  }

  function Unquoted(s: string, m: Mode): Step
    requires s != "" && (m.Between? || m.InWord?)
  {
    if s[0] == '\'' then Step(1, [], InSingle(m.Word()))
    else if s[0] == '"' then Step(1, [], InDouble(m.Word()))
    else if s[0] == '\\' then
      if |s| == 1 then Unfinished
      else if s[1] == '\n' then Step(2, [], m)
      else Step(2, [], InWord(m.Word() + [Quoted(s[1])]))
    else if IsBlank(s[0]) then Step(1, Flush(m, s[0]), Between)
    else if StartsOperator(s[0]) then
      Step(OperatorAt(s), Flush(m, s[0]) + [Operator(s[..OperatorAt(s)])], Between)
    else if s[0] == '#' && m.Between? then Step(1 + Text.ToNewline(s[1..]), [], Between)
    else Step(1, [], InWord(m.Word() + [Bare(s[0])]))
  }

  function Next(s: string, m: Mode): (step: Step)
    requires s != ""
    ensures step.Step? ==> 1 <= step.n <= |s|
  {
    if m.InSingle? then Single(s, m.w) else if m.InDouble? then Double(s, m.w) else Unquoted(s, m)
  }

  /** The tokens of `s`; none when a quote is not closed. */
  function Lex(s: string, m: Mode): Option<seq<Token>>
    decreases |s|
  {
    if s == "" then if m.Between? then Some([]) else if m.InWord? then Some([Token.Word(m.w)]) else None
    else
      var step := Next(s, m);
      if step.Unfinished? then None else Prepend(step.toks, Lex(s[step.n..], step.next))
  }

  function Chars(w: seq<Cell>): string { seq(|w|, i requires 0 <= i < |w| => w[i].c) }

  /** Characters that an unquoted word could not hold as themselves. */
  predicate IsSpecial(c: char) {
    || c == '|' || c == '&' || c == ';' || c == '<' || c == '>' || c == '(' || c == ')' || c == '$' || c == '`'
    || c == '\\' || c == '"' || c == '\'' || c == ' ' || c == '\t' || c == '\n' || c == '*' || c == '?'
    || c == '[' || c == ']' || c == '#' || c == '~' || c == '{' || c == '}' || c == '!'
  }

  /** Characters that stand for themselves anywhere in a word. */
  predicate IsPlain(c: char) {
    'a' <= c <= 'z' || 'A' <= c <= 'Z' || '+' <= c <= ':' || c == '_' || c == '=' || c == '@' || c == '%'
  }

  predicate Ordinary(s: string) { forall i | 0 <= i < |s| :: IsPlain(s[i]) }

  /** Characters that do not add themselves to an unquoted word: quotes, and what ends a word. */
  predicate Breaks(c: char) { c == '\'' || c == '"' || c == '\\' || IsBlank(c) || StartsOperator(c) }

  predicate Unbroken(s: string) { forall i | 0 <= i < |s| :: !Breaks(s[i]) }

  /** What the word stands for when no expansion acts on it. */
  function Meaning(w: seq<Cell>): Option<string> {
    if forall x <- w :: x.Bare? ==> !IsSpecial(x.c) then Some(Chars(w)) else None
  }

  function AsBare(s: string): seq<Cell> { seq(|s|, i requires 0 <= i < |s| => Bare(s[i])) }

  function AsQuoted(s: string): seq<Cell> { seq(|s|, i requires 0 <= i < |s| => Quoted(s[i])) }

  /** An unquoted word and a wholly quoted one. */
  function W(s: string): Token { Token.Word(AsBare(s)) }

  function Q(s: string): Token { Token.Word(AsQuoted(s)) }

  // ---------------------------------------------------------------- writing

  /** Every quote written as a closing quote, an escaped quote and an opening quote. */
  function QuotesReplaced(s: string): string {
    if s == "" then ""
    else if s[0] == '\'' then "'\\''" + QuotesReplaced(s[1..])
    else [s[0]] + QuotesReplaced(s[1..])
  }

  function ShellQuote(s: string): string { "'" + QuotesReplaced(s) + "'" }

  // ---------------------------------------------------------------- reading piece by piece

  /** From `m`, reading `text` completes `toks` and leads to `n`, whatever comes after it. */
  ghost predicate Takes(text: string, m: Mode, toks: seq<Token>, n: Mode) {
    forall rest: string :: Lex(text + rest, m) == Prepend(toks, Lex(rest, n))
  }

  lemma PrependTwice(a: seq<Token>, b: seq<Token>, later: Option<seq<Token>>)
    ensures Prepend(a, Prepend(b, later)) == Prepend(a + b, later)
  {
    if later.Some? {
      assert a + (b + later.value) == a + b + later.value;
    }
  }

  lemma PrependNone(later: Option<seq<Token>>)
    ensures Prepend([], later) == later
  {
    if later.Some? {
      assert [] + later.value == later.value;
    }
  }

  lemma TakesHere(text: string, m: Mode, toks: seq<Token>, n: Mode, rest: string)
    requires Takes(text, m, toks, n)
    ensures Lex(text + rest, m) == Prepend(toks, Lex(rest, n))
  {
  }

  lemma BothHere(s: string, m: Mode, a: seq<Token>, n: Mode, t: string, b: seq<Token>, k: Mode, rest: string)
    requires Takes(s, m, a, n) && Takes(t, n, b, k)
    ensures Lex(s + (t + rest), m) == Prepend(a + b, Lex(rest, k))
  {
    TakesHere(s, m, a, n, t + rest);
    TakesHere(t, n, b, k, rest);
    PrependTwice(a, b, Lex(rest, k));
  }

  lemma TakesBoth(s: string, m: Mode, a: seq<Token>, n: Mode, t: string, b: seq<Token>, k: Mode)
    requires Takes(s, m, a, n) && Takes(t, n, b, k)
    ensures Takes(s + t, m, a + b, k)
  {
    forall rest: string
      ensures Lex(s + t + rest, m) == Prepend(a + b, Lex(rest, k))
    {
      Text.Reassociate(s, t, rest);
      BothHere(s, m, a, n, t, b, k, rest);
    }
  }

  lemma TakesThen(s: string, m: Mode, n: Mode, t: string, toks: seq<Token>, k: Mode)
    requires Takes(s, m, [], n) && Takes(t, n, toks, k)
    ensures Takes(s + t, m, toks, k)
  {
    TakesBoth(s, m, [], n, t, toks, k);
    assert [] + toks == toks;
  }

  lemma TakesAll(s: string, m: Mode, toks: seq<Token>, w: seq<Cell>)
    requires Takes(s, m, toks, InWord(w))
    ensures Lex(s, m) == Some(toks + [Token.Word(w)])
  {
    assert s + "" == s;
    assert Lex(s + "", m) == Prepend(toks, Lex("", InWord(w)));
    assert toks == [] ==> toks + [Token.Word(w)] == [Token.Word(w)];
  }

  lemma TakesNothing(m: Mode)
    ensures Takes("", m, [], m)
  {
    forall rest: string ensures Lex("" + rest, m) == Prepend([], Lex(rest, m)) {
      assert "" + rest == rest;
      PrependNone(Lex(rest, m));
    }
  }

  /** One step of the reader that does not depend on what comes after it. */
  lemma TakesStep(text: string, m: Mode, toks: seq<Token>, n: Mode)
    requires text != "" && forall rest: string :: Next(text + rest, m) == Step(|text|, toks, n)
    ensures Takes(text, m, toks, n)
  {
    forall rest: string
      ensures Lex(text + rest, m) == Prepend(toks, Lex(rest, n))
    {
      assert Next(text + rest, m) == Step(|text|, toks, n);
      assert (text + rest)[|text|..] == rest;
    }
  }

  /** One step that depends on the next character, and what reading that does. */
  lemma TakesAhead(text: string, ahead: string, m: Mode, toks: seq<Token>, n: Mode, k: Mode)
    requires text != "" && Takes(ahead, n, [], k)
    requires forall rest: string :: Next(text + (ahead + rest), m) == Step(|text|, toks, n)
    ensures Takes(text + ahead, m, toks, k)
  {
    forall rest: string
      ensures Lex(text + ahead + rest, m) == Prepend(toks, Lex(rest, k))
    {
      Text.Reassociate(text, ahead, rest);
      assert Next(text + (ahead + rest), m) == Step(|text|, toks, n);
      assert (text + (ahead + rest))[|text|..] == ahead + rest;
      TakesHere(ahead, n, [], k, rest);
      PrependNone(Lex(rest, k));
    }
  }

  lemma TakesQuotedChar(c: char, w: seq<Cell>)
    ensures Takes(QuotesReplaced([c]), InSingle(w), [], InSingle(w + [Quoted(c)]))
  {
    assert [c][1..] == "";
    if c == '\'' {
      TakesStep("'", InSingle(w), [], InWord(w));
      TakesStep("\\'", InWord(w), [], InWord(w + [Quoted(c)]));
      TakesStep("'", InWord(w + [Quoted(c)]), [], InSingle(w + [Quoted(c)]));
      TakesThen("'", InSingle(w), InWord(w), "\\'", [], InWord(w + [Quoted(c)]));
      TakesThen("'" + "\\'", InSingle(w), InWord(w + [Quoted(c)]), "'", [], InSingle(w + [Quoted(c)]));
      assert QuotesReplaced([c]) == "'" + "\\'" + "'";
    } else {
      TakesStep([c], InSingle(w), [], InSingle(w + [Quoted(c)]));
      assert QuotesReplaced([c]) == [c];
    }
  }

  lemma {:induction false} TakesReplaced(s: string, w: seq<Cell>)
    ensures Takes(QuotesReplaced(s), InSingle(w), [], InSingle(w + AsQuoted(s)))
  {
    if s == "" {
      TakesNothing(InSingle(w));
      assert w + AsQuoted(s) == w;
    } else {
      var w' := w + [Quoted(s[0])];
      TakesQuotedChar(s[0], w);
      TakesReplaced(s[1..], w');
      TakesThen(QuotesReplaced([s[0]]), InSingle(w), InSingle(w'), QuotesReplaced(s[1..]), [],
        InSingle(w' + AsQuoted(s[1..])));
      assert w' + AsQuoted(s[1..]) == w + AsQuoted(s);
      assert QuotesReplaced(s) == QuotesReplaced([s[0]]) + QuotesReplaced(s[1..]) by {
        assert [s[0]][1..] == "";
      }
    }
  }

  /** A quoted string adds exactly its characters, all literal, to the word it stands in. */
  lemma TakesQuote(s: string, m: Mode)
    requires m.Between? || m.InWord?
    ensures Takes(ShellQuote(s), m, [], InWord(m.Word() + AsQuoted(s)))
  {
    var w, w' := m.Word(), m.Word() + AsQuoted(s);
    TakesStep("'", m, [], InSingle(w));
    TakesReplaced(s, w);
    TakesStep("'", InSingle(w'), [], InWord(w'));
    TakesThen("'", m, InSingle(w), QuotesReplaced(s), [], InSingle(w'));
    TakesThen("'" + QuotesReplaced(s), m, InSingle(w'), "'", [], InWord(w'));
  }

  /** Quoting makes one word of any string, and the word is that string. */
  lemma QuoteIsOneWord(s: string)
    ensures Lex(ShellQuote(s), Between) == Some([Q(s)]) && Meaning(AsQuoted(s)) == Some(s)
  {
    TakesQuote(s, Between);
    TakesAll(ShellQuote(s), Between, [], [] + AsQuoted(s));
    assert [] + AsQuoted(s) == AsQuoted(s) && [] + [Q(s)] == [Q(s)];
    assert Chars(AsQuoted(s)) == s;
  }

  /** An unquoted word stands for itself exactly when none of its characters is special. */
  lemma LiteralText(s: string)
    ensures Meaning(AsBare(s)) == Some(s) <==> forall c <- s :: !IsSpecial(c)
  {
    assert Chars(AsBare(s)) == s;
    assert forall i | 0 <= i < |s| :: s[i] in s && AsBare(s)[i] in AsBare(s);
  }

  lemma {:induction false} TakesBare(s: string, m: Mode)
    requires Unbroken(s) && (m.InWord? || (m.Between? && s != "" && s[0] != '#'))
    ensures Takes(s, m, [], InWord(m.Word() + AsBare(s)))
    decreases |s|
  {
    if s == "" {
      TakesNothing(m);
      assert m.w + AsBare(s) == m.w;
    } else {
      var n := InWord(m.Word() + [Bare(s[0])]);
      TakesStep([s[0]], m, [], n);
      TakesBare(s[1..], n);
      TakesThen([s[0]], m, n, s[1..], [], InWord(n.w + AsBare(s[1..])));
      assert s == [s[0]] + s[1..];
      assert n.w + AsBare(s[1..]) == m.Word() + AsBare(s);
    }
  }

  lemma TakesBlank(m: Mode)
    requires m.Between? || m.InWord?
    ensures Takes(" ", m, if m.Between? then [] else [Token.Word(m.w)], Between)
  {
    TakesStep(" ", m, if m.Between? then [] else [Token.Word(m.w)], Between);
  }

  lemma TakesWord(s: string)
    requires Ordinary(s) && s != ""
    ensures Takes(s + " ", Between, [W(s)], Between)
  {
    TakesBare(s, Between);
    assert [] + AsBare(s) == AsBare(s) && [] + [W(s)] == [W(s)];
    TakesBlank(InWord(AsBare(s)));
    TakesThen(s, Between, InWord(AsBare(s)), " ", [W(s)], Between);
  }

  // ---------------------------------------------------------------- the commands

  predicate IsBlankText(s: string) { forall c <- s :: Text.IsSpace(c) }

  /** What the login shell is given to run. */
  function Inner(workdir: string, cmd: string): string {
    if IsBlankText(workdir) then cmd else "cd " + ShellQuote(workdir) + " && " + cmd
  }

  function RunAs(user: string, workdir: string, cmd: string, ambient: Option<string>): string {
    var loginShell := "bash -lc " + ShellQuote(Inner(workdir, cmd));
    if user == "" || user == "root" then loginShell
    else if ambient.None? then "runuser -u " + ShellQuote(user) + " -- " + loginShell
    else
      "setpriv --reuid=" + ShellQuote(user) + " --regid=" + ShellQuote(user) + " --init-groups --inh-caps="
      + ambient.value + " --ambient-caps=" + ambient.value + " -- " + loginShell
  }

  const RUN_LOG := "/var/log/pandion/run.log"
  const EXIT_MARKER := "__pandion_exit__"

  /** The command with its output and exit code recorded, as the session's shell gets it. */
  function Logged(cmd: string): string {
    cmd + " > " + RUN_LOG + " 2>&1; echo \"" + EXIT_MARKER + " $?\" >> " + RUN_LOG
  }

  const TMUX_SESSION := "pandion"

  /** What the node's shell gets. */
  function LaunchRun(cmd: string): string {
    "mkdir -p /var/log/pandion; tmux kill-session -t " + TMUX_SESSION + " 2>/dev/null; "
      + "tmux new-session -d -s " + TMUX_SESSION + " " + ShellQuote(Logged(cmd))
  }

  // ---------------------------------------------------------------- reading them back

  lemma OperatorBeforeBlank(op: string, rest: string)
    requires op == "&&" || op == ">" || op == ">>"
    ensures Next(op + (" " + rest), Between) == Step(|op|, [Operator(op)], Between)
  {
    var s := op + (" " + rest);
    assert s[0] == op[0] && s[|op|] == ' ' && (|op| == 2 ==> s[1] == op[1]);
    assert OperatorAt(s) == |op|;
    assert s[..|op|] == op && [] + [Operator(op)] == [Operator(op)];
  }

  /** An operator between blanks. */
  lemma TakesOperator(op: string, w: seq<Cell>)
    requires op == "&&" || op == ">" || op == ">>"
    ensures Takes(" " + op + " ", InWord(w), [Token.Word(w), Operator(op)], Between)
  {
    TakesBlank(Between);
    TakesBlank(InWord(w));
    forall rest: string ensures Next(op + (" " + rest), Between) == Step(|op|, [Operator(op)], Between) {
      OperatorBeforeBlank(op, rest);
    }
    TakesAhead(op, " ", Between, [Operator(op)], Between, Between);
    OperatorBetween(op, w);
  }

  lemma OperatorBetween(op: string, w: seq<Cell>)
    requires Takes(" ", InWord(w), [Token.Word(w)], Between) && Takes(op + " ", Between, [Operator(op)], Between)
    ensures Takes(" " + op + " ", InWord(w), [Token.Word(w), Operator(op)], Between)
  {
    TakesBoth(" ", InWord(w), [Token.Word(w)], Between, op + " ", [Operator(op)], Between);
    Text.Reassociate(" ", op, " ");
    assert [Token.Word(w)] + [Operator(op)] == [Token.Word(w), Operator(op)];
  }

  lemma TakesQuoteFirst(s: string)
    ensures Takes(ShellQuote(s), Between, [], InWord(AsQuoted(s)))
  {
    TakesQuote(s, Between);
    assert [] + AsQuoted(s) == AsQuoted(s);
  }

  /** The login shell changes directory first, and then has exactly the command before it. */
  lemma InnerReads(workdir: string, cmd: string)
    ensures Lex(Inner(workdir, cmd), Between) ==
      if IsBlankText(workdir) then Lex(cmd, Between)
      else Prepend([W("cd"), Q(workdir), Operator("&&")], Lex(cmd, Between))
  {
    if !IsBlankText(workdir) {
      var q, w := ShellQuote(workdir), AsQuoted(workdir);
      TakesWord("cd");
      assert "cd" + " " == "cd ";
      TakesQuoteFirst(workdir);
      TakesBoth("cd ", Between, [W("cd")], Between, q, [], InWord(w));
      TakesOperator("&&", w);
      assert " " + "&&" + " " == " && ";
      TakesBoth("cd " + q, Between, [W("cd")] + [], InWord(w), " && ", [Q(workdir), Operator("&&")], Between);
      TakesHere("cd " + q + " && ", Between, [W("cd")] + [] + [Q(workdir), Operator("&&")], Between, cmd);
      assert [W("cd")] + [] + [Q(workdir), Operator("&&")] == [W("cd"), Q(workdir), Operator("&&")];
    }
  }

  function Mixed(bare: string, quoted: string): Token { Token.Word(AsBare(bare) + AsQuoted(quoted)) }

  /** The words before the last one, which is what the login shell runs. */
  function RunArgs(user: string, ambient: Option<string>): seq<Token> {
    if user == "" || user == "root" then [W("bash"), W("-lc")]
    else if ambient.None? then [W("runuser"), W("-u"), Q(user), W("--"), W("bash"), W("-lc")]
    else SetprivArgs(user, ambient.value)
  }

  function SetprivArgs(user: string, caps: string): seq<Token> {
    [W("setpriv"), Mixed("--reuid=", user), Mixed("--regid=", user), W("--init-groups"),
     W("--inh-caps=" + caps), W("--ambient-caps=" + caps), W("--"), W("bash"), W("-lc")]
  }

  /** Two words and the blanks after them. */
  lemma TakesTwo(a: string, b: string)
    requires a != "" && Ordinary(a) && b != "" && Ordinary(b)
    ensures Takes(a + " " + b + " ", Between, [W(a), W(b)], Between)
  {
    TakesWord(a);
    TakesWord(b);
    TakesBoth(a + " ", Between, [W(a)], Between, b + " ", [W(b)], Between);
    Text.Reassociate(a + " ", b, " ");
    assert [W(a)] + [W(b)] == [W(a), W(b)];
  }

  lemma TakesLoginShell(inner: string)
    ensures Takes("bash -lc " + ShellQuote(inner), Between, [W("bash"), W("-lc")], InWord(AsQuoted(inner)))
  {
    TakesTwo("bash", "-lc");
    assert "bash" + " " + "-lc" + " " == "bash -lc ";
    TakesQuoteFirst(inner);
    TakesBoth("bash -lc ", Between, [W("bash"), W("-lc")], Between, ShellQuote(inner), [], InWord(AsQuoted(inner)));
    assert [W("bash"), W("-lc")] + [] == [W("bash"), W("-lc")];
  }

  lemma TakesDashes(w: seq<Cell>)
    ensures Takes(" -- ", InWord(w), [Token.Word(w), W("--")], Between)
  {
    TakesBlank(InWord(w));
    TakesWord("--");
    TakesBoth(" ", InWord(w), [Token.Word(w)], Between, "--" + " ", [W("--")], Between);
    assert " " + ("--" + " ") == " -- " && [Token.Word(w)] + [W("--")] == [Token.Word(w), W("--")];
  }

  lemma TakesRunuser(user: string)
    ensures Takes("runuser -u " + ShellQuote(user) + " -- ", Between, [W("runuser"), W("-u"), Q(user), W("--")],
      Between)
  {
    TakesTwo("runuser", "-u");
    assert "runuser" + " " + "-u" + " " == "runuser -u ";
    TakesQuoteFirst(user);
    var w := AsQuoted(user);
    TakesBoth("runuser -u ", Between, [W("runuser"), W("-u")], Between, ShellQuote(user), [], InWord(w));
    TakesDashes(w);
    TakesBoth("runuser -u " + ShellQuote(user), Between, [W("runuser"), W("-u")] + [], InWord(w), " -- ",
      [Q(user), W("--")], Between);
    assert [W("runuser"), W("-u")] + [] + [Q(user), W("--")] == [W("runuser"), W("-u"), Q(user), W("--")];
  }

  /** A blank, and the beginning of an unquoted word. */
  lemma TakesOption(w: seq<Cell>, option: string)
    requires option != "" && Ordinary(option)
    ensures Takes(" " + option, InWord(w), [Token.Word(w)], InWord(AsBare(option)))
  {
    TakesBlank(InWord(w));
    TakesBare(option, Between);
    assert [] + AsBare(option) == AsBare(option);
    TakesBoth(" ", InWord(w), [Token.Word(w)], Between, option, [], InWord(AsBare(option)));
    assert [Token.Word(w)] + [] == [Token.Word(w)];
  }

  /** An option with a quoted value, then the blank and the next option. */
  lemma TakesQuotedValue(option: string, value: string, next: string)
    requires option != "" && Ordinary(option) && next != "" && Ordinary(next)
    ensures Takes(ShellQuote(value) + (" " + next), InWord(AsBare(option)), [Mixed(option, value)],
      InWord(AsBare(next)))
  {
    var w := AsBare(option) + AsQuoted(value);
    TakesQuote(value, InWord(AsBare(option)));
    TakesOption(w, next);
    TakesThen(ShellQuote(value), InWord(AsBare(option)), InWord(w), " " + next, [Mixed(option, value)],
      InWord(AsBare(next)));
  }

  /** An option with an unquoted value, then the blank and the next option. */
  lemma TakesValue(option: string, value: string, next: string)
    requires option != "" && Ordinary(option) && Unbroken(value) && next != "" && Ordinary(next)
    ensures Takes(value + (" " + next), InWord(AsBare(option)), [W(option + value)], InWord(AsBare(next)))
  {
    var w := AsBare(option) + AsBare(value);
    TakesBare(value, InWord(AsBare(option)));
    assert w == AsBare(option + value);
    TakesOption(w, next);
    TakesThen(value, InWord(AsBare(option)), InWord(w), " " + next, [W(option + value)], InWord(AsBare(next)));
  }

  lemma TakesThree(s: string, m: Mode, a: seq<Token>, n: Mode, t: string, b: seq<Token>, k: Mode, u: string,
      c: seq<Token>, l: Mode)
    requires Takes(s, m, a, n) && Takes(t, n, b, k) && Takes(u, k, c, l)
    ensures Takes(s + t + u, m, a + b + c, l)
  {
    TakesBoth(s, m, a, n, t, b, k);
    TakesBoth(s + t, m, a + b, k, u, c, l);
  }

  /** A command whose first two options have the same quoted value. */
  lemma TakesIds(command: string, first: string, second: string, next: string, value: string)
    requires command != "" && Ordinary(command) && first != "" && Ordinary(first)
    requires second != "" && Ordinary(second) && next != "" && Ordinary(next)
    ensures Takes(command + " " + first + (ShellQuote(value) + (" " + second)) + (ShellQuote(value) + (" " + next)),
      Between,
      [W(command), Mixed(first, value), Mixed(second, value)], InWord(AsBare(next)))
  {
    var q := ShellQuote(value);
    TakesWord(command);
    TakesBare(first, Between);
    assert [] + AsBare(first) == AsBare(first);
    TakesBoth(command + " ", Between, [W(command)], Between, first, [], InWord(AsBare(first)));
    TakesQuotedValue(first, value, second);
    TakesQuotedValue(second, value, next);
    TakesThree(command + " " + first, Between, [W(command)] + [], InWord(AsBare(first)),
               q + (" " + second), [Mixed(first, value)], InWord(AsBare(second)),
               q + (" " + next), [Mixed(second, value)], InWord(AsBare(next)));
    assert [W(command)] + [] + [Mixed(first, value)] + [Mixed(second, value)]
      == [W(command), Mixed(first, value), Mixed(second, value)];
  }

  lemma TakesSetprivIds(user: string)
    ensures Takes("setpriv --reuid=" + ShellQuote(user) + " --regid=" + ShellQuote(user) + " --init-groups", Between,
      [W("setpriv"), Mixed("--reuid=", user), Mixed("--regid=", user)], InWord(AsBare("--init-groups")))
  {
    TakesIds("setpriv", "--reuid=", "--regid=", "--init-groups", user);
    IdsShape("setpriv", "--reuid=", "--regid=", "--init-groups", ShellQuote(user));
    assert "setpriv" + " " + "--reuid=" == "setpriv --reuid=";
    assert " " + "--regid=" == " --regid=" && " " + "--init-groups" == " --init-groups";
  }

  lemma IdsShape(command: string, first: string, second: string, next: string, q: string)
    ensures command + " " + first + (q + (" " + second)) + (q + (" " + next))
      == command + " " + first + q + (" " + second) + q + (" " + next)
  {
    var start := command + " " + first;
    Text.Reassociate(start, q, " " + second);
    Text.Reassociate(start + q + (" " + second), q, " " + next);
  }

  /** Two options with the same unquoted value after an option without, and the end of options. */
  lemma TakesOptions(first: string, second: string, third: string, value: string)
    requires first != "" && Ordinary(first) && second != "" && Ordinary(second) && third != "" && Ordinary(third)
    requires Unbroken(value)
    ensures Takes(" " + second + (value + (" " + third)) + (value + " -- "), InWord(AsBare(first)),
      [W(first), W(second + value), W(third + value), W("--")], Between)
  {
    var a, b, c := InWord(AsBare(first)), InWord(AsBare(second)), InWord(AsBare(third));
    var w := AsBare(third + value);
    TakesOption(a.w, second);
    TakesValue(second, value, third);
    TakesBare(value, c);
    assert AsBare(third) + AsBare(value) == w;
    TakesDashes(w);
    TakesThen(value, c, InWord(w), " -- ", [W(third + value), W("--")], Between);
    TakesThree(" " + second, a, [W(first)], b, value + (" " + third), [W(second + value)], c,
               value + " -- ", [W(third + value), W("--")], Between);
    assert [W(first)] + [W(second + value)] + [W(third + value), W("--")]
      == [W(first), W(second + value), W(third + value), W("--")];
  }

  lemma TakesSetprivCaps(caps: string)
    requires Unbroken(caps)
    ensures Takes(" --inh-caps=" + caps + " --ambient-caps=" + caps + " -- ", InWord(AsBare("--init-groups")),
      [W("--init-groups"), W("--inh-caps=" + caps), W("--ambient-caps=" + caps), W("--")], Between)
  {
    TakesOptions("--init-groups", "--inh-caps=", "--ambient-caps=", caps);
    OptionTexts();
    Text.Reassociate(" --inh-caps=", caps, " --ambient-caps=");
    Text.Reassociate(" --inh-caps=" + caps + " --ambient-caps=", caps, " -- ");
  }

  lemma OptionTexts()
    ensures " " + "--inh-caps=" == " --inh-caps=" && " " + "--ambient-caps=" == " --ambient-caps="
  {
  }

  lemma SetprivShape(ids: string, caps: string, shell: string)
    ensures ids + " --init-groups --inh-caps=" + caps + " --ambient-caps=" + caps + " -- " + shell
      == (ids + " --init-groups") + (" --inh-caps=" + caps + " --ambient-caps=" + caps + " -- ") + shell
  {
    assert " --init-groups --inh-caps=" == " --init-groups" + " --inh-caps=";
    var i, amb := " --inh-caps=" + caps, " --ambient-caps=";
    Text.Reassociate(ids, " --init-groups", " --inh-caps=");
    Text.Reassociate(ids + " --init-groups", " --inh-caps=", caps);
    Text.Reassociate(ids + " --init-groups", i, amb);
    Text.Reassociate(ids + " --init-groups", i + amb, caps);
    Text.Reassociate(ids + " --init-groups", i + amb + caps, " -- ");
  }

  /** The capabilities are the one part that is written as it is. */
  predicate CapsUnbroken(user: string, ambient: Option<string>) {
    user != "" && user != "root" && ambient.Some? ==> Unbroken(ambient.value)
  }

  /** Dropping to a user keeps the words apart, whatever the user, the directory and the command hold. */
  lemma RunAsReads(user: string, workdir: string, cmd: string, ambient: Option<string>)
    requires CapsUnbroken(user, ambient)
    ensures Takes(RunAs(user, workdir, cmd, ambient), Between, RunArgs(user, ambient),
      InWord(AsQuoted(Inner(workdir, cmd))))
  {
    var inner := Inner(workdir, cmd);
    var shell, args, n := "bash -lc " + ShellQuote(inner), [W("bash"), W("-lc")], InWord(AsQuoted(inner));
    TakesLoginShell(inner);
    if user != "" && user != "root" {
      if ambient.None? {
        TakesRunuser(user);
        var before := [W("runuser"), W("-u"), Q(user), W("--")];
        TakesBoth("runuser -u " + ShellQuote(user) + " -- ", Between, before, Between, shell, args, n);
        assert RunArgs(user, ambient) == before + args;
      } else {
        RunSetpriv(user, ambient.value, shell, n);
      }
    }
  }

  lemma RunSetpriv(user: string, caps: string, shell: string, n: Mode)
    requires Unbroken(caps) && Takes(shell, Between, [W("bash"), W("-lc")], n)
    ensures Takes("setpriv --reuid=" + ShellQuote(user) + " --regid=" + ShellQuote(user) + " --init-groups --inh-caps="
      + caps + " --ambient-caps=" + caps + " -- " + shell, Between, SetprivArgs(user, caps), n)
  {
    var ids := "setpriv --reuid=" + ShellQuote(user) + " --regid=" + ShellQuote(user);
    var flags := " --inh-caps=" + caps + " --ambient-caps=" + caps + " -- ";
    var a := [W("setpriv"), Mixed("--reuid=", user), Mixed("--regid=", user)];
    var b := [W("--init-groups"), W("--inh-caps=" + caps), W("--ambient-caps=" + caps), W("--")];
    TakesSetprivIds(user);
    TakesSetprivCaps(caps);
    TakesThree(ids + " --init-groups", Between, a, InWord(AsBare("--init-groups")), flags, b, Between,
               shell, [W("bash"), W("-lc")], n);
    SetprivShape(ids, caps, shell);
    assert a + b + [W("bash"), W("-lc")] == SetprivArgs(user, caps);
  }

  // ---------------------------------------------------------------- the session's shell

  /** Around the command: where its output goes, and the exit code, whose `$?` is still active. */
  const LOGGING: seq<Token> := [
    Operator(">"), W(RUN_LOG), IoNumber("2"), Operator(">&"), W("1"), Operator(";"), W("echo"),
    Token.Word(AsQuoted(EXIT_MARKER + " ") + [Bare('$'), Quoted('?')]), Operator(">>"), W(RUN_LOG)]

  lemma {:induction false} TakesDoubled(s: string, w: seq<Cell>)
    requires forall i | 0 <= i < |s| :: s[i] != '"' && s[i] != '\\' && s[i] != '$' && s[i] != '`'
    ensures Takes(s, InDouble(w), [], InDouble(w + AsQuoted(s)))
  {
    if s == "" {
      TakesNothing(InDouble(w));
      assert w + AsQuoted(s) == w;
    } else {
      var w' := w + [Quoted(s[0])];
      TakesStep([s[0]], InDouble(w), [], InDouble(w'));
      TakesDoubled(s[1..], w');
      TakesThen([s[0]], InDouble(w), InDouble(w'), s[1..], [], InDouble(w' + AsQuoted(s[1..])));
      assert w' + AsQuoted(s[1..]) == w + AsQuoted(s) && [s[0]] + s[1..] == s;
    }
  }

  lemma TakesStatus(w: seq<Cell>)
    ensures Takes("$?\"", InDouble(w), [], InWord(w + [Bare('$'), Quoted('?')]))
  {
    var d := w + [Bare('$')];
    TakesStep("$", InDouble(w), [], InDouble(d));
    TakesStep("?", InDouble(d), [], InDouble(d + [Quoted('?')]));
    TakesStep("\"", InDouble(d + [Quoted('?')]), [], InWord(d + [Quoted('?')]));
    TakesThen("$", InDouble(w), InDouble(d), "?", [], InDouble(d + [Quoted('?')]));
    TakesThen("$" + "?", InDouble(w), InDouble(d + [Quoted('?')]), "\"", [], InWord(d + [Quoted('?')]));
    assert "$" + "?" + "\"" == "$?\"" && d + [Quoted('?')] == w + [Bare('$'), Quoted('?')];
  }

  /** The marker's closing part and the second redirection. */
  lemma TakesExitCode()
    ensures Takes(EXIT_MARKER + " $?\" >> ", InDouble([]), [LOGGING[7], Operator(">>")], Between)
  {
    var text := EXIT_MARKER + " ";
    var w := AsQuoted(text);
    var w' := w + [Bare('$'), Quoted('?')];
    TakesDoubled(text, []);
    assert [] + w == w;
    TakesStatus(w);
    TakesOperator(">>", w');
    assert " $?\" >> " == " " + "$?\"" + " >> " && " " + ">>" + " " == " >> ";
    TakesThree(text, InDouble([]), [], InDouble(w), "$?\"", [], InWord(w'), " >> ", [Token.Word(w'), Operator(">>")],
      Between);
    Text.Reassociate(EXIT_MARKER, " ", "$?\"");
    Text.Reassociate(EXIT_MARKER, " " + "$?\"", " >> ");
    assert [] + [] + [Token.Word(w'), Operator(">>")] == [LOGGING[7], Operator(">>")];
  }

  /** A digit right before a redirection is its descriptor. */
  lemma FlushDescriptor(before: char)
    requires before == '>'
    ensures Flush(InWord(AsBare("2")), before) == [IoNumber("2")]
  {
    assert ['2'] == "2" && AsBare("2") == [Bare('2')] && Chars(AsBare("2")) == "2";
  }

  /** A descriptor and a redirection to another descriptor. */
  lemma TakesDescriptor()
    ensures Takes("2>&", Between, [IoNumber("2"), Operator(">&")], Between)
  {
    var two, toks := InWord(AsBare("2")), [IoNumber("2"), Operator(">&")];
    TakesTwoDigit();
    FlushDescriptor('>');
    forall rest: string
      ensures Next(">&" + rest, two) == Step(2, toks, Between)
    {
      assert (">&" + rest)[..2] == ">&" && [IoNumber("2")] + [Operator(">&")] == toks;
    }
    TakesStep(">&", two, toks, Between);
    TakesThen("2", Between, two, ">&", toks, Between);
    assert "2" + ">&" == "2>&";
  }

  lemma TakesTwoDigit()
    ensures Takes("2", Between, [], InWord(AsBare("2")))
  {
    TakesBare("2", Between);
    assert [] + AsBare("2") == AsBare("2");
  }

  /** A descriptor and a redirection to an absolute path. */
  lemma TakesToFile()
    ensures Takes("2>/", Between, [IoNumber("2"), Operator(">")], InWord(AsBare("/")))
  {
    var two, n, toks := InWord(AsBare("2")), InWord(AsBare("/")), [IoNumber("2"), Operator(">")];
    TakesTwoDigit();
    TakesBare("/", Between);
    assert [] + AsBare("/") == AsBare("/");
    FlushDescriptor('>');
    forall rest: string
      ensures Next(">" + ("/" + rest), two) == Step(1, toks, Between)
    {
      assert (">" + ("/" + rest))[..1] == ">" && [IoNumber("2")] + [Operator(">")] == toks;
    }
    TakesAhead(">", "/", two, toks, Between, n);
    TakesThen("2", Between, two, ">" + "/", toks, n);
    assert "2" + (">" + "/") == "2>/";
  }

  lemma SemicolonBeforeBlank(w: seq<Cell>, rest: string)
    ensures Next(";" + (" " + rest), InWord(w)) == Step(1, [Token.Word(w), Operator(";")], Between)
  {
    assert (";" + (" " + rest))[..1] == ";" && [Token.Word(w)] + [Operator(";")] == [Token.Word(w), Operator(";")];
  }

  /** The end of a command and a blank. */
  lemma TakesLast(w: seq<Cell>)
    ensures Takes("; ", InWord(w), [Token.Word(w), Operator(";")], Between)
  {
    var toks := [Token.Word(w), Operator(";")];
    TakesBlank(Between);
    forall rest: string ensures Next(";" + (" " + rest), InWord(w)) == Step(1, toks, Between) {
      SemicolonBeforeBlank(w, rest);
    }
    TakesAhead(";", " ", InWord(w), toks, Between, Between);
    assert ";" + " " == "; ";
  }

  lemma TakesOne()
    ensures Takes("1; ", Between, [W("1"), Operator(";")], Between)
  {
    var one := AsBare("1");
    TakesBare("1", Between);
    assert [] + one == one;
    TakesLast(one);
    TakesThen("1", Between, InWord(one), "; ", [W("1"), Operator(";")], Between);
    assert "1" + "; " == "1; ";
  }

  lemma TakesEcho()
    ensures Takes("echo \"", Between, [W("echo")], InDouble([]))
  {
    TakesWord("echo");
    TakesStep("\"", Between, [], InDouble([]));
    TakesBoth("echo" + " ", Between, [W("echo")], Between, "\"", [], InDouble([]));
    assert "echo" + " " + "\"" == "echo \"" && [W("echo")] + [] == [W("echo")];
  }

  /** The end of the command and the beginning of the next. */
  lemma TakesNextCommand()
    ensures Takes("1; echo \"", Between, [W("1"), Operator(";"), W("echo")], InDouble([]))
  {
    TakesOne();
    TakesEcho();
    TakesBoth("1; ", Between, [W("1"), Operator(";")], Between, "echo \"", [W("echo")], InDouble([]));
    assert "1; " + "echo \"" == "1; echo \"";
    assert [W("1"), Operator(";")] + [W("echo")] == [W("1"), Operator(";"), W("echo")];
  }

  /** Standard error to standard output. */
  lemma TakesErrors(w: seq<Cell>)
    ensures Takes(" 2>&1; echo \"", InWord(w),
      [Token.Word(w), IoNumber("2"), Operator(">&"), W("1"), Operator(";"), W("echo")], InDouble([]))
  {
    TakesBlank(InWord(w));
    TakesDescriptor();
    TakesNextCommand();
    JoinErrors(Token.Word(w), InWord(w), IoNumber("2"), Operator(">&"), W("1"), Operator(";"), W("echo"), "2>&",
      "1; echo \"");
    ErrorsText();
  }

  lemma ErrorsText()
    ensures " " + "2>&" + "1; echo \"" == " 2>&1; echo \""
  {
  }

  lemma JoinErrors(a: Token, m: Mode, b: Token, c: Token, d: Token, e: Token, f: Token, s: string, t: string)
    requires Takes(" ", m, [a], Between) && Takes(s, Between, [b, c], Between)
    requires Takes(t, Between, [d, e, f], InDouble([]))
    ensures Takes(" " + s + t, m, [a, b, c, d, e, f], InDouble([]))
  {
    TakesThree(" ", m, [a], Between, s, [b, c], Between, t, [d, e, f], InDouble([]));
    SixTokens(a, b, c, d, e, f);
  }

  lemma SixTokens(a: Token, b: Token, c: Token, d: Token, e: Token, f: Token)
    ensures [a] + [b, c] + [d, e, f] == [a, b, c, d, e, f]
  {
  }

  lemma TakesLog()
    ensures Takes(RUN_LOG, Between, [], InWord(AsBare(RUN_LOG)))
  {
    TakesBare(RUN_LOG, Between);
    assert [] + AsBare(RUN_LOG) == AsBare(RUN_LOG);
  }

  lemma TakesRedirected(cmd: string, args: seq<Token>, w: seq<Cell>)
    requires Takes(cmd, Between, args, InWord(w))
    ensures Takes(cmd + " > " + RUN_LOG, Between, args + [Token.Word(w), Operator(">")], InWord(AsBare(RUN_LOG)))
  {
    TakesOperator(">", w);
    assert " " + ">" + " " == " > ";
    TakesLog();
    TakesThree(cmd, Between, args, InWord(w), " > ", [Token.Word(w), Operator(">")], Between, RUN_LOG, [],
      InWord(AsBare(RUN_LOG)));
    assert args + [Token.Word(w), Operator(">")] + [] == args + [Token.Word(w), Operator(">")];
  }

  lemma TakesLogging()
    ensures Takes(" 2>&1; echo \"" + (EXIT_MARKER + " $?\" >> ") + RUN_LOG, InWord(AsBare(RUN_LOG)), LOGGING[1..9],
      InWord(AsBare(RUN_LOG)))
  {
    var log := AsBare(RUN_LOG);
    var errors := [W(RUN_LOG), IoNumber("2"), Operator(">&"), W("1"), Operator(";"), W("echo")];
    TakesErrors(log);
    TakesExitCode();
    TakesLog();
    TakesThree(" 2>&1; echo \"", InWord(log), errors, InDouble([]), EXIT_MARKER + " $?\" >> ",
      [LOGGING[7], Operator(">>")], Between,
               RUN_LOG, [], InWord(log));
    assert errors + [LOGGING[7], Operator(">>")] + [] == LOGGING[1..9];
  }

  lemma LoggedShape(cmd: string, log: string)
    ensures cmd + " > " + log + " 2>&1; echo \"" + EXIT_MARKER + " $?\" >> " + log
      == cmd + " > " + log + (" 2>&1; echo \"" + (EXIT_MARKER + " $?\" >> ") + log)
  {
    var start := cmd + " > " + log;
    Text.Reassociate(start + " 2>&1; echo \"", EXIT_MARKER, " $?\" >> ");
    Text.Reassociate(start, " 2>&1; echo \"", EXIT_MARKER + " $?\" >> ");
    Text.Reassociate(start, " 2>&1; echo \"" + (EXIT_MARKER + " $?\" >> "), log);
  }

  /** The session gets the command's own tokens; the log and the exit code come after them. */
  lemma LoggedReads(cmd: string, args: seq<Token>, w: seq<Cell>)
    requires Takes(cmd, Between, args, InWord(w))
    ensures Lex(Logged(cmd), Between) == Some(args + [Token.Word(w)] + LOGGING)
  {
    var log := AsBare(RUN_LOG);
    var redirected := args + [Token.Word(w), Operator(">")];
    TakesRedirected(cmd, args, w);
    TakesLogging();
    TakesBoth(cmd + " > " + RUN_LOG, Between, redirected, InWord(log),
              " 2>&1; echo \"" + (EXIT_MARKER + " $?\" >> ") + RUN_LOG, LOGGING[1..9], InWord(log));
    LoggedShape(cmd, RUN_LOG);
    TakesAll(Logged(cmd), Between, redirected + LOGGING[1..9], log);
    assert LOGGING == [Operator(">")] + LOGGING[1..9] + [W(RUN_LOG)];
    assert redirected + LOGGING[1..9] + [W(RUN_LOG)] == args + [Token.Word(w)] + LOGGING;
  }

  // ---------------------------------------------------------------- the node's shell

  const LAUNCHING: seq<Token> := [
    W("mkdir"), W("-p"), W("/var/log/pandion"), Operator(";"),
    W("tmux"), W("kill-session"), W("-t"), W(TMUX_SESSION), IoNumber("2"), Operator(">"), W("/dev/null"), Operator(";"),
    W("tmux"), W("new-session"), W("-d"), W("-s"), W(TMUX_SESSION)]

  /** Three words and a semicolon. */
  lemma TakesCommand(a: string, b: string, c: string)
    requires a != "" && Ordinary(a) && b != "" && Ordinary(b) && c != "" && Ordinary(c)
    ensures Takes(a + " " + b + " " + c + "; ", Between, [W(a), W(b), W(c), Operator(";")], Between)
  {
    TakesTwo(a, b);
    TakesBare(c, Between);
    assert [] + AsBare(c) == AsBare(c);
    TakesLast(AsBare(c));
    TakesThree(a + " " + b + " ", Between, [W(a), W(b)], Between, c, [], InWord(AsBare(c)), "; ", [W(c), Operator(";")],
      Between);
    assert [W(a), W(b)] + [] + [W(c), Operator(";")] == [W(a), W(b), W(c), Operator(";")];
  }

  lemma MkdirText()
    ensures "mkdir" + " " + "-p" + " " + "/var/log/pandion" + "; " == "mkdir -p /var/log/pandion; "
  {
  }

  lemma TakesMkdir()
    ensures Takes("mkdir -p /var/log/pandion; ", Between, [W("mkdir"), W("-p"), W("/var/log/pandion"), Operator(";")],
      Between)
  {
    TakesCommand("mkdir", "-p", "/var/log/pandion");
    MkdirText();
  }

  lemma TakesThreeWords(a: string, b: string, c: string)
    requires a != "" && Ordinary(a) && b != "" && Ordinary(b) && c != "" && Ordinary(c)
    ensures Takes(a + " " + b + " " + c + " ", Between, [W(a), W(b), W(c)], Between)
  {
    TakesTwo(a, b);
    TakesWord(c);
    TakesBoth(a + " " + b + " ", Between, [W(a), W(b)], Between, c + " ", [W(c)], Between);
    Text.Reassociate(a + " " + b + " ", c, " ");
    assert [W(a), W(b)] + [W(c)] == [W(a), W(b), W(c)];
  }

  lemma TakesSession()
    ensures Takes(TMUX_SESSION, Between, [], InWord(AsBare(TMUX_SESSION)))
  {
    TakesBare(TMUX_SESSION, Between);
    assert [] + AsBare(TMUX_SESSION) == AsBare(TMUX_SESSION);
  }

  lemma TakesKill()
    ensures Takes("tmux kill-session -t " + TMUX_SESSION, Between, [W("tmux"), W("kill-session"), W("-t")],
      InWord(AsBare(TMUX_SESSION)))
  {
    TakesThreeWords("tmux", "kill-session", "-t");
    assert "tmux" + " " + "kill-session" + " " + "-t" + " " == "tmux kill-session -t ";
    TakesSession();
    TakesBoth("tmux kill-session -t ", Between, [W("tmux"), W("kill-session"), W("-t")], Between,
              TMUX_SESSION, [], InWord(AsBare(TMUX_SESSION)));
    assert [W("tmux"), W("kill-session"), W("-t")] + [] == [W("tmux"), W("kill-session"), W("-t")];
  }

  lemma TakesNull()
    ensures Takes("dev/null", InWord(AsBare("/")), [], InWord(AsBare("/dev/null")))
  {
    TakesBare("dev/null", InWord(AsBare("/")));
    assert AsBare("/") + AsBare("dev/null") == AsBare("/dev/null");
  }

  lemma DiscardedText()
    ensures " " + "2>/" + "dev/null" + "; " == " 2>/dev/null; "
  {
  }

  /** Errors discarded, and the end of the command. */
  lemma TakesDiscarded(w: seq<Cell>)
    ensures Takes(" 2>/dev/null; ", InWord(w),
      [Token.Word(w), IoNumber("2"), Operator(">"), W("/dev/null"), Operator(";")], Between)
  {
    var slash, file := InWord(AsBare("/")), InWord(AsBare("/dev/null"));
    TakesBlank(InWord(w));
    TakesToFile();
    TakesThree(" ", InWord(w), [Token.Word(w)], Between, "2>/", [IoNumber("2"), Operator(">")], slash, "dev/null", [],
      file)
      by { TakesNull(); }
    TakesLast(file.w);
    TakesBoth(" " + "2>/" + "dev/null", InWord(w), [Token.Word(w)] + [IoNumber("2"), Operator(">")] + [], file,
              "; ", [W("/dev/null"), Operator(";")], Between);
    DiscardedText();
    assert [Token.Word(w)] + [IoNumber("2"), Operator(">")] + [] + [W("/dev/null"), Operator(";")]
      == [Token.Word(w), IoNumber("2"), Operator(">"), W("/dev/null"), Operator(";")];
  }

  lemma NewSessionText()
    ensures "tmux" + " " + "new-session" + " " + ("-d" + " " + "-s" + " ") == "tmux new-session -d -s "
    ensures var mkdir := "mkdir -p /var/log/pandion; ";
      mkdir + "tmux kill-session -t " == "mkdir -p /var/log/pandion; tmux kill-session -t "
  {
  }

  lemma TakesNewSession()
    ensures Takes("tmux new-session -d -s ", Between, [W("tmux"), W("new-session"), W("-d"), W("-s")], Between)
  {
    TakesTwo("tmux", "new-session");
    TakesTwo("-d", "-s");
    var a, b := [W("tmux"), W("new-session")], [W("-d"), W("-s")];
    TakesBoth("tmux" + " " + "new-session" + " ", Between, a, Between, "-d" + " " + "-s" + " ", b, Between);
    NewSessionText();
    assert a + b == [W("tmux"), W("new-session"), W("-d"), W("-s")];
  }

  lemma ClearedTokens()
    ensures [W("mkdir"), W("-p"), W("/var/log/pandion"), Operator(";")] + [W("tmux"), W("kill-session"), W("-t")]
      + [W(TMUX_SESSION), IoNumber("2"), Operator(">"), W("/dev/null"), Operator(";")] == LAUNCHING[..12]
  {
  }

  lemma TakesCleanup(mkdir: string, kill: string, discard: string, a: seq<Token>, b: seq<Token>, c: seq<Token>,
      w: seq<Cell>)
    requires Takes(mkdir, Between, a, Between) && Takes(kill + TMUX_SESSION, Between, b, InWord(w))
    requires Takes(discard, InWord(w), c, Between)
    ensures Takes(mkdir + kill + TMUX_SESSION + discard, Between, a + b + c, Between)
  {
    TakesThree(mkdir, Between, a, Between, kill + TMUX_SESSION, b, InWord(w), discard, c, Between);
    Text.Reassociate(mkdir, kill, TMUX_SESSION);
  }

  /** Up to the old session's end. */
  lemma TakesCleared()
    ensures Takes("mkdir -p /var/log/pandion; tmux kill-session -t " + TMUX_SESSION + " 2>/dev/null; ", Between,
      LAUNCHING[..12], Between)
  {
    var w := AsBare(TMUX_SESSION);
    TakesMkdir();
    TakesKill();
    TakesDiscarded(w);
    TakesCleanup("mkdir -p /var/log/pandion; ", "tmux kill-session -t ", " 2>/dev/null; ",
                 [W("mkdir"), W("-p"), W("/var/log/pandion"), Operator(";")], [W("tmux"), W("kill-session"), W("-t")],
                 [W(TMUX_SESSION), IoNumber("2"), Operator(">"), W("/dev/null"), Operator(";")], w);
    NewSessionText();
    ClearedTokens();
  }

  /** Up to the new session's command. */
  lemma TakesStarted()
    ensures Takes("tmux new-session -d -s " + TMUX_SESSION + " ", Between, LAUNCHING[12..], Between)
  {
    var w := AsBare(TMUX_SESSION);
    TakesNewSession();
    TakesSession();
    TakesBlank(InWord(w));
    TakesThree("tmux new-session -d -s ", Between, [W("tmux"), W("new-session"), W("-d"), W("-s")], Between,
               TMUX_SESSION, [], InWord(w), " ", [W(TMUX_SESSION)], Between);
    assert [W("tmux"), W("new-session"), W("-d"), W("-s")] + [] + [W(TMUX_SESSION)] == LAUNCHING[12..];
  }

  /** The node's shell reads its own commands and, as one word, the session's. */
  lemma LaunchReads(cmd: string)
    ensures Lex(LaunchRun(cmd), Between) == Some(LAUNCHING + [Q(Logged(cmd))])
  {
    var q, w := ShellQuote(Logged(cmd)), AsQuoted(Logged(cmd));
    var first := "mkdir -p /var/log/pandion; tmux kill-session -t " + TMUX_SESSION + " 2>/dev/null; ";
    var second := "tmux new-session -d -s ";
    TakesCleared();
    TakesStarted();
    TakesQuoteFirst(Logged(cmd));
    TakesThree(first, Between, LAUNCHING[..12], Between, second + TMUX_SESSION + " ", LAUNCHING[12..], Between, q, [],
      InWord(w));
    Text.Reassociate(first, second + TMUX_SESSION, " ");
    Text.Reassociate(first, second, TMUX_SESSION);
    assert LAUNCHING[..12] + LAUNCHING[12..] + [] == LAUNCHING;
    TakesAll(LaunchRun(cmd), Between, LAUNCHING, w);
  }

  /**
    * Three readers, one inside the other, undo the three layers of quotes: the node's shell hands the session's
    * command over as one word, the session's shell finds the words that drop to the user and one more, and the
    * login shell finds the directory, then the command unchanged.
    */
  lemma LayersUndone(user: string, workdir: string, cmd: string, ambient: Option<string>)
    requires CapsUnbroken(user, ambient)
    ensures var run, inner := RunAs(user, workdir, cmd, ambient), Inner(workdir, cmd);
      && Lex(LaunchRun(run), Between) == Some(LAUNCHING + [Q(Logged(run))])
      && Lex(Logged(run), Between) == Some(RunArgs(user, ambient) + [Q(inner)] + LOGGING)
      && Lex(inner, Between) == (if IsBlankText(workdir) then Lex(cmd, Between)
          else Prepend([W("cd"), Q(workdir), Operator("&&")], Lex(cmd, Between)))
      && Meaning(AsQuoted(Logged(run))) == Some(Logged(run)) && Meaning(AsQuoted(inner)) == Some(inner)
      && Meaning(AsQuoted(workdir)) == Some(workdir) && Meaning(AsQuoted(user)) == Some(user)
  {
    var run := RunAs(user, workdir, cmd, ambient);
    LaunchReads(run);
    RunAsReads(user, workdir, cmd, ambient);
    LoggedReads(run, RunArgs(user, ambient), AsQuoted(Inner(workdir, cmd)));
    InnerReads(workdir, cmd);
    QuoteIsOneWord(Logged(run));
    QuoteIsOneWord(Inner(workdir, cmd));
    QuoteIsOneWord(workdir);
    QuoteIsOneWord(user);
  }

  // ---------------------------------------------------------------- the capabilities

  /** No unquoted cell holds a character that cannot be one. */
  predicate Readable(w: seq<Cell>) { forall x <- w :: x.Bare? ==> !Breaks(x.c) }

  predicate ReadableTokens(toks: seq<Token>) { forall t <- toks :: t.Word? ==> Readable(t.cells) }

  lemma StepReadable(s: string, m: Mode)
    requires s != "" && Readable(m.Word()) && Next(s, m).Step?
    ensures Readable(Next(s, m).next.Word()) && ReadableTokens(Next(s, m).toks)
  {
  }

  lemma {:induction false} LexReadable(s: string, m: Mode)
    requires Readable(m.Word()) && Lex(s, m).Some?
    ensures ReadableTokens(Lex(s, m).value)
    decreases |s|
  {
    if s != "" {
      var step := Next(s, m);
      StepReadable(s, m);
      LexReadable(s[step.n..], step.next);
    }
  }

  lemma BrokenNeverRead(s: string, option: string, value: string)
    requires Lex(s, Between).Some? && W(option + value) in Lex(s, Between).value
    ensures Unbroken(value)
  {
    LexReadable(s, Between);
    var w := AsBare(option + value);
    forall i | 0 <= i < |value|
      ensures !Breaks(value[i])
    {
      assert w[|option| + i] == Bare(value[i]) && w[|option| + i] in w;
    }
  }

  /** What the session's shell is meant to find. */
  predicate FindsWords(user: string, workdir: string, cmd: string, caps: string) {
    Lex(Logged(RunAs(user, workdir, cmd, Some(caps))), Between) ==
      Some(SetprivArgs(user, caps) + [Q(Inner(workdir, cmd))] + LOGGING)
  }

  lemma CapsAmong(user: string, caps: string, later: seq<Token>)
    ensures W("--inh-caps=" + caps) in SetprivArgs(user, caps) + later
  {
    assert SetprivArgs(user, caps)[4] == W("--inh-caps=" + caps);
    assert (SetprivArgs(user, caps) + later)[4] == SetprivArgs(user, caps)[4];
  }

  lemma FoundUnbroken(user: string, workdir: string, cmd: string, caps: string)
    requires user != "" && user != "root" && FindsWords(user, workdir, cmd, caps)
    ensures Unbroken(caps)
  {
    CapsAmong(user, caps, [Q(Inner(workdir, cmd))] + LOGGING);
    assert SetprivArgs(user, caps) + [Q(Inner(workdir, cmd))] + LOGGING ==
      SetprivArgs(user, caps) + ([Q(Inner(workdir, cmd))] + LOGGING);
    BrokenNeverRead(Logged(RunAs(user, workdir, cmd, Some(caps))), "--inh-caps=", caps);
  }

  /** The words stay apart exactly when nothing in the capabilities is a quote or ends a word. */
  lemma CapsKeptApart(user: string, workdir: string, cmd: string, caps: string)
    requires user != "" && user != "root"
    ensures FindsWords(user, workdir, cmd, caps) <==> Unbroken(caps)
  {
    if Unbroken(caps) {
      LayersUndone(user, workdir, cmd, Some(caps));
    } else if FindsWords(user, workdir, cmd, caps) {
      FoundUnbroken(user, workdir, cmd, caps);
    }
  }

  /** No expansion changes an option's value exactly when nothing in it is special, which also keeps it one word. */
  lemma LiteralAfter(option: string, value: string)
    requires Ordinary(option)
    ensures Meaning(AsBare(option + value)) == Some(option + value) <==> forall c <- value :: !IsSpecial(c)
    ensures (forall c <- value :: !IsSpecial(c)) ==> Unbroken(value)
  {
    LiteralText(option + value);
    assert forall c <- option :: !IsSpecial(c);
    assert forall c <- option + value :: c in option || c in value;
    assert forall c <- value :: c in option + value;
    assert forall i | 0 <= i < |value| :: value[i] in value;
  }
}
