/** Quoting for the authorization script (crates/app/src/lid.rs) against the readers that undo
    it: the POSIX shell's token recognition (IEEE Std 1003.1, Shell Command Language, sections
    2.2.1 to 2.2.3 and 2.3) and AppleScript string literals. */
module ShellQuoting {
  import opened Wrappers
  import opened Text

  // ----- Character-by-character rewriting -----

  /** Replaces every character by a string. */
  function Rewrite(piece: char -> string, s: string): string {
    if s == [] then [] else Rewrite(piece, s[..|s| - 1]) + piece(s[|s| - 1])
  }

  lemma {:induction false} RewriteConcat(piece: char -> string, s: string, t: string)
    ensures Rewrite(piece, s + t) == Rewrite(piece, s) + Rewrite(piece, t)
  {
    if t == [] {
      assert s + t == s;
    } else {
      assert (s + t)[..|s + t| - 1] == s + t[..|t| - 1];
      RewriteConcat(piece, s, t[..|t| - 1]);
    }
  }

  function ShellPiece(c: char): string {
    if c == '\'' then "'\\''" else [c]
  }

  /** What `quote_sh` builds. */
  function Quoted(s: string): string {
    "'" + Rewrite(ShellPiece, s) + "'"
  }

  method QuoteSh(s: string) returns (out: string)
    ensures out == Quoted(s)
  {
    out := "'";
    for i := 0 to |s|
      invariant out == "'" + Rewrite(ShellPiece, s[..i])
    {
      var c := s[i];
      if c == '\'' {
        out := out + "'\\''";
      } else {
        out := out + [c];
      }
      assert s[..i + 1][..i] == s[..i];
    }
    assert s[..|s|] == s;
    out := out + "'";
  }

  function ApplePiece(c: char): string {
    if c == '\\' then "\\\\" else if c == '"' then "\\\"" else [c]
  }

  method EscapeForAppleScript(s: string) returns (out: string)
    ensures out == Rewrite(ApplePiece, s)
  {
    out := "";
    for i := 0 to |s|
      invariant out == Rewrite(ApplePiece, s[..i])
    {
      var c := s[i];
      match c {
        case '\\' => out := out + "\\\\";
        case '"' => out := out + "\\\"";
        case _ => out := out + [c];
      }
      assert s[..i + 1][..i] == s[..i];
    }
    assert s[..|s|] == s;
  }

  // ----- The shell's reader -----

  datatype Token = Word(text: string) | Operator(text: string)

  datatype Mode =
    | Between                        // no token begun
    | InWord(w: string)
    | InOperator(op: string)
    | Escaped(w: string, begun: bool) // after an unquoted backslash
    | Single(w: string)              // inside single-quotes
    | Double(w: string)              // inside double-quotes; expansions are left as written
    | DoubleEscaped(w: string)
    | Dollar(w: string)              // after an unquoted dollar sign
    | Substitution(w: string, depth: nat) // inside "$(", up to its parenthesis
    | Comment

  datatype Lexer = Lexer(tokens: seq<Token>, mode: Mode)

  predicate IsBlank(c: char) {
    c == ' ' || c == '\t'
  }

  predicate StartsOperator(c: char) {
    c == '|' || c == '&' || c == ';' || c == '<' || c == '>' || c == '(' || c == ')' || c == '\n'
  }

  predicate Extends(op: string, c: char) {
    op + [c] in {"||", "&&", ";;", "<<", ">>", "<&", ">&", "<>", ">|", "<<-"}
  }

  function StartToken(tokens: seq<Token>, c: char): Lexer {
    if IsBlank(c) then Lexer(tokens, Between)
    else if c == '#' then Lexer(tokens, Comment)
    else if StartsOperator(c) then Lexer(tokens, InOperator([c]))
    else if c == '\'' then Lexer(tokens, Single(""))
    else if c == '"' then Lexer(tokens, Double(""))
    else if c == '\\' then Lexer(tokens, Escaped("", false))
    else if c == '$' then Lexer(tokens, Dollar("$"))
    else Lexer(tokens, InWord([c]))
  }

  function ContinueWord(tokens: seq<Token>, w: string, c: char): Lexer {
    if IsBlank(c) then Lexer(tokens + [Word(w)], Between)
    else if StartsOperator(c) then Lexer(tokens + [Word(w)], InOperator([c]))
    else if c == '\'' then Lexer(tokens, Single(w))
    else if c == '"' then Lexer(tokens, Double(w))
    else if c == '\\' then Lexer(tokens, Escaped(w, true))
    else if c == '$' then Lexer(tokens, Dollar(w + "$"))
    else Lexer(tokens, InWord(w + [c]))
  }

  function Step(l: Lexer, c: char): Lexer {
    match l.mode
    case Between => StartToken(l.tokens, c)
    case InWord(w) => ContinueWord(l.tokens, w, c)
    case InOperator(op) =>
      if Extends(op, c) then l.(mode := InOperator(op + [c])) else StartToken(l.tokens + [Operator(op)], c)
    case Escaped(w, begun) =>
      if c == '\n' then l.(mode := if begun then InWord(w) else Between) else l.(mode := InWord(w + [c]))
    case Single(w) => l.(mode := if c == '\'' then InWord(w) else Single(w + [c]))
    case Double(w) =>
      l.(mode := if c == '"' then InWord(w) else if c == '\\' then DoubleEscaped(w) else Double(w + [c]))
    case DoubleEscaped(w) =>
      l.(mode := if c == '\n' then Double(w) else if c in "$`\"\\" then Double(w + [c]) else Double(w + ['\\', c]))
    case Dollar(w) => if c == '(' then l.(mode := Substitution(w + "(", 1)) else ContinueWord(l.tokens, w, c)
    case Substitution(w, depth) =>
      l.(mode := if c == '(' then Substitution(w + [c], depth + 1)
                 else if c == ')' && depth <= 1 then InWord(w + [c])
                 else if c == ')' then Substitution(w + [c], depth - 1)
                 else Substitution(w + [c], depth))
    case Comment => if c == '\n' then l.(mode := InOperator([c])) else l
  }

  function Run(l: Lexer, s: string): Lexer
    decreases |s|
  {
    if s == [] then l else Run(Step(l, s[0]), s[1..])
  }

  /** The tokens at the end of input; none when a quotation or substitution is left open. */
  function Finish(l: Lexer): Option<seq<Token>> {
    match l.mode
    case Between => Some(l.tokens)
    case Comment => Some(l.tokens)
    case InWord(w) => Some(l.tokens + [Word(w)])
    case Dollar(w) => Some(l.tokens + [Word(w)])
    case InOperator(op) => Some(l.tokens + [Operator(op)])
    case _ => None
  }

  function Lex(s: string): Option<seq<Token>> {
    Finish(Run(Lexer([], Between), s))
  }

  lemma {:induction false} RunConcat(l: Lexer, s: string, t: string)
    ensures Run(l, s + t) == Run(Run(l, s), t)
    decreases |s|
  {
    if s == [] {
      assert s + t == t;
    } else {
      assert (s + t)[0] == s[0] && (s + t)[1..] == s[1..] + t;
      RunConcat(Step(l, s[0]), s[1..], t);
    }
  }

  lemma RunChar(l: Lexer, c: char)
    ensures Run(l, [c]) == Step(l, c)
  {
    assert [c][1..] == [];
  }

  // ----- The shell undoes `quote_sh` -----

  lemma RunShellPiece(tokens: seq<Token>, w: string, c: char)
    ensures Run(Lexer(tokens, Single(w)), ShellPiece(c)) == Lexer(tokens, Single(w + [c]))
  {
    var l := Lexer(tokens, Single(w));
    if c == '\'' {
      assert "'\\''" == ['\''] + (['\\'] + (['\''] + ['\'']));
      RunConcat(l, ['\''], ['\\'] + (['\''] + ['\'']));
      RunChar(l, '\'');
      RunConcat(Lexer(tokens, InWord(w)), ['\\'], ['\''] + ['\'']);
      RunChar(Lexer(tokens, InWord(w)), '\\');
      RunConcat(Lexer(tokens, Escaped(w, true)), ['\''], ['\'']);
      RunChar(Lexer(tokens, Escaped(w, true)), '\'');
      RunChar(Lexer(tokens, InWord(w + ['\''])), '\'');
    } else {
      RunChar(l, c);
    }
  }

  lemma {:induction false} RunRewritten(tokens: seq<Token>, w: string, s: string)
    ensures Run(Lexer(tokens, Single(w)), Rewrite(ShellPiece, s)) == Lexer(tokens, Single(w + s))
  {
    hide Step;
    if s == [] {
      assert w + s == w;
    } else {
      var front, c := s[..|s| - 1], s[|s| - 1];
      RunRewritten(tokens, w, front);
      RunConcat(Lexer(tokens, Single(w)), Rewrite(ShellPiece, front), ShellPiece(c));
      RunShellPiece(tokens, w + front, c);
      assert w + s == w + front + [c];
    }
  }

  /** Wherever a word may start, a quoted string is read as exactly that string. */
  lemma QuotedIsOneWord(tokens: seq<Token>, s: string)
    ensures Run(Lexer(tokens, Between), Quoted(s)) == Lexer(tokens, InWord(s))
  {
    var body := Rewrite(ShellPiece, s);
    assert Quoted(s) == ['\''] + (body + ['\'']);
    RunConcat(Lexer(tokens, Between), ['\''], body + ['\'']);
    RunChar(Lexer(tokens, Between), '\'');
    RunConcat(Lexer(tokens, Single("")), body, ['\'']);
    RunRewritten(tokens, "", s);
    assert "" + s == s;
    RunChar(Lexer(tokens, Single(s)), '\'');
  }

  /** The round trip: for every string, the shell reads what `quote_sh` made of it as one word
      equal to it. */
  lemma QuoteRoundTrip(s: string)
    ensures Lex(Quoted(s)) == Some([Word(s)])
  {
    QuotedIsOneWord([], s);
    assert [] + [Word(s)] == [Word(s)];
  }

  // ----- AppleScript undoes `escape_for_applescript` -----

  /** Reads a string literal from after its opening quote: its value and the text after its
      closing quote. A backslash may escape a backslash, a quote, or name a control character. */
  function ReadLiteral(text: string): Option<(string, string)> {
    if text == [] then None
    else if text[0] == '"' then Some(("", text[1..]))
    else if text[0] == '\\' then
      if |text| < 2 then None
      else
        match EscapeValue(text[1])
        case None => None
        case Some(c) =>
          match ReadLiteral(text[2..])
          case None => None
          case Some((value, rest)) => Some(([c] + value, rest))
    else
      match ReadLiteral(text[1..])
      case None => None
      case Some((value, rest)) => Some(([text[0]] + value, rest))
  }

  function EscapeValue(c: char): Option<char> {
    if c == '\\' || c == '"' then Some(c)
    else if c == 'n' then Some('\n')
    else if c == 'r' then Some('\r')
    else if c == 't' then Some('\t')
    else None
  }

  /** The literal ends at the quote put after it and nowhere before, and its value is the string
      that was escaped. */
  lemma {:induction false} EscapeRoundTrip(s: string, rest: string)
    ensures ReadLiteral(Rewrite(ApplePiece, s) + "\"" + rest) == Some((s, rest))
    decreases |s|
  {
    var tail := "\"" + rest;
    if s == [] {
      assert Rewrite(ApplePiece, s) + "\"" + rest == tail && tail[1..] == rest;
    } else {
      var c, back := s[0], s[1..];
      assert s == [c] + back;
      RewriteConcat(ApplePiece, [c], back);
      assert [c][..0] == [];
      assert Rewrite(ApplePiece, [c]) == ApplePiece(c);
      var after := Rewrite(ApplePiece, back) + "\"" + rest;
      var text := Rewrite(ApplePiece, s) + "\"" + rest;
      assert text == ApplePiece(c) + after;
      EscapeRoundTrip(back, rest);
      assert text[|ApplePiece(c)|..] == after;
    }
  }

  // ----- The installation script -----

  function SudoersRule(uid: nat): string {
    "#" + Decimal(uid) + (" ALL=(root) NOPASSWD: "
                          + ("/usr/bin/pmset -a disablesleep 1" + (", " + "/usr/bin/pmset -a disablesleep 0")))
  }

  const MKTEMP: string := "/usr/bin/mktemp /tmp/melaffeine.XXXXXX"
  const SH_MKTEMP: string := "tmp=$(" + MKTEMP + ") || exit 1; "
  const CLEANUP: string := "/bin/rm -f \"$tmp\""
  const SH_TRAP: string := "trap '" + CLEANUP + "' EXIT; "
  const SH_PRINTF: string := "/usr/bin/printf '%s\\n' "
  const SH_WRITE: string := " > \"$tmp\" || exit 1; "
  const SH_CHECK: string := "/usr/sbin/visudo -cf \"$tmp\" " + "|| exit 1; "
  const SH_INSTALL: string :=
    "/usr/bin/install -m 0440 " + "-o root -g " + "wheel \"$tmp\" /etc/sudoers.d/melaffeine " + "|| exit 1; "
  const SH_CLEAN: string := "/bin/rm -f \"$tmp\"" + "; " + "trap - EXIT"
  const SH_REST: string := SH_WRITE + SH_CHECK + (SH_INSTALL + SH_CLEAN)
  const AS_HEAD: string := "do shell script \""
  const AS_TAIL: string :=
    " with administrator privileges with prompt \""
    + "Melaffeine needs your password once to keep your Mac awake with the lid closed.\""

  function ShellScript(uid: nat): string {
    SH_MKTEMP + SH_TRAP + SH_PRINTF + Quoted(SudoersRule(uid)) + SH_REST
  }

  /** A character that continues a word and stands for itself. */
  predicate Ordinary(c: char) {
    !IsBlank(c) && !StartsOperator(c) && c != '\'' && c != '"' && c != '\\' && c != '$'
  }

  /** A word of ordinary characters. */
  predicate Plain(w: string) {
    w != [] && w[0] != '#' && forall i | 0 <= i < |w| :: Ordinary(w[i])
  }

  lemma {:induction false} RunPlain(tokens: seq<Token>, v: string, w: string)
    requires forall i | 0 <= i < |w| :: Ordinary(w[i])
    ensures Run(Lexer(tokens, InWord(v)), w) == Lexer(tokens, InWord(v + w))
    decreases |w|
  {
    if w == [] {
      assert v + w == v;
    } else {
      RunPlain(tokens, v + [w[0]], w[1..]);
      assert v + [w[0]] + w[1..] == v + w;
    }
  }

  lemma RunPlainWord(tokens: seq<Token>, w: string)
    requires Plain(w)
    ensures Run(Lexer(tokens, Between), w) == Lexer(tokens, InWord(w))
  {
    RunPlain(tokens, [w[0]], w[1..]);
    assert [w[0]] + w[1..] == w;
  }

  lemma {:induction false} RunSubstitution(tokens: seq<Token>, v: string, w: string)
    requires forall i | 0 <= i < |w| :: w[i] != '(' && w[i] != ')'
    ensures Run(Lexer(tokens, Substitution(v, 1)), w) == Lexer(tokens, Substitution(v + w, 1))
    decreases |w|
  {
    if w == [] {
      assert v + w == v;
    } else {
      RunSubstitution(tokens, v + [w[0]], w[1..]);
      assert v + [w[0]] + w[1..] == v + w;
    }
  }

  /** A plain word and the blank that ends it. */
  lemma WordChunk(tokens: seq<Token>, w: string)
    requires Plain(w)
    ensures Run(Lexer(tokens, Between), w + " ") == Lexer(tokens + [Word(w)], Between)
  {
    RunConcat(Lexer(tokens, Between), w, " ");
    RunPlainWord(tokens, w);
    RunChar(Lexer(tokens, InWord(w)), ' ');
  }

  /** A plain word ended by a semicolon and a blank. */
  lemma WordSemicolonChunk(tokens: seq<Token>, w: string)
    requires Plain(w)
    ensures Run(Lexer(tokens, Between), w + "; ") == Lexer(tokens + [Word(w)] + [Operator(";")], Between)
  {
    RunConcat(Lexer(tokens, Between), w, "; ");
    RunPlainWord(tokens, w);
    SemicolonChunk(tokens, w);
  }

  lemma OrChunk(tokens: seq<Token>)
    ensures Run(Lexer(tokens, Between), "|| ") == Lexer(tokens + [Operator("||")], Between)
  {
    assert "|| " == ['|'] + (['|'] + [' ']);
    RunConcat(Lexer(tokens, Between), ['|'], ['|'] + [' ']);
    RunChar(Lexer(tokens, Between), '|');
    RunConcat(Lexer(tokens, InOperator("|")), ['|'], [' ']);
    assert "|" + ['|'] == "||";
    RunChar(Lexer(tokens, InOperator("|")), '|');
    assert !Extends("||", ' ') by { assert |"||" + [' ']| == 3 && ("||" + [' '])[0] == '|'; }
    RunChar(Lexer(tokens, InOperator("||")), ' ');
  }

  /** A single-quoted text without quotes in it, and the blank that ends it. */
  lemma LiteralChunk(tokens: seq<Token>, s: string)
    requires '\'' !in s
    ensures Run(Lexer(tokens, Between), "'" + s + "' ") == Lexer(tokens + [Word(s)], Between)
  {
    RewritePlain(s);
    assert "'" + s + "' " == Quoted(s) + " ";
    RunConcat(Lexer(tokens, Between), Quoted(s), " ");
    QuotedIsOneWord(tokens, s);
    RunChar(Lexer(tokens, InWord(s)), ' ');
  }

  lemma {:induction false} RewritePlain(s: string)
    requires '\'' !in s
    ensures Rewrite(ShellPiece, s) == s
  {
    if s != [] {
      RewritePlain(s[..|s| - 1]);
      assert s == s[..|s| - 1] + [s[|s| - 1]];
    }
  }

  lemma SubstitutionOpens()
    ensures Run(Lexer([], Between), "tmp=$(") == Lexer([], Substitution("tmp=$(", 1))
  {
    assert Plain("tmp=");
    var l1, l2 := Lexer([], InWord("tmp=")), Lexer([], Dollar("tmp=$"));
    assert "tmp=" + "$" == "tmp=$" && "tmp=$" + "(" == "tmp=$(";
    assert Step(l1, '$') == l2 && Step(l2, '(') == Lexer([], Substitution("tmp=$(", 1));
    hide Step, Plain, Run;
    assert "tmp=$(" == "tmp=" + ['$'] + ['('];
    RunThree(Lexer([], Between), "tmp=", ['$'], ['(']);
    RunPlainWord([], "tmp=");
    RunChar(l1, '$');
    RunChar(l2, '(');
  }

  lemma SubstitutionCloses(w: string, m: string)
    requires forall i | 0 <= i < |m| :: m[i] != '(' && m[i] != ')'
    ensures Run(Lexer([], Substitution(w, 1)), m + ") ") == Lexer([Word(w + m + ")")], Between)
  {
    var l1, l2 := Lexer([], Substitution(w, 1)), Lexer([], Substitution(w + m, 1));
    RunConcat(l1, m, ") ");
    RunSubstitution([], w, m);
    assert ") " == [')'] + [' '];
    RunConcat(l2, [')'], [' ']);
    RunChar(l2, ')');
    RunChar(Lexer([], InWord(w + m + ")")), ' ');
    assert [] + [Word(w + m + ")")] == [Word(w + m + ")")];
  }

  /** The tokens of the assignment line. */
  function MktempTokens(): seq<Token> {
    [Word("tmp=$(" + MKTEMP + ")")] + [Operator("||")] + [Word("exit")] + [Word("1")] + [Operator(";")]
  }

  /** What the shell has recognized when it comes to the `printf` command. */
  function SetupTokens(): seq<Token> {
    MktempTokens() + [Word("trap")] + [Word(CLEANUP)] + [Word("EXIT")] + [Operator(";")]
  }

  lemma RunThree(l: Lexer, a: string, b: string, c: string)
    ensures Run(l, a + b + c) == Run(Run(Run(l, a), b), c)
  {
    RunConcat(l, a + b, c);
    RunConcat(l, a, b);
  }

  lemma RunOrExit(tokens: seq<Token>)
    ensures Run(Lexer(tokens, Between), "|| exit 1; ")
         == Lexer(tokens + [Operator("||")] + [Word("exit")] + [Word("1")] + [Operator(";")], Between)
  {
    SetupWordsArePlain();
    hide Step, Run, Plain;
    var t2 := tokens + [Operator("||")];
    var t3 := t2 + [Word("exit")];
    assert "|| exit 1; " == "|| " + ("exit" + " ") + ("1" + "; ");
    OrChunk(tokens);
    WordChunk(t2, "exit");
    WordSemicolonChunk(t3, "1");
    RunThree(Lexer(tokens, Between), "|| ", "exit" + " ", "1" + "; ");
  }

  lemma RunMktemp()
    ensures Run(Lexer([], Between), SH_MKTEMP) == Lexer(MktempTokens(), Between)
  {
    assert forall i | 0 <= i < |MKTEMP| :: MKTEMP[i] != '(' && MKTEMP[i] != ')';
    hide Step, Run;
    SubstitutionOpens();
    SubstitutionCloses("tmp=$(", MKTEMP);
    RunOrExit([Word("tmp=$(" + MKTEMP + ")")]);
    SplitMktemp(MKTEMP);
    RunThree(Lexer([], Between), "tmp=$(", MKTEMP + ") ", "|| exit 1; ");
  }

  lemma SplitTrap(s: string)
    ensures "trap '" + s + "' EXIT; " == ("trap" + " ") + ("'" + s + "' ") + ("EXIT" + "; ")
  {
  }

  lemma SplitMktemp(m: string)
    ensures "tmp=$(" + m + ") || exit 1; " == "tmp=$(" + (m + ") ") + "|| exit 1; "
  {
  }

  lemma RunTrap(tokens: seq<Token>)
    ensures Run(Lexer(tokens, Between), SH_TRAP)
         == Lexer(tokens + [Word("trap")] + [Word(CLEANUP)] + [Word("EXIT")] + [Operator(";")], Between)
  {
    SetupWordsArePlain();
    hide Step, Run, Plain;
    var t6 := tokens + [Word("trap")];
    var t7 := t6 + [Word(CLEANUP)];
    var literal := "'" + CLEANUP + "' ";
    WordChunk(tokens, "trap");
    LiteralChunk(t6, CLEANUP);
    WordSemicolonChunk(t7, "EXIT");
    SplitTrap(CLEANUP);
    RunThree(Lexer(tokens, Between), "trap" + " ", literal, "EXIT" + "; ");
  }

  lemma RunSetup()
    ensures Run(Lexer([], Between), SH_MKTEMP + SH_TRAP) == Lexer(SetupTokens(), Between)
  {
    hide Step, Run;
    RunMktemp();
    RunTrap(MktempTokens());
    RunConcat(Lexer([], Between), SH_MKTEMP, SH_TRAP);
  }

  lemma SetupWordsArePlain()
    ensures Plain("exit") && Plain("1") && Plain("trap") && Plain("EXIT") && Plain("/usr/bin/printf")
  {
  }

  const GRANT: string := " ALL=(root) NOPASSWD: "

  /** A sudoers rule for a numeric user on all hosts, as root and without a password: the user, and the
      commands separated by commas. */
  function ReadRule(rule: string): Option<(nat, seq<string>)> {
    if rule == [] || rule[0] != '#' then None
    else
      var n := DigitRun(rule[1..]);
      var user, rest := rule[1..][..n], rule[1..][n..];
      if n == 0 || !(GRANT <= rest) then None else Some((Value(user), CommandList(rest[|GRANT|..])))
  }

  function CommaAt(s: string): (n: nat)
    ensures n <= |s|
    ensures ',' !in s[..n] && (n < |s| ==> s[n] == ',')
  {
    if s == [] || s[0] == ',' then 0 else 1 + CommaAt(s[1..])
  }

  function CommandList(s: string): seq<string> {
    var n := CommaAt(s);
    if n == |s| then [s] else [s[..n]] + CommandList(if " " <= s[n + 1..] then s[n + 2..] else s[n + 1..])
  }

  lemma {:induction false} CommaFound(a: string, rest: string)
    requires ',' !in a && (rest != "" ==> rest[0] == ',')
    ensures CommaAt(a + rest) == |a|
  {
    if a == "" {
      assert a + rest == rest;
    } else {
      assert (a + rest)[0] == a[0] && (a + rest)[1..] == a[1..] + rest;
      CommaFound(a[1..], rest);
    }
  }

  lemma TwoCommands(a: string, b: string)
    requires ',' !in a && ',' !in b
    ensures CommandList(a + (", " + b)) == [a] + [b]
  {
    hide CommaAt;
    var s := a + (", " + b);
    CommaFound(a, ", " + b);
    CommaFound(b, "");
    assert b + "" == b && s[..|a|] == a && s[|a| + 1..] == " " + b && s[|a| + 2..] == b;
  }

  const ENABLE: string := "/usr/bin/pmset -a disablesleep 1"
  const DISABLE: string := "/usr/bin/pmset -a disablesleep 0"

  lemma UserIsRead(user: string, rest: string)
    requires AllDigits(user) && rest != "" && rest[0] == ' '
    ensures var rule := "#" + user + rest;
            && rule[0] == '#' && DigitRun(rule[1..]) == |user|
            && rule[1..][..|user|] == user && rule[1..][|user|..] == rest
  {
    var rule := "#" + user + rest;
    assert rule[1..] == user + rest;
    DigitRunAt(user, rest);
  }

  lemma RuleIsRead(uid: nat, a: string, b: string)
    requires ',' !in a && ',' !in b
    ensures ReadRule("#" + Decimal(uid) + (GRANT + (a + (", " + b)))) == Some((uid, [a, b]))
  {
    hide Decimal, CommandList, DigitRun;
    var commands := a + (", " + b);
    var rest := GRANT + commands;
    assert GRANT[0] == ' ' && rest[0] == ' ' && rest[|GRANT|..] == commands;
    UserIsRead(Decimal(uid), rest);
    TwoCommands(a, b);
    assert [a] + [b] == [a, b];
  }

  /** The rule lets the user run exactly the two commands that set and clear the sleep setting. */
  lemma RuleGrants(uid: nat)
    ensures ReadRule(SudoersRule(uid)) == Some((uid, [ENABLE, DISABLE]))
  {
    hide Decimal, ReadRule;
    assert ',' !in ENABLE && ',' !in DISABLE;
    RuleIsRead(uid, ENABLE, DISABLE);
  }

  // What the shell has recognized after each of the remaining lines: what `printf` writes goes to the
  // temporary file; that is installed only if the checker accepts it; the first failure ends the
  // script.

  function AfterExit(tokens: seq<Token>): seq<Token> {
    tokens + [Operator("||")] + [Word("exit")] + [Word("1")] + [Operator(";")]
  }

  function AfterWrite(tokens: seq<Token>): seq<Token> {
    AfterExit(tokens + [Operator(">")] + [Word("$tmp")])
  }

  function AfterCheck(tokens: seq<Token>): seq<Token> {
    AfterExit(tokens + [Word("/usr/sbin/visudo")] + [Word("-cf")] + [Word("$tmp")])
  }

  function AfterInstall(tokens: seq<Token>): seq<Token> {
    AfterExit(tokens + [Word("/usr/bin/install")] + [Word("-m")] + [Word("0440")] + [Word("-o")] + [Word("root")]
              + [Word("-g")] + [Word("wheel")] + [Word("$tmp")] + [Word("/etc/sudoers.d/melaffeine")])
  }

  function AfterClean(tokens: seq<Token>): seq<Token> {
    tokens + [Word("/bin/rm")] + [Word("-f")] + [Word("$tmp")] + [Operator(";")]
    + [Word("trap")] + [Word("-")] + [Word("EXIT")]
  }

  function PrintfTokens(rule: string): seq<Token> {
    SetupTokens() + [Word("/usr/bin/printf")] + [Word("%s\\n")] + [Word(rule)]
  }

  /** The shell reads the script as exactly these tokens, and the only data argument of its `printf` is
      a sudoers rule that lets this user run the two commands. */
  ghost predicate CarriesRule(script: string, uid: nat) {
    exists rule ::
      && Lex(script) == Some(AfterClean(AfterInstall(AfterCheck(AfterWrite(PrintfTokens(rule))))))
      && ReadRule(rule) == Some((uid, ["/usr/bin/pmset -a disablesleep 1", "/usr/bin/pmset -a disablesleep 0"]))
  }

  /** For every uid: the script handed to osascript holds, as one literal, the shell script, and
      that carries the rule. */
  lemma InstallScriptCarriesRule(uid: nat)
    ensures ReadLiteral(Rewrite(ApplePiece, ShellScript(uid)) + "\"" + AS_TAIL) == Some((ShellScript(uid), AS_TAIL))
    ensures CarriesRule(ShellScript(uid), uid)
  {
    hide Step, Run, SudoersRule, Quoted, SetupTokens, Plain, ReadRule, Finish;
    hide AfterWrite, AfterCheck, AfterInstall, AfterClean;
    RuleGrants(uid);
    EscapeRoundTrip(ShellScript(uid), AS_TAIL);
    var rule := SudoersRule(uid);
    var start := Lexer([], Between);
    var t1 := SetupTokens() + [Word("/usr/bin/printf")];
    var t2 := t1 + [Word("%s\\n")];
    RunSetup();
    SetupWordsArePlain();
    WordChunk(SetupTokens(), "/usr/bin/printf");
    LiteralChunk(t1, "%s\\n");
    var literal := "'" + "%s\\n" + "' ";
    assert SH_PRINTF == "/usr/bin/printf" + " " + literal;
    RunConcat(Lexer(SetupTokens(), Between), "/usr/bin/printf" + " ", literal);
    RunConcat(start, SH_MKTEMP + SH_TRAP, SH_PRINTF);
    RunConcat(start, SH_MKTEMP + SH_TRAP + SH_PRINTF, Quoted(rule));
    QuotedIsOneWord(t2, rule);
    RunConcat(start, SH_MKTEMP + SH_TRAP + SH_PRINTF + Quoted(rule), SH_REST);
    RunRest(t2, rule);
    assert Lex(ShellScript(uid)) == Some(AfterClean(AfterInstall(AfterCheck(AfterWrite(PrintfTokens(rule))))));
  }

  /** `build_osascript_install_script`: what osascript gets is a command with one string literal, and
      the shell it starts on that literal's value is handed exactly the rule. */
  method BuildOsascriptInstallScript(uid: nat) returns (script: string)
    ensures AS_HEAD <= script
    ensures var literal := ReadLiteral(script[|AS_HEAD|..]);
            literal.Some? && literal.value.1 == AS_TAIL && CarriesRule(literal.value.0, uid)
  {
    hide CarriesRule, ReadLiteral, SudoersRule, Quoted, Rewrite;
    InstallScriptCarriesRule(uid);
    var rule := SudoersRule(uid);
    var quotedRule := QuoteSh(rule);
    var shScript := SH_MKTEMP + SH_TRAP + SH_PRINTF + quotedRule + SH_REST;
    var applescriptSh := EscapeForAppleScript(shScript);
    script := AS_HEAD + applescriptSh + "\"" + AS_TAIL;
    assert script[|AS_HEAD|..] == Rewrite(ApplePiece, ShellScript(uid)) + "\"" + AS_TAIL;
  }

  lemma {:induction false} RunDouble(tokens: seq<Token>, v: string, w: string)
    requires '"' !in w && '\\' !in w
    ensures Run(Lexer(tokens, Double(v)), w) == Lexer(tokens, Double(v + w))
    decreases |w|
  {
    if w == [] {
      assert v + w == v;
    } else {
      RunDouble(tokens, v + [w[0]], w[1..]);
      assert v + [w[0]] + w[1..] == v + w;
    }
  }

  /** A word as the script spells it. */
  function Spelled(w: string): string {
    if w == "$tmp" then "\"$tmp\"" else w
  }

  lemma RunSpelled(tokens: seq<Token>, w: string)
    requires Plain(w) || w == "$tmp"
    ensures Run(Lexer(tokens, Between), Spelled(w)) == Lexer(tokens, InWord(w))
  {
    if w == "$tmp" {
      var l := Lexer(tokens, Between);
      assert Spelled(w) == ['"'] + w + ['"'];
      RunThree(l, ['"'], w, ['"']);
      RunChar(l, '"');
      RunDouble(tokens, "", w);
      assert "" + w == w;
      RunChar(Lexer(tokens, Double(w)), '"');
    } else {
      RunPlainWord(tokens, w);
    }
  }

  lemma SpelledChunk(tokens: seq<Token>, w: string)
    requires Plain(w) || w == "$tmp"
    ensures Run(Lexer(tokens, Between), Spelled(w) + " ") == Lexer(tokens + [Word(w)], Between)
  {
    RunConcat(Lexer(tokens, Between), Spelled(w), " ");
    RunSpelled(tokens, w);
    RunChar(Lexer(tokens, InWord(w)), ' ');
  }

  lemma ThreeWords(tokens: seq<Token>, a: string, b: string, c: string)
    requires (Plain(a) || a == "$tmp") && (Plain(b) || b == "$tmp") && (Plain(c) || c == "$tmp")
    ensures Run(Lexer(tokens, Between), (Spelled(a) + " ") + (Spelled(b) + " ") + (Spelled(c) + " "))
         == Lexer(tokens + [Word(a)] + [Word(b)] + [Word(c)], Between)
  {
    hide Step, Run, Spelled, Plain;
    SpelledChunk(tokens, a);
    SpelledChunk(tokens + [Word(a)], b);
    SpelledChunk(tokens + [Word(a)] + [Word(b)], c);
    RunThree(Lexer(tokens, Between), Spelled(a) + " ", Spelled(b) + " ", Spelled(c) + " ");
  }

  lemma RunExit(tokens: seq<Token>)
    ensures Run(Lexer(tokens, Between), "|| exit 1; ") == Lexer(AfterExit(tokens), Between)
  {
    hide Step, Run;
    RunOrExit(tokens);
  }

  // The lines, split into words.

  lemma SplitWrite()
    ensures SH_WRITE == " > " + (Spelled("$tmp") + " ") + "|| exit 1; "
  {
  }

  lemma SplitCheck()
    ensures (Spelled("/usr/sbin/visudo") + " ") + (Spelled("-cf") + " ") + (Spelled("$tmp") + " ")
         == "/usr/sbin/visudo -cf \"$tmp\" "
  {
  }

  lemma SplitClean()
    ensures (Spelled("/bin/rm") + " ") + (Spelled("-f") + " ") + Spelled("$tmp") == "/bin/rm -f \"$tmp\""
    ensures (Spelled("trap") + " ") + (Spelled("-") + " ") + Spelled("EXIT") == "trap - EXIT"
  {
  }

  lemma SplitInstall()
    ensures (Spelled("/usr/bin/install") + " ") + (Spelled("-m") + " ") + (Spelled("0440") + " ")
         == "/usr/bin/install -m 0440 "
    ensures (Spelled("-o") + " ") + (Spelled("root") + " ") + (Spelled("-g") + " ") == "-o root -g "
  {
  }

  lemma SplitTarget()
    ensures (Spelled("wheel") + " ") + (Spelled("$tmp") + " ") + (Spelled("/etc/sudoers.d/melaffeine") + " ")
         == "wheel \"$tmp\" /etc/sudoers.d/melaffeine "
  {
  }

  lemma InstallWordsArePlain()
    ensures Plain("/usr/bin/install") && Plain("-m") && Plain("0440") && Plain("-o") && Plain("root") && Plain("-g")
  {
  }

  lemma OtherWordsArePlain()
    ensures Plain("wheel") && Plain("/etc/sudoers.d/melaffeine") && Plain("/bin/rm") && Plain("-f") && Plain("-")
    ensures Plain("/usr/sbin/visudo") && Plain("-cf")
  {
  }

  lemma RedirectChunk(tokens: seq<Token>, w: string)
    ensures Run(Lexer(tokens, InWord(w)), " > ") == Lexer(tokens + [Word(w)] + [Operator(">")], Between)
  {
    var l, t := Lexer(tokens, InWord(w)), tokens + [Word(w)];
    assert " > " == [' '] + ['>'] + [' '];
    RunThree(l, [' '], ['>'], [' ']);
    RunChar(l, ' ');
    RunChar(Lexer(t, Between), '>');
    assert !Extends(">", ' ') by { assert (">" + [' '])[1] == ' '; }
    RunChar(Lexer(t, InOperator(">")), ' ');
  }

  lemma SemicolonChunk(tokens: seq<Token>, w: string)
    ensures Run(Lexer(tokens, InWord(w)), "; ") == Lexer(tokens + [Word(w)] + [Operator(";")], Between)
  {
    assert "; " == [';'] + [' '];
    RunConcat(Lexer(tokens, InWord(w)), [';'], [' ']);
    RunChar(Lexer(tokens, InWord(w)), ';');
    assert !Extends(";", ' ') by { assert (";" + [' '])[1] == ' '; }
    RunChar(Lexer(tokens + [Word(w)], InOperator(";")), ' ');
  }

  lemma RunWrite(tokens: seq<Token>, rule: string)
    ensures Run(Lexer(tokens, InWord(rule)), SH_WRITE) == Lexer(AfterWrite(tokens + [Word(rule)]), Between)
  {
    hide Step, Run, AfterExit, Spelled;
    var t := tokens + [Word(rule)] + [Operator(">")];
    RedirectChunk(tokens, rule);
    SpelledChunk(t, "$tmp");
    RunExit(t + [Word("$tmp")]);
    SplitWrite();
    RunThree(Lexer(tokens, InWord(rule)), " > ", Spelled("$tmp") + " ", "|| exit 1; ");
  }

  lemma RunCheck(tokens: seq<Token>)
    ensures Run(Lexer(tokens, Between), SH_CHECK) == Lexer(AfterCheck(tokens), Between)
  {
    hide Step, Run, AfterExit, Plain, Spelled;
    OtherWordsArePlain();
    var a, b, c := "/usr/sbin/visudo", "-cf", "$tmp";
    ThreeWords(tokens, a, b, c);
    RunExit(tokens + [Word(a)] + [Word(b)] + [Word(c)]);
    SplitCheck();
    RunConcat(Lexer(tokens, Between), (Spelled(a) + " ") + (Spelled(b) + " ") + (Spelled(c) + " "), "|| exit 1; ");
  }

  lemma RunInstall(tokens: seq<Token>)
    ensures Run(Lexer(tokens, Between), SH_INSTALL) == Lexer(AfterInstall(tokens), Between)
  {
    hide Step, Run, AfterExit, Plain, Spelled;
    InstallWordsArePlain();
    OtherWordsArePlain();
    var path := "/etc/sudoers.d/melaffeine";
    var first := (Spelled("/usr/bin/install") + " ") + (Spelled("-m") + " ") + (Spelled("0440") + " ");
    var second := (Spelled("-o") + " ") + (Spelled("root") + " ") + (Spelled("-g") + " ");
    var third := (Spelled("wheel") + " ") + (Spelled("$tmp") + " ") + (Spelled(path) + " ");
    var t1 := tokens + [Word("/usr/bin/install")] + [Word("-m")] + [Word("0440")];
    var t2 := t1 + [Word("-o")] + [Word("root")] + [Word("-g")];
    var t3 := t2 + [Word("wheel")] + [Word("$tmp")] + [Word(path)];
    SplitInstall();
    SplitTarget();
    ThreeWords(tokens, "/usr/bin/install", "-m", "0440");
    ThreeWords(t1, "-o", "root", "-g");
    ThreeWords(t2, "wheel", "$tmp", path);
    RunExit(t3);
    RunThree(Lexer(tokens, Between), first, second, third);
    RunConcat(Lexer(tokens, Between), first + second + third, "|| exit 1; ");
  }

  lemma RunClean(tokens: seq<Token>)
    ensures Finish(Run(Lexer(tokens, Between), SH_CLEAN)) == Some(AfterClean(tokens))
  {
    hide Step, Run, Plain, Spelled;
    var t1 := tokens + [Word("/bin/rm")] + [Word("-f")];
    var t2 := t1 + [Word("$tmp")];
    var t3 := t2 + [Operator(";")];
    OtherWordsArePlain();
    SetupWordsArePlain();
    var rm := (Spelled("/bin/rm") + " ") + (Spelled("-f") + " ") + Spelled("$tmp");
    var trap := (Spelled("trap") + " ") + (Spelled("-") + " ") + Spelled("EXIT");
    SplitClean();
    SpelledChunk(tokens, "/bin/rm");
    SpelledChunk(tokens + [Word("/bin/rm")], "-f");
    RunSpelled(t1, "$tmp");
    RunThree(Lexer(tokens, Between), Spelled("/bin/rm") + " ", Spelled("-f") + " ", Spelled("$tmp"));
    SemicolonChunk(t1, "$tmp");
    SpelledChunk(t3, "trap");
    SpelledChunk(t3 + [Word("trap")], "-");
    RunSpelled(t3 + [Word("trap")] + [Word("-")], "EXIT");
    RunThree(Lexer(t3, Between), Spelled("trap") + " ", Spelled("-") + " ", Spelled("EXIT"));
    RunThree(Lexer(tokens, Between), rm, "; ", trap);
  }

  lemma RunRest(tokens: seq<Token>, rule: string)
    ensures Finish(Run(Lexer(tokens, InWord(rule)), SH_REST))
         == Some(AfterClean(AfterInstall(AfterCheck(AfterWrite(tokens + [Word(rule)])))))
  {
    hide Step, Run, Finish, AfterWrite, AfterCheck, AfterInstall, AfterClean;
    var t1 := AfterWrite(tokens + [Word(rule)]);
    var t2 := AfterCheck(t1);
    RunWrite(tokens, rule);
    RunCheck(t1);
    RunInstall(t2);
    RunClean(AfterInstall(t2));
    RunThree(Lexer(tokens, InWord(rule)), SH_WRITE, SH_CHECK, SH_INSTALL + SH_CLEAN);
    RunConcat(Lexer(t2, Between), SH_INSTALL, SH_CLEAN);
  }
}
