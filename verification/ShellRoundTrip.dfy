/** user/sh.c: the parser undoes the parenthesised way of writing a command, whatever the command. */
module ShellRoundTrip {
  import opened CStrings
  import opened ShellGrammar

  /** A command with its words spelled out. */
  datatype Tree =
    | Run(args: seq<string>)
    | Redirect(cmd: Tree, file: string, kind: Kind)
    | Piped(left: Tree, right: Tree)
    | Listed(left: Tree, right: Tree)
    | Backed(cmd: Tree)

  predicate Word(w: string)
  {
    w != "" && forall i | 0 <= i < |w| :: WordChar(w[i])
  }

  /** Words without blanks and symbols, and fewer arguments than MAXARGS. */
  predicate Writable(t: Tree)
  {
    match t
    case Run(args) => |args| < MAXARGS && forall i | 0 <= i < |args| :: Word(args[i])
    case Redirect(c, file, _) => Writable(c) && Word(file)
    case Piped(l, r) => Writable(l) && Writable(r)
    case Listed(l, r) => Writable(l) && Writable(r)
    case Backed(c) => Writable(c)
  }

  function Joined(args: seq<string>): string
  {
    if args == [] then "" else if |args| == 1 then args[0] else args[0] + " " + Joined(args[1..])
  }

  function Sign(k: Kind): string
  {
    match k
    case In => "<"
    case Out => ">"
    case Append => ">>"
  }

  /** Every operand in parentheses. */
  function Print(t: Tree): string
  {
    match t
    case Run(args) => Joined(args)
    case Redirect(c, file, k) => "(" + Print(c) + ")" + Sign(k) + file
    case Piped(l, r) => "(" + Print(l) + ")|(" + Print(r) + ")"
    case Listed(l, r) => "(" + Print(l) + ");(" + Print(r) + ")"
    case Backed(c) => "(" + Print(c) + ")&"
  }

  function Size(t: Tree): nat
  {
    match t
    case Run(_) => 1
    case Redirect(c, _, _) => 1 + Size(c)
    case Piped(l, r) => 1 + Size(l) + Size(r)
    case Listed(l, r) => 1 + Size(l) + Size(r)
    case Backed(c) => 1 + Size(c)
  }

  function Text(s: string, w: Span): string
  {
    if w.q <= w.eq <= |s| then s[w.q..w.eq] else ""
  }

  /** The command that a parse result stands for. */
  function Meaning(s: string, c: Cmd): Tree
  {
    match c
    case Exec(argv) => Run(seq(|argv|, i requires 0 <= i < |argv| => Text(s, argv[i])))
    case Redir(c', file, k) => Redirect(Meaning(s, c'), Text(s, file), k)
    case Pipe(l, r) => Piped(Meaning(s, l), Meaning(s, r))
    case List(l, r) => Listed(Meaning(s, l), Meaning(s, r))
    case Back(c') => Backed(Meaning(s, c'))
  }

  /** s has w at place i. */
  predicate Has(s: string, i: nat, w: string)
  {
    i + |w| <= |s| && s[i..i + |w|] == w
  }

  lemma HasParts(s: string, i: nat, a: string, b: string)
    requires Has(s, i, a + b)
    ensures Has(s, i, a) && Has(s, i + |a|, b)
  {
    var w := a + b;
    assert s[i..i + |a|] == w[..|a|];
    assert s[i + |a|..i + |w|] == w[|a|..];
  }

  lemma HasNothing(s: string, i: nat, w: string)
    requires Has(s, i, w)
    ensures i + |w| <= |s| && Has(s, i + |w|, "")
  {
  }

  lemma HasChar(s: string, i: nat, c: char)
    requires Has(s, i, [c])
    ensures i < |s| && s[i] == c
  {
    assert s[i..i + 1][0] == s[i];
  }

  /** The end of the line or a closing parenthesis. */
  predicate Ends(s: string, i: nat)
  {
    i == |s| || (i < |s| && s[i] == ')')
  }

  // ---- Tokens ----

  lemma NoSkip(s: string, i: nat)
    requires i <= |s| && (i < |s| ==> !Blank(s[i]))
    ensures Skip(s, i) == i
  {
  }

  lemma SymbolToken(s: string, i: nat)
    requires i < |s| && CString(s) && Symbol(s[i]) && !(s[i] == '>' && At(s, i + 1) == '>')
    ensures GetToken(s, i) == Token(s[i], Span(i, i + 1), Skip(s, i + 1))
  {
  }

  lemma WordToken(s: string, i: nat, w: string)
    requires Has(s, i, w) && Word(w) && CString(s) && (i + |w| < |s| ==> !WordChar(s[i + |w|]))
    ensures i < |s| && WordChar(s[i]) && Skip(s, i) == i
    ensures GetToken(s, i) == Token('a', Span(i, i + |w|), Skip(s, i + |w|)) && Text(s, Span(i, i + |w|)) == w
  {
    assert s[i..i + |w|][0] == s[i];
    WordEndIs(s, i, i + |w|, w, i);
  }

  lemma {:induction false} WordEndIs(s: string, i: nat, e: nat, w: string, k: nat)
    requires Has(s, i, w) && Word(w) && e == i + |w| && i <= k <= e && (e < |s| ==> !WordChar(s[e]))
    ensures WordEnd(s, k) == e
    decreases e - k
  {
    if k < e {
      assert s[i..e][k - i] == s[k];
      WordEndIs(s, i, e, w, k + 1);
    }
  }

  // ---- Redirections and blocks ----

  lemma NoRedirs(s: string, rs: seq<(Span, Kind)>, i: nat)
    requires i <= |s| && CString(s) && At(s, i) != '<' && At(s, i) != '>' && !Blank(At(s, i))
    ensures ParseRedirs(s, rs, i) == Redirs(rs, i)
  {
    NoSkip(s, i);
  }

  /** One turn of parseredirs' loop, the last one. */
  lemma LastRedir(s: string, i: nat, j: nat, w: Span, k: Kind, e: nat)
    requires CString(s) && i < |s| && (s[i] == '<' || s[i] == '>') && Skip(s, i) == i && j <= |s| && e <= |s|
    requires GetToken(s, i).pos == j && GetToken(s, i).tok == if k == In then '<' else if k == Out then '>' else '+'
    requires GetToken(s, j) == Token('a', w, e) && ParseRedirs(s, [(w, k)], e) == Redirs([(w, k)], e)
    ensures ParseRedirs(s, [], i) == Redirs([(w, k)], e)
  {
    hide GetToken, Skip;
    assert [] + [(w, k)] == [(w, k)];
  }

  lemma OneRedir(s: string, i: nat, k: Kind, file: string)
    requires CString(s) && Has(s, i, Sign(k) + file) && Word(file) && Ends(s, i + |Sign(k) + file|)
    ensures var e := i + |Sign(k) + file|; var w := Span(i + |Sign(k)|, e);
            e <= |s| && ParseRedirs(s, [], i) == Redirs([(w, k)], e) && Text(s, w) == file
  {
    hide GetToken, ParseRedirs, Sign, Word, WordChar, Text;
    HasParts(s, i, Sign(k), file);
    var j := i + |Sign(k)|;
    var e := j + |file|;
    EndIsNoWord(s, e);
    WordToken(s, j, file);
    NoSkip(s, e);
    SignToken(s, i, k);
    NoRedirs(s, [(Span(j, e), k)], e);
    LastRedir(s, i, j, Span(j, e), k, e);
  }

  lemma EndIsNoWord(s: string, e: nat)
    requires e <= |s| && Ends(s, e)
    ensures e < |s| ==> !WordChar(s[e]) && !Blank(s[e])
    ensures At(s, e) != '<' && At(s, e) != '>' && !Blank(At(s, e))
  {
  }

  lemma SignToken(s: string, i: nat, k: Kind)
    requires CString(s) && Has(s, i, Sign(k)) && WordChar(At(s, i + |Sign(k)|))
    ensures i < |s| && (s[i] == '<' || s[i] == '>') && Skip(s, i) == i
    ensures GetToken(s, i).pos == i + |Sign(k)|
    ensures GetToken(s, i).tok == if k == In then '<' else if k == Out then '>' else '+'
  {
    hide GetToken, Skip;
    if k == Append {
      HasParts(s, i, ">", ">");
      HasChar(s, i, '>');
      HasChar(s, i + 1, '>');
      NoSkip(s, i);
      TwoSigns(s, i);
    } else {
      HasChar(s, i, if k == In then '<' else '>');
      NoSkip(s, i);
      NoSkip(s, i + 1);
      SymbolToken(s, i);
    }
  }

  lemma TwoSigns(s: string, i: nat)
    requires CString(s) && i + 1 < |s| && s[i] == '>' && s[i + 1] == '>' && WordChar(At(s, i + 2))
    ensures GetToken(s, i) == Token('+', Span(i, i + 2), i + 2)
  {
    NoSkip(s, i);
    NoSkip(s, i + 2);
  }

  // ---- Words ----

  /** The next words of an exec command, up to its end. */
  lemma {:induction false} ArgsParse(s: string, i: nat, args: seq<string>, argv: seq<Span>) returns (spans: seq<Span>)
    requires CString(s) && Has(s, i, Joined(args)) && Ends(s, i + |Joined(args)|)
    requires |argv| + |args| < MAXARGS && forall k | 0 <= k < |args| :: Word(args[k])
    ensures |spans| == |args| && forall k | 0 <= k < |args| :: Text(s, spans[k]) == args[k]
    ensures ParseArgs(s, argv, [], i) == Ok(Exec(argv + spans), i + |Joined(args)|)
    decreases |args|
  {
    hide ParseArgs, GetToken, ParseRedirs, Text, WordChar, Word, Ends;
    if args == [] {
      spans := [];
      LastArg(s, i, argv);
      assert argv + [] == argv;
    } else {
      var w := args[0];
      var next := NextWord(s, i, args);
      var first := Span(i, i + |w|);
      NoRedirs(s, [], next);
      var more := ArgsParse(s, next, args[1..], argv + [first]);
      spans := [first] + more;
      assert argv + [first] + more == argv + spans;
      OneArg(s, i, argv, first, next);
    }
  }

  lemma LastArg(s: string, i: nat, argv: seq<Span>)
    requires CString(s) && i <= |s| && Ends(s, i)
    ensures ParseArgs(s, argv, [], i) == Ok(Exec(argv), i)
  {
    NoSkip(s, i);
  }

  lemma OneArg(s: string, i: nat, argv: seq<Span>, first: Span, next: nat)
    requires CString(s) && i < |s| && WordChar(s[i]) && |argv| + 1 < MAXARGS && next <= |s|
    requires GetToken(s, i) == Token('a', first, next) && ParseRedirs(s, [], next) == Redirs([], next)
    ensures ParseArgs(s, argv, [], i) == ParseArgs(s, argv + [first], [], next)
  {
    NoSkip(s, i);
  }

  /** The first word is a token, and after it the rest of the words begins. */
  lemma NextWord(s: string, i: nat, args: seq<string>) returns (next: nat)
    requires CString(s) && args != [] && Has(s, i, Joined(args)) && Ends(s, i + |Joined(args)|)
    requires forall k | 0 <= k < |args| :: Word(args[k])
    ensures i < |s| && WordChar(s[i]) && next <= |s| && Text(s, Span(i, i + |args[0]|)) == args[0]
    ensures GetToken(s, i) == Token('a', Span(i, i + |args[0]|), next)
    ensures Has(s, next, Joined(args[1..])) && next + |Joined(args[1..])| == i + |Joined(args)|
    ensures At(s, next) != '<' && At(s, next) != '>' && !Blank(At(s, next))
  {
    hide GetToken, Text, Word, WordChar, Blank, Has;
    var w := args[0];
    next := i + |w|;
    if |args| == 1 {
      HasNothing(s, i, w);
      assert args[1..] == [];
      EndIsNoWord(s, next);
      WordToken(s, i, w);
      NoSkip(s, next);
    } else {
      var rest := Joined(args[1..]);
      assert Joined(args) == w + (" " + rest);
      HasParts(s, i, w, " " + rest);
      HasParts(s, next, " ", rest);
      HasChar(s, next, ' ');
      BlankNext(s, next);
      WordToken(s, i, w);
      FirstOfWords(s, next + 1, args[1..]);
      SkipOne(s, next);
      next := next + 1;
    }
  }

  lemma BlankNext(s: string, i: nat)
    requires i < |s| && s[i] == ' '
    ensures !WordChar(s[i])
  {
  }

  lemma SkipOne(s: string, i: nat)
    requires i + 1 < |s| && s[i] == ' ' && WordChar(s[i + 1])
    ensures Skip(s, i) == i + 1 && At(s, i + 1) != '<' && At(s, i + 1) != '>' && !Blank(At(s, i + 1))
  {
    NoSkip(s, i + 1);
  }

  lemma FirstOfWords(s: string, i: nat, args: seq<string>)
    requires args != [] && Has(s, i, Joined(args)) && Word(args[0])
    ensures i < |s| && WordChar(s[i])
  {
    var w := Joined(args);
    assert w[0] == args[0][0];
    assert s[i..i + |w|][0] == s[i];
  }

  /** A written command begins with a word or a parenthesis, or is empty. */
  lemma FirstChar(s: string, i: nat, t: Tree)
    requires Writable(t) && Has(s, i, Print(t)) && Print(t) != ""
    ensures i < |s| && (if t.Run? then WordChar(s[i]) else s[i] == '(')
  {
    var w := Print(t);
    assert s[i..i + |w|][0] == s[i];
    if t.Run? {
      FirstOfWords(s, i, t.args);
    }
  }

  // ---- Commands ----

  /** A command that nothing follows. */
  lemma Alone(s: string, i: nat, c: Cmd, e: nat)
    requires CString(s) && i <= |s| && e <= |s| && ParseExec(s, i) == Ok(c, e) && Ends(s, e)
    ensures ParsePipe(s, i) == Ok(c, e) && ParseBacks(s, c, e) == Ok(c, e) && ParseLine(s, i) == Ok(c, e)
  {
    hide ParseExec, GetToken;
    NoSkip(s, e);
  }

  lemma RunParses(s: string, i: nat, args: seq<string>) returns (c: Cmd)
    requires CString(s) && Writable(Run(args)) && Has(s, i, Joined(args)) && Ends(s, i + |Joined(args)|)
    ensures ParseExec(s, i) == Ok(c, i + |Joined(args)|) && Meaning(s, c) == Run(args)
  {
    if args != [] { FirstOfWords(s, i, args); }
    NoSkip(s, i);
    NoRedirs(s, [], i);
    var spans := ArgsParse(s, i, args, []);
    assert [] + spans == spans;
    c := Exec(spans);
    assert Meaning(s, c).args == args;
  }

  /** Inside a block: the command, and the parenthesis after it. */
  predicate InBlock(s: string, i: nat, t: Tree, c: Cmd)
    requires CString(s)
  {
    var j := i + 1 + |Print(t)|;
    && j < |s| && s[i] == '(' && s[j] == ')' && Meaning(s, c) == t
    && GetToken(s, i).pos == i + 1 && ParseLine(s, i + 1) == Ok(c, j)
  }

  lemma BlockParses(s: string, i: nat, t: Tree, c: Cmd)
    requires CString(s) && InBlock(s, i, t, c)
    ensures var j := i + 2 + |Print(t)|;
            var r := ParseRedirs(s, [], Skip(s, j));
            ParseExec(s, i) == if r.NoFile? then Panic else Ok(Wrap(c, r.rs), r.pos)
  {
    hide ParseLine, ParseRedirs, GetToken, Print, Meaning, Skip;
    NoSkip(s, i);
    NoSkip(s, i + 1 + |Print(t)|);
    SymbolToken(s, i + 1 + |Print(t)|);
  }

  lemma PlainBlock(s: string, i: nat, t: Tree, c: Cmd)
    requires CString(s) && InBlock(s, i, t, c)
    requires var d := At(s, i + 2 + |Print(t)|); d != '<' && d != '>' && !Blank(d)
    ensures ParseExec(s, i) == Ok(c, i + 2 + |Print(t)|)
  {
    hide InBlock, ParseExec, ParseRedirs, Meaning, Print, Blank;
    BlockParses(s, i, t, c);
    BlockFits(s, i, t, c);
    NoSkip(s, i + 2 + |Print(t)|);
    NoRedirs(s, [], i + 2 + |Print(t)|);
  }

  lemma BlockFits(s: string, i: nat, t: Tree, c: Cmd)
    requires CString(s) && InBlock(s, i, t, c)
    ensures i + 2 + |Print(t)| <= |s| && s[i] == '(' && Meaning(s, c) == t
  {
    hide ParseLine;
  }

  /** The place of an operand's block, and what it needs to be parsed there. */
  lemma IntoBlock(s: string, i: nat, t: Tree)
    requires CString(s) && Writable(t) && Has(s, i, "(" + Print(t) + ")")
    ensures var j := i + 1 + |Print(t)|;
            && Has(s, i + 1, Print(t)) && j < |s| && s[i] == '(' && s[j] == ')' && Ends(s, j)
            && GetToken(s, i).pos == i + 1
  {
    hide Print, Writable, GetToken, Has;
    var p := Print(t);
    assert "(" + p + ")" == "(" + (p + ")");
    HasParts(s, i, "(", p + ")");
    HasChar(s, i, '(');
    HasParts(s, i + 1, p, ")");
    HasChar(s, i + 1 + |p|, ')');
    if p != "" {
      FirstChar(s, i + 1, t);
    }
    NoSkip(s, i);
    NoSkip(s, i + 1);
    SymbolToken(s, i);
  }

  /** In place, the parser reads back what Print wrote. */
  lemma {:induction false} LineParses(s: string, i: nat, t: Tree) returns (c: Cmd)
    requires CString(s) && Writable(t) && Has(s, i, Print(t)) && Ends(s, i + |Print(t)|)
    ensures ParseLine(s, i) == Ok(c, i + |Print(t)|) && Meaning(s, c) == t
    decreases Size(t), 0
  {
    hide ParseLine, ParseExec, GetToken;
    match t
    case Run(args) =>
      c := RunParses(s, i, args);
      Alone(s, i, c, i + |Joined(args)|);
    case Redirect(t', file, k) =>
      c := RedirectParses(s, i, t', file, k);
    case Backed(t') =>
      c := BackedParses(s, i, t');
    case Piped(l, r) =>
      c := PipedParses(s, i, l, r);
    case Listed(l, r) =>
      c := ListedParses(s, i, l, r);
  }

  lemma {:induction false} OperandParses(s: string, i: nat, t: Tree) returns (c: Cmd)
    requires CString(s) && Writable(t) && Has(s, i, "(" + Print(t) + ")")
    ensures InBlock(s, i, t, c)
    decreases Size(t), 1
  {
    hide ParseLine, Writable, Print, GetToken;
    IntoBlock(s, i, t);
    c := LineParses(s, i + 1, t);
  }

  lemma {:induction false} RedirectParses(s: string, i: nat, t: Tree, file: string, k: Kind) returns (c: Cmd)
    requires CString(s) && Writable(t) && Word(file)
    requires Has(s, i, Print(Redirect(t, file, k))) && Ends(s, i + |Print(Redirect(t, file, k))|)
    ensures ParseLine(s, i) == Ok(c, i + |Print(Redirect(t, file, k))|) && Meaning(s, c) == Redirect(t, file, k)
    decreases Size(t), 2
  {
    hide ParseLine, ParseExec, ParseRedirs, InBlock, Sign, Word, Writable, Text;
    var block, tail := "(" + Print(t) + ")", Sign(k) + file;
    assert Print(Redirect(t, file, k)) == block + tail;
    HasParts(s, i, block, tail);
    var b := OperandParses(s, i, t);
    BlockParses(s, i, t, b);
    BlockFits(s, i, t, b);
    var j := i + |block|;
    OneRedir(s, j, k, file);
    SignIsNoBlank(s, j, k, file);
    var w := Span(j + |Sign(k)|, j + |tail|);
    c := Redir(b, w, k);
    assert Wrap(b, [(w, k)]) == c;
    Alone(s, i, c, j + |tail|);
  }

  lemma SignIsNoBlank(s: string, j: nat, k: Kind, file: string)
    requires Has(s, j, Sign(k) + file)
    ensures Skip(s, j) == j
  {
    var w := Sign(k) + file;
    assert s[j..j + |w|][0] == s[j];
    NoSkip(s, j);
  }

  lemma {:induction false} BackedParses(s: string, i: nat, t: Tree) returns (c: Cmd)
    requires CString(s) && Writable(t) && Has(s, i, Print(Backed(t))) && Ends(s, i + |Print(Backed(t))|)
    ensures ParseLine(s, i) == Ok(c, i + |Print(Backed(t))|) && Meaning(s, c) == Backed(t)
    decreases Size(t), 2
  {
    hide ParseLine, ParseExec, InBlock, Writable;
    var block := "(" + Print(t) + ")";
    assert Print(Backed(t)) == block + "&";
    HasParts(s, i, block, "&");
    var j := i + |block|;
    HasChar(s, j, '&');
    var b := OperandParses(s, i, t);
    PlainBlock(s, i, t, b);
    BlockFits(s, i, t, b);
    c := Back(b);
    BackAfter(s, i, b, j);
  }

  lemma BackAfter(s: string, i: nat, b: Cmd, j: nat)
    requires CString(s) && i <= j < |s| && s[j] == '&' && ParseExec(s, i) == Ok(b, j) && Ends(s, j + 1)
    ensures ParseLine(s, i) == Ok(Back(b), j + 1)
  {
    hide ParseExec, GetToken;
    NoSkip(s, j);
    NoSkip(s, j + 1);
    SymbolToken(s, j);
    assert ParseBacks(s, Back(b), j + 1) == Ok(Back(b), j + 1);
  }

  /** Both operands of l op r. */
  lemma {:induction false} TwoOperands(s: string, i: nat, l: Tree, r: Tree, op: char)
    returns (cl: Cmd, cr: Cmd, j: nat, e: nat)
    requires CString(s) && Writable(l) && Writable(r) && (op == '|' || op == ';')
    requires var w := "(" + Print(l) + ")" + [op] + "(" + Print(r) + ")"; Has(s, i, w) && Ends(s, i + |w|)
    ensures i <= j < e <= |s| && s[j] == op && j + 1 < |s| && s[j + 1] == '(' && e == i + |Print(l)| + |Print(r)| + 5
    ensures ParseExec(s, i) == Ok(cl, j) && Meaning(s, cl) == l
    ensures ParseExec(s, j + 1) == Ok(cr, e) && Meaning(s, cr) == r && Ends(s, e)
    decreases Size(l) + Size(r), 2
  {
    hide ParseExec, ParseLine, InBlock, Writable, Blank, Print, Meaning, Has;
    var bl, br := "(" + Print(l) + ")", "(" + Print(r) + ")";
    assert "(" + Print(l) + ")" + [op] + "(" + Print(r) + ")" == bl + ([op] + br);
    HasParts(s, i, bl, [op] + br);
    j := i + |bl|;
    HasParts(s, j, [op], br);
    HasChar(s, j, op);
    e := j + 1 + |br|;
    cl := OperandParses(s, i, l);
    PlainOp(op);
    PlainBlock(s, i, l, cl);
    BlockFits(s, i, l, cl);
    cr := OperandParses(s, j + 1, r);
    BlockFits(s, j + 1, r, cr);
    EndIsNoWord(s, e);
    PlainBlock(s, j + 1, r, cr);
  }

  lemma PlainOp(op: char)
    requires op == '|' || op == ';'
    ensures !Blank(op)
  {
  }

  lemma {:induction false} PipedParses(s: string, i: nat, l: Tree, r: Tree) returns (c: Cmd)
    requires CString(s) && Writable(l) && Writable(r)
    requires Has(s, i, Print(Piped(l, r))) && Ends(s, i + |Print(Piped(l, r))|)
    ensures ParseLine(s, i) == Ok(c, i + |Print(Piped(l, r))|) && Meaning(s, c) == Piped(l, r)
    decreases Size(l) + Size(r), 3
  {
    hide ParseLine, ParseExec, ParsePipe, Writable, Ends, Has;
    assert Print(Piped(l, r)) == "(" + Print(l) + ")" + ['|'] + "(" + Print(r) + ")";
    var cl, cr, j, e := TwoOperands(s, i, l, r, '|');
    c := Pipe(cl, cr);
    Alone(s, j + 1, cr, e);
    PipeAfter(s, i, cl, j, cr, e);
  }

  lemma PipeAfter(s: string, i: nat, cl: Cmd, j: nat, cr: Cmd, e: nat)
    requires CString(s) && i <= j < |s| && s[j] == '|' && j + 1 < |s| && s[j + 1] == '(' && e <= |s| && Ends(s, e)
    requires ParseExec(s, i) == Ok(cl, j) && ParsePipe(s, j + 1) == Ok(cr, e)
    ensures ParseLine(s, i) == Ok(Pipe(cl, cr), e)
  {
    hide ParseExec;
    NoSkip(s, j);
    NoSkip(s, j + 1);
    NoSkip(s, e);
    SymbolToken(s, j);
  }

  lemma {:induction false} ListedParses(s: string, i: nat, l: Tree, r: Tree) returns (c: Cmd)
    requires CString(s) && Writable(l) && Writable(r)
    requires Has(s, i, Print(Listed(l, r))) && Ends(s, i + |Print(Listed(l, r))|)
    ensures ParseLine(s, i) == Ok(c, i + |Print(Listed(l, r))|) && Meaning(s, c) == Listed(l, r)
    decreases Size(l) + Size(r), 3
  {
    hide ParseLine, ParseExec, ParsePipe, Writable, Ends, Has;
    assert Print(Listed(l, r)) == "(" + Print(l) + ")" + [';'] + "(" + Print(r) + ")";
    var cl, cr, j, e := TwoOperands(s, i, l, r, ';');
    c := List(cl, cr);
    Alone(s, j + 1, cr, e);
    ListAfter(s, i, cl, j, cr, e);
  }

  lemma ListAfter(s: string, i: nat, cl: Cmd, j: nat, cr: Cmd, e: nat)
    requires CString(s) && i <= j < |s| && s[j] == ';' && j + 1 < |s| && s[j + 1] == '(' && e <= |s|
    requires ParseExec(s, i) == Ok(cl, j) && ParseLine(s, j + 1) == Ok(cr, e)
    ensures ParseLine(s, i) == Ok(List(cl, cr), e)
  {
    hide ParseExec;
    NoSkip(s, j);
    NoSkip(s, j + 1);
    SymbolToken(s, j);
  }

  // ---- The whole line ----

  lemma {:induction false} PrintIsCString(t: Tree)
    requires Writable(t)
    ensures CString(Print(t))
  {
    match t
    case Run(args) => JoinedIsCString(args);
    case Redirect(c, file, k) => PrintIsCString(c);
    case Piped(l, r) => PrintIsCString(l); PrintIsCString(r);
    case Listed(l, r) => PrintIsCString(l); PrintIsCString(r);
    case Backed(c) => PrintIsCString(c);
  }

  lemma {:induction false} JoinedIsCString(args: seq<string>)
    requires forall i | 0 <= i < |args| :: Word(args[i])
    ensures CString(Joined(args))
  {
    if |args| > 1 {
      JoinedIsCString(args[1..]);
    }
  }

  /** Parsing what was printed gives the same command back. */
  lemma RoundTrip(t: Tree) returns (c: Cmd)
    requires Writable(t)
    ensures CString(Print(t)) && ParseCmd(Print(t)) == Ok(c, |Print(t)|) && Meaning(Print(t), c) == t
  {
    hide ParseLine, Writable;
    PrintIsCString(t);
    var s := Print(t);
    assert s[0..|s|] == s;
    c := LineParses(s, 0, t);
    NoSkip(s, |s|);
  }

  /** Too many words for one exec command: parseexec panics at the MAXARGS-th. */
  lemma {:induction false} ArgsPanic(s: string, i: nat, args: seq<string>, argv: seq<Span>)
    requires CString(s) && Has(s, i, Joined(args)) && Ends(s, i + |Joined(args)|)
    requires |argv| < MAXARGS <= |argv| + |args| && forall k | 0 <= k < |args| :: Word(args[k])
    ensures ParseArgs(s, argv, [], i) == Panic
    decreases |args|
  {
    hide ParseArgs, GetToken, ParseRedirs, Text, WordChar, Word, Ends;
    var next := NextWord(s, i, args);
    var first := Span(i, i + |args[0]|);
    if |argv| + 1 >= MAXARGS {
      LastStraw(s, i, argv, first, next);
    } else {
      NoRedirs(s, [], next);
      OneArg(s, i, argv, first, next);
      ArgsPanic(s, next, args[1..], argv + [first]);
    }
  }

  lemma LastStraw(s: string, i: nat, argv: seq<Span>, first: Span, next: nat)
    requires CString(s) && i < |s| && WordChar(s[i]) && |argv| + 1 >= MAXARGS
    requires GetToken(s, i) == Token('a', first, next)
    ensures ParseArgs(s, argv, [], i) == Panic
  {
    NoSkip(s, i);
  }

  lemma PanicSpreads(s: string)
    requires CString(s) && ParseExec(s, 0) == Panic
    ensures ParseCmd(s) == Panic
  {
    hide ParseExec;
    assert ParsePipe(s, 0) == Panic;
    assert ParseLine(s, 0) == Panic;
  }

  lemma TooManyWords(args: seq<string>)
    requires |args| >= MAXARGS && (forall k | 0 <= k < |args| :: Word(args[k])) && CString(Joined(args))
    ensures ParseCmd(Joined(args)) == Panic
  {
    hide ParseArgs, ParseRedirs, GetToken, ParseCmd, Joined;
    var s := Joined(args);
    assert s[0..|s|] == s;
    FirstOfWords(s, 0, args);
    NoSkip(s, 0);
    NoRedirs(s, [], 0);
    ArgsPanic(s, 0, args, []);
    PanicSpreads(s);
  }

  /** A list of words is a command if and only if there are fewer than MAXARGS. */
  lemma ArgumentLimit(args: seq<string>)
    requires forall k | 0 <= k < |args| :: Word(args[k])
    ensures CString(Joined(args)) && (ParseCmd(Joined(args)).Ok? <==> |args| < MAXARGS)
  {
    hide ParseCmd, Joined, Word, Meaning;
    JoinedIsCString(args);
    if |args| < MAXARGS {
      var c := RoundTrip(Run(args));
    } else {
      TooManyWords(args);
    }
  }
}
