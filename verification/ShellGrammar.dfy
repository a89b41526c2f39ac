/** user/sh.c: what the shell's parser computes, as functions of the line and the place reached in it.
    The line is a C string, so it holds no NUL; panics are results. */
module ShellGrammar {
  import opened CStrings

  const MAXARGS := 10

  predicate Blank(c: char)
  {
    c == ' ' || c == '\t' || c == '\r' || c == '\n' || c == '\U{00000b}'
  }

  predicate Symbol(c: char)
  {
    c == '<' || c == '|' || c == '>' || c == '&' || c == ';' || c == '(' || c == ')'
  }

  predicate WordChar(c: char)
  {
    !Blank(c) && !Symbol(c) && c != NUL
  }

  /** A token's text, from q up to eq. */
  datatype Span = Span(q: nat, eq: nat)

  datatype Kind = In | Out | Append

  datatype Cmd =
    | Exec(argv: seq<Span>)
    | Redir(cmd: Cmd, file: Span, kind: Kind)
    | Pipe(left: Cmd, right: Cmd)
    | List(left: Cmd, right: Cmd)
    | Back(cmd: Cmd)

  datatype Result = Ok(cmd: Cmd, pos: nat) | Panic

  /** The first place from i on that is not blank. */
  function Skip(s: string, i: nat): (j: nat)
    requires i <= |s|
    ensures i <= j <= |s| && (j < |s| ==> !Blank(s[j])) && forall k | i <= k < j :: Blank(s[k])
    decreases |s| - i
  {
    if i < |s| && Blank(s[i]) then Skip(s, i + 1) else i
  }

  /** The first place from i on that is no part of a word. */
  function WordEnd(s: string, i: nat): (j: nat)
    requires i <= |s|
    ensures i <= j <= |s| && (j < |s| ==> !WordChar(s[j])) && forall k | i <= k < j :: WordChar(s[k])
    decreases |s| - i
  {
    if i < |s| && WordChar(s[i]) then WordEnd(s, i + 1) else i
  }

  /** gettoken: the kind of token ('a' for a word, '+' for >>, NUL at the end), its span, the place after
      it and after the blanks that follow. */
  datatype Token = Token(tok: char, span: Span, pos: nat)

  function GetToken(s: string, i: nat): (t: Token)
    requires i <= |s| && CString(s)
    ensures i <= t.pos <= |s| && (t.tok != NUL ==> i < t.pos)
    ensures t.tok == 'a' ==> IsWord(s, t.span)
  {
    var q := Skip(s, i);
    var c := At(s, q);
    if c == NUL then Token(NUL, Span(q, q), q)
    else if c == '>' && At(s, q + 1) == '>' then Token('+', Span(q, q + 2), Skip(s, q + 2))
    else if Symbol(c) then Token(c, Span(q, q + 1), Skip(s, q + 1))
    else
      var e := WordEnd(s, q);
      Token('a', Span(q, e), Skip(s, e))
  }

  /** A whole word of the line: word characters, and none on either side of its end. */
  predicate IsWord(s: string, w: Span)
  {
    && w.q < w.eq <= |s| && (forall k | w.q <= k < w.eq :: WordChar(s[k]))
    && (w.eq < |s| ==> !WordChar(s[w.eq]))
  }

  /** peek: whether the next character that is not blank is one of these. */
  function Peek(s: string, i: nat, toks: set<char>): bool
    requires i <= |s|
  {
    At(s, Skip(s, i)) != NUL && At(s, Skip(s, i)) in toks
  }

  /** The redirections read so far, innermost first. */
  datatype RedirResult = Redirs(rs: seq<(Span, Kind)>, pos: nat) | NoFile

  function ParseRedirs(s: string, rs: seq<(Span, Kind)>, i: nat): (r: RedirResult)
    requires i <= |s| && CString(s)
    ensures r.Redirs? ==> i <= r.pos <= |s|
    decreases |s| - i
  {
    var j := Skip(s, i);
    if !Peek(s, i, {'<', '>'}) then Redirs(rs, j)
    else
      var op := GetToken(s, j);
      var file := GetToken(s, op.pos);
      if file.tok != 'a' then NoFile
      else
        var kind := if op.tok == '<' then In else if op.tok == '>' then Out else Append;
        ParseRedirs(s, rs + [(file.span, kind)], file.pos)
  }

  function Wrap(c: Cmd, rs: seq<(Span, Kind)>): Cmd
    decreases |rs|
  {
    if rs == [] then c else Redir(Wrap(c, rs[..|rs| - 1]), rs[|rs| - 1].0, rs[|rs| - 1].1)
  }

  function ParseLine(s: string, i: nat): (r: Result)
    requires i <= |s| && CString(s)
    ensures r.Ok? ==> i <= r.pos <= |s|
    decreases |s| - i, 5
  {
    var r := ParsePipe(s, i);
    if r.Panic? then Panic
    else
      var b := ParseBacks(s, r.cmd, r.pos);
      if !Peek(s, b.pos, {';'}) then Ok(b.cmd, Skip(s, b.pos))
      else
        var rest := ParseLine(s, GetToken(s, Skip(s, b.pos)).pos);
        if rest.Panic? then Panic else Ok(List(b.cmd, rest.cmd), rest.pos)
  }

  /** parseline's loop over &. */
  function ParseBacks(s: string, c: Cmd, i: nat): (r: Result)
    requires i <= |s| && CString(s)
    ensures r.Ok? && i <= r.pos <= |s|
    decreases |s| - i, 0
  {
    if Peek(s, i, {'&'}) then ParseBacks(s, Back(c), GetToken(s, Skip(s, i)).pos) else Ok(c, Skip(s, i))
  }

  function ParsePipe(s: string, i: nat): (r: Result)
    requires i <= |s| && CString(s)
    ensures r.Ok? ==> i <= r.pos <= |s|
    decreases |s| - i, 4
  {
    var r := ParseExec(s, i);
    if r.Panic? then Panic
    else if !Peek(s, r.pos, {'|'}) then Ok(r.cmd, Skip(s, r.pos))
    else
      var rest := ParsePipe(s, GetToken(s, Skip(s, r.pos)).pos);
      if rest.Panic? then Panic else Ok(Pipe(r.cmd, rest.cmd), rest.pos)
  }

  function ParseExec(s: string, i: nat): (r: Result)
    requires i <= |s| && CString(s)
    ensures r.Ok? ==> i <= r.pos <= |s|
    decreases |s| - i, 3
  {
    if Peek(s, i, {'('}) then ParseBlock(s, Skip(s, i))
    else
      var r := ParseRedirs(s, [], Skip(s, i));
      if r.NoFile? then Panic else ParseArgs(s, [], r.rs, r.pos)
  }

  /** parseexec's loop over words. */
  function ParseArgs(s: string, argv: seq<Span>, rs: seq<(Span, Kind)>, i: nat): (r: Result)
    requires i <= |s| && CString(s)
    ensures r.Ok? ==> i <= r.pos <= |s|
    decreases |s| - i, 0
  {
    var j := Skip(s, i);
    if Peek(s, i, {'|', ')', '&', ';'}) then Ok(Wrap(Exec(argv), rs), j)
    else
      var t := GetToken(s, j);
      if t.tok == NUL then Ok(Wrap(Exec(argv), rs), t.pos)
      else if t.tok != 'a' || |argv| + 1 >= MAXARGS then Panic
      else
        var r := ParseRedirs(s, rs, t.pos);
        if r.NoFile? then Panic else ParseArgs(s, argv + [t.span], r.rs, r.pos)
  }

  function ParseBlock(s: string, i: nat): (r: Result)
    requires i <= |s| && CString(s) && Peek(s, i, {'('})
    ensures r.Ok? ==> i <= r.pos <= |s|
    decreases |s| - i, 2
  {
    var r := ParseLine(s, GetToken(s, Skip(s, i)).pos);
    if r.Panic? || !Peek(s, r.pos, {')'}) then Panic
    else
      var rs := ParseRedirs(s, [], GetToken(s, Skip(s, r.pos)).pos);
      if rs.NoFile? then Panic else Ok(Wrap(r.cmd, rs.rs), rs.pos)
  }

  /** parsecmd, up to nulterminate: the whole line must be used up. */
  function ParseCmd(s: string): Result
    requires CString(s)
  {
    var r := ParseLine(s, 0);
    if r.Panic? || Skip(s, r.pos) != |s| then Panic else Ok(r.cmd, |s|)
  }
}
