/** user/sh.c: nulterminate, and why it spoils no word: every string in a parsed command is a whole word
    of the line, so the place after one word is never inside another. */
module ShellTokens {
  import opened CStrings
  import opened ShellGrammar
  import opened ShellParser

  function Spans(c: Cmd): set<Span>
  {
    match c
    case Exec(argv) => set k | 0 <= k < |argv| :: argv[k]
    case Redir(c', file, _) => Spans(c') + {file}
    case Pipe(l, r) => Spans(l) + Spans(r)
    case List(l, r) => Spans(l) + Spans(r)
    case Back(c') => Spans(c')
  }

  predicate AllWords(s: string, c: Cmd)
  {
    forall w | w in Spans(c) :: IsWord(s, w)
  }

  predicate RedirWords(s: string, rs: seq<(Span, Kind)>)
  {
    forall k | 0 <= k < |rs| :: IsWord(s, rs[k].0)
  }

  lemma {:induction false} WrapWords(s: string, c: Cmd, rs: seq<(Span, Kind)>)
    requires AllWords(s, c) && RedirWords(s, rs)
    ensures AllWords(s, Wrap(c, rs))
    decreases |rs|
  {
    hide IsWord;
    if rs != [] {
      WrapWords(s, c, rs[..|rs| - 1]);
    }
  }

  lemma {:induction false} RedirsWords(s: string, rs: seq<(Span, Kind)>, i: nat)
    requires i <= |s| && CString(s) && RedirWords(s, rs)
    ensures ParseRedirs(s, rs, i).Redirs? ==> RedirWords(s, ParseRedirs(s, rs, i).rs)
    decreases |s| - i
  {
    hide IsWord, Skip;
    var j := Skip(s, i);
    SkipForward(s, i);
    if Peek(s, i, {'<', '>'}) {
      Advances(s, i);
      var op := GetToken(s, j);
      var file := GetToken(s, op.pos);
      if file.tok == 'a' {
        var kind := if op.tok == '<' then In else if op.tok == '>' then Out else Append;
        RedirsWords(s, rs + [(file.span, kind)], file.pos);
      }
    }
  }

  lemma {:induction false} ArgsWords(s: string, argv: seq<Span>, rs: seq<(Span, Kind)>, i: nat)
    requires i <= |s| && CString(s) && RedirWords(s, rs) && forall k | 0 <= k < |argv| :: IsWord(s, argv[k])
    ensures ParseArgs(s, argv, rs, i).Ok? ==> AllWords(s, ParseArgs(s, argv, rs, i).cmd)
    decreases |s| - i
  {
    hide IsWord, Skip, GetToken, ParseRedirs;
    var j := Skip(s, i);
    TokenAdvances(s, i);
    WrapWords(s, Exec(argv), rs);
    var t := GetToken(s, j);
    if !Peek(s, i, {'|', ')', '&', ';'}) && t.tok == 'a' && |argv| + 1 < MAXARGS {
      TokenIsWord(s, j);
      RedirsWords(s, rs, t.pos);
      var r := ParseRedirs(s, rs, t.pos);
      if r.Redirs? {
        RedirsForward(s, rs, t.pos);
        ArgsWords(s, argv + [t.span], r.rs, r.pos);
      }
    }
  }

  lemma TokenIsWord(s: string, i: nat)
    requires i <= |s| && CString(s) && GetToken(s, i).tok == 'a'
    ensures IsWord(s, GetToken(s, i).span)
  {
  }

  lemma RedirsForward(s: string, rs: seq<(Span, Kind)>, i: nat)
    requires i <= |s| && CString(s) && ParseRedirs(s, rs, i).Redirs?
    ensures i <= ParseRedirs(s, rs, i).pos <= |s|
  {
  }

  lemma {:induction false} BacksWords(s: string, c: Cmd, i: nat)
    requires i <= |s| && CString(s) && AllWords(s, c)
    ensures AllWords(s, ParseBacks(s, c, i).cmd)
    decreases |s| - i
  {
    hide IsWord, Skip, GetToken;
    if Peek(s, i, {'&'}) {
      SymbolAdvances(s, i, {'&'});
      BacksWords(s, Back(c), GetToken(s, Skip(s, i)).pos);
    }
  }

  lemma {:induction false} LineWords(s: string, i: nat)
    requires i <= |s| && CString(s)
    ensures ParseLine(s, i).Ok? ==> AllWords(s, ParseLine(s, i).cmd)
    decreases |s| - i, 5
  {
    hide IsWord, Skip, GetToken;
    PipeWords(s, i);
    var r := ParsePipe(s, i);
    if r.Ok? {
      BacksWords(s, r.cmd, r.pos);
      var b := ParseBacks(s, r.cmd, r.pos);
      if Peek(s, b.pos, {';'}) {
        SymbolAdvances(s, b.pos, {';'});
        LineWords(s, GetToken(s, Skip(s, b.pos)).pos);
      }
    }
  }

  lemma {:induction false} PipeWords(s: string, i: nat)
    requires i <= |s| && CString(s)
    ensures ParsePipe(s, i).Ok? ==> AllWords(s, ParsePipe(s, i).cmd)
    decreases |s| - i, 4
  {
    hide IsWord, Skip, GetToken;
    ExecWords(s, i);
    var r := ParseExec(s, i);
    if r.Ok? && Peek(s, r.pos, {'|'}) {
      SymbolAdvances(s, r.pos, {'|'});
      PipeWords(s, GetToken(s, Skip(s, r.pos)).pos);
    }
  }

  lemma {:induction false} ExecWords(s: string, i: nat)
    requires i <= |s| && CString(s)
    ensures ParseExec(s, i).Ok? ==> AllWords(s, ParseExec(s, i).cmd)
    decreases |s| - i, 3
  {
    hide IsWord, Skip, GetToken;
    SkipTwice(s, i);
    if Peek(s, i, {'('}) {
      BlockWords(s, Skip(s, i));
    } else {
      RedirsWords(s, [], Skip(s, i));
      var r := ParseRedirs(s, [], Skip(s, i));
      if r.Redirs? {
        ArgsWords(s, [], r.rs, r.pos);
      }
    }
  }

  lemma {:induction false} BlockWords(s: string, i: nat)
    requires i <= |s| && CString(s) && Peek(s, i, {'('})
    ensures ParseBlock(s, i).Ok? ==> AllWords(s, ParseBlock(s, i).cmd)
    decreases |s| - i, 2
  {
    hide IsWord, Skip, GetToken;
    SymbolAdvances(s, i, {'('});
    var j := GetToken(s, Skip(s, i)).pos;
    LineWords(s, j);
    var r := ParseLine(s, j);
    if r.Ok? && Peek(s, r.pos, {')'}) {
      SymbolAdvances(s, r.pos, {')'});
      var e := GetToken(s, Skip(s, r.pos)).pos;
      RedirsWords(s, [], e);
      var rs := ParseRedirs(s, [], e);
      if rs.Redirs? {
        WrapWords(s, r.cmd, rs.rs);
      }
    }
  }

  // ---- nulterminate ----

  function Ends(c: Cmd): set<nat>
  {
    set w | w in Spans(c) :: w.eq
  }

  /** The buffer holds line s, with NULs at the places in z, and a NUL at its end. */
  predicate Holds(buf: array<char>, s: string, z: set<nat>)
    reads buf
  {
    && buf.Length == |s| + 1 && buf[|s|] == NUL
    && forall k | 0 <= k < |s| :: buf[k] == if k in z then NUL else s[k]
  }

  method Nulterminate(cmd: Cmd, buf: array<char>, ghost s: string, ghost z: set<nat>)
    requires Holds(buf, s, z) && forall w | w in Spans(cmd) :: w.eq <= |s|
    modifies buf
    ensures Holds(buf, s, z + Ends(cmd))
  {
    match cmd
    case Exec(argv) =>
      var i := 0;
      while i < |argv|
        invariant 0 <= i <= |argv| && Holds(buf, s, z + (set k | 0 <= k < i :: argv[k].eq))
      {
        assert argv[i] in Spans(cmd);
        buf[argv[i].eq] := NUL;
        i := i + 1;
      }
      assert Ends(cmd) == set k | 0 <= k < |argv| :: argv[k].eq;
    case Redir(c, file, _) =>
      Nulterminate(c, buf, s, z);
      assert file in Spans(cmd);
      buf[file.eq] := NUL;
      assert Ends(cmd) == Ends(c) + {file.eq};
    case Pipe(l, r) =>
      Nulterminate(l, buf, s, z);
      Nulterminate(r, buf, s, z + Ends(l));
      assert z + Ends(cmd) == z + Ends(l) + Ends(r);
    case List(l, r) =>
      Nulterminate(l, buf, s, z);
      Nulterminate(r, buf, s, z + Ends(l));
      assert z + Ends(cmd) == z + Ends(l) + Ends(r);
    case Back(c) =>
      Nulterminate(c, buf, s, z);
  }

  /** The C string at place q: up to the first NUL. */
  predicate Reads(buf: array<char>, q: nat, w: string)
    reads buf
  {
    q + |w| < buf.Length && buf[q..q + |w|] == w && NUL !in w && buf[q + |w|] == NUL
  }

  /** After nulterminate every word of the command reads as its own text. */
  lemma WordsReadable(s: string, c: Cmd, buf: array<char>, w: Span)
    requires CString(s) && ParseCmd(s).Ok? && c == ParseCmd(s).cmd && Holds(buf, s, Ends(c)) && w in Spans(c)
    ensures w.q < w.eq <= |s| && Reads(buf, w.q, s[w.q..w.eq])
  {
    hide ParseLine, Spans;
    LineWords(s, 0);
    assert IsWord(s, w) && w.eq in Ends(c);
    assert forall k | w.q <= k < w.eq :: k !in Ends(c);
  }

  /** parsecmd: parse the line in the buffer and terminate its words in place. */
  method ParseInPlace(buf: array<char>, line: string) returns (ok: bool, cmd: Cmd)
    requires CString(line) && Holds(buf, line, {})
    modifies buf
    ensures ok == ParseCmd(line).Ok?
    ensures ok ==> cmd == ParseCmd(line).cmd && forall w | w in Spans(cmd) ::
                     w.q < w.eq <= |line| && Reads(buf, w.q, line[w.q..w.eq])
    ensures !ok ==> buf[..] == old(buf[..])
  {
    hide ParseLine, Spans, Reads;
    var p := new Parser(line);
    ok, cmd := p.Parsecmd();
    if ok {
      LineWords(line, 0);
      forall w | w in Spans(cmd)
        ensures w.eq <= |line|
      {
        assert IsWord(line, w);
      }
      Nulterminate(cmd, buf, line, {});
      assert {} + Ends(cmd) == Ends(cmd);
      forall w | w in Spans(cmd)
        ensures w.q < w.eq <= |line| && Reads(buf, w.q, line[w.q..w.eq])
      {
        WordsReadable(line, cmd, buf, w);
      }
    }
  }
}
