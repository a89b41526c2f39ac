/** user/sh.c: the recursive-descent parser with its shared cursor. */
module ShellParser {
  import opened CStrings
  import opened ShellGrammar

  class Parser {
    const s: string
    var ps: nat

    ghost predicate Valid()
      reads this
    {
      ps <= |s| && CString(s)
    }

    constructor (line: string)
      requires CString(line)
      ensures Valid() && s == line && ps == 0
    {
      s := line;
      ps := 0;
    }

    method SkipBlanks()
      requires Valid()
      modifies this`ps
      ensures Valid() && ps == Skip(s, old(ps))
    {
      while ps < |s| && Blank(s[ps])
        invariant Valid() && Skip(s, ps) == Skip(s, old(ps))
        decreases |s| - ps
      {
        ps := ps + 1;
      }
    }

    method Gettoken() returns (tok: char, w: Span)
      requires Valid()
      modifies this`ps
      ensures Valid() && Token(tok, w, ps) == GetToken(s, old(ps))
    {
      SkipBlanks();
      var q := ps;
      tok := At(s, q);
      if tok == NUL {
      } else if tok == '>' {
        ps := ps + 1;
        if At(s, ps) == '>' {
          tok := '+';
          ps := ps + 1;
        }
      } else if Symbol(tok) {
        ps := ps + 1;
      } else {
        tok := 'a';
        while ps < |s| && !Blank(s[ps]) && !Symbol(s[ps])
          invariant Valid() && q <= ps && WordEnd(s, ps) == WordEnd(s, q)
          decreases |s| - ps
        {
          ps := ps + 1;
        }
      }
      w := Span(q, ps);
      SkipBlanks();
    }

    method PeekAt(toks: set<char>) returns (b: bool)
      requires Valid()
      modifies this`ps
      ensures Valid() && b == Peek(s, old(ps), toks) && ps == Skip(s, old(ps))
    {
      SkipBlanks();
      b := At(s, ps) != NUL && At(s, ps) in toks;
    }

    /** cmd wrapped in the redirections that follow; false for a panic. */
    method Parseredirs(rs0: seq<(Span, Kind)>) returns (ok: bool, rs: seq<(Span, Kind)>)
      requires Valid()
      modifies this`ps
      ensures Valid() && old(ps) <= ps && ok == ParseRedirs(s, rs0, old(ps)).Redirs?
      ensures ok ==> ParseRedirs(s, rs0, old(ps)) == Redirs(rs, ps)
    {
      hide GetToken, Skip;
      rs := rs0;
      var more := PeekAt({'<', '>'});
      ghost var at := old(ps);
      while more
        invariant Valid() && at <= |s| && old(ps) <= at <= ps == Skip(s, at) && more == Peek(s, at, {'<', '>'})
        invariant ParseRedirs(s, rs, at) == ParseRedirs(s, rs0, old(ps))
        decreases |s| - at
      {
        var op, _ := Gettoken();
        var tok, w := Gettoken();
        Advances(s, at);
        if tok != 'a' {
          return false, [];
        }
        rs := rs + [(w, if op == '<' then In else if op == '>' then Out else Append)];
        at := ps;
        more := PeekAt({'<', '>'});
        SkipForward(s, at);
      }
      ok := true;
    }

    method Parseline() returns (ok: bool, cmd: Cmd)
      requires Valid()
      modifies this`ps
      ensures Valid() && old(ps) <= ps && ok == ParseLine(s, old(ps)).Ok?
      ensures ok ==> ParseLine(s, old(ps)) == Ok(cmd, ps)
      decreases |s| - ps, 5
    {
      hide GetToken, Skip, ParsePipe;
      ok, cmd := Parsepipe();
      if !ok {
        return;
      }
      ghost var c0, p0, at := cmd, ps, ps;
      var more := PeekAt({'&'});
      SkipForward(s, at);
      while more
        invariant Valid() && p0 <= at <= ps == Skip(s, at) <= |s| && more == Peek(s, at, {'&'})
        invariant ParseBacks(s, cmd, at) == ParseBacks(s, c0, p0)
        decreases |s| - at
      {
        var _, _ := Gettoken();
        SymbolAdvances(s, at, {'&'});
        cmd := Back(cmd);
        at := ps;
        more := PeekAt({'&'});
        SkipForward(s, at);
      }
      at := ps;
      more := PeekAt({';'});
      SkipForward(s, at);
      if more {
        var _, _ := Gettoken();
        SymbolAdvances(s, at, {';'});
        var rest;
        ok, rest := Parseline();
        cmd := List(cmd, rest);
      }
    }

    method Parsepipe() returns (ok: bool, cmd: Cmd)
      requires Valid()
      modifies this`ps
      ensures Valid() && old(ps) <= ps && ok == ParsePipe(s, old(ps)).Ok?
      ensures ok ==> ParsePipe(s, old(ps)) == Ok(cmd, ps)
      decreases |s| - ps, 4
    {
      hide GetToken, Skip, ParseExec;
      ok, cmd := Parseexec();
      if !ok {
        return;
      }
      ghost var at := ps;
      var more := PeekAt({'|'});
      SkipForward(s, at);
      if more {
        var _, _ := Gettoken();
        SymbolAdvances(s, at, {'|'});
        var rest;
        ok, rest := Parsepipe();
        cmd := Pipe(cmd, rest);
      }
    }

    method Parseblock() returns (ok: bool, cmd: Cmd)
      requires Valid()
      modifies this`ps
      ensures Valid() && old(ps) <= ps && ok == (Peek(s, old(ps), {'('}) && ParseBlock(s, old(ps)).Ok?)
      ensures ok ==> ParseBlock(s, old(ps)) == Ok(cmd, ps)
      decreases |s| - ps, 2
    {
      hide GetToken, Skip, ParseLine, ParseRedirs;
      ghost var at := ps;
      var open := PeekAt({'('});
      SkipForward(s, at);
      if !open {
        return false, Exec([]);
      }
      var _, _ := Gettoken();
      SymbolAdvances(s, at, {'('});
      ok, cmd := Parseline();
      if !ok {
        return;
      }
      at := ps;
      var close := PeekAt({')'});
      SkipForward(s, at);
      if !close {
        return false, cmd;
      }
      var _, _ := Gettoken();
      SymbolAdvances(s, at, {')'});
      var rs;
      ok, rs := Parseredirs([]);
      cmd := Wrap(cmd, rs);
    }

    method Parseexec() returns (ok: bool, cmd: Cmd)
      requires Valid()
      modifies this`ps
      ensures Valid() && old(ps) <= ps && ok == ParseExec(s, old(ps)).Ok?
      ensures ok ==> ParseExec(s, old(ps)) == Ok(cmd, ps)
      decreases |s| - ps, 3
    {
      hide GetToken, Skip, ParseBlock, ParseRedirs;
      cmd := Exec([]);
      ghost var at := ps;
      var block := PeekAt({'('});
      SkipForward(s, at);
      if block {
        SkipTwice(s, at);
        ok, cmd := Parseblock();
        return;
      }
      var rs;
      ok, rs := Parseredirs([]);
      if !ok {
        return;
      }
      ghost var p0, rs0 := ps, rs;
      var argv: seq<Span> := [];
      at := ps;
      var stop := PeekAt({'|', ')', '&', ';'});
      SkipForward(s, at);
      while !stop
        invariant Valid() && p0 <= at <= ps == Skip(s, at) <= |s| && stop == Peek(s, at, {'|', ')', '&', ';'})
        invariant ParseArgs(s, argv, rs, at) == ParseArgs(s, [], rs0, p0)
        invariant |argv| < MAXARGS
        decreases |s| - at
      {
        var tok, w := Gettoken();
        TokenAdvances(s, at);
        if tok == NUL {
          break;
        }
        if tok != 'a' {
          return false, cmd;
        }
        argv := argv + [w];
        if |argv| >= MAXARGS {
          return false, cmd;
        }
        ok, rs := Parseredirs(rs);
        if !ok {
          return;
        }
        at := ps;
        stop := PeekAt({'|', ')', '&', ';'});
        SkipForward(s, at);
      }
      cmd := Wrap(Exec(argv), rs);
    }

    /** The whole line; false when parsing panics or something is left over. */
    method Parsecmd() returns (ok: bool, cmd: Cmd)
      requires Valid() && ps == 0
      modifies this`ps
      ensures ok == ParseCmd(s).Ok? && (ok ==> ParseCmd(s) == Ok(cmd, |s|))
    {
      hide ParseLine;
      ok, cmd := Parseline();
      if ok {
        var _ := PeekAt({});
        ok := ps == |s|;
      }
    }
  }

  lemma SkipForward(s: string, i: nat)
    requires i <= |s|
    ensures i <= Skip(s, i) <= |s|
  {
  }

  /** A redirection takes up at least one character. */
  lemma Advances(s: string, i: nat)
    requires i <= |s| && CString(s) && Peek(s, i, {'<', '>'})
    ensures var j := Skip(s, i);
            && i <= j <= |s| && GetToken(s, j).pos > j && GetToken(s, j).pos <= |s|
            && GetToken(s, j).pos <= GetToken(s, GetToken(s, j).pos).pos <= |s|
  {
  }

  lemma SkipTwice(s: string, i: nat)
    requires i <= |s|
    ensures i <= Skip(s, i) <= |s| && Skip(s, Skip(s, i)) == Skip(s, i)
  {
  }

  lemma SymbolAdvances(s: string, i: nat, toks: set<char>)
    requires i <= |s| && CString(s) && Peek(s, i, toks)
    ensures var j := Skip(s, i); i <= j <= |s| && j < GetToken(s, j).pos <= |s|
  {
  }

  lemma TokenAdvances(s: string, i: nat)
    requires i <= |s| && CString(s)
    ensures var j := Skip(s, i);
            i <= j <= |s| && j <= GetToken(s, j).pos <= |s| && (GetToken(s, j).tok != NUL ==> j < GetToken(s, j).pos)
  {
  }
}
