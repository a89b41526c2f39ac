/** user/grep.c: the line loop of grep, with its 1024-byte buffer, however read cuts up the input. */
module Grep {
  import opened CStrings
  import opened Matcher

  const SIZE := 1024

  predicate NoNewline(s: string, i: int, j: int)
    requires 0 <= i && j <= |s|
  {
    forall k | i <= k < j :: s[k] != '\n'
  }

  /** The first newline at or after place i, or |s|. */
  function Newline(s: string, i: nat): (j: nat)
    requires i <= |s|
    ensures i <= j <= |s| && NoNewline(s, i, j) && (j < |s| ==> s[j] == '\n')
    decreases |s| - i
  {
    if i == |s| || s[i] == '\n' then i else Newline(s, i + 1)
  }

  /** The newline-terminated lines of s that match, in order, each with its newline. */
  ghost function Selected(re: string, s: string): string
    decreases |s|
  {
    var j := Newline(s, 0);
    if j == |s| then ""
    else (if Denotes(re, s[..j]) then s[..j + 1] else "") + Selected(re, s[j + 1..])
  }

  /** Where grep gives up: the beginning of the first line that fills the buffer. */
  function Cutoff(s: string): (c: nat)
    ensures c <= |s|
    decreases |s|
  {
    var j := Newline(s, 0);
    if j >= SIZE - 1 then 0
    else if j == |s| then |s|
    else j + 1 + Cutoff(s[j + 1..])
  }

  predicate ShortAt(s: string, i: nat)
    requires i <= |s|
  {
    Newline(s, i) - i < SIZE - 1
  }

  /** No stretch without a newline fills the buffer. */
  predicate ShortLines(s: string)
  {
    forall i: nat | i <= |s| :: ShortAt(s, i)
  }

  /** grep goes through to the end exactly when no line fills the buffer. */
  lemma {:induction false} ReadsToEndIff(s: string)
    ensures Cutoff(s) == |s| <==> ShortLines(s)
    decreases |s|
  {
    var j := Newline(s, 0);
    if j >= SIZE - 1 {
      assert !ShortAt(s, 0);
    } else {
      forall i: nat | i <= j
        ensures Newline(s, i) == j && ShortAt(s, i)
      {
        SameNewline(s, i);
      }
      if j < |s| {
        var t := s[j + 1..];
        ReadsToEndIff(t);
        TailIsShort(s, j + 1);
      }
    }
  }

  lemma SameNewline(s: string, i: nat)
    requires i <= Newline(s, 0)
    ensures Newline(s, i) == Newline(s, 0)
  {
  }

  lemma TailIsShort(s: string, n: nat)
    requires n <= |s| && forall i: nat | i < n :: ShortAt(s, i)
    ensures ShortLines(s) <==> ShortLines(s[n..])
  {
    hide ShortAt;
    forall i: nat | n <= i <= |s|
      ensures ShortAt(s, i) == ShortAt(s[n..], i - n)
    {
      ShortShift(s, n, i);
    }
    forall i: nat | i <= |s[n..]|
      ensures ShortAt(s[n..], i) == ShortAt(s, n + i)
    {
      ShortShift(s, n, n + i);
    }
  }

  lemma ShortShift(s: string, n: nat, i: nat)
    requires n <= i <= |s|
    ensures ShortAt(s, i) == ShortAt(s[n..], i - n)
  {
    NewlineOf(s, n, i - n);
  }

  lemma {:induction false} NewlineOf(s: string, b: nat, i: nat)
    requires b + i <= |s|
    ensures Newline(s[b..], i) == Newline(s, b + i) - b
    decreases |s| - i
  {
    if b + i < |s| && s[b + i] != '\n' {
      NewlineOf(s, b, i + 1);
    }
  }

  lemma FirstLine(re: string, s: string, j: nat)
    requires j < |s| && s[j] == '\n' && NoNewline(s, 0, j)
    ensures Newline(s, 0) == j
    ensures Selected(re, s) == (if Denotes(re, s[..j]) then s[..j + 1] else "") + Selected(re, s[j + 1..])
    ensures j < SIZE - 1 ==> Cutoff(s) == j + 1 + Cutoff(s[j + 1..])
  {
    hide Denotes;
  }

  lemma NoLine(re: string, s: string)
    requires NoNewline(s, 0, |s|)
    ensures Selected(re, s) == "" && Cutoff(s) == if |s| >= SIZE - 1 then 0 else |s|
  {
    hide Denotes;
  }

  lemma NothingSelected(re: string, s: string)
    requires s == ""
    ensures Selected(re, s) == ""
  {
  }

  lemma NewlineBefore(s: string, b: nat)
    requires 0 < b <= |s| && s[b - 1] == '\n'
    ensures var j := Newline(s, 0); j < b && s[j] == '\n' && NoNewline(s, 0, j) && NoNewline(s[..b], 0, j)
  {
  }

  /** Lines before and after a line boundary are selected separately. */
  lemma {:induction false} SelectedSplit(re: string, s: string, b: nat)
    requires b <= |s| && (b == 0 || s[b - 1] == '\n')
    ensures Selected(re, s) == Selected(re, s[..b]) + Selected(re, s[b..])
    decreases |s|
  {
    hide Selected, Denotes, Cutoff, Newline, NoNewline;
    if b == 0 {
      assert s[0..] == s;
      NothingSelected(re, s[..0]);
    } else {
      var j := Newline(s, 0);
      var t := s[..b];
      NewlineBefore(s, b);
      FirstLine(re, s, j);
      FirstLine(re, t, j);
      SelectedSplit(re, s[j + 1..], b - j - 1);
      assert s[j + 1..][..b - j - 1] == t[j + 1..] && s[j + 1..][b - j - 1..] == s[b..];
      assert t[..j] == s[..j] && t[..j + 1] == s[..j + 1];
    }
  }

  /** One more line read. */
  lemma LineStep(re: string, s: string, b: nat, q: nat)
    requires b <= q < |s| && (b == 0 || s[b - 1] == '\n') && s[q] == '\n' && NoNewline(s, b, q)
    ensures Selected(re, s[..q + 1]) == Selected(re, s[..b]) + if Denotes(re, s[b..q]) then s[b..q + 1] else ""
    ensures q - b < SIZE - 1 ==> Cutoff(s[b..]) == q - b + 1 + Cutoff(s[q + 1..])
  {
    hide Selected, Denotes, Cutoff, Newline;
    var t := s[..q + 1];
    SelectedSplit(re, t, b);
    var l := s[b..q + 1];
    assert t[..b] == s[..b] && t[b..] == l;
    FirstLine(re, l, q - b);
    assert l[..q - b] == s[b..q] && l[..q - b + 1] == l && l[q - b + 1..] == "";
    NoLine(re, "");
    var r := s[b..];
    FirstLine(re, r, q - b);
    assert r[q - b + 1..] == s[q + 1..];
  }

  /** What is left has no newline: no more lines. */
  lemma NoMoreLines(re: string, s: string, b: nat)
    requires b <= |s| && (b == 0 || s[b - 1] == '\n') && NoNewline(s, b, |s|)
    ensures Selected(re, s) == Selected(re, s[..b])
    ensures Cutoff(s[b..]) == if |s| - b >= SIZE - 1 then 0 else |s| - b
  {
    hide Selected, Denotes, Cutoff;
    SelectedSplit(re, s, b);
    NoLine(re, s[b..]);
  }

  /** The buffer is full and holds no newline: grep stops here. */
  lemma Overlong(re: string, s: string, b: nat)
    requires b + SIZE - 1 <= |s| && NoNewline(s, b, b + SIZE - 1)
    ensures Cutoff(s[b..]) == 0
  {
    var r := s[b..];
    var j := Newline(r, 0);
    assert j < |r| ==> s[b + j] == '\n';
  }

  /** strchr: the first c at or after place p, before the NUL at place e, or -1. */
  method Strchr(buf: array<char>, p: nat, c: char, ghost e: nat) returns (q: int)
    requires p <= e < buf.Length && buf[e] == NUL && c != NUL
    ensures q == -1 || (p <= q < e && buf[q] == c && forall k | p <= k < q :: buf[k] != c && buf[k] != NUL)
    // a string without another NUL is searched to its end
    ensures q == -1 && (forall k | p <= k < e :: buf[k] != NUL) ==> forall k | p <= k < e :: buf[k] != c
  {
    q := p;
    while buf[q] != c
      invariant p <= q <= e && forall k | p <= k < q :: buf[k] != c && buf[k] != NUL
      decreases e - q
    {
      if buf[q] == NUL {
        return -1;
      }
      q := q + 1;
    }
  }

  /** The bytes that read may return: some, unless there is no room or nothing left. */
  function ReadSize(want: nat, room: nat, left: nat): (n: nat)
    ensures n <= room && n <= left && (n == 0 <==> room == 0 || left == 0)
  {
    var most := if room < left then room else left;
    if want < 1 then (if most >= 1 then 1 else 0) else if want < most then want else most
  }

  /** buf[..m] holds input[b..b + m]. */
  predicate Holds(buf: array<char>, p: nat, m: nat, input: string, b: nat)
    reads buf
  {
    p <= m < buf.Length && b + m - p <= |input| && forall k | p <= k < m :: buf[k] == input[b + k - p]
  }

  /** grep has dealt with the input up to the line boundary pos, and has written out. */
  ghost predicate Through(re: string, input: string, pos: nat, out: string)
  {
    && pos <= |input| && (pos == 0 || input[pos - 1] == '\n')
    && out == Selected(re, input[..pos]) && Cutoff(input) == pos + Cutoff(input[pos..])
  }

  lemma ThroughLine(re: string, input: string, pos: nat, out: string, e: nat)
    requires Through(re, input, pos, out) && pos <= e < |input| && input[e] == '\n' && NoNewline(input, pos, e)
    requires e - pos < SIZE - 1
    ensures Through(re, input, e + 1, out + if Denotes(re, input[pos..e]) then input[pos..e + 1] else "")
  {
    hide Selected, Denotes, Cutoff, NoNewline;
    LineStep(re, input, pos, e);
  }

  /** The inner loop: all the complete lines in the buffer. b is where the buffer starts in the input. */
  method Lines(re: string, buf: array<char>, m: nat, ghost input: string, ghost b: nat, out0: string)
    returns (p: nat, out: string)
    requires CString(re) && CString(input) && buf.Length == SIZE && Holds(buf, 0, m, input, b) && buf[m] == NUL
    requires Through(re, input, b, out0)
    modifies buf
    ensures p <= m && Holds(buf, p, m, input, b + p) && Through(re, input, b + p, out)
    ensures NoNewline(input, b + p, b + m)
  {
    hide Through, Denotes, NoNewline, CString;
    p, out := 0, out0;
    while true
      invariant p <= m && Holds(buf, p, m, input, b + p) && buf[m] == NUL && Through(re, input, b + p, out)
      decreases m - p
    {
      var q := Strchr(buf, p, '\n', m);
      if q < 0 {
        InputHas(buf, p, m, input, b + p);
        break;
      }
      LineIs(buf, p, m, input, b + p, q);
      ThroughLine(re, input, b + p, out, b + q);
      var line := OneLine(re, buf, p, q);
      out := out + line;
      p := q + 1;
    }
  }

  /** The body of the inner loop: the line that ends at q, with its newline, if it matches. */
  method OneLine(re: string, buf: array<char>, p: nat, q: nat) returns (line: string)
    requires CString(re) && p <= q < buf.Length && buf[q] == '\n' && CString(buf[p..q])
    modifies buf
    ensures forall k | 0 <= k < buf.Length && k != q :: buf[k] == old(buf[k])
    ensures line == if Denotes(re, old(buf[p..q])) then old(buf[p..q + 1]) else ""
  {
    hide Denotes;
    buf[q] := NUL;
    assert buf[p..q] == old(buf[p..q]);
    var matched := Match(re, buf[p..q]);
    line := "";
    if matched {
      buf[q] := '\n';
      line := buf[p..q + 1];
    }
  }

  /** The line between p and its newline at q, in the input. */
  lemma LineIs(buf: array<char>, p: nat, m: nat, input: string, b: nat, q: nat)
    requires Holds(buf, p, m, input, b) && CString(input) && p <= q < m && buf[q] == '\n'
    requires forall k | p <= k < q :: buf[k] != '\n'
    ensures var e := b + q - p;
            && e < |input| && input[e] == '\n' && NoNewline(input, b, e)
            && buf[p..q] == input[b..e] && buf[p..q + 1] == input[b..e + 1] && CString(buf[p..q])
  {
    InputHas(buf, p, q, input, b);
  }

  /** NUL-free input, and no newline in the buffer. */
  lemma InputHas(buf: array<char>, p: nat, m: nat, input: string, b: nat)
    requires Holds(buf, p, m, input, b) && CString(input)
    ensures forall k | p <= k < m :: buf[k] != NUL
    ensures (forall k | p <= k < m :: buf[k] != '\n') ==> NoNewline(input, b, b + m - p)
  {
    forall k | p <= k < m
      ensures buf[k] != NUL
    {
      assert input[b + k - p] in input;
    }
    if forall k | p <= k < m :: buf[k] != '\n' {
      forall i | b <= i < b + m - p
        ensures input[i] != '\n'
      {
        assert buf[i - b + p] == input[i];
      }
    }
  }

  /** grep writes exactly the matching lines, in order, of the part of the input before the first line
      that fills the buffer, whatever number of bytes (sizes) each read returns. */
  method GrepInput(re: string, input: string, sizes: seq<nat>) returns (out: string)
    requires CString(re) && CString(input)
    ensures out == Selected(re, input[..Cutoff(input)])
  {
    hide Selected, Denotes, Cutoff;
    var buf := new char[SIZE];
    var m: nat, pos: nat, i := 0, 0, 0;
    out := "";
    NoLine(re, "");
    assert input[0..] == input && input[..0] == "";
    while true
      invariant pos <= |input| && m <= pos && m < SIZE && Holds(buf, 0, m, input, pos - m)
      invariant Through(re, input, pos - m, out)
      invariant NoNewline(input, pos - m, pos)
      decreases |input| - pos
    {
      var want := if i < |sizes| then sizes[i] else SIZE;
      var n := ReadSize(want, SIZE - m - 1, |input| - pos);
      if n == 0 {
        break;
      }
      ghost var b := pos - m;
      forall k | 0 <= k < n {
        buf[m + k] := input[pos + k];
      }
      m, pos, i := m + n, pos + n, i + 1;
      buf[m] := NUL;
      var p;
      p, out := Lines(re, buf, m, input, b, out);
      forall k | 0 <= k < m - p {
        buf[k] := buf[p + k];
      }
      m := m - p;
    }
    if pos == |input| {
      NoMoreLines(re, input, pos - m);
      if m < SIZE - 1 { assert input[..|input|] == input; }
    } else {
      Overlong(re, input, pos - m);
    }
  }
}
