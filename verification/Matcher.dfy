/** user/grep.c: match, matchhere and matchstar, against the language that a pattern denotes. Strings are
    C strings without their terminating NUL; reading at their end gives NUL. */
module Matcher {
  import opened CStrings

  /** One element of a pattern: a character, any character, or any number of either. */
  datatype Atom = Lit(c: char) | Any
  datatype Item = One(atom: Atom) | Many(atom: Atom)

  /** A pattern without its leading ^: items, and whether it ends with the anchor $. */
  datatype Pattern = Pattern(items: seq<Item>, anchored: bool)

  function AtomOf(c: char): Atom
  {
    if c == '.' then Any else Lit(c)
  }

  /** How pattern text reads: a star takes the character before it, whatever it is; $ is an anchor only
      as the last character and when no star follows it. */
  function Parse(re: string): Pattern
  {
    if re == "" then Pattern([], false)
    else if |re| >= 2 && re[1] == '*' then
      var rest := Parse(re[2..]);
      rest.(items := [Many(AtomOf(re[0]))] + rest.items)
    else if re == "$" then Pattern([], true)
    else
      var rest := Parse(re[1..]);
      rest.(items := [One(AtomOf(re[0]))] + rest.items)
  }

  predicate Accepts(a: Atom, c: char)
  {
    a.Any? || a.c == c
  }

  /** s is in the language of the items: it can be cut into one piece per item. */
  ghost predicate InLanguage(items: seq<Item>, s: string)
    decreases |items|
  {
    if items == [] then s == ""
    else if items[0].One? then s != "" && Accepts(items[0].atom, s[0]) && InLanguage(items[1..], s[1..])
    else exists k: nat | k <= |s| :: Run(items[0].atom, s, k) && InLanguage(items[1..], s[k..])
  }

  /** The first k characters are all accepted. */
  predicate Run(a: Atom, s: string, k: nat)
    requires k <= |s|
  {
    forall i | 0 <= i < k :: Accepts(a, s[i])
  }

  /** Some prefix of s, or all of s if anchored, is in the language. */
  ghost predicate MatchesAt(p: Pattern, s: string)
  {
    exists j: nat | j <= |s| :: (p.anchored ==> j == |s|) && InLanguage(p.items, s[..j])
  }

  /** Some substring of text is in the language, at the start if the pattern begins with ^ and at the end
      if it is anchored. */
  ghost predicate Denotes(re: string, text: string)
  {
    if re != "" && re[0] == '^' then MatchesAt(Parse(re[1..]), text)
    else exists i: nat | i <= |text| :: MatchesAt(Parse(re), text[i..])
  }

  lemma FirstOne(a: Atom, rest: Pattern, s: string)
    ensures MatchesAt(rest.(items := [One(a)] + rest.items), s) <==>
            s != "" && Accepts(a, s[0]) && MatchesAt(rest, s[1..])
  {
    var p := rest.(items := [One(a)] + rest.items);
    assert p.items[1..] == rest.items;
    if MatchesAt(p, s) {
      var j: nat :| j <= |s| && (p.anchored ==> j == |s|) && InLanguage(p.items, s[..j]);
      assert s[..j][1..] == s[1..][..j - 1];
    }
    if s != "" && Accepts(a, s[0]) && MatchesAt(rest, s[1..]) {
      var j: nat :| j <= |s| - 1 && (p.anchored ==> j == |s| - 1) && InLanguage(rest.items, s[1..][..j]);
      assert s[..j + 1][1..] == s[1..][..j];
      assert InLanguage(p.items, s[..j + 1]);
    }
  }

  lemma FirstMany(a: Atom, rest: Pattern, s: string)
    ensures MatchesAt(rest.(items := [Many(a)] + rest.items), s) <==>
            exists k: nat | k <= |s| :: Run(a, s, k) && MatchesAt(rest, s[k..])
  {
    var p := rest.(items := [Many(a)] + rest.items);
    assert p.items[1..] == rest.items;
    if MatchesAt(p, s) {
      var j: nat :| j <= |s| && (p.anchored ==> j == |s|) && InLanguage(p.items, s[..j]);
      var k: nat :| k <= j && Run(a, s[..j], k) && InLanguage(rest.items, s[..j][k..]);
      assert s[..j][k..] == s[k..][..j - k];
      assert Run(a, s, k) && MatchesAt(rest, s[k..]);
    }
    if k: nat :| k <= |s| && Run(a, s, k) && MatchesAt(rest, s[k..]) {
      var j: nat :| j <= |s| - k && (p.anchored ==> j == |s| - k) && InLanguage(rest.items, s[k..][..j]);
      assert s[..k + j][k..] == s[k..][..j];
      assert Run(a, s[..k + j], k);
      assert InLanguage(p.items, s[..k + j]);
    }
  }

  method MatchHere(re: string, text: string) returns (b: bool)
    requires CString(re) && CString(text)
    ensures b == MatchesAt(Parse(re), text)
    decreases |re|, 0
  {
    if At(re, 0) == NUL {
      EmptyMatches(text);
      return true;
    }
    if At(re, 1) == '*' {
      FirstMany(AtomOf(re[0]), Parse(re[2..]), text);
      b := MatchStar(re[0], re[2..], text);
      return;
    }
    if At(re, 0) == '$' && At(re, 1) == NUL {
      assert re == "$";
      EndMatches(text);
      return At(text, 0) == NUL;
    }
    assert re != "$" && !(|re| >= 2 && re[1] == '*');
    FirstOne(AtomOf(re[0]), Parse(re[1..]), text);
    if At(text, 0) != NUL && (re[0] == '.' || re[0] == At(text, 0)) {
      b := MatchHere(re[1..], text[1..]);
      return;
    }
    b := false;
  }

  lemma EmptyMatches(text: string)
    ensures MatchesAt(Parse(""), text)
  {
    assert InLanguage([], text[..0]);
  }

  lemma EndMatches(text: string)
    ensures MatchesAt(Parse("$"), text) <==> text == ""
  {
    assert text[..|text|] == text;
  }

  /** matchstar's loop tries every number of repetitions, fewest first. */
  method MatchStar(c: char, re: string, text: string) returns (b: bool)
    requires CString(re) && CString(text) && c != NUL
    ensures b == exists k: nat | k <= |text| :: Run(AtomOf(c), text, k) && MatchesAt(Parse(re), text[k..])
    decreases |re|, 1
  {
    hide MatchesAt, Parse, InLanguage;
    var t := 0;
    while true
      invariant 0 <= t <= |text| && Run(AtomOf(c), text, t)
      invariant forall k: nat | k < t :: !MatchesAt(Parse(re), text[k..])
      decreases |text| - t
    {
      var here := MatchHere(re, text[t..]);
      if here {
        return true;
      }
      if At(text, t) == NUL || !(At(text, t) == c || c == '.') {
        break;
      }
      t := t + 1;
    }
    assert t < |text| ==> !Accepts(AtomOf(c), text[t]);
    b := false;
  }

  method Match(re: string, text: string) returns (b: bool)
    requires CString(re) && CString(text)
    ensures b == Denotes(re, text)
  {
    hide MatchesAt, Parse, InLanguage;
    if At(re, 0) == '^' {
      b := MatchHere(re[1..], text);
      return;
    }
    var t := 0;
    while true   // must look at the empty string
      invariant 0 <= t <= |text|
      invariant forall i: nat | i < t :: !MatchesAt(Parse(re), text[i..])
      decreases |text| - t
    {
      var here := MatchHere(re, text[t..]);
      if here {
        return true;
      }
      if At(text, t) == NUL {
        break;
      }
      t := t + 1;
    }
    b := false;
  }
}
