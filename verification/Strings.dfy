// Text as the proxy and the SQL console take it apart: trimming, words, occurrences.
module Strings {

  // Character classes and case mapping are foreign code.
  datatype Unicode = Unicode(isSpace: char -> bool, upper: string -> string)

  function TrimStart(s: string, drop: char -> bool): string {
    if s != [] && drop(s[0]) then TrimStart(s[1..], drop) else s
  }

  function TrimEnd(s: string, drop: char -> bool): string {
    if s != [] && drop(s[|s| - 1]) then TrimEnd(s[..|s| - 1], drop) else s
  }

  function Trim(u: Unicode, s: string): string {
    TrimEnd(TrimStart(s, u.isSpace), u.isSpace)
  }

  function IsSemicolon(c: char): bool {
    c == ';'
  }

  // The characters up to the first blank.
  function TakeWord(u: Unicode, s: string): string {
    if s == [] || u.isSpace(s[0]) then [] else [s[0]] + TakeWord(u, s[1..])
  }

  function FirstWord(u: Unicode, s: string): string {
    TakeWord(u, TrimStart(s, u.isSpace))
  }

  // The word stands at position i.
  predicate OccursAt(s: string, w: string, i: nat) {
    i <= |s| && w <= s[i..]
  }

  predicate Contains(s: string, w: string) {
    exists i :: 0 <= i <= |s| && OccursAt(s, w, i)
  }

  // What occurs brings its characters with it.
  lemma ContainedChars(s: string, w: string, c: char)
    requires c in w
    ensures Contains(s, w) ==> c in s
  {
    forall i: nat | OccursAt(s, w, i)
      ensures c in s
    {
      var k :| 0 <= k < |w| && w[k] == c;
      assert s[i + k] == s[i..][k];
    }
  }

  // A word followed by a blank.
  predicate BlankBehind(s: string, w: string, i: nat) {
    OccursAt(s, w, i) && i + |w| < |s| && s[i + |w|] == ' '
  }

  lemma ContainsWithBlankIff(s: string, w: string)
    ensures Contains(s, w + " ") <==> exists i: nat :: BlankBehind(s, w, i)
  {
    forall i: nat
      ensures OccursAt(s, w + " ", i) <==> BlankBehind(s, w, i)
    {
      if OccursAt(s, w + " ", i) {
        assert (w + " ")[..|w|] == w && s[i..][|w|] == (w + " ")[|w|];
      }
      if BlankBehind(s, w, i) {
        assert s[i..][|w|] == ' ';
      }
    }
  }

  // A word up to a blank is taken whole.
  lemma {:induction false} TakesWord(u: Unicode, w: string, rest: string)
    requires (forall c :: c in w ==> !u.isSpace(c)) && (rest == [] || u.isSpace(rest[0]))
    ensures TakeWord(u, w + rest) == w
    decreases |w|
  {
    if w == [] {
      assert w + rest == rest;
    } else {
      assert (w + rest)[1..] == w[1..] + rest;
      TakesWord(u, w[1..], rest);
    }
  }

  ghost predicate AllPass(s: string, p: char -> bool) {
    forall c :: c in s ==> p(c)
  }

  // Trimming drops exactly the leading characters that pass.
  lemma {:induction false} TrimsStart(pre: string, s: string, drop: char -> bool)
    requires AllPass(pre, drop) && (s == [] || !drop(s[0]))
    ensures TrimStart(pre + s, drop) == s
    decreases |pre|
  {
    if pre == [] {
      assert pre + s == s;
    } else {
      assert (pre + s)[1..] == pre[1..] + s && pre[0] in pre;
      TrimsStart(pre[1..], s, drop);
    }
  }

  // And exactly the trailing ones.
  lemma {:induction false} TrimsEnd(s: string, post: string, drop: char -> bool)
    requires AllPass(post, drop) && (s == [] || !drop(s[|s| - 1]))
    ensures TrimEnd(s + post, drop) == s
    decreases |post|
  {
    if post == [] {
      assert s + post == s;
    } else {
      var n := |post| - 1;
      assert (s + post)[..|s| + n] == s + post[..n] && post[n] in post;
      TrimsEnd(s, post[..n], drop);
    }
  }

  // Every text is leading characters that pass, and the rest.
  lemma {:induction false} SplitsStart(s: string, drop: char -> bool) returns (pre: string, rest: string)
    ensures s == pre + rest && AllPass(pre, drop) && (rest == [] || !drop(rest[0]))
  {
    if s != [] && drop(s[0]) {
      var p, r := SplitsStart(s[1..], drop);
      pre, rest := [s[0]] + p, r;
      assert s == [s[0]] + s[1..];
    } else {
      pre, rest := [], s;
    }
  }

  lemma {:induction false} SplitsEnd(s: string, drop: char -> bool) returns (rest: string, post: string)
    ensures s == rest + post && AllPass(post, drop) && (rest == [] || !drop(rest[|rest| - 1]))
    decreases |s|
  {
    if s != [] && drop(s[|s| - 1]) {
      var n := |s| - 1;
      var r, p := SplitsEnd(s[..n], drop);
      rest, post := r, p + [s[n]];
      assert s == s[..n] + [s[n]];
    } else {
      rest, post := s, [];
    }
  }

  // ASCII upper case.
  function UpperChar(c: char): char {
    if 'a' <= c <= 'z' then (c as int - 32) as char else c
  }

  function AsciiUpper(s: string): string {
    seq(|s|, i requires 0 <= i < |s| => UpperChar(s[i]))
  }
}
