// The SQL console's guard: comment stripping and the read-only check.
module SqlGuard {
  import opened Bytes
  import opened Strings

  datatype Mode = Code | LineComment | BlockComment

  predicate Pair(s: string, i: nat, a: char, b: char) {
    i + 1 < |s| && s[i] == a && s[i + 1] == b
  }

  // What the scanner pushes from position i on.
  function StripFrom(s: string, i: nat, m: Mode): string
    decreases |s| - i
  {
    if i >= |s| then "" else
    match m
    case LineComment =>
      if s[i] == '\n' then " " + StripFrom(s, i + 1, Code) else StripFrom(s, i + 1, LineComment)
    case BlockComment =>
      if Pair(s, i, '*', '/') then " " + StripFrom(s, i + 2, Code) else StripFrom(s, i + 1, BlockComment)
    case Code =>
      if Pair(s, i, '-', '-') then StripFrom(s, i + 2, LineComment) else
      if Pair(s, i, '/', '*') then StripFrom(s, i + 2, BlockComment) else
      [s[i]] + StripFrom(s, i + 1, Code)
  }

  function Strip(s: string): string {
    StripFrom(s, 0, Code)
  }

  function ModeOf(inSingle: bool, inBlock: bool): Mode {
    if inSingle then LineComment else if inBlock then BlockComment else Code
  }

  // The scanner: two flags and an index.
  method StripComments(sql: string) returns (cleaned: string)
    ensures cleaned == Strip(sql)
  {
    cleaned := "";
    var inSingleComment, inBlockComment := false, false;
    var i := 0;
    assert [] + Strip(sql) == Strip(sql);
    while i < |sql|
      invariant !(inSingleComment && inBlockComment)
      invariant Strip(sql) == cleaned + StripFrom(sql, i, ModeOf(inSingleComment, inBlockComment))
      decreases |sql| - i
    {
      if inSingleComment {
        if sql[i] == '\n' {
          Assoc(cleaned, " ", StripFrom(sql, i + 1, Code));
          inSingleComment := false;
          cleaned := cleaned + " ";
        }
        i := i + 1;
      } else if inBlockComment {
        if sql[i] == '*' && i + 1 < |sql| && sql[i + 1] == '/' {
          Assoc(cleaned, " ", StripFrom(sql, i + 2, Code));
          inBlockComment := false;
          i := i + 2;
          cleaned := cleaned + " ";
        } else {
          i := i + 1;
        }
      } else if sql[i] == '-' && i + 1 < |sql| && sql[i + 1] == '-' {
        inSingleComment := true;
        i := i + 2;
      } else if sql[i] == '/' && i + 1 < |sql| && sql[i + 1] == '*' {
        inBlockComment := true;
        i := i + 2;
      } else {
        Assoc(cleaned, [sql[i]], StripFrom(sql, i + 1, Code));
        cleaned := cleaned + [sql[i]];
        i := i + 1;
      }
    }
    assert cleaned + [] == cleaned;
  }

  ghost predicate NoComment(t: string) {
    forall i: nat :: !Pair(t, i, '-', '-') && !Pair(t, i, '/', '*')
  }

  lemma Prefixed(c: char, t: string)
    requires NoComment(t)
    requires t != [] ==> !(c == '-' && t[0] == '-') && !(c == '/' && t[0] == '*')
    ensures NoComment([c] + t)
  {
    forall i: nat
      ensures !Pair([c] + t, i, '-', '-') && !Pair([c] + t, i, '/', '*')
    {
      if i > 0 {
        assert !Pair(t, i - 1, '-', '-') && !Pair(t, i - 1, '/', '*');
      }
    }
  }

  // The output has no comment opener, and starts with the character at hand or a blank.
  lemma {:induction false} StripIsClean(s: string, i: nat, m: Mode)
    ensures var r := StripFrom(s, i, m);
            && NoComment(r)
            && (r != [] ==> r[0] == ' ' || (m == Code && i < |s| && r[0] == s[i]))
    decreases |s| - i
  {
    if i < |s| {
      match m
      case LineComment =>
        StripIsClean(s, i + 1, if s[i] == '\n' then Code else LineComment);
        if s[i] == '\n' {
          Prefixed(' ', StripFrom(s, i + 1, Code));
        }
      case BlockComment =>
        if Pair(s, i, '*', '/') {
          StripIsClean(s, i + 2, Code);
          Prefixed(' ', StripFrom(s, i + 2, Code));
        } else {
          StripIsClean(s, i + 1, BlockComment);
        }
      case Code =>
        if Pair(s, i, '-', '-') {
          StripIsClean(s, i + 2, LineComment);
        } else if Pair(s, i, '/', '*') {
          StripIsClean(s, i + 2, BlockComment);
        } else {
          StripIsClean(s, i + 1, Code);
          Prefixed(s[i], StripFrom(s, i + 1, Code));
        }
    }
  }

  // Text without comment openers is left alone.
  lemma {:induction false} CleanIsFixed(t: string, i: nat)
    requires NoComment(t) && i <= |t|
    ensures StripFrom(t, i, Code) == t[i..]
    decreases |t| - i
  {
    if i < |t| {
      assert !Pair(t, i, '-', '-') && !Pair(t, i, '/', '*');
      CleanIsFixed(t, i + 1);
    }
  }

  // Comment stripping removes every comment opener, changes exactly the text that has
  // one, and is idempotent.
  lemma StripIsIdempotent(s: string)
    ensures NoComment(Strip(s))
    ensures Strip(s) == s <==> NoComment(s)
    ensures Strip(Strip(s)) == Strip(s)
  {
    StripIsClean(s, 0, Code);
    CleanIsFixed(Strip(s), 0);
    if NoComment(s) {
      CleanIsFixed(s, 0);
    }
  }

  // The first comment opener of s is at i.
  ghost predicate OpensAt(s: string, i: nat) {
    (Pair(s, i, '-', '-') || Pair(s, i, '/', '*')) &&
    forall k: nat :: k < i ==> !Pair(s, k, '-', '-') && !Pair(s, k, '/', '*')
  }

  // The first terminator at or behind i that ends a comment of the given mode is at j.
  predicate EndsAt(s: string, m: Mode, j: nat) {
    if m == LineComment then j < |s| && s[j] == '\n' else Pair(s, j, '*', '/')
  }

  ghost predicate FirstEnd(s: string, m: Mode, i: nat, j: nat) {
    i <= j && EndsAt(s, m, j) && forall k: nat :: i <= k < j ==> !EndsAt(s, m, k)
  }

  ghost predicate NeverEnds(s: string, m: Mode, i: nat) {
    forall k: nat :: i <= k ==> !EndsAt(s, m, k)
  }

  function CommentAt(s: string, i: nat): Mode {
    if Pair(s, i, '-', '-') then LineComment else BlockComment
  }

  function Width(m: Mode): nat {
    if m == LineComment then 1 else 2
  }

  lemma {:induction false} StripShifts(s: string, k: nat, i: nat, m: Mode)
    requires k <= |s|
    ensures StripFrom(s, k + i, m) == StripFrom(s[k..], i, m)
    decreases |s| - i
  {
    if k + i < |s| {
      assert s[k..][i] == s[k + i];
      assert forall a, b :: Pair(s, k + i, a, b) == Pair(s[k..], i, a, b);
      StripShifts(s, k, i + 1, m);
      match m
      case Code =>
        if k + i + 1 < |s| {
          StripShifts(s, k, i + 2, LineComment);
          StripShifts(s, k, i + 2, BlockComment);
        }
      case LineComment =>
        StripShifts(s, k, i + 1, Code);
      case BlockComment =>
        if k + i + 1 < |s| {
          StripShifts(s, k, i + 2, Code);
        }
    }
  }

  lemma {:induction false} CodeIsKept(s: string, k: nat, i: nat)
    requires k <= i && OpensAt(s, i)
    ensures StripFrom(s, k, Code) == s[k..i] + StripFrom(s, i + 2, CommentAt(s, i))
    decreases i - k
  {
    if k < i {
      assert !Pair(s, k, '-', '-') && !Pair(s, k, '/', '*');
      CodeIsKept(s, k + 1, i);
      assert s[k..i] == [s[k]] + s[k + 1..i];
      Assoc([s[k]], s[k + 1..i], StripFrom(s, i + 2, CommentAt(s, i)));
    } else {
      assert s[k..i] + StripFrom(s, i + 2, CommentAt(s, i)) == StripFrom(s, i + 2, CommentAt(s, i));
    }
  }

  lemma {:induction false} CommentIsDropped(s: string, m: Mode, i: nat, j: nat)
    requires m != Code && FirstEnd(s, m, i, j)
    ensures StripFrom(s, i, m) == " " + StripFrom(s, j + Width(m), Code)
    decreases j - i
  {
    if i < j {
      assert !EndsAt(s, m, i);
      CommentIsDropped(s, m, i + 1, j);
    }
  }

  lemma {:induction false} OpenCommentIsDropped(s: string, m: Mode, i: nat)
    requires m != Code && NeverEnds(s, m, i)
    ensures StripFrom(s, i, m) == ""
    decreases |s| - i
  {
    if i < |s| {
      assert !EndsAt(s, m, i);
      OpenCommentIsDropped(s, m, i + 1);
    }
  }

  // The meaning of stripping: the first comment, wherever it ends, becomes one blank and
  // the text behind it is stripped in turn.
  lemma CommentBecomesBlank(s: string, i: nat, j: nat)
    requires OpensAt(s, i) && FirstEnd(s, CommentAt(s, i), i + 2, j)
    ensures Strip(s) == s[..i] + " " + Strip(s[j + Width(CommentAt(s, i))..])
  {
    var m := CommentAt(s, i);
    CodeIsKept(s, 0, i);
    CommentIsDropped(s, m, i + 2, j);
    StripShifts(s, j + Width(m), 0, Code);
    assert s[0..i] == s[..i];
    Assoc(s[..i], " ", Strip(s[j + Width(m)..]));
  }

  // A comment that never ends swallows the rest.
  lemma OpenCommentSwallows(s: string, i: nat)
    requires OpensAt(s, i) && NeverEnds(s, CommentAt(s, i), i + 2)
    ensures Strip(s) == s[..i]
  {
    CodeIsKept(s, 0, i);
    OpenCommentIsDropped(s, CommentAt(s, i), i + 2);
    assert s[0..i] + "" == s[..i];
  }

  // ---- String literals.

  // What a scanner that knows string literals would push: it leaves them alone. `quoted`
  // is whether position i lies in a literal.
  function QuotedStripFrom(s: string, i: nat, m: Mode, quoted: bool): string
    decreases |s| - i
  {
    if i >= |s| then "" else
    if quoted then [s[i]] + QuotedStripFrom(s, i + 1, Code, s[i] != '\'') else
    match m
    case LineComment =>
      if s[i] == '\n' then " " + QuotedStripFrom(s, i + 1, Code, false)
      else QuotedStripFrom(s, i + 1, LineComment, false)
    case BlockComment =>
      if Pair(s, i, '*', '/') then " " + QuotedStripFrom(s, i + 2, Code, false)
      else QuotedStripFrom(s, i + 1, BlockComment, false)
    case Code =>
      if Pair(s, i, '-', '-') then QuotedStripFrom(s, i + 2, LineComment, false) else
      if Pair(s, i, '/', '*') then QuotedStripFrom(s, i + 2, BlockComment, false) else
      [s[i]] + QuotedStripFrom(s, i + 1, Code, s[i] == '\'')
  }

  // Such a scanner comes upon a comment opener inside a literal.
  predicate OpenerInLiteral(s: string, i: nat, m: Mode, quoted: bool)
    decreases |s| - i
  {
    i < |s| &&
    if quoted then
      Pair(s, i, '-', '-') || Pair(s, i, '/', '*') || OpenerInLiteral(s, i + 1, Code, s[i] != '\'')
    else
      match m
      case LineComment => OpenerInLiteral(s, i + 1, if s[i] == '\n' then Code else LineComment, false)
      case BlockComment =>
        if Pair(s, i, '*', '/') then OpenerInLiteral(s, i + 2, Code, false)
        else OpenerInLiteral(s, i + 1, BlockComment, false)
      case Code =>
        if Pair(s, i, '-', '-') then OpenerInLiteral(s, i + 2, LineComment, false) else
        if Pair(s, i, '/', '*') then OpenerInLiteral(s, i + 2, BlockComment, false) else
        OpenerInLiteral(s, i + 1, Code, s[i] == '\'')
  }

  lemma {:induction false} SameWithoutOpeners(s: string, i: nat, m: Mode, quoted: bool)
    requires !OpenerInLiteral(s, i, m, quoted) && (quoted ==> m == Code)
    ensures QuotedStripFrom(s, i, m, quoted) == StripFrom(s, i, m)
    decreases |s| - i
  {
    if i < |s| {
      if quoted {
        SameWithoutOpeners(s, i + 1, Code, s[i] != '\'');
      } else {
        match m
        case LineComment => SameWithoutOpeners(s, i + 1, if s[i] == '\n' then Code else LineComment, false);
        case BlockComment =>
          if Pair(s, i, '*', '/') {
            SameWithoutOpeners(s, i + 2, Code, false);
          } else {
            SameWithoutOpeners(s, i + 1, BlockComment, false);
          }
        case Code =>
          if Pair(s, i, '-', '-') {
            SameWithoutOpeners(s, i + 2, LineComment, false);
          } else if Pair(s, i, '/', '*') {
            SameWithoutOpeners(s, i + 2, BlockComment, false);
          } else {
            SameWithoutOpeners(s, i + 1, Code, s[i] == '\'');
          }
      }
    }
  }

  lemma Deeper(c: string, t: string)
    requires !NoComment(t)
    ensures !NoComment(c + t)
  {
    var i: nat :| Pair(t, i, '-', '-') || Pair(t, i, '/', '*');
    assert Pair(c + t, |c| + i, '-', '-') || Pair(c + t, |c| + i, '/', '*');
  }

  // An opener inside a literal is kept.
  lemma {:induction false} OpenerIsKept(s: string, i: nat, m: Mode, quoted: bool)
    requires OpenerInLiteral(s, i, m, quoted)
    ensures !NoComment(QuotedStripFrom(s, i, m, quoted))
    decreases |s| - i
  {
    hide NoComment;
    if quoted {
      if Pair(s, i, '-', '-') || Pair(s, i, '/', '*') {
        PairIsKept(s, i, m);
      } else {
        OpenerIsKept(s, i + 1, Code, s[i] != '\'');
        Deeper([s[i]], QuotedStripFrom(s, i + 1, Code, s[i] != '\''));
      }
    } else {
      match m
      case LineComment =>
        OpenerIsKept(s, i + 1, if s[i] == '\n' then Code else LineComment, false);
        if s[i] == '\n' {
          Deeper(" ", QuotedStripFrom(s, i + 1, Code, false));
        }
      case BlockComment =>
        if Pair(s, i, '*', '/') {
          OpenerIsKept(s, i + 2, Code, false);
          Deeper(" ", QuotedStripFrom(s, i + 2, Code, false));
        } else {
          OpenerIsKept(s, i + 1, BlockComment, false);
        }
      case Code =>
        if Pair(s, i, '-', '-') {
          OpenerIsKept(s, i + 2, LineComment, false);
        } else if Pair(s, i, '/', '*') {
          OpenerIsKept(s, i + 2, BlockComment, false);
        } else {
          OpenerIsKept(s, i + 1, Code, s[i] == '\'');
          Deeper([s[i]], QuotedStripFrom(s, i + 1, Code, s[i] == '\''));
        }
    }
  }

  lemma PairIsKept(s: string, i: nat, m: Mode)
    requires Pair(s, i, '-', '-') || Pair(s, i, '/', '*')
    ensures !NoComment(QuotedStripFrom(s, i, m, true))
  {
    var t := QuotedStripFrom(s, i, m, true);
    var u := QuotedStripFrom(s, i + 1, Code, true);
    assert t == [s[i]] + u && u[0] == s[i + 1];
    assert Pair(t, 0, s[i], s[i + 1]);
  }

  // Stripping agrees with a scanner that knows string literals exactly if no comment
  // opener lies inside a literal.
  lemma LiteralsIff(s: string)
    ensures Strip(s) == QuotedStripFrom(s, 0, Code, false) <==> !OpenerInLiteral(s, 0, Code, false)
  {
    if OpenerInLiteral(s, 0, Code, false) {
      OpenerIsKept(s, 0, Code, false);
      StripIsIdempotent(s);
    } else {
      SameWithoutOpeners(s, 0, Code, false);
    }
  }

  // ---- The read-only check.

  const ALLOWED: seq<string> := ["SELECT", "SHOW", "EXPLAIN", "WITH"]
  const FORBIDDEN: seq<string> := [
    "INSERT ", "UPDATE ", "DELETE ", "DROP ", "ALTER ", "CREATE ", "TRUNCATE ", "GRANT ", "REVOKE ", "VACUUM ",
    "CALL ", "DO ", "COPY ", "INTO "]

  datatype Verdict = Accepted(sql: string) | EmptyQuery | MultiStatement | Mutation

  // A mutating keyword: INTO counts only together with SELECT.
  predicate Mutates(upper: string, kw: string) {
    Contains(upper, kw) && (kw == "INTO " ==> Contains(upper, "SELECT") && Contains(upper, "INTO"))
  }

  predicate MutatesAny(upper: string) {
    exists i :: 0 <= i < |FORBIDDEN| && Mutates(upper, FORBIDDEN[i])
  }

  function Judge(u: Unicode, statement: string): Verdict {
    var upper := u.upper(statement);
    if ';' in statement then MultiStatement else
    if FirstWord(u, upper) !in ALLOWED then Mutation else
    if MutatesAny(upper) then Mutation else Accepted(statement)
  }

  function ValidateReadOnly(u: Unicode, raw: string): Verdict {
    var trimmed := Trim(u, Strip(raw));
    if trimmed == [] then EmptyQuery else
    Judge(u, Trim(u, TrimEnd(trimmed, IsSemicolon)))
  }

  // The same check as a chain of tests over the keyword list.
  method Validate(u: Unicode, raw: string) returns (v: Verdict)
    ensures v == ValidateReadOnly(u, raw)
  {
    var cleaned := StripComments(raw);
    var trimmed := Trim(u, cleaned);
    if trimmed == [] {
      return EmptyQuery;
    }
    var statement := Trim(u, TrimEnd(trimmed, IsSemicolon));
    if ';' in statement {
      return MultiStatement;
    }
    var upper := u.upper(statement);
    if FirstWord(u, upper) !in ALLOWED {
      return Mutation;
    }
    for i := 0 to |FORBIDDEN|
      invariant forall j :: 0 <= j < i ==> !Mutates(upper, FORBIDDEN[j])
    {
      var kw := FORBIDDEN[i];
      if Contains(upper, kw) {
        if kw == "INTO " && Contains(upper, "SELECT") && Contains(upper, "INTO") {
          return Mutation;
        } else if kw != "INTO " {
          return Mutation;
        }
      }
    }
    return Accepted(statement);
  }

  // A stretch of clean text is clean.
  lemma CleanSlice(t: string, i: nat, j: nat)
    requires NoComment(t) && i <= j <= |t|
    ensures NoComment(t[i..j])
  {
    forall k: nat
      ensures !Pair(t[i..j], k, '-', '-') && !Pair(t[i..j], k, '/', '*')
    {
      assert !Pair(t, i + k, '-', '-') && !Pair(t, i + k, '/', '*');
    }
  }

  lemma {:induction false} TrimStartSlices(s: string, drop: char -> bool) returns (k: nat)
    ensures k <= |s| && TrimStart(s, drop) == s[k..]
    ensures k < |s| ==> !drop(s[k])
  {
    if s != [] && drop(s[0]) {
      var j := TrimStartSlices(s[1..], drop);
      k := j + 1;
    } else {
      k := 0;
    }
  }

  lemma {:induction false} TrimEndSlices(s: string, drop: char -> bool) returns (k: nat)
    ensures k <= |s| && TrimEnd(s, drop) == s[..k]
    ensures k > 0 ==> !drop(s[k - 1])
    decreases |s|
  {
    if s != [] && drop(s[|s| - 1]) {
      k := TrimEndSlices(s[..|s| - 1], drop);
      assert s[..|s| - 1][..k] == s[..k];
    } else {
      k := |s|;
    }
  }

  // Trimmed text is a stretch of the text, and trimming it again changes nothing.
  lemma TrimSlices(u: Unicode, s: string) returns (i: nat, j: nat)
    ensures i <= j <= |s| && Trim(u, s) == s[i..j]
    ensures Trim(u, Trim(u, s)) == Trim(u, s)
  {
    i := TrimStartSlices(s, u.isSpace);
    var k := TrimEndSlices(s[i..], u.isSpace);
    j := i + k;
    var r := s[i..j];
    assert r == s[i..][..k];
    assert r != [] ==> r[0] == s[i] && r[|r| - 1] == s[i..][k - 1];
  }

  // What the guard accepts is a clean, trimmed stretch of the stripped text.
  lemma AcceptedIsClean(u: Unicode, raw: string)
    requires ValidateReadOnly(u, raw).Accepted?
    ensures var r := ValidateReadOnly(u, raw).sql;
            NoComment(r) && Trim(u, r) == r && ';' !in r && Judge(u, r) == Accepted(r)
  {
    hide StripFrom, MutatesAny, FirstWord;
    StripIsIdempotent(raw);
    var cleaned := Strip(raw);
    var i, j := TrimSlices(u, cleaned);
    CleanSlice(cleaned, i, j);
    var trimmed := Trim(u, cleaned);
    var k := TrimEndSlices(trimmed, IsSemicolon);
    CleanSlice(trimmed, 0, k);
    assert trimmed[..k] == trimmed[0..k];
    var a, b := TrimSlices(u, trimmed[..k]);
    CleanSlice(trimmed[..k], a, b);
  }

  // Acceptance is stable: the accepted text is accepted again, unchanged.
  lemma AcceptedIsFixed(u: Unicode, raw: string)
    requires ValidateReadOnly(u, raw).Accepted? && u.upper("") == ""
    ensures var r := ValidateReadOnly(u, raw).sql;
            ValidateReadOnly(u, r) == Accepted(r)
  {
    hide StripFrom, MutatesAny;
    var r := ValidateReadOnly(u, raw).sql;
    AcceptedIsClean(u, raw);
    StripIsIdempotent(r);
    NoSemicolonToTrim(r);
  }

  lemma NoSemicolonToTrim(r: string)
    requires ';' !in r
    ensures TrimEnd(r, IsSemicolon) == r
  {
    if r != [] {
      assert r[|r| - 1] in r;
    }
  }

  // ---- What acceptance says about mutating words.

  // The words behind the forbidden keywords, each of which is a word and a blank.
  const MUTATING: seq<string> := [
    "INSERT", "UPDATE", "DELETE", "DROP", "ALTER", "CREATE", "TRUNCATE", "GRANT", "REVOKE", "VACUUM",
    "CALL", "DO", "COPY"]

  // No mutating word is followed by a blank; nor is INTO, if SELECT occurs at all.
  ghost predicate NoBlankBehindWords(upper: string) {
    && (forall k, i: nat :: 0 <= k < |MUTATING| ==> !BlankBehind(upper, MUTATING[k], i))
    && (Contains(upper, "SELECT") ==> forall i: nat :: !BlankBehind(upper, "INTO", i))
  }

  lemma KeywordIsWordAndBlank(k: nat)
    requires k < |MUTATING|
    ensures FORBIDDEN[k] == MUTATING[k] + " " && FORBIDDEN[k] != "INTO "
  {
  }

  lemma MutatesIff(upper: string, k: nat)
    requires k < |MUTATING|
    ensures Mutates(upper, FORBIDDEN[k]) <==> exists i: nat :: BlankBehind(upper, MUTATING[k], i)
  {
    hide BlankBehind;
    KeywordIsWordAndBlank(k);
    ContainsWithBlankIff(upper, MUTATING[k]);
  }

  lemma IntoMutatesIff(upper: string)
    ensures Mutates(upper, "INTO ") <==> Contains(upper, "SELECT") && exists i: nat :: BlankBehind(upper, "INTO", i)
  {
    assert "INTO" + " " == "INTO ";
    ContainsWithBlankIff(upper, "INTO");
  }

  lemma MutatesAnyIff(upper: string)
    ensures MutatesAny(upper) <==> !NoBlankBehindWords(upper)
  {
    hide Mutates, BlankBehind, Contains;
    IntoMutatesIff(upper);
    assert FORBIDDEN[13] == "INTO ";
    forall k: nat | k < |MUTATING|
      ensures Mutates(upper, FORBIDDEN[k]) <==> exists i: nat :: BlankBehind(upper, MUTATING[k], i)
    {
      MutatesIff(upper, k);
    }
    if !NoBlankBehindWords(upper) {
      if k: nat, i: nat :| k < |MUTATING| && BlankBehind(upper, MUTATING[k], i) {
        assert Mutates(upper, FORBIDDEN[k]);
      } else {
        assert Mutates(upper, FORBIDDEN[13]);
      }
    }
  }

  // A statement passes exactly if it has no semicolon, its first word is an allowed one,
  // and every mutating word in it is followed by something other than a blank.
  lemma PassesIff(u: Unicode, statement: string)
    ensures Judge(u, statement) == Accepted(statement) <==>
            && ';' !in statement && FirstWord(u, u.upper(statement)) in ALLOWED
            && NoBlankBehindWords(u.upper(statement))
  {
    hide MutatesAny, NoBlankBehindWords, FirstWord;
    MutatesAnyIff(u.upper(statement));
  }

  // So whatever is accepted has no mutating word followed by a blank.
  lemma AcceptedWords(u: Unicode, raw: string)
    requires ValidateReadOnly(u, raw).Accepted?
    ensures NoBlankBehindWords(u.upper(ValidateReadOnly(u, raw).sql))
  {
    hide ValidateReadOnly, Judge, NoBlankBehindWords;
    AcceptedIsClean(u, raw);
    PassesIff(u, ValidateReadOnly(u, raw).sql);
  }

  // Text without dashes and slashes has no comments.
  lemma NoOpeners(s: string)
    requires '-' !in s && '/' !in s
    ensures NoComment(s)
  {
    forall i: nat
      ensures !Pair(s, i, '-', '-') && !Pair(s, i, '/', '*')
    {
      assert i < |s| ==> s[i] in s;
    }
  }

  lemma NoBlanks(s: string)
    requires ' ' !in s
    ensures NoBlankBehindWords(s)
  {
  }

  // Text without comments, blanks and semicolons is judged as it stands.
  lemma PlainText(u: Unicode, t: string)
    requires t != [] && !u.isSpace(t[0]) && !u.isSpace(t[|t| - 1]) && ';' !in t
    requires '-' !in t && '/' !in t && ' ' !in u.upper(t)
    ensures ValidateReadOnly(u, t) == Accepted(t) <==> FirstWord(u, u.upper(t)) in ALLOWED
  {
    hide MutatesAny, FirstWord, StripFrom, NoBlankBehindWords;
    NoOpeners(t);
    StripIsIdempotent(t);
    NoSemicolonToTrim(t);
    assert Trim(u, t) == t;
    NoBlanks(u.upper(t));
    PassesIff(u, t);
  }

  // A mutating word does survive in front of a line break.
  lemma WordSurvives(u: Unicode) returns (text: string)
    requires u.isSpace('\n') && (forall c :: 'A' <= c <= 'Z' ==> !u.isSpace(c))
    requires u.upper("SHOW\nDO\nX") == "SHOW\nDO\nX"
    ensures ValidateReadOnly(u, text) == Accepted(text) && OccursAt(u.upper(text), "DO", 5)
  {
    hide ValidateReadOnly, Judge, TakeWord;
    text := "SHOW\nDO\nX";
    assert text == "SHOW" + "\nDO\nX" && text[5..] == "DO" + "\nX";
    TakesWord(u, "SHOW", "\nDO\nX");
    assert FirstWord(u, text) == "SHOW" && ALLOWED[1] == "SHOW";
    PlainText(u, text);
  }

  // ---- Which statement is judged, and the verdicts.

  // A stripped text: blanks, the statement, blanks, semicolons, blanks.
  datatype Cut = Cut(pre: string, core: string, mid: string, semicolons: string, post: string)

  function CutText(k: Cut): string {
    k.pre + (k.core + k.mid + k.semicolons + k.post)
  }

  ghost predicate WellCut(u: Unicode, k: Cut) {
    && AllPass(k.pre, u.isSpace) && AllPass(k.mid, u.isSpace) && AllPass(k.post, u.isSpace)
    && AllPass(k.semicolons, IsSemicolon)
    && (k.core == [] ==> k.mid == [] && k.semicolons != [])
    && (k.core != [] ==> !u.isSpace(k.core[0]) && !u.isSpace(k.core[|k.core| - 1]))
    && (k.core != [] && k.mid == [] ==> k.core[|k.core| - 1] != ';')
    && (k.semicolons == [] ==> k.mid == [])
  }

  // The statement without its surroundings is what is left after trimming.
  lemma TrimsBoth(u: Unicode, pre: string, s: string, post: string)
    requires AllPass(pre, u.isSpace) && AllPass(post, u.isSpace)
    requires s != [] ==> !u.isSpace(s[0]) && !u.isSpace(s[|s| - 1])
    requires s == [] ==> post == []
    ensures Trim(u, pre + (s + post)) == s
  {
    assert s != [] ==> (s + post)[0] == s[0];
    assert s == [] ==> s + post == [];
    TrimsStart(pre, s + post, u.isSpace);
    TrimsEnd(s, post, u.isSpace);
  }

  lemma OuterTrims(u: Unicode, k: Cut)
    requires WellCut(u, k) && !u.isSpace(';')
    ensures Trim(u, CutText(k)) == k.core + k.mid + k.semicolons
  {
    hide Trim;
    var t := k.core + k.mid + k.semicolons;
    assert k.semicolons != [] ==> k.semicolons[|k.semicolons| - 1] in k.semicolons;
    assert k.core == [] ==> t[0] in k.semicolons;
    TrimsBoth(u, k.pre, t, k.post);
  }

  lemma InnerTrims(u: Unicode, k: Cut)
    requires WellCut(u, k) && !u.isSpace(';')
    ensures Trim(u, TrimEnd(k.core + k.mid + k.semicolons, IsSemicolon)) == k.core
  {
    hide Trim, TrimEnd;
    var x := k.core + k.mid;
    assert k.mid != [] ==> x[|x| - 1] in k.mid;
    TrimsEnd(x, k.semicolons, IsSemicolon);
    assert [] + x == x;
    TrimsBoth(u, [], k.core, k.mid);
  }

  lemma CutTrims(u: Unicode, k: Cut)
    requires WellCut(u, k) && !u.isSpace(';')
    ensures Trim(u, CutText(k)) == k.core + k.mid + k.semicolons
    ensures Trim(u, TrimEnd(k.core + k.mid + k.semicolons, IsSemicolon)) == k.core
  {
    hide Trim, TrimEnd, WellCut, CutText;
    OuterTrims(u, k);
    InnerTrims(u, k);
  }

  // Every text with something other than blanks can be cut so.
  lemma CutOf(u: Unicode, s: string) returns (k: Cut)
    requires !AllPass(s, u.isSpace) && !u.isSpace(';')
    ensures s == CutText(k) && WellCut(u, k)
  {
    var pre, tail := SplitsStart(s, u.isSpace);
    assert tail == [] ==> s == pre;
    var t, post := SplitsEnd(tail, u.isSpace);
    assert tail[0] !in post && tail[0] == (t + post)[0];
    var x, semicolons := SplitsEnd(t, IsSemicolon);
    if semicolons == [] {
      k := Cut(pre, x, [], [], post);
      assert t == x && x + [] + [] + post == tail && tail[0] == x[0];
    } else {
      var core, mid := SplitsEnd(x, u.isSpace);
      k := Cut(pre, core, mid, semicolons, post);
      assert core + mid + semicolons + post == tail;
      assert core != [] ==> tail[0] == core[0];
      assert tail[0] !in mid && tail[0] == (core + mid + semicolons + post)[0];
    }
  }

  // A text of blanks is an empty query; any other is judged by its core: several
  // statements if a semicolon is left in it, and otherwise accepted or a mutation.
  lemma VerdictIs(u: Unicode, raw: string, k: Cut)
    requires !u.isSpace(';') && Strip(raw) == CutText(k) && WellCut(u, k)
    ensures ValidateReadOnly(u, raw) ==
            if ';' in k.core then MultiStatement
            else if FirstWord(u, u.upper(k.core)) in ALLOWED && NoBlankBehindWords(u.upper(k.core)) then Accepted(k.core)
            else Mutation
  {
    hide StripFrom, MutatesAny, NoBlankBehindWords, FirstWord, WellCut, CutText;
    CutTrims(u, k);
    NotEmpty(u, k);
    MutatesAnyIff(u.upper(k.core));
  }

  lemma NotEmpty(u: Unicode, k: Cut)
    requires WellCut(u, k)
    ensures k.core + k.mid + k.semicolons != []
  {
  }

  lemma EmptyIff(u: Unicode, raw: string)
    requires !u.isSpace(';')
    ensures ValidateReadOnly(u, raw) == EmptyQuery <==> AllPass(Strip(raw), u.isSpace)
  {
    hide StripFrom, Judge;
    var s := Strip(raw);
    if AllPass(s, u.isSpace) {
      assert s + ([] + []) == s;
      TrimsBoth(u, s, [], []);
    } else {
      var k := CutOf(u, s);
      CutTrims(u, k);
      NotEmpty(u, k);
      JudgeIsNotEmpty(u, k.core);
    }
  }

  lemma JudgeIsNotEmpty(u: Unicode, statement: string)
    ensures Judge(u, statement) != EmptyQuery
  {
  }
}
