// How the proxy classifies a statement by its text.
module Statements {
  import opened Responses
  import opened Session
  import opened Strings

  // Functions that a SELECT may call and that only the leader can run.
  const LEADER_FUNCTIONS: seq<string> :=
    ["PG_SWITCH_WAL", "PG_CREATE_RESTORE_POINT", "PG_BACKUP_START", "PG_BACKUP_STOP"]

  predicate CallsLeaderFunction(upper: string) {
    exists i :: 0 <= i < |LEADER_FUNCTIONS| && Contains(upper, LEADER_FUNCTIONS[i])
  }

  // The first word decides; a SELECT is searched for the leader's functions.
  function Classify(u: Unicode, sql: string): QueryKind {
    var trimmed := TrimStart(sql, u.isSpace);
    var word := AsciiUpper(TrimEnd(FirstWord(u, trimmed), IsSemicolon));
    if word == "SELECT" then if CallsLeaderFunction(AsciiUpper(trimmed)) then Write else Read
    else if word in ["SHOW", "EXPLAIN"] then Read
    else if word in ["INSERT", "UPDATE", "DELETE", "CREATE", "DROP", "ALTER", "TRUNCATE"] then Write
    else if word in ["BEGIN", "START"] then BeginTx
    else if word in ["COMMIT", "END"] then CommitTx
    else if word in ["ROLLBACK", "ABORT"] then RollbackTx
    else if word in ["SET", "RESET"] then SetVar
    else Other
  }

  // Blanks are blanks, and letters are not.
  ghost predicate Sensible(u: Unicode) {
    u.isSpace(' ') && forall c :: 'A' <= c <= 'Z' ==> !u.isSpace(c)
  }

  lemma NoLeaderFunction(s: string)
    requires '_' !in s
    ensures !CallsLeaderFunction(AsciiUpper(s))
  {
    var upper := AsciiUpper(s);
    assert '_' !in upper;
    forall i | 0 <= i < |LEADER_FUNCTIONS|
      ensures !Contains(upper, LEADER_FUNCTIONS[i])
    {
      var f := LEADER_FUNCTIONS[i];
      assert f[2] == '_';
      ContainedChars(upper, f, '_');
    }
  }

  // A text that begins with SELECT counts as a read, whatever statements stand behind it,
  // unless it names one of the leader's functions: without an underscore it does not.
  lemma SelectIsRead(u: Unicode, rest: string)
    requires Sensible(u) && '_' !in rest
    ensures Classify(u, "SELECT " + rest) == Read
  {
    var w, sql := "SELECT", "SELECT " + rest;
    assert sql == w + (" " + rest) && sql[0] == 'S';
    TakesWord(u, w, " " + rest);
    assert FirstWord(u, sql) == w;
    assert AsciiUpper(w) == w;
    NoLeaderFunction(sql);
  }

  // A text: blanks, its first word, semicolons right behind it, and the rest behind a blank.
  datatype Parts = Parts(blanks: string, word: string, semicolons: string, rest: string)

  function Text(p: Parts): string {
    p.blanks + (p.word + p.semicolons + p.rest)
  }

  ghost predicate WellParted(u: Unicode, p: Parts) {
    && AllPass(p.blanks, u.isSpace) && (forall c :: c in p.word + p.semicolons ==> !u.isSpace(c))
    && AllPass(p.semicolons, IsSemicolon) && (p.word != [] ==> !IsSemicolon(p.word[|p.word| - 1]))
    && (p.rest == [] || (u.isSpace(p.rest[0]) && p.word + p.semicolons != []))
  }

  // Every text has such parts.
  lemma PartsOf(u: Unicode, sql: string) returns (p: Parts)
    ensures sql == Text(p) && WellParted(u, p)
  {
    var blanks, tail := SplitsStart(sql, u.isSpace);
    var first, rest := SplitsStart(tail, c => !u.isSpace(c));
    var word, semicolons := SplitsEnd(first, IsSemicolon);
    p := Parts(blanks, word, semicolons, rest);
    assert p.word + p.semicolons == first;
    assert forall c :: c in first ==> !u.isSpace(c);
  }

  lemma PartsRead(u: Unicode, p: Parts)
    requires WellParted(u, p)
    ensures var trimmed := TrimStart(Text(p), u.isSpace);
            trimmed == p.word + p.semicolons + p.rest
            && TrimEnd(FirstWord(u, trimmed), IsSemicolon) == p.word
  {
    var first := p.word + p.semicolons;
    var tail := first + p.rest;
    assert first != [] ==> tail[0] == first[0] && first[0] in first;
    TrimsStart(p.blanks, tail, u.isSpace);
    TrimsStart([], tail, u.isSpace);
    assert [] + tail == tail;
    TakesWord(u, first, p.rest);
    TrimsEnd(p.word, p.semicolons, IsSemicolon);
  }

  // The text names one of the leader's functions, in any case.
  ghost predicate NamesLeaderFunction(text: string) {
    exists i, k: nat :: 0 <= i < |LEADER_FUNCTIONS| && OccursAt(AsciiUpper(text), LEADER_FUNCTIONS[i], k)
  }

  lemma CallsIffNames(text: string)
    ensures CallsLeaderFunction(AsciiUpper(text)) <==> NamesLeaderFunction(text)
  {
    hide AsciiUpper;
    var upper := AsciiUpper(text);
    if CallsLeaderFunction(upper) {
      var i :| 0 <= i < |LEADER_FUNCTIONS| && Contains(upper, LEADER_FUNCTIONS[i]);
      var k: nat :| k <= |upper| && OccursAt(upper, LEADER_FUNCTIONS[i], k);
      assert OccursAt(upper, LEADER_FUNCTIONS[i], k);
    }
    if NamesLeaderFunction(text) {
      var i, k: nat :| 0 <= i < |LEADER_FUNCTIONS| && OccursAt(upper, LEADER_FUNCTIONS[i], k);
      assert Contains(upper, LEADER_FUNCTIONS[i]);
    }
  }

  // Outside a transaction a text needs the leader exactly if its first word, in any case
  // and without semicolons, is none of SELECT, SHOW and EXPLAIN, or it is SELECT and the
  // text names one of the leader's functions. Inside one every text does.
  lemma NeedsLeaderIff(u: Unicode, t: Tracker, p: Parts)
    requires WellParted(u, p)
    ensures var word := AsciiUpper(p.word);
            t.RequiresLeader(Classify(u, Text(p))) <==>
            || t.status != Idle
            || (word != "SELECT" && word != "SHOW" && word != "EXPLAIN")
            || (word == "SELECT" && NamesLeaderFunction(p.word + p.semicolons + p.rest))
  {
    hide AsciiUpper, NamesLeaderFunction, CallsLeaderFunction, TrimStart, FirstWord, Text;
    PartsRead(u, p);
    CallsIffNames(p.word + p.semicolons + p.rest);
  }
}
