/** The migration script of scripts/migrate.ts: the schema file is cut into
    statements with `split(';')`, each piece is trimmed, blank pieces are
    dropped, and the statements are sent to the server one after another,
    stopping at the first one it rejects. Reading the file, the connection
    and the process exit are replaced by inputs and outputs. */
module Migrate {

  /** The characters `String.prototype.trim` removes: ECMAScript WhiteSpace
      (tab, vertical tab, form feed, space, no-break space, the space
      separators U+1680, U+2000 to U+200A, U+202F, U+205F, U+3000, and the
      BOM) and LineTerminator (LF, CR, LS, PS). */
  predicate IsWhitespace(c: char) {
    || '\t' <= c <= '\r'
    || c == ' ' || c == '\U{00A0}' || c == '\U{1680}'
    || '\U{2000}' <= c <= '\U{200A}'
    || c == '\U{2028}' || c == '\U{2029}' || c == '\U{202F}' || c == '\U{205F}'
    || c == '\U{3000}' || c == '\U{FEFF}'
  }

  /** Every character of `s` outside `s[i..j]` is whitespace. */
  predicate WhitespaceOutside(s: string, i: int, j: int) {
    forall k :: 0 <= k < |s| && !(i <= k < j) ==> IsWhitespace(s[k])
  }

  /** `s` has no whitespace at either end. */
  predicate Trimmed(s: string) {
    s == [] || (!IsWhitespace(s[0]) && !IsWhitespace(s[|s| - 1]))
  }

  /** What every statement of a schema file looks like: not empty, no `;`,
      no whitespace at either end. */
  predicate IsStatement(st: string) {
    |st| > 0 && ';' !in st && Trimmed(st)
  }

  /** `s.split(';')`: the pieces between separators, an empty piece where two
      separators touch or at an end, and `[""]` for the empty string. */
  function Split(s: string): (r: seq<string>)
    ensures |r| >= 1
    ensures forall i :: 0 <= i < |r| ==> ';' !in r[i]
  {
    if s == [] then [""]
    else
      var rest := Split(s[1..]);
      if s[0] == ';' then [""] + rest
      else [[s[0]] + rest[0]] + rest[1..]
  }

  /** `pieces.join(';')`. */
  function Join(pieces: seq<string>): string {
    if pieces == [] then ""
    else if |pieces| == 1 then pieces[0]
    else pieces[0] + ";" + Join(pieces[1..])
  }

  /** The index of the first character at or after `i` that is not
      whitespace, or `|s|`: where the text left after `trim` starts. */
  function SkipLeading(s: string, i: nat): (r: nat)
    requires i <= |s|
    ensures i <= r <= |s|
    ensures forall k :: i <= k < r ==> IsWhitespace(s[k])
    ensures r == |s| || !IsWhitespace(s[r])
    decreases |s| - i
  {
    if i < |s| && IsWhitespace(s[i]) then SkipLeading(s, i + 1) else i
  }

  /** The index just after the last character before `j`, and not before
      `lo`, that is not whitespace, or `lo`: where the trimmed text ends. */
  function SkipTrailing(s: string, lo: nat, j: nat): (r: nat)
    requires lo <= j <= |s|
    ensures lo <= r <= j
    ensures forall k :: r <= k < j ==> IsWhitespace(s[k])
    ensures r == lo || !IsWhitespace(s[r - 1])
  {
    if j > lo && IsWhitespace(s[j - 1]) then SkipTrailing(s, lo, j - 1) else j
  }

  /** `s.trim()`: the text between the leading and the trailing whitespace. */
  function Trim(s: string): (r: string)
    ensures |r| <= |s| && Trimmed(r)
  {
    var i := SkipLeading(s, 0);
    var j := SkipTrailing(s, i, |s|);
    assert i < j ==> s[i..j][0] == s[i] && s[i..j][j - i - 1] == s[j - 1];
    s[i..j]
  }

  /** `.map(s => s.trim()).filter(s => s.length > 0)`. */
  function NonBlank(pieces: seq<string>): (r: seq<string>)
    ensures |r| <= |pieces|
    ensures forall st :: st in r ==> |st| > 0 && Trimmed(st)
  {
    if pieces == [] then [] else Kept(pieces[0]) + NonBlank(pieces[1..])
  }

  /** What one piece contributes: its trim, unless that is empty. */
  function Kept(piece: string): (r: seq<string>)
    ensures |r| <= 1
    ensures forall st :: st in r ==> st == Trim(piece) && st != ""
    ensures Trim(piece) != "" ==> r == [Trim(piece)]
  {
    if |Trim(piece)| > 0 then [Trim(piece)] else []
  }

  /** The statements of a schema file, in file order. */
  function Statements(sql: string): (r: seq<string>)
    ensures forall st :: st in r ==> IsStatement(st)
  {
    NonBlankShape(Split(sql));
    NonBlank(Split(sql))
  }

  // ---------------------------------------------------------------------------
  // Trimming.

  /** `trim` removes whitespace and nothing else: the result is a slice of
      the input with only whitespace around it. */
  lemma TrimSlice(s: string)
    ensures exists i, j :: 0 <= i <= j <= |s| && Trim(s) == s[i..j] && WhitespaceOutside(s, i, j)
  {
    var i := SkipLeading(s, 0);
    var j := SkipTrailing(s, i, |s|);
    assert WhitespaceOutside(s, i, j);
  }

  /** A string with no whitespace at its ends is its own trim. */
  lemma TrimTrimmed(s: string)
    requires Trimmed(s)
    ensures Trim(s) == s
  {
  }

  /** Trimming twice is trimming once. */
  lemma TrimIdempotent(s: string)
    ensures Trim(Trim(s)) == Trim(s)
  {
    TrimTrimmed(Trim(s));
  }

  // ---------------------------------------------------------------------------
  // Splitting.

  /** Joining the pieces with `;` gives back the input. */
  lemma {:induction false} SplitJoin(s: string)
    ensures Join(Split(s)) == s
  {
    if s != [] {
      SplitJoin(s[1..]);
      var rest := Split(s[1..]);
      if s[0] != ';' && |rest| > 1 {
        assert [s[0]] + rest[0] + ";" + Join(rest[1..]) == [s[0]] + (rest[0] + ";" + Join(rest[1..]));
      }
      assert s == [s[0]] + s[1..];
    }
  }

  /** A `;` between two texts splits them apart. */
  lemma {:induction false} SplitAppend(a: string, b: string)
    ensures Split(a + ";" + b) == Split(a) + Split(b)
  {
    if a == [] {
      assert a + ";" + b == [';'] + b;
      assert (a + ";" + b)[1..] == b;
    } else {
      assert (a + ";" + b)[1..] == a[1..] + ";" + b;
      SplitAppend(a[1..], b);
    }
  }

  /** Without a `;` the whole text is one piece. */
  lemma {:induction false} SplitNoSeparator(s: string)
    requires ';' !in s
    ensures Split(s) == [s]
  {
    if s != [] {
      SplitNoSeparator(s[1..]);
      assert s == [s[0]] + s[1..];
    }
  }

  // ---------------------------------------------------------------------------
  // Statements.

  /** The filter keeps concatenation: statements of two parts are the first
      part's followed by the second's. */
  lemma {:induction false} NonBlankAppend(p: seq<string>, q: seq<string>)
    ensures NonBlank(p + q) == NonBlank(p) + NonBlank(q)
  {
    if p == [] {
      assert p + q == q;
    } else {
      var rest := p[1..];
      assert (p + q)[0] == p[0];
      assert (p + q)[1..] == rest + q;
      NonBlankAppend(rest, q);
      assert NonBlank(p + q) == Kept(p[0]) + (NonBlank(rest) + NonBlank(q));
    }
  }

  /** A piece without `;` whose trim is not empty trims to a statement. */
  lemma TrimmedPiece(piece: string)
    requires ';' !in piece && |Trim(piece)| > 0
    ensures IsStatement(Trim(piece))
  {
    TrimSlice(piece);
    var i, j :| 0 <= i <= j <= |piece| && Trim(piece) == piece[i..j];
    assert forall c :: c in piece[i..j] ==> c in piece;
  }

  /** Every kept piece is a trimmed, non-empty, `;`-free piece of the input. */
  lemma {:induction false} NonBlankShape(pieces: seq<string>)
    requires forall i :: 0 <= i < |pieces| ==> ';' !in pieces[i]
    ensures forall st :: st in NonBlank(pieces) ==> IsStatement(st)
    ensures |NonBlank(pieces)| <= |pieces|
  {
    if pieces != [] {
      NonBlankShape(pieces[1..]);
      if |Trim(pieces[0])| > 0 {
        TrimmedPiece(pieces[0]);
      }
    }
  }

  /** Statements follow the file order: a `;` between two texts gives the
      statements of the first and then those of the second. */
  lemma StatementsAppend(a: string, b: string)
    ensures Statements(a + ";" + b) == Statements(a) + Statements(b)
  {
    SplitAppend(a, b);
    NonBlankAppend(Split(a), Split(b));
  }

  /** A text with no `;` gives at most one statement: the trimmed text. */
  lemma StatementsWithoutSeparator(sql: string)
    requires ';' !in sql
    ensures Statements(sql) == if Trim(sql) == "" then [] else [Trim(sql)]
  {
    SplitNoSeparator(sql);
    assert [sql][1..] == [];
    assert Statements(sql) == NonBlank([sql]);
  }

  /** A non-empty, trimmed text with no `;` is one statement, itself. */
  lemma SingleStatement(st: string)
    requires IsStatement(st)
    ensures Statements(st) == [st]
  {
    StatementsWithoutSeparator(st);
    TrimTrimmed(st);
  }

  /** Statements that are non-empty, trimmed and free of `;`, joined with
      `;`, are split back into themselves. */
  lemma {:induction false} JoinStatements(stmts: seq<string>)
    requires forall i :: 0 <= i < |stmts| ==> IsStatement(stmts[i])
    ensures Statements(Join(stmts)) == stmts
  {
    if stmts == [] {
      EmptyFile();
    } else if |stmts| == 1 {
      SingleStatement(stmts[0]);
    } else {
      var tail := stmts[1..];
      JoinStatements(tail);
      JoinStatementsStep(stmts[0], Join(tail));
      JoinCons(stmts);
    }
  }

  /** Joining splits off the first piece. */
  lemma JoinCons(pieces: seq<string>)
    requires |pieces| > 1
    ensures Join(pieces) == pieces[0] + ";" + Join(pieces[1..])
    ensures pieces == [pieces[0]] + pieces[1..]
  {
  }

  /** An empty file has no statements. */
  lemma EmptyFile()
    ensures Statements(Join([])) == []
  {
    assert Split("") == [""];
    assert Trim("") == "";
  }

  /** A statement followed by `;` and more text is split off in front of
      the statements of that text. */
  lemma JoinStatementsStep(st: string, rest: string)
    requires IsStatement(st)
    ensures Statements(st + ";" + rest) == [st] + Statements(rest)
  {
    StatementsAppend(st, rest);
    SingleStatement(st);
  }

  // ---------------------------------------------------------------------------
  // Execution.

  /** The statements one after another, stopping at the first one the
      server rejects. `accepts(done, st)` is the server's answer to `st`
      after the statements `done`. `executed` is what was sent, in order;
      `ok` is false when the last of them was rejected. */
  method Execute(statements: seq<string>, accepts: (seq<string>, string) -> bool)
    returns (executed: seq<string>, ok: bool)
    ensures executed <= statements
    ensures ok ==> executed == statements
    ensures forall i :: 0 <= i < |executed| - 1 ==> accepts(executed[..i], executed[i])
    ensures ok <==> (executed == statements
                     && forall i :: 0 <= i < |executed| ==> accepts(executed[..i], executed[i]))
    ensures !ok ==> |executed| > 0 && !accepts(executed[..|executed| - 1], executed[|executed| - 1])
  {
    executed := [];
    for n := 0 to |statements|
      invariant executed == statements[..n]
      invariant forall i :: 0 <= i < n ==> accepts(executed[..i], executed[i])
    {
      var accepted := accepts(executed, statements[n]);
      ghost var sent := executed;
      executed := executed + [statements[n]];
      assert executed == statements[..n + 1];
      assert executed[..n] == sent;
      assert forall i :: 0 <= i < n ==> executed[..i] == sent[..i] && executed[i] == sent[i];
      if !accepted {
        return executed, false;
      }
    }
    ok := true;
  }

  /** The whole script: exit code 0 when every statement of the file was
      accepted, 1 when one was rejected. */
  method Migrate(schemaSql: string, accepts: (seq<string>, string) -> bool)
    returns (executed: seq<string>, exitCode: int)
    ensures executed <= Statements(schemaSql)
    ensures exitCode == 0 || exitCode == 1
    ensures exitCode == 0 <==> (executed == Statements(schemaSql)
                               && forall i :: 0 <= i < |executed| ==> accepts(executed[..i], executed[i]))
    ensures forall i :: 0 <= i < |executed| - 1 ==> accepts(executed[..i], executed[i])
    ensures exitCode == 1 ==> |executed| > 0 && !accepts(executed[..|executed| - 1], executed[|executed| - 1])
    ensures forall st :: st in executed ==> IsStatement(st)
  {
    var statements := Statements(schemaSql);
    var ok;
    executed, ok := Execute(statements, accepts);
    assert forall st :: st in executed ==> st in statements;
    exitCode := if ok then 0 else 1;
  }
}
