/**
  The tokens of statements, and where the parser resumes after an error.
*/
module Recovery {
  import opened Values
  import opened Pratt

  // The tokens that neither begin nor continue an expression.
  const SEMICOLON := TOther(2)
  const NEWLINE := TOther(3)
  const COLON_ASSIGN := TOther(4)
  const OP_ASSIGN := TOther(5)   // any compound assignment operator
  const DOTDOTDOT := TOther(7)
  const VAR := TOther(10)
  const FOR := TOther(11)
  const SWITCH := TOther(12)
  const CASE := TOther(13)
  const DEFAULT := TOther(14)
  const FALLTHROUGH := TOther(15)
  const RETURN := TOther(16)
  const BREAK := TOther(17)
  const CONTINUE := TOther(18)
  const PASS := TOther(19)
  const DEL := TOther(20)
  const ASSERT := TOther(21)
  const TRY := TOther(22)
  const CATCH := TOther(23)
  const FINALLY := TOther(24)
  const RAISE := TOther(25)
  const GO := TOther(26)
  const SELECT := TOther(27)
  const WITH := TOther(28)
  const AS := TOther(29)
  const IMPORT := TOther(30)
  const CLASS := TOther(33)
  const EXTENDS := TOther(34)

  // ---------------------------------------------------------------------
  // Recovery
  // ---------------------------------------------------------------------

  predicate StartsAfresh(t: Token)
  {
    t == TFunc || t == CLASS || t == FOR || t == TIf || t == RETURN || t == VAR
  }

  predicate EndsLine(t: Token)
  {
    t == NEWLINE || t == SEMICOLON
  }

  /** Where the parser resumes: behind the next line end, or at a keyword that starts a statement. */
  function SkipToSync(ts: Tokens): (r: Tokens)
    ensures |r| <= |ts|
  {
    if Cur(ts) == TEof || StartsAfresh(ts[0]) then ts
    else if EndsLine(ts[0]) then ts[1..]
    else SkipToSync(ts[1..])
  }

  /** Neither the end of the input nor a place to resume at. */
  predicate Skipped(t: Token)
  {
    t != TEof && !StartsAfresh(t) && !EndsLine(t)
  }

  /** All that is skipped cannot be resumed at, but for a line end, which is skipped last. */
  lemma {:induction false} SyncPoint(ts: Tokens) returns (n: nat)
    ensures n <= |ts| && SkipToSync(ts) == ts[n..]
    ensures forall i :: 0 <= i < n - 1 ==> Skipped(ts[i])
    ensures Cur(ts[n..]) == TEof || StartsAfresh(ts[n]) || (n > 0 && EndsLine(ts[n - 1]))
    ensures n > 0 ==> Skipped(ts[n - 1]) || EndsLine(ts[n - 1])
    decreases |ts|
  {
    hide StartsAfresh, EndsLine;
    if Cur(ts) == TEof || StartsAfresh(ts[0]) {
      n := 0;
    } else if EndsLine(ts[0]) {
      n := 1;
    } else {
      var m := SyncPoint(ts[1..]);
      n := m + 1;
      assert ts[1..][m..] == ts[n..];
      forall i | 0 <= i < n - 1
        ensures Skipped(ts[i])
      {
        if i > 0 {
          assert ts[1..][i - 1] == ts[i];
        }
      }
    }
  }

  /** The same by the tokens: what is skipped, what it may stop at, and what it may stop behind. */
  lemma SyncTokens(ts: Tokens) returns (n: nat)
    ensures n <= |ts| && SkipToSync(ts) == ts[n..]
    ensures forall i :: 0 <= i < n - 1 ==> !Resumable(ts[i]) && ts[i] != NEWLINE && ts[i] != SEMICOLON
    ensures n > 0 ==> !Resumable(ts[n - 1])
    ensures Resumable(Cur(ts[n..])) || (n > 0 && (ts[n - 1] == NEWLINE || ts[n - 1] == SEMICOLON))
  {
    hide SkipToSync, Skipped;
    n := SyncPoint(ts);
    forall i | 0 <= i < n - 1 ensures !Resumable(ts[i]) && ts[i] != NEWLINE && ts[i] != SEMICOLON {
      SkippedIs(ts[i]);
    }
    if n > 0 {
      SkippedIs(ts[n - 1]);
    }
  }

  /** The end of the input, or a keyword the parser resumes at. */
  predicate Resumable(t: Token)
  {
    match t
    case TEof => true
    case TFunc => true
    case TIf => true
    case TOther(_) => t == CLASS || t == FOR || t == RETURN || t == VAR
    case _ => false
  }

  lemma SkippedIs(t: Token)
    ensures Skipped(t) <==> !Resumable(t) && t != NEWLINE && t != SEMICOLON
    ensures EndsLine(t) ==> !Resumable(t)
  {
    hide EndsLine, StartsAfresh;
    StartsIs(t);
    assert EndsLine(t) == (t == NEWLINE || t == SEMICOLON) by {
      EndsLineIs(t);
    }
  }

  lemma StartsIs(t: Token)
    ensures Resumable(t) <==> t == TEof || StartsAfresh(t)
  {
  }

  lemma EndsLineIs(t: Token)
    ensures EndsLine(t) <==> t == NEWLINE || t == SEMICOLON
  {
  }

  lemma LineEndIsNoStart(t: Token)
    requires EndsLine(t)
    ensures !StartsAfresh(t)
  {
  }
}
