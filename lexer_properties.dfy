/** What one call of next_token returns and where it leaves the cursor,
    branch by branch, in both directions: from the bytes to the result
    (the ...Step lemmas) and from the result back to the bytes. */
module LexerProperties {
  import opened Lexer

  /** A token next_token can produce: a non-empty run of digits or a single operator byte. */
  predicate Produced(t: Token) {
    || (t.Number? && t.digits != [] && forall b :: b in t.digits ==> IsAsciiDigit(b))
    || (t.Operator? && |t.symbol| == 1 && IsAsciiOperator(t.symbol[0]))
  }

  /** If the bytes i..j are whitespace and j..k a maximal run of digits, next_token
      returns Number(s[j..k]) and leaves the cursor at k. */
  lemma NumberStep(s: seq<u8>, i: nat, j: nat, k: nat)
    requires i <= j < k <= |s|
    requires forall m :: i <= m < j ==> IsAsciiWhitespace(CharAt(s, m))
    requires forall m :: j <= m < k ==> IsAsciiDigit(CharAt(s, m))
    requires !IsAsciiDigit(CharAt(s, k))
    ensures TokenAt(s, i) == (Ok(Some(Number(s[j..k]))), k)
  {
    RunEnds(s, i, j, IsAsciiWhitespace);
    var d := s[j..k];
    forall m | 0 <= m < |d| ensures d[m] == CharAt(s, j + m) && IsAsciiDigit(d[m]) {
      assert j <= j + m < k;
    }
    RunUnique(s, j, IsAsciiDigit, d);
  }

  /** If the bytes i..j are whitespace and j..k a maximal alphabetic run, next_token
      returns no token and leaves the cursor at k. */
  lemma WordStep(s: seq<u8>, i: nat, j: nat, k: nat)
    requires i <= j < k <= |s|
    requires forall m :: i <= m < j ==> IsAsciiWhitespace(CharAt(s, m))
    requires forall m :: j <= m < k ==> IsAsciiAlphabetic(CharAt(s, m))
    requires !IsAsciiAlphabetic(CharAt(s, k))
    ensures TokenAt(s, i) == (Ok(None), k)
  {
    RunEnds(s, i, j, IsAsciiWhitespace);
    RunEnds(s, j, k, IsAsciiAlphabetic);
  }

  /** If the bytes i..j are whitespace and byte j is an operator, next_token
      returns Operator([s[j]]) and leaves the cursor at j + 1. */
  lemma OperatorStep(s: seq<u8>, i: nat, j: nat)
    requires i <= j < |s|
    requires forall m :: i <= m < j ==> IsAsciiWhitespace(CharAt(s, m))
    requires IsAsciiOperator(s[j])
    ensures TokenAt(s, i) == (Ok(Some(Operator([s[j]]))), j + 1)
  {
    RunEnds(s, i, j, IsAsciiWhitespace);
  }

  /** If the bytes i..j are whitespace and the byte at j (or the NUL past the end)
      starts no token, next_token fails and leaves the cursor at j. */
  lemma ErrorStep(s: seq<u8>, i: nat, j: nat)
    requires i <= j
    requires forall m :: i <= m < j ==> IsAsciiWhitespace(CharAt(s, m))
    requires var c := CharAt(s, j);
      !IsAsciiWhitespace(c) && !IsAsciiDigit(c) && !IsAsciiAlphabetic(c) && !IsAsciiOperator(c)
    ensures TokenAt(s, i) == (Err(LexerError), j)
  {
    RunEnds(s, i, j, IsAsciiWhitespace);
  }

  /** A Some result is either the maximal digit run at the first non-whitespace
      byte, or the operator byte found there; nothing else (no parenthesis) is produced. */
  lemma SomeToken(s: seq<u8>, i: nat)
    requires TokenAt(s, i).0.Ok? && TokenAt(s, i).0.value.Some?
    ensures var (r, k) := TokenAt(s, i);
      var j := WhitespaceEnd(s, i);
      var t := r.value.value;
      Produced(t) && j < k <= |s| &&
      (t.Number? ==> t.digits == s[j..k] && !IsAsciiDigit(CharAt(s, k))) &&
      (t.Operator? ==> t.symbol == [s[j]] && k == j + 1)
  {
    var j := WhitespaceEnd(s, i);
    if IsAsciiDigit(CharAt(s, j)) {
      var d := Run(s, j, IsAsciiDigit);
      assert d == s[j..j + |d|];
      assert forall b :: b in d ==> IsAsciiDigit(b);
    }
  }

  /** next_token returns no token exactly when the first non-whitespace byte is
      alphabetic; the cursor then stands just past the maximal alphabetic run. */
  lemma NoToken(s: seq<u8>, i: nat)
    ensures var (r, k) := TokenAt(s, i);
      var j := WhitespaceEnd(s, i);
      (r == Ok(None) <==> IsAsciiAlphabetic(CharAt(s, j))) &&
      (r == Ok(None) ==>
        j < k <= |s| && !IsAsciiAlphabetic(CharAt(s, k)) &&
        forall m :: j <= m < k ==> IsAsciiAlphabetic(s[m]))
  {
    var j := WhitespaceEnd(s, i);
    if IsAsciiAlphabetic(CharAt(s, j)) {
      var w := Run(s, j, IsAsciiAlphabetic);
      forall m | j <= m < j + |w| ensures IsAsciiAlphabetic(s[m]) {
        assert s[j + (m - j)] == w[m - j];
      }
    }
  }

  /** next_token fails exactly when the first non-whitespace byte (NUL past the
      end) is neither a digit, nor alphabetic, nor an operator; it then only
      skips the whitespace. */
  lemma ErrorToken(s: seq<u8>, i: nat)
    ensures var (r, k) := TokenAt(s, i);
      var c := CharAt(s, WhitespaceEnd(s, i));
      (r.Err? <==> !IsAsciiDigit(c) && !IsAsciiAlphabetic(c) && !IsAsciiOperator(c)) &&
      (r.Err? ==> k == WhitespaceEnd(s, i))
  {
  }
}
