/** A byte-level tokenizer for arithmetic expressions: a cursor over an
    immutable byte buffer (VecLexerString) and a tokenizer on top of it (Lexer). */
module Lexer {

  /** An unsigned 8-bit byte. */
  newtype u8 = b: int | 0 <= b < 256

  /** The sentinel the getters return once a cursor is past the end of the buffer. */
  const NUL: u8 := 0

  /** A lexical token; Number and Operator carry the exact bytes they matched. */
  datatype Token =
    | Number(digits: seq<u8>)
    | Operator(symbol: seq<u8>)
    | OpenParenthesis
    | ClosedParenthesis

  /** The single, payload-free lexer error. */
  datatype LexerError = LexerError

  datatype Option<T> = None | Some(value: T)

  datatype Result<T> = Ok(value: T) | Err(error: LexerError)

  // The byte classes, as Rust's u8 methods define them.

  /** '0'..='9' */
  predicate IsAsciiDigit(c: u8) {
    0x30 <= c <= 0x39
  }

  /** 'A'..='Z' and 'a'..='z' */
  predicate IsAsciiAlphabetic(c: u8) {
    0x41 <= c <= 0x5A || 0x61 <= c <= 0x7A
  }

  /** Space, horizontal tab, line feed, form feed and carriage return; not the vertical tab 0x0B. */
  predicate IsAsciiWhitespace(c: u8) {
    c == 0x20 || c == 0x09 || c == 0x0A || c == 0x0C || c == 0x0D
  }

  /** '+', '-', '*' and '/' */
  predicate IsAsciiOperator(c: u8) {
    c == 0x2B || c == 0x2D || c == 0x2A || c == 0x2F
  }

  /** The four classes next_token tests are pairwise disjoint and none holds of NUL,
      so the order of its tests decides nothing and the sentinel starts no token. */
  lemma ByteClassesDisjoint(c: u8)
    ensures !IsAsciiDigit(NUL) && !IsAsciiAlphabetic(NUL) && !IsAsciiWhitespace(NUL) && !IsAsciiOperator(NUL)
    ensures IsAsciiDigit(c) ==> !IsAsciiAlphabetic(c) && !IsAsciiWhitespace(c) && !IsAsciiOperator(c)
    ensures IsAsciiAlphabetic(c) ==> !IsAsciiWhitespace(c) && !IsAsciiOperator(c)
    ensures IsAsciiWhitespace(c) ==> !IsAsciiOperator(c)
  {
  }

  /** The byte at position i of s, or NUL once i is past the end. */
  function CharAt(s: seq<u8>, i: nat): u8 {
    if i < |s| then s[i] else NUL
  }

  /** The maximal run of bytes satisfying p that starts at position i of s
      (possibly empty). p must be false on NUL, which is what stops the
      scan at the end of the buffer. */
  function Run(s: seq<u8>, i: nat, p: u8 -> bool): (r: seq<u8>)
    requires !p(NUL)
    ensures forall k {:trigger r[k]} :: 0 <= k < |r| ==> i + k < |s| && s[i + k] == r[k] && p(r[k])
    ensures r != [] ==> i + |r| <= |s|
    ensures !p(CharAt(s, i + |r|))
    decreases |s| - i
  {
    if p(CharAt(s, i)) then [CharAt(s, i)] + Run(s, i + 1, p) else []
  }

  /** Run is the only maximal run: any r that is a prefix of s[i..], whose
      bytes all satisfy p and that is followed by a byte (or NUL) failing p, is it. */
  lemma {:induction false} RunUnique(s: seq<u8>, i: nat, p: u8 -> bool, r: seq<u8>)
    requires !p(NUL)
    requires forall k :: 0 <= k < |r| ==> r[k] == CharAt(s, i + k) && p(r[k])
    requires !p(CharAt(s, i + |r|))
    ensures r == Run(s, i, p)
    decreases |r|
  {
    if r != [] {
      assert r[0] == CharAt(s, i + 0) && p(r[0]);
      forall k | 0 <= k < |r[1..]|
        ensures r[1..][k] == CharAt(s, i + 1 + k) && p(r[1..][k])
      {
        assert r[1..][k] == r[k + 1];
        assert i + (k + 1) == i + 1 + k;
      }
      RunUnique(s, i + 1, p, r[1..]);
    }
  }

  /** The maximal run of p-bytes starting at i ends at the first j whose byte (or NUL) fails p. */
  lemma {:induction false} RunEnds(s: seq<u8>, i: nat, j: nat, p: u8 -> bool)
    requires !p(NUL) && i <= j
    requires forall k :: i <= k < j ==> p(CharAt(s, k))
    requires !p(CharAt(s, j))
    ensures i + |Run(s, i, p)| == j
    decreases j - i
  {
    if i < j {
      RunEnds(s, i + 1, j, p);
    }
  }

  /** Where the maximal run of ASCII whitespace starting at position i of s ends. */
  function WhitespaceEnd(s: seq<u8>, i: nat): (j: nat)
    ensures i <= j
    ensures forall k :: i <= k < j ==> k < |s| && IsAsciiWhitespace(s[k])
    ensures !IsAsciiWhitespace(CharAt(s, j))
  {
    var r := Run(s, i, IsAsciiWhitespace);
    assert forall k :: i <= k < i + |r| ==> k < |s| && IsAsciiWhitespace(s[k]) by {
      forall k | i <= k < i + |r| ensures k < |s| && IsAsciiWhitespace(s[k]) {
        assert s[i + (k - i)] == r[k - i];
      }
    }
    i + |r|
  }

  /** What one call of next_token does from cursor i: the result it returns
      and the cursor it leaves behind. */
  function TokenAt(s: seq<u8>, i: nat): (r: (Result<Option<Token>>, nat))
    ensures i <= r.1
    ensures r.0.Ok? ==> i < r.1 <= |s|
  {
    var j := WhitespaceEnd(s, i);
    var c := CharAt(s, j);
    if IsAsciiDigit(c) then
      var digits := Run(s, j, IsAsciiDigit);
      (Ok(Some(Number(digits))), j + |digits|)
    else if IsAsciiAlphabetic(c) then
      (Ok(None), j + |Run(s, j, IsAsciiAlphabetic)|)
    else if IsAsciiOperator(c) then
      (Ok(Some(Operator([c]))), j + 1)
    else
      (Err(LexerError), j)
  }

  /** A cursor over an immutable byte buffer; nextChar is the one-byte lookahead. */
  class VecLexerString {
    const bytes: seq<u8>
    var currentChar: nat
    var nextChar: nat

    /** The lookahead is always one past the current byte. */
    ghost predicate Valid()
      reads this
    {
      nextChar == currentChar + 1
    }

    constructor (input: seq<u8>)
      ensures bytes == input && currentChar == 0 && nextChar == 1
      ensures Valid()
    {
      bytes := input;
      currentChar := 0;
      nextChar := 1;
    }

    function GetNextChar(): (c: u8)
      reads this
      ensures nextChar < |bytes| ==> c == bytes[nextChar]
      ensures |bytes| <= nextChar ==> c == NUL
    {
      CharAt(bytes, nextChar)
    }

    function GetCurrentChar(): (c: u8)
      reads this
      ensures currentChar < |bytes| ==> c == bytes[currentChar]
      ensures |bytes| <= currentChar ==> c == NUL
    {
      CharAt(bytes, currentChar)
    }

    method ShiftChars()
      modifies this
      ensures currentChar == old(currentChar) + 1
      ensures nextChar == old(nextChar) + 1
    {
      currentChar := currentChar + 1;
      nextChar := nextChar + 1;
    }

    /** Consumes and returns the maximal run of bytes satisfying charType. */
    method ConsumeCharType(charType: u8 -> bool) returns (content: seq<u8>)
      requires !charType(NUL)
      modifies this
      ensures content == Run(bytes, old(currentChar), charType)
      ensures currentChar == old(currentChar) + |content|
      ensures nextChar == old(nextChar) + |content|
      ensures !charType(GetCurrentChar())
    {
      content := [];
      while charType(GetCurrentChar())
        invariant currentChar == old(currentChar) + |content|
        invariant nextChar == old(nextChar) + |content|
        invariant forall k :: 0 <= k < |content| ==>
          content[k] == CharAt(bytes, old(currentChar) + k) && charType(content[k])
        decreases |bytes| - currentChar
      {
        content := content + [GetCurrentChar()];
        ShiftChars();
      }
      RunUnique(bytes, old(currentChar), charType, content);
    }

    /** Skips the maximal run of ASCII whitespace; says whether it skipped any. */
    method SkipWhitespace() returns (skipped: bool)
      modifies this
      ensures currentChar == WhitespaceEnd(bytes, old(currentChar))
      ensures nextChar == old(nextChar) + (currentChar - old(currentChar))
      ensures skipped <==> old(currentChar) < currentChar
      ensures !IsAsciiWhitespace(GetCurrentChar())
    {
      skipped := false;
      while IsAsciiWhitespace(GetCurrentChar())
        invariant old(currentChar) <= currentChar
        invariant nextChar - currentChar == old(nextChar) - old(currentChar)
        invariant skipped <==> old(currentChar) < currentChar
        invariant forall k :: old(currentChar) <= k < currentChar ==> IsAsciiWhitespace(CharAt(bytes, k))
        decreases |bytes| - currentChar
      {
        skipped := true;
        ShiftChars();
      }
      RunEnds(bytes, old(currentChar), currentChar, IsAsciiWhitespace);
    }

    /** Fewer than two unread bytes remain. */
    function Eof(): (r: bool)
      reads this
      ensures r <==> |bytes| <= currentChar + 1
      ensures Valid() ==> (r <==> |bytes| <= nextChar)
    {
      currentChar + 1 >= |bytes|
    }
  }

  /** The tokenizer; it owns its character source exclusively. */
  class Lexer {
    const source: VecLexerString

    constructor (input: seq<u8>)
      ensures fresh(source)
      ensures source.bytes == input && source.currentChar == 0 && source.nextChar == 1
      ensures source.Valid()
    {
      source := new VecLexerString(input);
    }

    /** Skips whitespace, then classifies the current byte. */
    method NextToken() returns (r: Result<Option<Token>>)
      modifies source
      ensures r == TokenAt(source.bytes, old(source.currentChar)).0
      ensures source.currentChar == TokenAt(source.bytes, old(source.currentChar)).1
      ensures source.nextChar - source.currentChar == old(source.nextChar) - old(source.currentChar)
    {
      var _ := source.SkipWhitespace();
      var c := source.GetCurrentChar();
      var content: seq<u8> := [];
      var token: Option<Token> := None;
      if IsAsciiDigit(c) {
        var run := source.ConsumeCharType(IsAsciiDigit);
        content := content + run;
        assert content == run;
        token := Some(Number(content));
      } else if IsAsciiAlphabetic(c) {
        var run := source.ConsumeCharType(IsAsciiAlphabetic);
        content := content + run;
      } else if IsAsciiOperator(c) {
        content := content + [c];
        assert content == [c];
        token := Some(Operator(content));
        source.ShiftChars();
      } else {
        return Err(LexerError);
      }
      r := Ok(token);
    }

    function Eof(): (r: bool)
      reads source
      ensures r == source.Eof()
      ensures r <==> |source.bytes| <= source.currentChar + 1
    {
      source.Eof()
    }
  }
}
