# rusculator lexer, modelled in Dafny

This project models the tokenizer of `rusculator`, a small arithmetic-expression
calculator written in Rust. The tokenizer lives in `src/lexer.rs` and has two layers:

- `VecLexerString` is a cursor over an immutable byte buffer. It has a current
  position and a one-byte lookahead. Its getters return the NUL byte once a position is past the
  end. It can shift both positions by one, consume a maximal run of bytes of one
  class, skip a maximal run of ASCII whitespace, and report a "near end" condition
  (`current + 1 >= len`, that is, fewer than two unread bytes).
- `Lexer::next_token` skips whitespace and then classifies the current byte, in
  this order: digit, alphabetic, one of `+ - * /`, or anything else.
  - A digit gives a `Number` holding the maximal digit run.
  - An alphabetic byte consumes the maximal alphabetic run and returns no token.
  - An operator byte gives a one-byte `Operator` and advances by one.
  - Anything else, including the NUL sentinel, gives `LexerError`.

The test module drives the lexer with `while !eof { next_token }`. It collects
the tokens, skips the no-token results and aborts on an error.

Files:

- `lexer.dfy` (module `Lexer`) holds the data model, the byte classes and the classes
  `VecLexerString` and `Lexer`, whose methods change the cursor in place.
  - The data model is `u8`, `Token`, `LexerError` and `Result`/`Option`.
  - The byte classes are written as Rust's `u8::is_ascii_*` define them. Whitespace
    is space, tab, LF, FF and CR, without VT 0x0B.
  - The methods are proved against the pure functions `Run`, `WhitespaceEnd` and
    `TokenAt`. These functions say which bytes a call consumes and what it returns.
  - The buffer is a `const` field, so no operation can modify it.
  - Every method states both cursors after the call: `ShiftChars` adds one to both,
    and the other methods add the same amount to both. So the invariant
    `nextChar == currentChar + 1`, which the constructor establishes, is kept.
    No cursor ever moves back.
- `lexer_properties.dfy` (module `LexerProperties`) holds the branch-by-branch
  lemmas about `TokenAt`. The `...Step` lemmas go from the input bytes to the result.
  `SomeToken`, `NoToken` and `ErrorToken` go from the result back to the bytes.
- `lexer_test.dfy` (module `LexerTest`) holds the driving loop.
  - `Tokens` specifies the loop, and `Tokenize` runs it on a real `Lexer` object.
  - `ParseOperatorsAndNumbers` proves the end-to-end scenario of the Rust test.
  - Further lemmas pin down how the code behaves on edge-case inputs.

`next_token` reads the current byte once, into a local. The Rust code calls the
getter in each condition, but the getter is a pure read, so the value is the same.

### Edge cases of the code as written

The source's only test checks the end-to-end scenario. The model also pins down
what the code does at the edges:

- `WhitespaceOnlyFails`: `"  "` ends in `LexerError`. At the start, eof does not
  hold. The whitespace skip then reaches the end, and the NUL sentinel falls into
  the error branch.
- `LastByteNotTokenized` and `AlphabeticRunSkipped`: `eof` holds as soon as fewer
  than two bytes are unread (src/lexer.rs:92). So no call of `next_token` starts
  with the cursor on the last byte: `"1+2"` yields `1, +` and `"12abc+3"` yields
  `12, +`. A token at the last byte is still produced when a call starts earlier:
  `FinalRunReachesEnd` proves that `"12"` yields `12`, the test scenario ends with
  `18`, and `SkipReachesLastByte` proves that `"1 +"` yields `1, +`, because the
  second call's whitespace skip brings the cursor onto the `+`.
- `UnknownByteFails`: a byte that starts no token, such as `@` or `(`, makes the
  scan fail once a call reaches it: `"1@2"` and `"(1)"` end in `LexerError`. When
  such a byte is the last one and follows a token directly, it is never examined:
  `LastUnknownByteNotExamined` proves that `"1@"` yields `1`. No parenthesis token
  is ever produced.

## Model

| member | source | states |
|---|---|---|
| `Lexer.Token` | src/lexer.rs:4-10 | The token type: `Number` and `Operator` carry the bytes they matched; the two parenthesis variants carry nothing. |
| `Lexer.LexerError` | src/lexer.rs:22-29 | The lexer's only error, with no payload. |
| `Lexer.IsAsciiOperator` | src/lexer.rs:16-20 | A byte is an operator exactly when it is `+`, `-`, `*` or `/`. |
| `Lexer.IsAsciiDigit` | src/lexer.rs:104-105 | Rust's `u8::is_ascii_digit`: the bytes `0` to `9`. |
| `Lexer.IsAsciiAlphabetic` | src/lexer.rs:107-108 | Rust's `u8::is_ascii_alphabetic`: the bytes `A` to `Z` and `a` to `z`. |
| `Lexer.IsAsciiWhitespace` | src/lexer.rs:84 | Rust's `u8::is_ascii_whitespace`: space, tab, LF, FF and CR, not VT. |
| `Lexer.ByteClassesDisjoint` | src/lexer.rs:84-115 | No byte is in two of the four classes `next_token` tests, and NUL is in none. So the order of the tests does not matter, and the sentinel past the end starts no token. |
| `Lexer.Run` | src/lexer.rs:73-80 | The run that starts at position i takes its bytes in order from the buffer, and every one of them satisfies the class. The byte just after it fails the class, or is the NUL sentinel past the end. So the run is the maximal run, possibly empty. |
| `Lexer.RunUnique` | src/lexer.rs:73-80 | Any sequence that is a prefix of the buffer from i, whose bytes all satisfy the class, and that is followed by a failing byte or NUL, equals `Run`. So the consumed run is fully determined. |
| `Lexer.RunEnds` | src/lexer.rs:82-89 | If every byte in [i, j) satisfies the class and the byte at j (or NUL) fails it, the maximal run from i ends exactly at j. |
| `Lexer.WhitespaceEnd` | src/lexer.rs:82-89 | The whitespace skip ends at or after i. Every skipped byte lies inside the buffer and is ASCII whitespace. The byte where it stops (or NUL) is not whitespace. |
| `Lexer.TokenAt` | src/lexer.rs:100-117 | One `next_token` call never moves the cursor back. A call that succeeds moves it strictly forward and never past the end of the buffer. |
| `Lexer.VecLexerString.constructor` | src/lexer.rs:127-131 | The buffer is the input, `current_char` is 0 and `next_char` is 1, so the lookahead invariant holds from the start. |
| `Lexer.VecLexerString.GetNextChar` | src/lexer.rs:54-59 | Returns the byte at `next_char` when that is inside the buffer, and NUL otherwise. |
| `Lexer.VecLexerString.GetCurrentChar` | src/lexer.rs:61-66 | Returns the byte at `current_char` when that is inside the buffer, and NUL otherwise. |
| `Lexer.VecLexerString.ShiftChars` | src/lexer.rs:68-71 | Both cursors move up by exactly one. The buffer is unchanged. |
| `Lexer.VecLexerString.ConsumeCharType` | src/lexer.rs:73-80 | Returns exactly `Run` from the old cursor and moves both cursors forward by its length. Afterwards the current byte fails the class. |
| `Lexer.VecLexerString.SkipWhitespace` | src/lexer.rs:82-89 | Moves `current_char` to `WhitespaceEnd` of the old cursor and `next_char` forward by the same distance. Returns true iff it skipped at least one byte. Afterwards the current byte is not whitespace. |
| `Lexer.VecLexerString.Eof` | src/lexer.rs:91-93 | Holds iff `current_char + 1 >= len`. Under the lookahead invariant, that is iff the lookahead is past the end. |
| `Lexer.Lexer.constructor` | src/lexer.rs:124-134 | A newly allocated character source over the input, with its cursors at 0 and 1, so the lookahead invariant holds. |
| `Lexer.Lexer.NextToken` | src/lexer.rs:100-117 | Returns `TokenAt` of the old cursor and leaves the cursor where `TokenAt` says. The distance between the two cursors is kept. |
| `Lexer.Lexer.Eof` | src/lexer.rs:119-121 | Agrees with the character source's `eof`: holds iff `current_char + 1 >= len`. |
| `LexerProperties.NumberStep` | src/lexer.rs:104-106 | If whitespace spans [i, j) and a maximal digit run spans [j, k), the call returns `Ok(Some(Number(s[j..k])))` and leaves the cursor at k. |
| `LexerProperties.WordStep` | src/lexer.rs:107-108 | If whitespace spans [i, j) and a maximal alphabetic run spans [j, k), the call returns `Ok(None)` and leaves the cursor at k. |
| `LexerProperties.OperatorStep` | src/lexer.rs:109-112 | If whitespace spans [i, j) and byte j is one of `+ - * /`, the call returns `Ok(Some(Operator([s[j]])))` and the cursor ends at j + 1. |
| `LexerProperties.ErrorStep` | src/lexer.rs:113-115 | If whitespace spans [i, j) and the byte at j (or NUL past the end) starts no token, the call returns `Err`, having skipped only the whitespace. |
| `LexerProperties.SomeToken` | src/lexer.rs:104-112 | Any token the call returns is either a non-empty, all-digit, maximal `Number` equal to the bytes consumed, or a one-byte `Operator` holding an operator byte, with the cursor advanced by one. `OpenParenthesis` and `ClosedParenthesis` are never returned. |
| `LexerProperties.NoToken` | src/lexer.rs:107-108 | The call returns `Ok(None)` iff the first non-whitespace byte is alphabetic. The cursor then ends just past the maximal alphabetic run, strictly after where it started. |
| `LexerProperties.ErrorToken` | src/lexer.rs:113-115 | The call fails iff the first non-whitespace byte is neither a digit, nor alphabetic, nor an operator. That includes NUL at the end and bytes such as `(`, `)` and `@`. The cursor then stops after the whitespace. |
| `LexerTest.Tokens` | src/lexer.rs:145-151 | The reference definition of the loop from a cursor: nothing once eof holds; otherwise the first error, or the token of this call (if any) followed by the tokens from the cursor it leaves. |
| `LexerTest.Tokenize` | src/lexer.rs:145-151 | The loop on a fresh `Lexer` returns exactly `Tokens(input, 0)`: the collected tokens in order, or the first error. |
| `LexerTest.TokensProduced` | src/lexer.rs:145-151 | Every token the loop collects is a non-empty digit run or a single operator byte. No parenthesis token is ever collected. |
| `LexerTest.TokensMaximalFrom` | src/lexer.rs:145-151 | From any cursor where no digit run can be entered halfway, every `Number` the loop collects is a run of the input with no digit directly before or after it. |
| `LexerTest.TokensMaximal` | src/lexer.rs:145-151 | Over the whole input, every collected token is a non-empty digit run or one operator byte, and every `Number` equals some maximal digit run of the input, a run of digits with no digit directly before or after it. |
| `LexerTest.Scenario` | src/lexer.rs:153-165 | On the bytes of `"124 + 238 +/34 -18"`, the loop yields the eight expected tokens, given as bytes. |
| `LexerTest.ParseOperatorsAndNumbers` | src/lexer.rs:141-166 | The Rust test's scenario: `"124 + 238 +/34 -18"` yields `Number("124")`, `Operator("+")`, `Number("238")`, `Operator("+")`, `Operator("/")`, `Number("34")`, `Operator("-")`, `Number("18")`. |
| `LexerTest.ShortInput` | src/lexer.rs:91-93 | A lexer over an empty or one-byte input is already at eof, so the loop yields no tokens. |
| `LexerTest.WhitespaceOnlyFails` | src/lexer.rs:82-93 | `"  "` ends in `LexerError`: eof is false at first, and after the skip only the NUL sentinel is left to classify. |
| `LexerTest.LastByteNotTokenized` | src/lexer.rs:91-93 | `"1+2"` yields only `Number("1")` and `Operator("+")`, because eof already holds on the last byte. |
| `LexerTest.AlphabeticRunSkipped` | src/lexer.rs:107-108 | `"12abc+3"` yields `Number("12")` and `Operator("+")`. The alphabetic run produces neither a token nor an error. |
| `LexerTest.FinalRunReachesEnd` | src/lexer.rs:91-93 | `"12"` yields `Number("12")`: a token that starts before the last byte still consumes it. |
| `LexerTest.UnknownByteFails` | src/lexer.rs:113-115 | `"1@2"` and `"(1)"` both end in `LexerError`. |
| `LexerTest.SkipReachesLastByte` | src/lexer.rs:82-93 | `"1 +"` yields `Number("1")` and `Operator("+")`: eof does not hold after `1`, and the next call's whitespace skip reaches the last byte. |
| `LexerTest.LastUnknownByteNotExamined` | src/lexer.rs:91-93 | `"1@"` yields `Number("1")` without error: eof holds on the `@`, so it is never classified. |

## Left out

- The `Display` and `Error` implementations of `LexerError` (src/lexer.rs:31-36): they only format a message. `LexerError` is a payload-free value.
- The `LexerString` trait (src/lexer.rs:38-45): it has only one implementation, so `Lexer` holds a `VecLexerString` directly instead of being generic over the trait.
- `Vec::<u8>::from(&str)` (src/lexer.rs:128): the lexer takes its input as bytes. `LexerTest.Ascii` converts the ASCII test strings and covers nothing beyond ASCII.
- `println!` and `panic!` in the test (src/lexer.rs:147, 152): output and test plumbing. The loop returns an error result where the test panics.
- `usize` arithmetic: the cursors are unbounded naturals. Overflow of `current_char += 1` or of `current_char + 1` in `eof` is not modelled; it would take more than 2^64 shifts.
- `Lexer.VecLexerString.ConsumeCharType` requires the byte class to be false on NUL. Without that, the Rust loop would never end once it passed the end of the buffer. The only two classes passed in, digits and letters (src/lexer.rs:105, 108), meet this requirement.
