/**
  Tokens and the lexer of the infix expression parser.

  A line is turned into tokens by dropping ASCII whitespace and classifying
  every remaining character: ASCII letters and digits are operands (`Atom`),
  every other character is an operator or a parenthesis (`Op`).  The lexer
  keeps the tokens as a stack whose top is the LAST element, so popping
  yields them front to back; `EOF` is only ever returned, never stored.
 */
module Tokens {

  datatype Token = Atom(c: char) | Op(c: char) | EOF

  /** The characters Rust's `char::is_ascii_whitespace` accepts:
      space, tab, line feed, form feed and carriage return (not vertical tab). */
  predicate IsAsciiWhitespace(c: char) {
    c == ' ' || c == '\t' || c == '\n' || c == '\U{000C}' || c == '\r'
  }

  /** `'0'..='9' | 'a'..='z' | 'A'..='Z'` */
  predicate IsAsciiAlphanumeric(c: char) {
    ('0' <= c <= '9') || ('a' <= c <= 'z') || ('A' <= c <= 'Z')
  }

  /** The token a non-whitespace character becomes. */
  function Classify(c: char): (t: Token)
    ensures t.Atom? <==> IsAsciiAlphanumeric(c)
    ensures t.Op? <==> !IsAsciiAlphanumeric(c)
    ensures t.c == c
  {
    if IsAsciiAlphanumeric(c) then Atom(c) else Op(c)
  }

  /** A token the lexer can store: an operand letter or digit, or an operator
      character that is neither whitespace nor alphanumeric. */
  predicate ValidToken(t: Token) {
    match t
    case Atom(c) => IsAsciiAlphanumeric(c)
    case Op(c) => !IsAsciiAlphanumeric(c) && !IsAsciiWhitespace(c)
    case EOF => false
  }

  predicate ValidTokens(ts: seq<Token>) {
    forall i :: 0 <= i < |ts| ==> ValidToken(ts[i])
  }

  /** The filter/map pipeline of the lexer: whitespace dropped, the rest classified. */
  function Tokenize(s: string): (ts: seq<Token>)
    ensures ValidTokens(ts)
    ensures |ts| <= |s|
  {
    if s == [] then []
    else if IsAsciiWhitespace(s[0]) then Tokenize(s[1..])
    else [Classify(s[0])] + Tokenize(s[1..])
  }

  /** The characters the tokens were made from (`EOF` stands for none). */
  function Chars(ts: seq<Token>): string {
    if ts == [] then []
    else if ts[0] == EOF then Chars(ts[1..])
    else [ts[0].c] + Chars(ts[1..])
  }

  /** The input with its whitespace removed. */
  function StripWhitespace(s: string): string {
    if s == [] then []
    else if IsAsciiWhitespace(s[0]) then StripWhitespace(s[1..])
    else [s[0]] + StripWhitespace(s[1..])
  }

  /** Tokenizing a concatenation is concatenating the tokenizations:
      together with `TokenizeChar` this determines the lexer completely. */
  lemma {:induction false} TokenizeAppend(a: string, b: string)
    ensures Tokenize(a + b) == Tokenize(a) + Tokenize(b)
  {
    if a == [] {
      assert a + b == b;
    } else {
      assert (a + b)[0] == a[0];
      assert (a + b)[1..] == a[1..] + b;
      TokenizeAppend(a[1..], b);
    }
  }

  /** A single character: whitespace gives no token, anything else exactly one. */
  lemma TokenizeChar(c: char)
    ensures Tokenize([c]) == if IsAsciiWhitespace(c) then [] else [Classify(c)]
  {
    assert [c][1..] == [];
  }

  /** A line of nothing but whitespace has no tokens. */
  lemma {:induction false} BlankHasNoTokens(s: string)
    requires forall i :: 0 <= i < |s| ==> IsAsciiWhitespace(s[i])
    ensures Tokenize(s) == []
  {
    if s != [] {
      assert forall i :: 0 <= i < |s[1..]| ==> s[1..][i] == s[i + 1];
      BlankHasNoTokens(s[1..]);
    }
  }

  /** Whitespace anywhere in the input has no effect on the tokens. */
  lemma WhitespaceInsensitive(a: string, w: char, b: string)
    requires IsAsciiWhitespace(w)
    ensures Tokenize(a + [w] + b) == Tokenize(a + b)
  {
    TokenizeAppend(a + [w], b);
    TokenizeAppend(a, [w]);
    TokenizeChar(w);
    TokenizeAppend(a, b);
  }

  /** Every non-whitespace character is kept, in input order, and only those. */
  lemma {:induction false} TokenizeKeepsCharacters(s: string)
    ensures Chars(Tokenize(s)) == StripWhitespace(s)
  {
    if s != [] {
      TokenizeKeepsCharacters(s[1..]);
      if !IsAsciiWhitespace(s[0]) {
        var ts := [Classify(s[0])] + Tokenize(s[1..]);
        assert ts[1..] == Tokenize(s[1..]);
      }
    }
  }

  /** The number of tokens is the number of non-whitespace characters. */
  lemma {:induction false} TokenCount(s: string)
    ensures |Tokenize(s)| == |s| - multiset(s)[' '] - multiset(s)['\t'] - multiset(s)['\n']
                             - multiset(s)['\U{000C}'] - multiset(s)['\r']
  {
    if s != [] {
      TokenCount(s[1..]);
      assert s == [s[0]] + s[1..];
      assert multiset(s) == multiset{s[0]} + multiset(s[1..]);
    }
  }

  /** The reversal of a sequence, taken from its last element. */
  function Reversed<T>(s: seq<T>): (r: seq<T>)
    ensures |r| == |s|
  {
    if s == [] then [] else [s[|s| - 1]] + Reversed(s[..|s| - 1])
  }

  lemma {:induction false} ReversedIndex<T>(s: seq<T>, k: nat)
    requires k < |s|
    ensures Reversed(s)[k] == s[|s| - 1 - k]
  {
    if k > 0 {
      ReversedIndex(s[..|s| - 1], k - 1);
    }
  }

  lemma ReversedTwice<T>(s: seq<T>)
    ensures Reversed(Reversed(s)) == s
  {
    var r := Reversed(s);
    forall k | 0 <= k < |s|
      ensures Reversed(r)[k] == s[k]
    {
      ReversedIndex(r, k);
      ReversedIndex(s, |s| - 1 - k);
    }
  }

  /** `Vec::reverse`: reverses the array in place by swapping from both ends. */
  method ReverseInPlace(a: array<Token>)
    modifies a
    ensures a[..] == Reversed(old(a[..]))
  {
    var lo, hi := 0, a.Length;
    while lo + 1 < hi
      invariant 0 <= lo <= hi <= a.Length && lo + hi == a.Length
      invariant forall k :: 0 <= k < lo ==> a[k] == old(a[a.Length - 1 - k])
      invariant forall k :: hi <= k < a.Length ==> a[k] == old(a[a.Length - 1 - k])
      invariant forall k :: lo <= k < hi ==> a[k] == old(a[k])
    {
      a[lo], a[hi - 1] := a[hi - 1], a[lo];
      lo, hi := lo + 1, hi - 1;
    }
    forall k | 0 <= k < a.Length
      ensures a[..][k] == Reversed(old(a[..]))[k]
    {
      ReversedIndex(old(a[..]), k);
    }
  }

  /** The token at the front of a front-to-back sequence, or `EOF`. */
  function Front(ts: seq<Token>): Token {
    if ts == [] then EOF else ts[0]
  }

  /** The sequence with its front token consumed (unchanged when empty). */
  function Advance(ts: seq<Token>): (r: seq<Token>)
    ensures |r| == if ts == [] then 0 else |ts| - 1
  {
    if ts == [] then ts else ts[1..]
  }

  class Lexer {
    /** The remaining tokens as a stack: the next token is the last element. */
    var tokens: seq<Token>

    /** The remaining tokens front to back. */
    ghost function Remaining(): (r: seq<Token>)
      reads this
      ensures |r| == |tokens|
    {
      Reversed(tokens)
    }

    constructor (input: string)
      ensures Remaining() == Tokenize(input)
      ensures tokens == Reversed(Tokenize(input))
    {
      var ts := Tokenize(input);
      var a := new Token[|ts|](i requires 0 <= i < |ts| => ts[i]);
      assert a[..] == ts;
      ReverseInPlace(a);
      tokens := a[..];
      ReversedTwice(ts);
    }

    /** Pops the next token, or returns `EOF` and changes nothing when empty. */
    method Next() returns (t: Token)
      modifies this
      ensures t == Front(old(Remaining()))
      ensures Remaining() == Advance(old(Remaining()))
      ensures old(tokens) == [] ==> t == EOF && tokens == []
      ensures old(tokens) != [] ==>
                t == old(tokens)[|old(tokens)| - 1] && tokens == old(tokens)[..|old(tokens)| - 1]
    {
      if tokens == [] {
        t := EOF;
      } else {
        t := tokens[|tokens| - 1];
        tokens := tokens[..|tokens| - 1];
      }
    }

    /** The token `Next` would return, without consuming it. */
    method Peek() returns (t: Token)
      ensures t == Front(Remaining())
      ensures tokens == [] ==> t == EOF
      ensures tokens != [] ==> t == tokens[|tokens| - 1]
    {
      if tokens == [] {
        t := EOF;
      } else {
        t := tokens[|tokens| - 1];
      }
    }
  }
}
