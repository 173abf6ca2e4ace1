/**
 The alternatives that may appear inside one bracketed mana symbol:
 the eight letters `R U B G W C P X` and runs of decimal digits.
 */
module Tokens {
  import opened Wrappers

  /** The letter alternatives of the grammar. */
  datatype Symbol = W | U | B | R | G | C | P | X

  /** One alternative of a group. A numeric token keeps its digit text, so
      `1` and `01` are different alternatives with the same value. */
  datatype Token = Sym(symbol: Symbol) | Num(digits: DigitString)

  /** The letter a symbol is written as. */
  function Letter(s: Symbol): char
  {
    match s
    case W => 'W'
    case U => 'U'
    case B => 'B'
    case R => 'R'
    case G => 'G'
    case C => 'C'
    case P => 'P'
    case X => 'X'
  }

  /** The letter class `[RUBGWCPX]`; upper case only. */
  function SymbolOf(ch: char): (r: Option<Symbol>)
    ensures r.Some? ==> Letter(r.value) == ch
    ensures r.None? ==> forall s: Symbol :: Letter(s) != ch
  {
    match ch
    case 'W' => Some(W)
    case 'U' => Some(U)
    case 'B' => Some(B)
    case 'R' => Some(R)
    case 'G' => Some(G)
    case 'C' => Some(C)
    case 'P' => Some(P)
    case 'X' => Some(X)
    case _ => None
  }

  predicate IsDigit(ch: char)
  {
    '0' <= ch <= '9'
  }

  /** The digit run `\d+`, restricted to ASCII digits. */
  predicate IsDigits(s: string)
  {
    |s| > 0 && forall i :: 0 <= i < |s| ==> IsDigit(s[i])
  }

  type DigitString = s: string | IsDigits(s) witness "0"

  /** One alternative of the grammar: a single letter of `[RUBGWCPX]` or a digit run. */
  predicate IsAlt(piece: string)
  {
    (|piece| == 1 && SymbolOf(piece[0]).Some?) || IsDigits(piece)
  }

  /** The text of a token inside a group. */
  function Text(t: Token): string
  {
    match t
    case Sym(s) => [Letter(s)]
    case Num(d) => d
  }

  /** Reads one alternative of a group: `None` exactly when the piece is not
      an alternative of the grammar, and otherwise the token whose text it is. */
  function ToToken(piece: string): (r: Option<Token>)
    ensures r.Some? <==> IsAlt(piece)
    ensures r.Some? ==> Text(r.value) == piece
  {
    if |piece| == 1 && SymbolOf(piece[0]).Some? then Some(Sym(SymbolOf(piece[0]).value))
    else if IsDigits(piece) then Some(Num(piece))
    else None
  }

  /** Reading the text of any token gives the token back. */
  lemma TextRoundTrip(t: Token)
    ensures ToToken(Text(t)) == Some(t)
  {
    match t
    case Sym(s) =>
      assert SymbolOf(Letter(s)) == Some(s) by { match s case W => case U => case B => case R => case G => case C => case P => case X => }
    case Num(d) =>
      assert |d| == 1 ==> IsDigit(d[0]);
  }

  /** No alternative contains the separator or the closing brace. */
  lemma AltHasNoDelimiter(piece: string)
    requires IsAlt(piece)
    ensures '/' !in piece && '}' !in piece
  {
    if '/' in piece {
      var i :| 0 <= i < |piece| && piece[i] == '/';
    }
    if '}' in piece {
      var i :| 0 <= i < |piece| && piece[i] == '}';
    }
  }

  /** The value of a decimal digit string, as `int()` reads it; the empty string reads as 0. */
  function DigitsValue(s: string): nat
    requires forall i :: 0 <= i < |s| ==> IsDigit(s[i])
  {
    if |s| == 0 then 0
    else DigitsValue(s[..|s| - 1]) * 10 + DigitValue(s[|s| - 1])
  }

  function DigitValue(ch: char): (r: nat)
    requires IsDigit(ch)
    ensures r < 10
  {
    (ch as int) - ('0' as int)
  }

  /** Leading zeros do not change the value: `int('007') == 7`. */
  lemma {:induction false} LeadingZeroValue(s: string)
    requires forall i :: 0 <= i < |s| ==> IsDigit(s[i])
    ensures DigitsValue("0" + s) == DigitsValue(s)
  {
    if |s| > 0 {
      var z := "0" + s;
      assert z[..|z| - 1] == "0" + s[..|s| - 1];
      LeadingZeroValue(s[..|s| - 1]);
    } else {
      assert ("0" + s)[..0] == "";
    }
  }

  /** A digit string's value is below 10 to the power of its length. */
  lemma {:induction false} DigitsValueBound(s: string)
    requires forall i :: 0 <= i < |s| ==> IsDigit(s[i])
    ensures DigitsValue(s) < Pow10(|s|)
  {
    if |s| > 0 {
      DigitsValueBound(s[..|s| - 1]);
    }
  }

  function Pow10(n: nat): nat
  {
    if n == 0 then 1 else 10 * Pow10(n - 1)
  }

  /** The filter of the minimum and maximum totals: `P` and `X` are not mana. */
  predicate IsMana(t: Token)
  {
    t != Sym(P) && t != Sym(X)
  }

  /** What a token is worth: a number its value (`int(token)`), any letter 1.
      It is both what a token adds to its counter key and, for tokens other
      than `P` and `X`, what it adds to the minimum and maximum totals. */
  function Weight(t: Token): nat
  {
    match t
    case Num(d) => DigitsValue(d)
    case Sym(_) => 1
  }
}
