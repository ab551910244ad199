/** The `<cctype>` classification functions in the "C" locale, over ASCII,
    and the decimal numerals the lexers produce. */
module Ascii {

  predicate IsUpper(c: char) { 'A' <= c <= 'Z' }
  predicate IsLower(c: char) { 'a' <= c <= 'z' }

  /** std::isalpha */
  predicate IsAlpha(c: char) { IsUpper(c) || IsLower(c) }

  /** std::isdigit */
  predicate IsDigit(c: char) { '0' <= c <= '9' }

  /** std::isalnum */
  predicate IsAlnum(c: char) { IsAlpha(c) || IsDigit(c) }

  /** std::isspace: space, \t, \n, \v, \f and \r */
  predicate IsSpace(c: char) {
    c == ' ' || c == '\t' || c == '\n' || c == '\U{0B}' || c == '\U{0C}' || c == '\r'
  }

  /** The longest prefix of `s` whose characters all satisfy `p`: what a
      `while (peek().has_value() && p(peek().value())) buff.push_back(consume());`
      loop collects. */
  function Span(s: string, p: char -> bool): (w: string)
    ensures w <= s
    ensures forall i :: 0 <= i < |w| ==> p(w[i])
    ensures |w| < |s| ==> !p(s[|w|])
  {
    if s == [] || !p(s[0]) then [] else [s[0]] + Span(s[1..], p)
  }

  /** Any prefix that is all-`p` and cannot be extended is the span. */
  lemma {:induction false} SpanUnique(s: string, p: char -> bool, w: string)
    requires w <= s
    requires forall i :: 0 <= i < |w| ==> p(w[i])
    requires |w| < |s| ==> !p(s[|w|])
    ensures Span(s, p) == w
  {
    if s != [] && p(s[0]) {
      assert w != [];
      assert w[1..] <= s[1..];
      SpanUnique(s[1..], p, w[1..]);
    }
  }

  /** A non-empty string of decimal digits. */
  predicate IsNumeral(s: string) {
    |s| > 0 && forall i :: 0 <= i < |s| ==> IsDigit(s[i])
  }

  /** The value of a string of decimal digits, most significant first. */
  function Decimal(s: string): nat
    requires forall i :: 0 <= i < |s| ==> IsDigit(s[i])
  {
    if s == [] then 0
    else
      assert IsDigit(s[|s| - 1]);
      10 * Decimal(s[..|s| - 1]) + (s[|s| - 1] as int - '0' as int)
  }

  /** The decimal numeral of `n` without leading zeros, as written by
      `operator<<` on an integer. */
  function ToDecimal(n: nat): (s: string)
    ensures IsNumeral(s) && Decimal(s) == n
    ensures n == 0 ==> s == "0"
    ensures n > 0 ==> s[0] != '0'
    ensures n < 10 <==> |s| == 1
  {
    if n < 10 then [('0' as int + n) as char]
    else
      var init := ToDecimal(n / 10);
      var s := init + [('0' as int + n % 10) as char];
      assert s[..|s| - 1] == init;
      s
  }
}
