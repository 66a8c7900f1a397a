/** Character classes and decimal digit strings as Python's `re` and `int` see them (ASCII). */
module Text {

  predicate IsDigit(c: char) { '0' <= c <= '9' }

  predicate IsLetter(c: char) { 'A' <= c <= 'Z' || 'a' <= c <= 'z' }

  predicate AllDigits(t: string) { forall k :: 0 <= k < |t| ==> IsDigit(t[k]) }

  /** The value of one digit; other characters count as 0 (they never reach it). */
  function DigitValue(c: char): (d: nat)
    ensures d < 10
  {
    if IsDigit(c) then c as int - '0' as int else 0
  }

  function DigitChar(d: nat): (c: char)
    requires d < 10
    ensures IsDigit(c) && DigitValue(c) == d
  {
    ('0' as int + d) as char
  }

  /** The value of a string of decimal digits, most significant first. */
  function DecimalValue(t: string): nat
  {
    if t == [] then 0 else DecimalValue(t[..|t| - 1]) * 10 + DigitValue(t[|t| - 1])
  }

  /** The end of the longest run of digits in `s` that starts at `i` (greedy `\d*`). */
  function DigitRunEnd(s: string, i: nat): (r: nat)
    requires i <= |s|
    ensures i <= r <= |s|
    ensures forall k :: i <= k < r ==> IsDigit(s[k])
    ensures r == |s| || !IsDigit(s[r])
    decreases |s| - i
  {
    if i < |s| && IsDigit(s[i]) then DigitRunEnd(s, i + 1) else i
  }

  /** The end of the longest run of ASCII letters in `s` that starts at `i` (greedy `[A-Za-z]*`). */
  function LetterRunEnd(s: string, i: nat): (r: nat)
    requires i <= |s|
    ensures i <= r <= |s|
    ensures forall k :: i <= k < r ==> IsLetter(s[k])
    ensures r == |s| || !IsLetter(s[r])
    decreases |s| - i
  {
    if i < |s| && IsLetter(s[i]) then LetterRunEnd(s, i + 1) else i
  }

  /** A digit run is determined by where it stops: any stretch of digits ended by a non-digit is the run. */
  lemma DigitRunEndAt(s: string, i: nat, p: nat)
    requires i <= p <= |s|
    requires forall k :: i <= k < p ==> IsDigit(s[k])
    requires p == |s| || !IsDigit(s[p])
    ensures DigitRunEnd(s, i) == p
  {
  }

  lemma LetterRunEndAt(s: string, i: nat, p: nat)
    requires i <= p <= |s|
    requires forall k :: i <= k < p ==> IsLetter(s[k])
    requires p == |s| || !IsLetter(s[p])
    ensures LetterRunEnd(s, i) == p
  {
  }

  /** The decimal numeral of `n`, without leading zeros (Python's `str(n)`). */
  function DigitsOf(n: nat): (t: string)
    ensures |t| >= 1 && AllDigits(t)
    ensures DecimalValue(t) == n
  {
    if n < 10 then [DigitChar(n)]
    else
      var t := DigitsOf(n / 10) + [DigitChar(n % 10)];
      assert t[..|t| - 1] == DigitsOf(n / 10);
      t
  }

  lemma {:induction false} DigitsOfLength(n: nat)
    ensures n < 10 ==> |DigitsOf(n)| == 1
    ensures 10 <= n < 100 ==> |DigitsOf(n)| == 2
    ensures 100 <= n < 1000 ==> |DigitsOf(n)| == 3
    ensures 1000 <= n < 10000 ==> |DigitsOf(n)| == 4
  {
    if n >= 10 { DigitsOfLength(n / 10); }
  }

  /** Appending three digits multiplies the value by a thousand and adds theirs. */
  lemma AppendThreeDigits(x: string, a: char, b: char, c: char)
    ensures DecimalValue(x + [a, b, c]) ==
            DecimalValue(x) * 1000 + DigitValue(a) * 100 + DigitValue(b) * 10 + DigitValue(c)
  {
    var x1, x2, x3 := x + [a], x + [a, b], x + [a, b, c];
    assert x3[..|x3| - 1] == x2 && x3[|x3| - 1] == c;
    assert x2[..|x2| - 1] == x1 && x2[|x2| - 1] == b;
    assert x1[..|x1| - 1] == x && x1[|x1| - 1] == a;
    assert DecimalValue(x1) == DecimalValue(x) * 10 + DigitValue(a);
    assert DecimalValue(x2) == DecimalValue(x1) * 10 + DigitValue(b);
    assert DecimalValue(x3) == DecimalValue(x2) * 10 + DigitValue(c);
  }

  /** `re.sub(",", "", t)`. */
  function RemoveCommas(t: string): (r: string)
    ensures |r| <= |t|
    ensures forall k :: 0 <= k < |r| ==> r[k] != ','
  {
    if t == [] then []
    else if t[0] == ',' then RemoveCommas(t[1..])
    else [t[0]] + RemoveCommas(t[1..])
  }

  /** Every character other than the comma is kept, as often as it occurs; the commas are all gone. */
  lemma {:induction false} RemoveCommasKeepsTheRest(t: string)
    ensures multiset(RemoveCommas(t)) == multiset(t)[',' := 0]
  {
    if t != [] {
      assert t == [t[0]] + t[1..];
      RemoveCommasKeepsTheRest(t[1..]);
    }
  }

  lemma {:induction false} RemoveCommasAppend(a: string, b: string)
    ensures RemoveCommas(a + b) == RemoveCommas(a) + RemoveCommas(b)
  {
    if a != [] {
      assert (a + b)[1..] == a[1..] + b;
      RemoveCommasAppend(a[1..], b);
    } else {
      assert a + b == b;
    }
  }

  lemma {:induction false} RemoveCommasOfDigits(t: string)
    requires AllDigits(t)
    ensures RemoveCommas(t) == t
  {
    if t != [] { RemoveCommasOfDigits(t[1..]); }
  }

  /** `int(t)` on a string of digits followed by spaces: Python ignores the trailing whitespace. */
  function IntOfText(t: string): (n: nat)
    ensures AllDigits(t) ==> n == DecimalValue(t)
    ensures t != [] && t[|t| - 1] == ' ' && AllDigits(t[..|t| - 1]) ==> n == DecimalValue(t[..|t| - 1])
  {
    if t != [] && t[|t| - 1] == ' ' then IntOfText(t[..|t| - 1]) else DecimalValue(t)
  }

  lemma IntOfTextTrailingSpace(t: string)
    requires t != [] && t[|t| - 1] != ' '
    ensures IntOfText(t + " ") == DecimalValue(t)
  {
    assert (t + " ")[..|t|] == t;
  }
}
