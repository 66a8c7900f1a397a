/**
 * The price pattern `\d{1,3}(?:,\d{3})* (?=NP)` of the extraction code, as `re.findall(...)[0]`
 * applies it: the leftmost match wins, and its text (digits, commas and the trailing space) is
 * turned into an integer by dropping the commas and calling `int`.
 *
 * At a fixed start position the pattern can succeed in at most one way: the digits and commas
 * it consumes must be followed by a space, so backtracking to fewer digits or fewer groups
 * never helps. The greedy matcher below is proved to find exactly that match.
 */
module PricePattern {
  import opened Results
  import opened Text

  /** A match position: the text `findall` returns is `s[start..end + 1]`, the digits end at `end`. */
  datatype Span = Span(start: nat, end: nat)

  /** `s[j..e]` is a (possibly empty) sequence of `,ddd` groups. */
  ghost predicate GroupsFrom(s: string, j: nat, e: nat)
    decreases e - j
  {
    j <= e <= |s| &&
    (j == e ||
     (j + 4 <= e && s[j] == ',' && IsDigit(s[j + 1]) && IsDigit(s[j + 2]) && IsDigit(s[j + 3]) &&
      GroupsFrom(s, j + 4, e)))
  }

  /** `s[i..e]` is `k` digits followed by `,ddd` groups. */
  ghost predicate LeadThenGroups(s: string, i: nat, k: nat, e: nat)
  {
    i + k <= |s| && (forall m :: i <= m < i + k ==> IsDigit(s[m])) && GroupsFrom(s, i + k, e)
  }

  /** The pattern matches at `i` with its digits ending at `e`: 1-3 digits, `,ddd` groups, a space, then "NP". */
  ghost predicate PriceMatchAt(s: string, i: nat, e: nat)
  {
    e + 3 <= |s| && s[e] == ' ' && s[e + 1] == 'N' && s[e + 2] == 'P' &&
    (LeadThenGroups(s, i, 1, e) || LeadThenGroups(s, i, 2, e) || LeadThenGroups(s, i, 3, e))
  }

  /** Greedy `(?:,\d{3})*` from `j`. */
  function GroupsEnd(s: string, j: nat): (r: nat)
    requires j <= |s|
    ensures j <= r <= |s| && GroupsFrom(s, j, r)
    decreases |s| - j
  {
    if j + 4 <= |s| && s[j] == ',' && IsDigit(s[j + 1]) && IsDigit(s[j + 2]) && IsDigit(s[j + 3])
    then GroupsEnd(s, j + 4)
    else j
  }

  lemma {:induction false} GroupsEndAt(s: string, j: nat, e: nat)
    requires GroupsFrom(s, j, e) && e < |s| && s[e] == ' '
    ensures GroupsEnd(s, j) == e
    decreases e - j
  {
    if j < e { GroupsEndAt(s, j + 4, e); }
  }

  /** Whatever match exists at `i` is the one the greedy steps reach. */
  lemma PriceMatchIsGreedy(s: string, i: nat)
    requires i <= |s|
    ensures forall e: nat :: PriceMatchAt(s, i, e) ==>
      var d := DigitRunEnd(s, i);
      d > i && GroupsEnd(s, i + (if d - i < 3 then d - i else 3)) == e
  {
    forall e: nat | PriceMatchAt(s, i, e)
      ensures var d := DigitRunEnd(s, i);
              d > i && GroupsEnd(s, i + (if d - i < 3 then d - i else 3)) == e
    {
      var k := if LeadThenGroups(s, i, 1, e) then 1 else if LeadThenGroups(s, i, 2, e) then 2 else 3;
      assert LeadThenGroups(s, i, k, e);
      assert s[i + k] == ' ' || s[i + k] == ',';
      DigitRunEndAt(s, i, i + k);
      GroupsEndAt(s, i + k, e);
    }
  }

  /** The pattern tried at position `i` only, as the regex engine does before moving on. */
  function MatchPriceAt(s: string, i: nat): (r: Option<nat>)
    requires i <= |s|
    ensures r.Some? ==> PriceMatchAt(s, i, r.value)
    ensures forall e: nat :: PriceMatchAt(s, i, e) ==> r == Some(e)
  {
    PriceMatchIsGreedy(s, i);
    var d := DigitRunEnd(s, i);
    if d == i then None
    else
      var k := if d - i < 3 then d - i else 3;
      var e := GroupsEnd(s, i + k);
      if e + 3 <= |s| && s[e] == ' ' && s[e + 1] == 'N' && s[e + 2] == 'P' then Some(e) else None
  }

  /** The scan of `re.findall` from position `i`: the first position where the pattern matches. */
  function FindPriceFrom(s: string, i: nat): (r: Option<Span>)
    requires i <= |s|
    ensures r.Some? ==> i <= r.value.start && PriceMatchAt(s, r.value.start, r.value.end)
    ensures r.Some? ==> forall j: nat, e: nat :: i <= j < r.value.start ==> !PriceMatchAt(s, j, e)
    ensures r.None? ==> forall j: nat, e: nat :: i <= j ==> !PriceMatchAt(s, j, e)
    decreases |s| - i
  {
    if i == |s| then None
    else
      match MatchPriceAt(s, i)
      case Some(e) => Some(Span(i, e))
      case None => FindPriceFrom(s, i + 1)
  }

  /** The leftmost match of the price pattern in `s`, if any. */
  function FindPrice(s: string): (r: Option<Span>)
    ensures r.Some? ==> PriceMatchAt(s, r.value.start, r.value.end)
    ensures r.Some? ==> forall j: nat, e: nat :: j < r.value.start ==> !PriceMatchAt(s, j, e)
    ensures r.None? <==> forall j: nat, e: nat :: !PriceMatchAt(s, j, e)
  {
    FindPriceFrom(s, 0)
  }

  /**
   * The raw amount in NP: `int(re.sub(",", "", re.findall(pattern, s)[0]))`, or None where
   * indexing the empty match list raises IndexError.
   */
  function RawPrice(s: string): (r: Option<nat>)
    ensures r.None? <==> forall j: nat, e: nat :: !PriceMatchAt(s, j, e)
  {
    match FindPrice(s)
    case None => None
    case Some(sp) => Some(IntOfText(RemoveCommas(s[sp.start..sp.end + 1])))
  }

  /** The series unit: thousands of NP (`int(...) / 1000`, as an exact rational). */
  function Thousands(raw: nat): (p: real)
    ensures p * 1000.0 == raw as real
  {
    raw as real / 1000.0
  }

  /** The raw amount is the leftmost match's digits read as a decimal number, commas and space dropped. */
  lemma RawPriceOfLeftmostMatch(s: string)
    requires FindPrice(s).Some?
    ensures var sp := FindPrice(s).value;
            RawPrice(s) == Some(DecimalValue(RemoveCommas(s[sp.start..sp.end])))
  {
    var sp := FindPrice(s).value;
    MatchEndsInDigit(s, sp.start, sp.end);
    assert s[sp.start..sp.end + 1] == s[sp.start..sp.end] + " ";
    IntOfMatchText(s[sp.start..sp.end]);
  }

  lemma MatchEndsInDigit(s: string, i: nat, e: nat)
    requires PriceMatchAt(s, i, e)
    ensures i < e && IsDigit(s[e - 1])
  {
    var k := if LeadThenGroups(s, i, 1, e) then 1 else if LeadThenGroups(s, i, 2, e) then 2 else 3;
    assert LeadThenGroups(s, i, k, e);
    if e != i + k { LastGroupDigit(s, i + k, e); }
  }

  /** `int` ignores the space that ends the match text. */
  lemma IntOfMatchText(t: string)
    requires |t| > 0 && IsDigit(t[|t| - 1])
    ensures IntOfText(RemoveCommas(t + " ")) == DecimalValue(RemoveCommas(t))
  {
    var last := t[|t| - 1];
    var init := t[..|t| - 1];
    assert t == init + [last];
    RemoveCommasAppend(init, [last]);
    assert RemoveCommas([last]) == [last];
    var u := RemoveCommas(t);
    assert u == RemoveCommas(init) + [last];
    assert u != [] && u[|u| - 1] == last;
    RemoveCommasAppend(t, " ");
    assert RemoveCommas(" ") == " ";
    assert RemoveCommas(t + " ") == u + " ";
    IntOfTextTrailingSpace(u);
  }

  lemma {:induction false} LastGroupDigit(s: string, j: nat, e: nat)
    requires GroupsFrom(s, j, e) && j < e
    ensures IsDigit(s[e - 1])
    decreases e - j
  {
    if j + 4 < e { LastGroupDigit(s, j + 4, e); }
  }

  /** `n` written with a comma between each group of three digits, as the price pages show it. */
  function Grouping(n: nat): (t: string)
    ensures |t| >= 1
  {
    if n < 1000 then DigitsOf(n)
    else Grouping(n / 1000) + [',', DigitChar(n % 1000 / 100), DigitChar(n % 1000 % 100 / 10), DigitChar(n % 1000 % 100 % 10)]
  }

  lemma {:induction false} GroupsExtend(s: string, j: nat, e: nat)
    requires GroupsFrom(s, j, e)
    requires e + 4 <= |s| && s[e] == ',' && IsDigit(s[e + 1]) && IsDigit(s[e + 2]) && IsDigit(s[e + 3])
    ensures GroupsFrom(s, j, e + 4)
    decreases e - j
  {
    if j < e { GroupsExtend(s, j + 4, e); }
  }

  /** A grouped numeral, whatever follows it, is 1-3 digits followed by `,ddd` groups. */
  lemma {:induction false} GroupingShape(n: nat, tail: string)
    ensures var s := Grouping(n) + tail;
            exists k :: 1 <= k <= 3 && LeadThenGroups(s, 0, k, |Grouping(n)|)
  {
    var s := Grouping(n) + tail;
    if n < 1000 {
      DigitsOfLength(n);
      var k := |DigitsOf(n)|;
      assert forall m :: 0 <= m < k ==> s[m] == DigitsOf(n)[m];
      assert LeadThenGroups(s, 0, k, k);
    } else {
      var t' := Grouping(n / 1000);
      var g := [',', DigitChar(n % 1000 / 100), DigitChar(n % 1000 % 100 / 10), DigitChar(n % 1000 % 100 % 10)];
      assert s == t' + (g + tail);
      GroupingShape(n / 1000, g + tail);
      var k :| 1 <= k <= 3 && LeadThenGroups(s, 0, k, |t'|);
      assert s[|t'|] == ',' && s[|t'| + 1] == g[1] && s[|t'| + 2] == g[2] && s[|t'| + 3] == g[3];
      GroupsExtend(s, k, |t'|);
      assert LeadThenGroups(s, 0, k, |t'| + 4);
      assert |Grouping(n)| == |t'| + 4;
    }
  }

  lemma ThreeDigitSplit(n: nat)
    ensures (n / 1000) * 1000 + (n % 1000 / 100) * 100 + (n % 1000 % 100 / 10) * 10 + n % 1000 % 100 % 10 == n
  {
    var r := n % 1000;
    var m := r % 100;
    assert n == (n / 1000) * 1000 + r;
    assert r == (r / 100) * 100 + m;
    assert m == (m / 10) * 10 + m % 10;
  }

  /** Dropping the commas of a grouped numeral and reading the digits gives the number back. */
  lemma {:induction false} GroupingValue(n: nat)
    ensures DecimalValue(RemoveCommas(Grouping(n))) == n
  {
    if n < 1000 {
      RemoveCommasOfDigits(DigitsOf(n));
    } else {
      var a, b, c := DigitChar(n % 1000 / 100), DigitChar(n % 1000 % 100 / 10), DigitChar(n % 1000 % 100 % 10);
      RemoveCommasAppend(Grouping(n / 1000), [',', a, b, c]);
      assert [',', a, b, c][1..] == [a, b, c];
      RemoveCommasOfDigits([a, b, c]);
      GroupingValue(n / 1000);
      AppendThreeDigits(RemoveCommas(Grouping(n / 1000)), a, b, c);
      ThreeDigitSplit(n);
    }
  }

  /**
   * Round trip: a row text that starts with a grouped amount and " NP" yields that amount,
   * whatever follows.
   */
  lemma GroupingRoundTrip(n: nat, tail: string)
    ensures RawPrice(Grouping(n) + " NP" + tail) == Some(n)
    ensures FindPrice(Grouping(n) + " NP" + tail) == Some(Span(0, |Grouping(n)|))
  {
    var t := Grouping(n);
    var s := t + " NP" + tail;
    GroupingFoundFirst(n, tail);
    RawPriceOfLeftmostMatch(s);
    assert s[0..|t|] == t;
    GroupingValue(n);
  }

  lemma GroupingFoundFirst(n: nat, tail: string)
    ensures FindPrice(Grouping(n) + " NP" + tail) == Some(Span(0, |Grouping(n)|))
  {
    var t := Grouping(n);
    var s := t + " NP" + tail;
    GroupingMatches(n, tail);
    assert MatchPriceAt(s, 0) == Some(|t|);
  }

  lemma GroupingMatches(n: nat, tail: string)
    ensures PriceMatchAt(Grouping(n) + " NP" + tail, 0, |Grouping(n)|)
  {
    var t := Grouping(n);
    var s := t + " NP" + tail;
    assert s == t + (" NP" + tail);
    GroupingShape(n, " NP" + tail);
    var k :| 1 <= k <= 3 && LeadThenGroups(s, 0, k, |t|);
    assert s[|t|] == ' ' && s[|t| + 1] == 'N' && s[|t| + 2] == 'P';
  }

  /** The example of the price pages: "12,000 NP" is 12000 NP, that is 12 thousand. */
  lemma TwelveThousand()
    ensures RawPrice("12,000 NP") == Some(12000)
    ensures Thousands(12000) == 12.0
  {
    assert Grouping(12000) == "12,000";
    GroupingRoundTrip(12000, "");
    assert Grouping(12000) + " NP" + "" == "12,000 NP";
  }

  /** Leftmost-first: in "1234,567 NP" no match starts at the `1`, so the match is "234,567 ". */
  lemma LeftmostNotLongest()
    ensures FindPrice("1234,567 NP") == Some(Span(1, 8))
    ensures RawPrice("1234,567 NP") == Some(234567)
  {
    var s := "1234,567 NP";
    LeftmostSpan();
    RawPriceOfLeftmostMatch(s);
    ExampleMatchText();
    ValueOfExample();
  }

  lemma ExampleMatchText()
    ensures "1234,567 NP"[1..8] == "234,567"
  {
    var s := "1234,567 NP";
    assert s[1..8] == [s[1], s[2], s[3], s[4], s[5], s[6], s[7]];
  }

  lemma LeftmostSpan()
    ensures FindPrice("1234,567 NP") == Some(Span(1, 8))
  {
    var s := "1234,567 NP";
    assert DigitRunEnd(s, 0) == 4 by { DigitRunEndAt(s, 0, 4); }
    assert GroupsEnd(s, 3) == 3;
    assert MatchPriceAt(s, 0) == None;
    assert DigitRunEnd(s, 1) == 4 by { DigitRunEndAt(s, 1, 4); }
    assert GroupsEnd(s, 8) == 8;
    assert GroupsEnd(s, 4) == 8;
    assert MatchPriceAt(s, 1) == Some(8);
  }

  lemma ValueOfExample()
    ensures DecimalValue(RemoveCommas("234,567")) == 234567
  {
    assert RemoveCommas("234,567") == "234567" by {
      assert RemoveCommas("567") == "567";
      assert RemoveCommas(",567") == "567";
      assert RemoveCommas("4,567") == "4567";
    }
    AppendThreeDigits("234", '5', '6', '7');
    AppendThreeDigits("", '2', '3', '4');
    assert "234567" == "234" + ['5', '6', '7'];
    assert "234" == "" + ['2', '3', '4'];
  }
}
