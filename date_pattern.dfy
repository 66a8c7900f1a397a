/**
 * The date patterns of the extraction code as `re.findall(...)[0]` applies them:
 * `[A-Za-z]+ \d+, \d+` on a row's date text and `[A-Za-z]+ \d+, \d{4}` on the inflation notice.
 *
 * At a fixed start each pattern succeeds in at most one way: the letters must run up to the
 * space and the day digits up to the comma, and the greedy final `\d+` takes every digit that
 * follows, so the greedy matcher below finds exactly the regex engine's match.
 */
module DatePattern {
  import opened Results
  import opened Text

  /** How the pattern ends: `\d+` (row dates) or `\d{4}` (the inflation notice). */
  datatype YearDigits = AnyLength | FourDigits

  /**
   * A match: month word `s[start..monthEnd]`, day digits `s[monthEnd + 1..dayEnd]`,
   * year digits `s[dayEnd + 2..end]`; the text `findall` returns is `s[start..end]`.
   */
  datatype DateSpan = DateSpan(start: nat, monthEnd: nat, dayEnd: nat, end: nat)

  /** The pattern for `y` matches at `i`, split at `p` (the space) and `q` (the comma), ending at `e`. */
  ghost predicate DateMatchAt(s: string, y: YearDigits, i: nat, p: nat, q: nat, e: nat)
  {
    i < p && p + 1 < q && q + 2 < e <= |s| &&
    (forall k :: i <= k < p ==> IsLetter(s[k])) && s[p] == ' ' &&
    (forall k :: p + 1 <= k < q ==> IsDigit(s[k])) && s[q] == ',' && s[q + 1] == ' ' &&
    (forall k :: q + 2 <= k < e ==> IsDigit(s[k])) &&
    match y
    case AnyLength => e == |s| || !IsDigit(s[e])
    case FourDigits => e == q + 6
  }

  /** The pattern tried at position `i` only. */
  function MatchDateAt(s: string, y: YearDigits, i: nat): (r: Option<DateSpan>)
    requires i <= |s|
    ensures r.Some? ==> r.value.start == i &&
                        DateMatchAt(s, y, i, r.value.monthEnd, r.value.dayEnd, r.value.end)
  {
    var p := LetterRunEnd(s, i);
    if p == i || p == |s| || s[p] != ' ' then None
    else
      var q := DigitRunEnd(s, p + 1);
      if q == p + 1 || q + 2 > |s| || s[q] != ',' || s[q + 1] != ' ' then None
      else
        match y
        case AnyLength =>
          var e := DigitRunEnd(s, q + 2);
          if e == q + 2 then None else Some(DateSpan(i, p, q, e))
        case FourDigits =>
          if q + 6 <= |s| && IsDigit(s[q + 2]) && IsDigit(s[q + 3]) && IsDigit(s[q + 4]) && IsDigit(s[q + 5])
          then Some(DateSpan(i, p, q, q + 6))
          else None
  }

  /**
   * The greedy matcher misses nothing: whatever match exists at `i` is the one it returns,
   * since the letters must run up to the space, the day digits up to the comma and, for `\d+`,
   * the year digits as far as they go.
   */
  lemma MatchDateAtComplete(s: string, y: YearDigits, i: nat)
    requires i <= |s|
    ensures forall p: nat, q: nat, e: nat :: DateMatchAt(s, y, i, p, q, e) ==> MatchDateAt(s, y, i) == Some(DateSpan(i, p, q, e))
  {
    forall p: nat, q: nat, e: nat | DateMatchAt(s, y, i, p, q, e)
      ensures MatchDateAt(s, y, i) == Some(DateSpan(i, p, q, e))
    {
      LetterRunEndAt(s, i, p);
      DigitRunEndAt(s, p + 1, q);
      if y == AnyLength { DigitRunEndAt(s, q + 2, e); }
    }
  }

  /** The scan of `re.findall` from position `i`: the first position where the pattern matches. */
  function FindDateFrom(s: string, y: YearDigits, i: nat): (r: Option<DateSpan>)
    requires i <= |s|
    ensures r.Some? ==> i <= r.value.start &&
                        DateMatchAt(s, y, r.value.start, r.value.monthEnd, r.value.dayEnd, r.value.end)
    ensures r.Some? ==> forall j: nat, p: nat, q: nat, e: nat :: i <= j < r.value.start ==> !DateMatchAt(s, y, j, p, q, e)
    ensures r.None? ==> forall j: nat, p: nat, q: nat, e: nat :: i <= j ==> !DateMatchAt(s, y, j, p, q, e)
    decreases |s| - i
  {
    if i == |s| then None
    else
      match MatchDateAt(s, y, i)
      case Some(sp) => Some(sp)
      case None => MatchDateAtComplete(s, y, i); FindDateFrom(s, y, i + 1)
  }

  /** The leftmost match of the date pattern for `y` in `s`, if any. */
  function FindDate(s: string, y: YearDigits): (r: Option<DateSpan>)
    ensures r.Some? ==> DateMatchAt(s, y, r.value.start, r.value.monthEnd, r.value.dayEnd, r.value.end)
    ensures r.Some? ==> forall j: nat, p: nat, q: nat, e: nat :: j < r.value.start ==> !DateMatchAt(s, y, j, p, q, e)
    ensures r.None? <==> forall j: nat, p: nat, q: nat, e: nat :: !DateMatchAt(s, y, j, p, q, e)
  {
    FindDateFrom(s, y, 0)
  }
}
