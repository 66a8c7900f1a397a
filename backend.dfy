/**
 * The crawler of the item database (`JellyneoIDBCrawler`): fetching an item page with retries,
 * and the extractors that read the item name, its image, its price history and its inflation
 * notice from the parsed page. The HTML tree is abstracted to the few lookups the extractors
 * make; a lookup that finds nothing is `None`.
 */
module Backend {
  import opened Results
  import opened Text
  import PricePattern
  import opened DatePattern
  import opened Calendar

  /** One `div.price-row`: the text of its `span.price-date` (None if it has none) and its whole text. */
  datatype PriceRow = PriceRow(dateSpan: Option<string>, text: string)

  /** The `div.alert-box.inflated` element: the text of its `strong` child (if any) and its whole text. */
  datatype InflationNotice = InflationNotice(strong: Option<string>, text: string)

  /** What the extractors look up in a parsed item page. */
  datatype Page = Page(
    heading: Option<string>,               // text of the first `h1`
    ogImage: Option<map<string, string>>,  // attributes of the `meta` tag with property "og:image"
    priceRows: Option<seq<PriceRow>>,      // the `div.price-row`s of `div.pricing-row-container`
    notice: Option<InflationNotice>)

  /** One row's contribution: a date and a price in thousands of NP. */
  datatype Entry = Entry(date: Date, price: real)

  /** The `price_history_entries` dictionary: its "date" and "price" lists. */
  datatype PriceHistoryEntries = PriceHistoryEntries(date: seq<Date>, price: seq<real>)

  // ---------------------------------------------------------------------------------------
  // Item name and image

  /** `item_soup.find("h1").text`; AttributeError when the page has no `h1`. */
  function GetItemName(page: Page): (r: Result<string, PyError>)
    ensures r.Success? <==> page.heading.Some?
    ensures r.Success? ==> r.value == page.heading.value
    ensures r.Failure? ==> r.error == AttributeError
  {
    match page.heading
    case None => Failure(AttributeError)
    case Some(text) => Success(text)
  }

  /** The `content` attribute of the og:image `meta` tag; TypeError without the tag, KeyError without the attribute. */
  function GetItemImage(page: Page): (r: Result<string, PyError>)
    ensures r.Success? <==> page.ogImage.Some? && "content" in page.ogImage.value
    ensures r.Success? ==> r.value == page.ogImage.value["content"]
    ensures r == Failure(TypeError) <==> page.ogImage.None?
    ensures r == Failure(KeyError) <==> page.ogImage.Some? && "content" !in page.ogImage.value
  {
    match page.ogImage
    case None => Failure(TypeError)
    case Some(attrs) => if "content" in attrs then Success(attrs["content"]) else Failure(KeyError)
  }

  // ---------------------------------------------------------------------------------------
  // Price history

  /**
   * A row's date: the first `[A-Za-z]+ \d+, \d+` match of the date text, read with
   * `strptime(..., "%B %d, %Y")`. IndexError when nothing matches, ValueError when the match is
   * not a date.
   */
  function ParseRowDate(t: string): (r: Result<Date, PyError>)
    ensures r == Failure(IndexError) <==> forall j: nat, p: nat, q: nat, e: nat :: !DateMatchAt(t, AnyLength, j, p, q, e)
    ensures r.Failure? ==> r.error == IndexError || r.error == ValueError
    ensures r.Success? ==> ValidDate(r.value)
    ensures r.Success? ==> FindDate(t, AnyLength).Some? && MatchSpells(t, FindDate(t, AnyLength).value, r.value)
    ensures r == Failure(ValueError) <==>
      FindDate(t, AnyLength).Some? && forall d :: ValidDate(d) ==> !MatchSpells(t, FindDate(t, AnyLength).value, d)
  {
    match FindDate(t, AnyLength)
    case None => Failure(IndexError)
    case Some(sp) =>
      var month, day, year := t[sp.start..sp.monthEnd], t[sp.monthEnd + 1..sp.dayEnd], t[sp.dayEnd + 2..sp.end];
      StrptimeFailsExactly(month, day, year);
      Strptime(month, day, year)
  }

  /** The month word, day digits and year digits of the date match `sp` in `t` spell `d`. */
  predicate MatchSpells(t: string, sp: DateSpan, d: Date)
    requires sp.start <= sp.monthEnd && sp.monthEnd + 1 <= sp.dayEnd && sp.dayEnd + 2 <= sp.end <= |t|
  {
    Spells(t[sp.start..sp.monthEnd], t[sp.monthEnd + 1..sp.dayEnd], t[sp.dayEnd + 2..sp.end], d)
  }

  /** A row's price: the raw amount of the leftmost price match, in thousands; IndexError when nothing matches. */
  function ParseRowPrice(t: string): (r: Result<real, PyError>)
    ensures r.Failure? <==> forall j: nat, e: nat :: !PricePattern.PriceMatchAt(t, j, e)
    ensures r.Failure? ==> r.error == IndexError
    ensures r.Success? ==> PricePattern.RawPrice(t).Some? && r.value * 1000.0 == PricePattern.RawPrice(t).value as real
  {
    match PricePattern.RawPrice(t)
    case None => Failure(IndexError)
    case Some(raw) => Success(PricePattern.Thousands(raw))
  }

  /**
   * The `try` body of the row loop: the date first (a missing span raises AttributeError on
   * `.text`), then the price. IndexError is the one outcome the loop catches.
   */
  function RowEntry(row: PriceRow): (r: Result<Entry, PyError>)
    ensures r.Success? ==> ValidDate(r.value.date) && row.dateSpan.Some?
    ensures r.Failure? ==> r.error == AttributeError || r.error == IndexError || r.error == ValueError
    ensures r == Failure(AttributeError) <==> row.dateSpan.None?
    ensures r.Success? ==>
      ParseRowDate(row.dateSpan.value) == Success(r.value.date) && ParseRowPrice(row.text) == Success(r.value.price)
  {
    match row.dateSpan
    case None => Failure(AttributeError)
    case Some(t) =>
      match ParseRowDate(t)
      case Failure(e) => Failure(e)
      case Success(d) =>
        match ParseRowPrice(row.text)
        case Failure(e) => Failure(e)
        case Success(p) => Success(Entry(d, p))
  }

  /** The outcome raises an exception the loop does not catch. */
  predicate Raises(o: Result<Entry, PyError>)
  {
    o.Failure? && o.error != IndexError
  }

  /**
   * A row is skipped exactly when its date text has no date match, or its date is good and its
   * text has no price match.
   */
  lemma RowSkippedExactly(row: PriceRow)
    ensures RowEntry(row) == Failure(IndexError) <==>
      row.dateSpan.Some? &&
      ((forall j: nat, p: nat, q: nat, e: nat :: !DateMatchAt(row.dateSpan.value, AnyLength, j, p, q, e)) ||
       (ParseRowDate(row.dateSpan.value).Success? &&
        forall j: nat, e: nat :: !PricePattern.PriceMatchAt(row.text, j, e)))
  {
  }

  /**
   * A row raises exactly when it has no date span, or when its date text matches the pattern
   * but is not a date (an unknown month name, a day outside its month, a year not of four digits).
   */
  lemma RowRaisesExactly(row: PriceRow)
    ensures Raises(RowEntry(row)) <==>
      row.dateSpan.None? ||
      (FindDate(row.dateSpan.value, AnyLength).Some? && ParseRowDate(row.dateSpan.value) == Failure(ValueError))
    ensures Raises(RowEntry(row)) ==> RowEntry(row) == Failure(AttributeError) || RowEntry(row) == Failure(ValueError)
  {
  }

  /** The outcome of the `try` body for each row, in document order. */
  function Outcomes(rows: seq<PriceRow>): (os: seq<Result<Entry, PyError>>)
    ensures |os| == |rows|
    ensures forall i :: 0 <= i < |rows| ==> os[i] == RowEntry(rows[i])
  {
    seq(|rows|, i requires 0 <= i < |rows| => RowEntry(rows[i]))
  }

  /** The `for` loop over the rows' outcomes, as the accumulation it performs. */
  function Accumulate(os: seq<Result<Entry, PyError>>): (r: Result<PriceHistoryEntries, PyError>)
    ensures r.Success? ==> |r.value.date| == |r.value.price| <= |os|
  {
    if os == [] then Success(PriceHistoryEntries([], []))
    else
      match Accumulate(os[..|os| - 1])
      case Failure(e) => Failure(e)
      case Success(acc) =>
        match os[|os| - 1]
        case Success(entry) => Success(PriceHistoryEntries(acc.date + [entry.date], acc.price + [entry.price]))
        case Failure(e) => if e == IndexError then Success(acc) else Failure(e)
  }

  function PriceHistory(rows: seq<PriceRow>): Result<PriceHistoryEntries, PyError>
  {
    Accumulate(Outcomes(rows))
  }

  /** `get_price_history` on a page: AttributeError when the page has no price-row container. */
  function PriceHistoryOf(page: Page): (r: Result<PriceHistoryEntries, PyError>)
    ensures page.priceRows.None? ==> r == Failure(AttributeError)
    ensures r.Success? ==> page.priceRows.Some? && |r.value.date| == |r.value.price| == |KeptRows(page.priceRows.value)|
  {
    match page.priceRows
    case None => Failure(AttributeError)
    case Some(rows) =>
      var h := PriceHistory(rows);
      if h.Success? then PriceHistoryIsKeptRows(rows); h else h
  }

  /** The positions of the outcomes that are entries, in order. */
  function KeptIndices(os: seq<Result<Entry, PyError>>): (ks: seq<nat>)
    ensures forall k :: 0 <= k < |ks| ==> ks[k] < |os|
    ensures forall k, l :: 0 <= k < l < |ks| ==> ks[k] < ks[l]
    ensures forall i :: 0 <= i < |os| ==> (i in ks <==> os[i].Success?)
  {
    if os == [] then []
    else
      var ks := KeptIndices(os[..|os| - 1]);
      if os[|os| - 1].Success? then ks + [|os| - 1] else ks
  }

  /** The positions of the rows that yield an entry, in document order. */
  function KeptRows(rows: seq<PriceRow>): (ks: seq<nat>)
    ensures forall k :: 0 <= k < |ks| ==> ks[k] < |rows|
    ensures forall k, l :: 0 <= k < l < |ks| ==> ks[k] < ks[l]
    ensures forall i :: 0 <= i < |rows| ==> (i in ks <==> RowEntry(rows[i]).Success?)
  {
    KeptIndices(Outcomes(rows))
  }

  lemma {:induction false} AccumulateIsKept(os: seq<Result<Entry, PyError>>)
    requires Accumulate(os).Success?
    ensures var h, ks := Accumulate(os).value, KeptIndices(os);
      |h.date| == |h.price| == |ks| &&
      forall k :: 0 <= k < |ks| ==> os[ks[k]] == Success(Entry(h.date[k], h.price[k]))
    ensures forall i :: 0 <= i < |os| ==> !Raises(os[i])
  {
    if os != [] {
      AccumulateIsKept(os[..|os| - 1]);
    }
  }

  /**
   * The history is the entries of the kept rows, in document order: the k-th date and the k-th
   * price both come from the k-th well-formed row, and no row raised.
   */
  lemma PriceHistoryIsKeptRows(rows: seq<PriceRow>)
    requires PriceHistory(rows).Success?
    ensures var h, ks := PriceHistory(rows).value, KeptRows(rows);
      |h.date| == |h.price| == |ks| &&
      forall k :: 0 <= k < |ks| ==> RowEntry(rows[ks[k]]) == Success(Entry(h.date[k], h.price[k]))
    ensures forall i :: 0 <= i < |rows| ==> !Raises(RowEntry(rows[i]))
  {
    AccumulateIsKept(Outcomes(rows));
  }

  lemma {:induction false} AccumulateFailsAtFirstRaise(os: seq<Result<Entry, PyError>>)
    ensures Accumulate(os).Failure? <==> exists i :: 0 <= i < |os| && Raises(os[i])
    ensures Accumulate(os).Failure? ==>
      exists i :: 0 <= i < |os| && os[i] == Failure(Accumulate(os).error) && Raises(os[i]) &&
                  forall j :: 0 <= j < i ==> !Raises(os[j])
  {
    if os != [] {
      var init := os[..|os| - 1];
      AccumulateFailsAtFirstRaise(init);
      if Accumulate(init).Success? {
        AccumulateIsKept(init);
      }
    }
  }

  /** The history fails exactly when some row raises, and then with the error of the first such row. */
  lemma PriceHistoryFailsAtFirstRaise(rows: seq<PriceRow>)
    ensures PriceHistory(rows).Failure? <==> exists i :: 0 <= i < |rows| && Raises(RowEntry(rows[i]))
    ensures PriceHistory(rows).Failure? ==>
      exists i :: 0 <= i < |rows| && RowEntry(rows[i]) == Failure(PriceHistory(rows).error) &&
                  Raises(RowEntry(rows[i])) && forall j :: 0 <= j < i ==> !Raises(RowEntry(rows[j]))
  {
    AccumulateFailsAtFirstRaise(Outcomes(rows));
  }

  /** One more outcome: an entry is appended, IndexError changes nothing, anything else is the error. */
  lemma AccumulateStep(os: seq<Result<Entry, PyError>>, i: nat)
    requires i < |os| && Accumulate(os[..i]).Success?
    ensures var acc := Accumulate(os[..i]).value;
      Accumulate(os[..i + 1]) ==
        match os[i]
        case Success(entry) => Success(PriceHistoryEntries(acc.date + [entry.date], acc.price + [entry.price]))
        case Failure(e) => if e == IndexError then Success(acc) else Failure(e)
  {
    assert os[..i + 1][..i] == os[..i];
  }

  /** Once a prefix of the outcomes has raised, the outcomes after it change nothing. */
  lemma {:induction false} FailureIsFinal(os: seq<Result<Entry, PyError>>, j: nat)
    requires j <= |os| && Accumulate(os[..j]).Failure?
    ensures Accumulate(os) == Accumulate(os[..j])
    decreases |os| - j
  {
    if j < |os| {
      assert os[..j + 1][..j] == os[..j];
      FailureIsFinal(os, j + 1);
    } else {
      assert os[..j] == os;
    }
  }

  /**
   * `JellyneoIDBCrawler.get_price_history`: the row loop, appending a date and a price in
   * lock-step for every row whose `try` body completes and skipping the rows that raise
   * IndexError; any other exception leaves the loop.
   */
  method GetPriceHistory(page: Page) returns (r: Result<PriceHistoryEntries, PyError>)
    ensures r == PriceHistoryOf(page)
    ensures r.Success? ==> |r.value.date| == |r.value.price|
  {
    if page.priceRows.None? {
      return Failure(AttributeError);
    }
    var rows := page.priceRows.value;
    ghost var os := Outcomes(rows);
    var entries := PriceHistoryEntries([], []);
    for i := 0 to |rows|
      invariant Accumulate(os[..i]) == Success(entries)
    {
      var outcome := RowEntry(rows[i]);
      AccumulateStep(os, i);
      if outcome.Success? {
        entries := PriceHistoryEntries(entries.date + [outcome.value.date], entries.price + [outcome.value.price]);
      } else if outcome.error != IndexError {
        FailureIsFinal(os, i + 1);
        return Failure(outcome.error);
      }
    }
    assert os[..|rows|] == os;
    r := Success(entries);
  }

  /** The round trip of a row date: the pages' "March 3, 2020" form reads back as the date it shows. */
  lemma DateRoundTrip(d: Date)
    requires ValidDate(d) && 1000 <= d.year
    ensures ParseRowDate(FormatDate(d)) == Success(d)
  {
    var name, day, year := MonthName(d.month), DigitsOf(d.day), DigitsOf(d.year);
    var s := FormatDate(d);
    var p := |name|;
    var q := p + 1 + |day|;
    FormattedDateMatches(d);
    MatchDateAtComplete(s, AnyLength, 0);
    assert MatchDateAt(s, AnyLength, 0) == Some(DateSpan(0, p, q, |s|));
    assert FindDate(s, AnyLength) == Some(DateSpan(0, p, q, |s|));
    DigitsOfLength(d.day);
    DigitsOfLength(d.year);
    SameIgnoringCaseReflexive(name);
    StrptimeAcceptsValidDates(name, day, year, d);
  }

  /** A formatted date is one match of the row date pattern, split into its month, day and year. */
  lemma FormattedDateMatches(d: Date)
    requires ValidDate(d) && 1000 <= d.year
    ensures var name, day, year := MonthName(d.month), DigitsOf(d.day), DigitsOf(d.year);
      var s, p := FormatDate(d), |name|;
      var q := p + 1 + |day|;
      DateMatchAt(s, AnyLength, 0, p, q, |s|) &&
      s[0..p] == name && s[p + 1..q] == day && s[q + 2..|s|] == year
  {
    var name, day, year := MonthName(d.month), DigitsOf(d.day), DigitsOf(d.year);
    var s := FormatDate(d);
    var p := |name|;
    var q := p + 1 + |day|;
    assert s == name + " " + day + ", " + year;
    MonthNameLetters(d.month);
    assert s[0..p] == name;
    assert s[p + 1..q] == day;
    assert s[q + 2..|s|] == year;
    assert s[p] == ' ' && s[q] == ',' && s[q + 1] == ' ';
  }

  lemma MonthNameLetters(m: nat)
    requires 1 <= m <= 12
    ensures forall k :: 0 <= k < |MonthName(m)| ==> IsLetter(MonthName(m)[k])
  {
  }

  /** The example of a price row: date "March 3, 2020" and price "12,000 NP" give 2020-03-03 and 12 thousand. */
  lemma ExampleRow()
    ensures RowEntry(PriceRow(Some("March 3, 2020"), "12,000 NP")) == Success(Entry(Date(2020, 3, 3), 12.0))
  {
    var d := Date(2020, 3, 3);
    assert FormatDate(d) == "March 3, 2020" by {
      assert DigitsOf(3) == "3";
      assert DigitsOf(2020) == "2020";
    }
    DateRoundTrip(d);
    PricePattern.TwelveThousand();
  }

  /** A date inside other text, with its month in lower case and its day zero-padded, is still read. */
  lemma EmbeddedRowDate()
    ensures ParseRowDate("Updated: march 03, 2020 (est.)") == Success(Date(2020, 3, 3))
  {
    var t, d := "Updated: march 03, 2020 (est.)", Date(2020, 3, 3);
    var sp := DateSpan(9, 14, 17, 23);
    EmbeddedDateFound();
    EmbeddedSlices();
    EmbeddedDatePieces();
    assert MatchSpells(t, sp, d);
    var r := ParseRowDate(t);
    SpelledDateUnique("march", "03", "2020", r.value, d);
  }

  lemma EmbeddedSlices()
    ensures var t := "Updated: march 03, 2020 (est.)";
      t[9..14] == "march" && t[15..17] == "03" && t[19..23] == "2020"
  {
    var t := "Updated: march 03, 2020 (est.)";
    assert t[9..14] == [t[9], t[10], t[11], t[12], t[13]];
    assert t[15..17] == [t[15], t[16]];
    assert t[19..23] == [t[19], t[20], t[21], t[22]];
  }

  lemma EmbeddedDatePieces()
    ensures ValidDate(Date(2020, 3, 3)) && Spells("march", "03", "2020", Date(2020, 3, 3))
  {
    assert "march"[1..] == "arch";
    assert SameIgnoringCase("march", "March");
    assert DecimalValue("03") == 3 by { assert "03"[..1] == "0"; }
    assert DecimalValue("2020") == 2020 by {
      assert "2020"[..3] == "202";
      assert "202"[..2] == "20";
      assert "20"[..1] == "2";
    }
  }

  lemma EmbeddedDateFound()
    ensures FindDate("Updated: march 03, 2020 (est.)", AnyLength) == Some(DateSpan(9, 14, 17, 23))
  {
    var t := "Updated: march 03, 2020 (est.)";
    EmbeddedMonthRun();
    EmbeddedDayRun();
    EmbeddedYearRun();
    assert MatchDateAt(t, AnyLength, 9) == Some(DateSpan(9, 14, 17, 23));
    var j := 9;
    while j > 0
      invariant 0 <= j <= 9
      invariant FindDateFrom(t, AnyLength, j) == Some(DateSpan(9, 14, 17, 23))
    {
      j := j - 1;
      EmbeddedNoEarlierMatch(j);
    }
  }

  lemma EmbeddedMonthRun()
    ensures LetterRunEnd("Updated: march 03, 2020 (est.)", 9) == 14
  {
    LetterRunEndAt("Updated: march 03, 2020 (est.)", 9, 14);
  }

  lemma EmbeddedDayRun()
    ensures DigitRunEnd("Updated: march 03, 2020 (est.)", 15) == 17
  {
    DigitRunEndAt("Updated: march 03, 2020 (est.)", 15, 17);
  }

  lemma EmbeddedYearRun()
    ensures DigitRunEnd("Updated: march 03, 2020 (est.)", 19) == 23
  {
    DigitRunEndAt("Updated: march 03, 2020 (est.)", 19, 23);
  }

  /** Before "march" every letter run of the example ends at the colon or is empty. */
  lemma EmbeddedNoEarlierMatch(j: nat)
    requires j < 9
    ensures MatchDateAt("Updated: march 03, 2020 (est.)", AnyLength, j) == None
  {
    LetterRunEndAt("Updated: march 03, 2020 (est.)", j, if j < 7 then 7 else j);
  }

  // ---------------------------------------------------------------------------------------
  // Inflation notice

  /**
   * `check_if_inflated`: no notice element gives None; otherwise the `strong` text and the first
   * `Word D, YYYY` substring of the notice text. The `strong` lookup raises AttributeError when
   * missing, and a notice without such a date raises IndexError.
   */
  function CheckIfInflated(page: Page): (r: Result<Option<(string, string)>, PyError>)
    ensures r == Success(None) <==> page.notice.None?
    ensures r == Failure(AttributeError) <==> page.notice.Some? && page.notice.value.strong.None?
    ensures r == Failure(IndexError) <==>
      page.notice.Some? && page.notice.value.strong.Some? &&
      forall j: nat, p: nat, q: nat, e: nat :: !DateMatchAt(page.notice.value.text, FourDigits, j, p, q, e)
    ensures r.Failure? ==> r.error == AttributeError || r.error == IndexError
    ensures r.Success? && r.value.Some? ==>
      page.notice.Some? && page.notice.value.strong == Some(r.value.value.0) &&
      var t := page.notice.value.text;
      exists i: nat, p: nat, q: nat, e: nat ::
        DateMatchAt(t, FourDigits, i, p, q, e) && r.value.value.1 == t[i..e] &&
        forall j: nat, p': nat, q': nat, e': nat :: j < i ==> !DateMatchAt(t, FourDigits, j, p', q', e')
  {
    match page.notice
    case None => Success(None)
    case Some(notice) =>
      match notice.strong
      case None => Failure(AttributeError)
      case Some(percent) =>
        match FindDate(notice.text, FourDigits)
        case None => Failure(IndexError)
        case Some(sp) => Success(Some((percent, notice.text[sp.start..sp.end])))
  }

  // ---------------------------------------------------------------------------------------
  // Fetching with retries

  /** What one `requests.get(url)` produces: a response, or a RequestException it raises. */
  datatype Attempt = Response(status: int, page: Page) | ConnectionFailure

  /** One run of the decorated `parse_html_as_soup` body, with tenacity's verdict on it. */
  datatype AttemptOutcome =
    | Fetched(page: Page)         // returned the parsed page
    | Retryable(cause: PyError)   // raised a RequestException (HTTPError included)
    | Fatal(error: PyError)       // raised anything else: tenacity re-raises it at once

  /**
   * 404 raises MissingPriceHistory, taken here not to be a RequestException; `raise_for_status`
   * raises HTTPError for any other 4xx or 5xx status; every other status is parsed.
   */
  function Classify(a: Attempt): (r: AttemptOutcome)
    ensures r.Fatal? <==> a.Response? && a.status == 404
    ensures r.Fatal? ==> r.error == MissingPriceHistory
    ensures r.Fetched? <==> a.Response? && !(400 <= a.status < 600)
    ensures r.Fetched? ==> r.page == a.page
  {
    match a
    case ConnectionFailure => Retryable(RequestException)
    case Response(status, page) =>
      if status == 404 then Fatal(MissingPriceHistory)
      else if 400 <= status < 600 then Retryable(HTTPError)
      else Fetched(page)
  }

  /** `stop_after_attempt(n)` is consulted only after a failed attempt, so at least one is made. */
  function AttemptLimit(maxRetries: nat): (n: nat)
    ensures n >= 1 && n >= maxRetries
    ensures maxRetries >= 1 ==> n == maxRetries
    ensures maxRetries == 0 ==> n == 1
  {
    if maxRetries == 0 then 1 else maxRetries
  }

  /** The outcome of the retrying call and the number of requests it made. */
  datatype FetchRun = FetchRun(result: Result<Page, PyError>, attempts: nat)

  /** The retry loop from attempt number `made + 1` on; `network(k)` answers the (k+1)-th request. */
  function FetchFrom(maxRetries: nat, network: nat -> Attempt, made: nat): (run: FetchRun)
    ensures made < run.attempts <= (if made < maxRetries then maxRetries else made + 1)
    ensures match Classify(network(run.attempts - 1))
      case Fetched(page) => run.result == Success(page)
      case Fatal(e) => run.result == Failure(e)
      case Retryable(_) => run.result == Failure(RetryError)
    decreases maxRetries - made
  {
    match Classify(network(made))
    case Fetched(page) => FetchRun(Success(page), made + 1)
    case Fatal(e) => FetchRun(Failure(e), made + 1)
    case Retryable(_) =>
      if made + 1 >= maxRetries then FetchRun(Failure(RetryError), made + 1)
      else FetchFrom(maxRetries, network, made + 1)
  }

  function Fetch(maxRetries: nat, network: nat -> Attempt): (run: FetchRun)
    ensures 1 <= run.attempts <= AttemptLimit(maxRetries)
    ensures run.result.Success? <==> Classify(network(run.attempts - 1)).Fetched?
  {
    FetchFrom(maxRetries, network, 0)
  }

  /**
   * `parse_html_as_soup` under its `@retry` decorator: request, classify, and retry
   * RequestExceptions until `maxRetries` attempts have been made (the random waits in between
   * are not modelled).
   */
  method ParseHtmlAsSoup(maxRetries: nat, network: nat -> Attempt) returns (result: Result<Page, PyError>, attempts: nat)
    ensures FetchRun(result, attempts) == Fetch(maxRetries, network)
    ensures 1 <= attempts <= AttemptLimit(maxRetries)
  {
    attempts := 0;
    while true
      invariant attempts < AttemptLimit(maxRetries)
      invariant Fetch(maxRetries, network) == FetchFrom(maxRetries, network, attempts)
      decreases maxRetries - attempts
    {
      var outcome := Classify(network(attempts));
      attempts := attempts + 1;
      match outcome
      case Fetched(page) =>
        return Success(page), attempts;
      case Fatal(e) =>
        return Failure(e), attempts;
      case Retryable(_) =>
        if attempts >= maxRetries {
          return Failure(RetryError), attempts;
        }
    }
  }

  /**
   * The run from attempt `made + 1` on is decided by the first attempt that does not fail
   * retryably: if it comes before the limit, its outcome is returned after it; if every
   * attempt up to the limit fails retryably, RetryError is raised after the last of them.
   */
  lemma {:induction false} FetchFromDecided(maxRetries: nat, network: nat -> Attempt, made: nat)
    requires made < AttemptLimit(maxRetries)
    ensures var run := FetchFrom(maxRetries, network, made);
      made < run.attempts <= AttemptLimit(maxRetries) &&
      (forall k :: made <= k < run.attempts - 1 ==> Classify(network(k)).Retryable?) &&
      match Classify(network(run.attempts - 1))
      case Fetched(page) => run.result == Success(page)
      case Fatal(e) => run.result == Failure(e)
      case Retryable(_) => run.result == Failure(RetryError) && run.attempts == AttemptLimit(maxRetries)
    decreases maxRetries - made
  {
    var run := FetchFrom(maxRetries, network, made);
    if Classify(network(made)).Retryable? && made + 1 < maxRetries {
      FetchFromDecided(maxRetries, network, made + 1);
      assert run == FetchFrom(maxRetries, network, made + 1);
    } else {
      assert run.attempts == made + 1;
    }
  }

  /** A 404 on the first request ends the call with MissingPriceHistory after that one request. */
  lemma NotFoundIsNotRetried(maxRetries: nat, network: nat -> Attempt)
    requires network(0).Response? && network(0).status == 404
    ensures Fetch(maxRetries, network) == FetchRun(Failure(MissingPriceHistory), 1)
  {
  }

  /** Retryable failures followed, within the limit, by a success return the page after j + 1 requests. */
  lemma SuccessWithinLimit(maxRetries: nat, network: nat -> Attempt, j: nat, page: Page)
    requires j < AttemptLimit(maxRetries)
    requires forall k :: 0 <= k < j ==> Classify(network(k)).Retryable?
    requires Classify(network(j)) == Fetched(page)
    ensures Fetch(maxRetries, network) == FetchRun(Success(page), j + 1)
  {
    FetchFromDecided(maxRetries, network, 0);
  }

  /** Retryable failures on every attempt up to the limit end in RetryError after exactly the limit. */
  lemma RetriesExhausted(maxRetries: nat, network: nat -> Attempt)
    requires forall k :: 0 <= k < AttemptLimit(maxRetries) ==> Classify(network(k)).Retryable?
    ensures Fetch(maxRetries, network) == FetchRun(Failure(RetryError), AttemptLimit(maxRetries))
  {
    FetchFromDecided(maxRetries, network, 0);
  }
}
