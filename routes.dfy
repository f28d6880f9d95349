/** The HTTP routes over the diary tables and the conversation memory:
    generating a month's summary on demand, listing a month's daily rows,
    listing a year's monthly rows, reading the diary, and one conversation
    turn. The signed-in user, the query arguments, the JSON body and the
    current date are parameters; completion calls are function parameters. */
module Routes {
  import opened Strings
  import opened Calendar
  import opened Json
  import opened OpenAIUtils
  import opened VectorDb
  import opened DiaryTables

  /** A route's answer: its payload, or an error status with its message. */
  datatype HttpResult<T> = Ok(value: T) | Fail(status: int, message: string)

  /** A query argument is used only when present and non-empty. */
  predicate Truthy(arg: Option<string>) {
    arg.Some? && |arg.value| > 0
  }

  /** The rows of the user named by the `user_id` argument; without one the
      query asks for rows with no owner, and every row has one. */
  predicate OwnedBy(rowUser: string, userArg: Option<string>) {
    userArg == Some(rowUser)
  }

  // ---------------------------------------------------------------------------
  // POST /api/v1/generate-monthly-summary

  /** An exception of `int()` that the route's `except ValueError` does not
      catch: it escapes the handler and becomes the generic 500 answer. */
  predicate Uncaught(c: IntConversion) {
    c.TypeError? || c.OverflowError?
  }

  /** The year and month of a request, or the answer given before any table
      is read. */
  function ValidateMonthlyRequest(body: Option<Body>): (r: HttpResult<(int, int)>)
    ensures r.Ok? ==> 1 <= r.value.1 <= 12
    ensures r.Fail? ==> r.status == 400 || r.status == 500
  {
    if body.None? || |body.value| == 0 then Fail(400, "Invalid JSON data")
    else if !("year" in body.value && "month" in body.value) then Fail(400, "Missing required fields: year, month")
    else
      match PyInt(body.value["year"])
      case TypeError | OverflowError => Fail(500, "Internal server error")
      case ValueError => Fail(400, "Invalid year/month parameters")
      case Converted(year) =>
        match PyInt(body.value["month"])
        case TypeError | OverflowError => Fail(500, "Internal server error")
        case ValueError => Fail(400, "Invalid year/month parameters")
        case Converted(month) =>
          if 1 <= month <= 12 then Ok((year, month)) else Fail(400, "Invalid year/month parameters")
  }

  /** A request passes exactly when the body is a non-empty object with
      `year` and `month`, both convert with `int()`, and the month is in
      1..12; it gets 500 when the first field `int()` fails on raises
      something other than `ValueError` (`null`, an array, an object, an
      infinity), and 400 for every other reason. */
  lemma MonthlyValidationRules(body: Option<Body>)
    ensures var r := ValidateMonthlyRequest(body);
      r.Ok? <==>
        (body.Some? && "year" in body.value && "month" in body.value
         && PyInt(body.value["year"]).Converted? && PyInt(body.value["month"]).Converted?
         && 1 <= PyInt(body.value["month"]).value <= 12)
    ensures var r := ValidateMonthlyRequest(body);
      r.Ok? ==> r.value == (PyInt(body.value["year"]).value, PyInt(body.value["month"]).value)
    ensures var r := ValidateMonthlyRequest(body);
      r.Fail? && r.status == 500 <==>
        (body.Some? && "year" in body.value && "month" in body.value
         && (Uncaught(PyInt(body.value["year"]))
             || (PyInt(body.value["year"]).Converted? && Uncaught(PyInt(body.value["month"])))))
  {
    if body.Some? && "year" in body.value {
      assert |body.value| > 0;
    }
  }

  /** The daily rows the route summarises: the user's rows whose stored
      date reads back as that year and month. */
  function EntriesOfMonth(daily: seq<DailyRow>, userId: string, year: int, month: int): seq<DailyRow> {
    Filter(daily, (r: DailyRow) => DateParts(r.date) == Some((year, month)) && r.userId == userId)
  }

  /** `f"请生成{year}年{month}月的月度总结，基于以下日记：\n{summaries}"` with
      the summaries joined by line breaks. */
  function MonthlyPromptFor(year: int, month: int, entries: seq<DailyRow>): string {
    "请生成" + IntToString(year) + "年" + IntToString(month) + "月的月度总结，基于以下日记：\n"
    + Join("\n", DailySummaries(entries))
  }

  /** The integers SQLite's INTEGER holds: `sqlite3` refuses to bind a
      Python `int` outside them with `OverflowError`. */
  const MinSqlInteger := -0x8000_0000_0000_0000
  const MaxSqlInteger := 0x7FFF_FFFF_FFFF_FFFF

  /** What the route does with a valid year and month: 500 when the year
      cannot be bound into the query, 404 without entries, 500 when the
      completion raises, is refused by the response check, or the year
      cannot be a date; otherwise the upsert and the answer. */
  function SummariseMonth(daily: seq<DailyRow>, monthly: seq<MonthlyRow>, userId: string, year: int, month: int,
                          chat: ChatRequest -> Completion): (HttpResult<(string, string)>, seq<MonthlyRow>)
    requires 1 <= month <= 12
  {
    var entries := EntriesOfMonth(daily, userId, year, month);
    if !(MinSqlInteger <= year <= MaxSqlInteger) then (Fail(500, "Internal server error"), monthly)
    else if |entries| == 0 then (Fail(404, "No diary entries found for this month"), monthly)
    else
      match chat(GenerateSummaryRequest(MonthlyPromptFor(year, month, entries), DefaultPersonality, false))
      case Raised => (Fail(500, "Internal server error"), monthly)
      case Completed(wellFormed, content) =>
        if !wellFormed then (Fail(500, "Failed to generate summary"), monthly)
        else if !(1 <= year <= 9999) then (Fail(500, "Internal server error"), monthly)
        else
          (Ok((IntToString(year) + "-" + ZeroPad(month, 2), content)),
           Upserted(monthly, userId, IsoDate(Date(year, month, 1)), content))
  }

  /** The answer of `generate_monthly_summary` and the monthly table after it. */
  function MonthlySummaryOutcome(daily: seq<DailyRow>, monthly: seq<MonthlyRow>, userId: string,
                                 body: Option<Body>, chat: ChatRequest -> Completion)
    : (HttpResult<(string, string)>, seq<MonthlyRow>)
  {
    match ValidateMonthlyRequest(body)
    case Fail(status, message) => (Fail(status, message), monthly)
    case Ok((year, month)) => SummariseMonth(daily, monthly, userId, year, month, chat)
  }

  /** `generate_monthly_summary()` for the signed-in user `userId`. */
  method GenerateMonthlySummary(db: DiaryDb, userId: string, body: Option<Body>, chat: ChatRequest -> Completion)
    returns (res: HttpResult<(string, string)>)
    modifies db
    ensures (res, db.monthly) == MonthlySummaryOutcome(old(db.daily), old(db.monthly), userId, body, chat)
    ensures db.daily == old(db.daily)
  {
    var valid := ValidateMonthlyRequest(body);
    if valid.Fail? {
      return Fail(valid.status, valid.message);
    }
    var (year, month) := valid.value;
    if !(MinSqlInteger <= year <= MaxSqlInteger) {
      // The query raises while binding the year; the session is rolled back.
      return Fail(500, "Internal server error");
    }
    var entries := EntriesOfMonth(db.daily, userId, year, month);
    if |entries| == 0 {
      return Fail(404, "No diary entries found for this month");
    }
    var reply := chat(GenerateSummaryRequest(MonthlyPromptFor(year, month, entries), DefaultPersonality, false));
    if reply.Raised? {
      return Fail(500, "Internal server error");
    }
    if !reply.wellFormed {
      return Fail(500, "Failed to generate summary");
    }
    if !(1 <= year <= 9999) {
      // `datetime(year, month, 1)` raises; the session is rolled back.
      return Fail(500, "Internal server error");
    }
    db.UpsertMonthly(userId, IsoDate(Date(year, month, 1)), reply.content);
    res := Ok((IntToString(year) + "-" + ZeroPad(month, 2), reply.content));
  }

  /** A rejected request is answered before any table is read or any
      completion requested: the answer depends on the body alone and the
      monthly table is unchanged. */
  lemma RejectedBeforeAnyWork(daily: seq<DailyRow>, monthly: seq<MonthlyRow>, userId: string, body: Option<Body>,
                              chat: ChatRequest -> Completion, daily2: seq<DailyRow>, chat2: ChatRequest -> Completion)
    requires ValidateMonthlyRequest(body).Fail?
    ensures var out := MonthlySummaryOutcome(daily, monthly, userId, body, chat);
      out.1 == monthly && out.0.Fail? && (out.0.status == 400 || out.0.status == 500)
      && out == MonthlySummaryOutcome(daily2, monthly, userId, body, chat2)
  {
  }

  /** A year beyond SQLite's integers fails the query itself: 500, and the
      monthly table is unchanged, whatever the tables and the completion
      service hold. */
  lemma YearBeyondSqlIntegers(daily: seq<DailyRow>, monthly: seq<MonthlyRow>, userId: string, year: int, month: int,
                              chat: ChatRequest -> Completion)
    requires 1 <= month <= 12 && !(MinSqlInteger <= year <= MaxSqlInteger)
    ensures SummariseMonth(daily, monthly, userId, year, month, chat) == (Fail(500, "Internal server error"), monthly)
  {
  }

  /** For a year the query can bind, without a daily row of that user, year
      and month the answer is 404 and the monthly table is unchanged,
      whatever the completion service does. */
  lemma NoEntriesNotFound(daily: seq<DailyRow>, monthly: seq<MonthlyRow>, userId: string, year: int, month: int,
                          chat: ChatRequest -> Completion)
    requires 1 <= month <= 12 && MinSqlInteger <= year <= MaxSqlInteger
    requires forall k :: 0 <= k < |daily| ==> !(daily[k].userId == userId && DateParts(daily[k].date) == Some((year, month)))
    ensures SummariseMonth(daily, monthly, userId, year, month, chat) == (Fail(404, "No diary entries found for this month"), monthly)
  {
    var entries := EntriesOfMonth(daily, userId, year, month);
    if |entries| > 0 {
      assert entries[0] in daily;
    }
  }

  /** A successful request leaves exactly one row under (user, first of the
      month) when there was at most one, holding the new summary; every row
      under another key is untouched; the answer's month is the year, a dash
      and the two-digit month. */
  lemma SuccessUpserts(daily: seq<DailyRow>, monthly: seq<MonthlyRow>, userId: string, year: int, month: int,
                       chat: ChatRequest -> Completion)
    requires 1 <= month <= 12
    requires SummariseMonth(daily, monthly, userId, year, month, chat).0.Ok?
    ensures 1 <= year <= 9999
    ensures var (res, after) := SummariseMonth(daily, monthly, userId, year, month, chat);
      var key := IsoDate(Date(year, month, 1));
      (CountMonthly(monthly, userId, key) <= 1 ==> CountMonthly(after, userId, key) == 1)
      && FirstMonthly(after, userId, key).Some?
      && after[FirstMonthly(after, userId, key).value] == MonthlyRow(key, userId, res.value.1)
      && (forall i :: 0 <= i < |monthly| && !MonthlyKey(monthly[i], userId, key) ==> i < |after| && after[i] == monthly[i])
      && res.value.0 == IntToString(year) + "-" + ZeroPad(month, 2)
    ensures |ZeroPad(month, 2)| == 2 && DecimalValue(ZeroPad(month, 2)) == month
  {
    SummariseMonthSucceeded(daily, monthly, userId, year, month, chat);
    var (res, after) := SummariseMonth(daily, monthly, userId, year, month, chat);
    UpsertedKey(monthly, userId, IsoDate(Date(year, month, 1)), res.value.1);
    TwoDigitMonth(month);
  }

  lemma TwoDigitMonth(month: int)
    requires 1 <= month <= 12
    ensures |ZeroPad(month, 2)| == 2 && DecimalValue(ZeroPad(month, 2)) == month
  {
    assert Pow10(2) == 100;
    ZeroPadLength(month, 2);
    DecimalValueOfZeroPad(month, 2);
  }

  lemma SummariseMonthSucceeded(daily: seq<DailyRow>, monthly: seq<MonthlyRow>, userId: string, year: int, month: int,
                                chat: ChatRequest -> Completion)
    requires 1 <= month <= 12
    requires SummariseMonth(daily, monthly, userId, year, month, chat).0.Ok?
    ensures 1 <= year <= 9999
    ensures var out := SummariseMonth(daily, monthly, userId, year, month, chat);
      out.1 == Upserted(monthly, userId, IsoDate(Date(year, month, 1)), out.0.value.1)
      && out.0.value.0 == IntToString(year) + "-" + ZeroPad(month, 2)
  {
  }

  /** A table the route alone writes keeps one row per (user, month). */
  lemma RouteKeepsUniqueKeys(daily: seq<DailyRow>, monthly: seq<MonthlyRow>, userId: string, body: Option<Body>,
                             chat: ChatRequest -> Completion)
    requires UniqueKeys(monthly)
    ensures UniqueKeys(MonthlySummaryOutcome(daily, monthly, userId, body, chat).1)
  {
    match ValidateMonthlyRequest(body)
    case Fail(_, _) =>
    case Ok((y, m)) =>
      assert MonthlySummaryOutcome(daily, monthly, userId, body, chat) == SummariseMonth(daily, monthly, userId, y, m, chat);
      if 1 <= y <= 9999 {
        forall s: string {
          UpsertKeepsUniqueKeys(monthly, userId, IsoDate(Date(y, m, 1)), s);
        }
      }
  }

  /** The answer's month is written like the scheduled job's month key,
      yet the row is stored under the first-of-month date, a different text. */
  lemma ResponseMonthIsNotStoredKey(y: int, m: int)
    requires 1000 <= y <= 9999 && 1 <= m <= 12
    ensures IntToString(y) + "-" + ZeroPad(m, 2) == YearMonthKey(Date(y, m, 1))
    ensures YearMonthKey(Date(y, m, 1)) != IsoDate(Date(y, m, 1))
  {
    FourDigitYear(y);
    KeyLengths(Date(y, m, 1));
  }

  lemma FourDigitYear(y: int)
    requires 1000 <= y <= 9999
    ensures IntToString(y) == ZeroPad(y, 4)
  {
    assert Pow10(3) == 1000 && Pow10(4) == 10000;
    NatToStringMinLength(y, 4);
  }

  /** The prompt names the year and month, and the summaries come back
      out of it, in table order, by splitting at line breaks when none of
      them holds one. */
  lemma MonthlyPromptHoldsSummaries(year: int, month: int, entries: seq<DailyRow>)
    requires forall k, j :: 0 <= k < |entries| && 0 <= j < |entries[k].dailySummary| ==> entries[k].dailySummary[j] != '\n'
    ensures var head := "请生成" + IntToString(year) + "年" + IntToString(month) + "月的月度总结，基于以下日记：\n";
      StartsWith(MonthlyPromptFor(year, month, entries), head)
      && (|entries| > 0 ==> Split('\n', MonthlyPromptFor(year, month, entries)[|head|..]) == DailySummaries(entries))
  {
    var head := "请生成" + IntToString(year) + "年" + IntToString(month) + "月的月度总结，基于以下日记：\n";
    var p := MonthlyPromptFor(year, month, entries);
    assert p == head + Join("\n", DailySummaries(entries));
    assert p[..|head|] == head;
    assert p[|head|..] == Join("\n", DailySummaries(entries));
    if |entries| > 0 {
      var parts := DailySummaries(entries);
      forall k | 0 <= k < |parts|
        ensures forall j :: 0 <= j < |parts[k]| ==> parts[k][j] != '\n'
      {
        assert parts[k] == entries[k].dailySummary;
      }
      SplitJoin('\n', parts);
    }
  }

  /** A row the daily job wrote on day d is among the route's entries for
      a year and month exactly when d lies in that month. */
  lemma DailyJobRowsAreFound(daily: seq<DailyRow>, d: Date, userId: string, summary: string, year: int, month: int)
    requires ValidDate(d)
    ensures DailyRow(IsoDate(d), userId, summary) in EntriesOfMonth(daily + [DailyRow(IsoDate(d), userId, summary)], userId, year, month)
      <==> d.year == year && d.month == month
  {
    DatePartsOfIsoDate(d);
  }

  // ---------------------------------------------------------------------------
  // GET /api/v1/monthly-diaries

  /** The `data` part of a month's daily listing: the year and month it
      reports and the rows, before pagination. */
  datatype DailyListing = DailyListing(year: int, month: int, entries: seq<DailyRow>)

  /** The rows of the listing: the user's rows whose date text is `LIKE`
      the prefix followed by `%`, latest date text first. */
  function DailyRowsWithPrefix(daily: seq<DailyRow>, userArg: Option<string>, prefix: string): seq<DailyRow> {
    SortDesc(Filter(daily, (r: DailyRow) => OwnedBy(r.userId, userArg) && LikePrefix(r.date, prefix)),
             (r: DailyRow) => r.date)
  }

  /** `get_daily_summaries()`: with both `year` and `month` given, each must
      parse as an integer (no range check) and the prefix is the two texts
      as given; otherwise it is the current `'%Y-%m-'`. */
  function GetDailySummaries(daily: seq<DailyRow>, yearArg: Option<string>, monthArg: Option<string>,
                             userArg: Option<string>, today: Date): HttpResult<DailyListing>
    requires ValidDate(today)
  {
    if Truthy(yearArg) && Truthy(monthArg) then
      match (ParseIntText(yearArg.value), ParseIntText(monthArg.value))
      case (Some(y), Some(m)) =>
        Ok(DailyListing(y, m, DailyRowsWithPrefix(daily, userArg, yearArg.value + "-" + monthArg.value + "-")))
      case _ => Fail(400, "Invalid year/month parameters")
    else
      Ok(DailyListing(today.year, today.month, DailyRowsWithPrefix(daily, userArg, MonthPrefix(today))))
  }

  /** The daily listing is refused exactly when both arguments are given and
      one of them is not an integer; a month outside 1..12 is accepted. The
      rows listed are the user's rows matching the prefix built from the two
      texts as given, or the current month's prefix, each as often as the
      table holds it, latest first. */
  lemma DailyListingRules(daily: seq<DailyRow>, yearArg: Option<string>, monthArg: Option<string>,
                          userArg: Option<string>, today: Date)
    requires ValidDate(today)
    ensures var r := GetDailySummaries(daily, yearArg, monthArg, userArg, today);
      (r.Fail? <==> Truthy(yearArg) && Truthy(monthArg)
                    && (ParseIntText(yearArg.value).None? || ParseIntText(monthArg.value).None?))
      && (r.Fail? ==> r == Fail(400, "Invalid year/month parameters"))
    ensures var r := GetDailySummaries(daily, yearArg, monthArg, userArg, today);
      var given := Truthy(yearArg) && Truthy(monthArg);
      var prefix := if given then yearArg.value + "-" + monthArg.value + "-" else MonthPrefix(today);
      r.Ok? ==>
        (given ==> r.value.year == ParseIntText(yearArg.value).value
                   && r.value.month == ParseIntText(monthArg.value).value)
        && (!given ==> r.value.year == today.year && r.value.month == today.month)
        && r.value.entries == DailyRowsWithPrefix(daily, userArg, prefix)
        && (forall x :: x in r.value.entries <==> x in daily && OwnedBy(x.userId, userArg) && LikePrefix(x.date, prefix))
        && (forall x :: multiset(r.value.entries)[x] ==
              if OwnedBy(x.userId, userArg) && LikePrefix(x.date, prefix) then multiset(daily)[x] else 0)
        && DescendingBy(r.value.entries, (x: DailyRow) => x.date)
  {
    var given := Truthy(yearArg) && Truthy(monthArg);
    var prefix := if given then yearArg.value + "-" + monthArg.value + "-" else MonthPrefix(today);
    DailyListingContents(daily, userArg, prefix);
  }

  /** The listing holds exactly the user's rows matching the prefix, each as
      often as in the table, latest date text first. */
  lemma DailyListingContents(daily: seq<DailyRow>, userArg: Option<string>, prefix: string)
    ensures var rows := DailyRowsWithPrefix(daily, userArg, prefix);
      (forall r :: r in rows <==> r in daily && OwnedBy(r.userId, userArg) && LikePrefix(r.date, prefix))
      && (forall r :: multiset(rows)[r] ==
            if OwnedBy(r.userId, userArg) && LikePrefix(r.date, prefix) then multiset(daily)[r] else 0)
      && DescendingBy(rows, (r: DailyRow) => r.date)
  {
    var keep := (r: DailyRow) => OwnedBy(r.userId, userArg) && LikePrefix(r.date, prefix);
    var kept := Filter(daily, keep);
    var rows := DailyRowsWithPrefix(daily, userArg, prefix);
    assert multiset(rows) == multiset(kept);
    FilterCounts(daily, keep);
    forall r
      ensures r in rows <==> r in kept
    {
      assert r in rows <==> r in multiset(rows);
      assert r in kept <==> r in multiset(kept);
    }
  }

  /** Without both arguments the listing is the current month: a row dated
      by the daily job on day d is listed exactly when d is in today's month. */
  lemma DefaultListingIsCurrentMonth(d: Date, today: Date)
    requires ValidDate(d) && ValidDate(today)
    ensures LikePrefix(IsoDate(d), MonthPrefix(today)) <==> d.year == today.year && d.month == today.month
  {
    KeysAreDigitsAndDashes(today);
    LiteralPrefix(IsoDate(d), MonthPrefix(today));
    DayInMonthKey(d, today);
    KeyLengths(d);
    KeyLengths(today);
    if StartsWith(IsoDate(d), YearMonthKey(today)) {
      assert IsoDate(d)[..8] == YearMonthKey(d) + "-";
      assert IsoDate(d)[..7] == YearMonthKey(today);
    }
  }

  /** `int()` reads `"2_24"` as 224, yet in the prefix `"2_24-05-"` the
      underscore matches any character: the listing for year `"2_24"` and
      month `"05"` reports year 224 and holds the user's rows of May 2024
      and of May 2124, but no row of May 0224. */
  lemma UnderscoreYearListing(daily: seq<DailyRow>, userArg: Option<string>, today: Date)
    requires ValidDate(today)
    ensures var r := GetDailySummaries(daily, Some("2_24"), Some("05"), userArg, today);
      r.Ok? && r.value.year == 224 && r.value.month == 5
      && forall x :: x in daily && OwnedBy(x.userId, userArg) && (x.date == "2024-05-01" || x.date == "2124-05-31")
                     ==> x in r.value.entries
    ensures var r := GetDailySummaries(daily, Some("2_24"), Some("05"), userArg, today);
      r.Ok? && forall x: DailyRow :: x.date == "0224-05-01" ==> x !in r.value.entries
  {
    UnderscoredYearParses();
    LeadingZeroParses();
    UnderscoreMatchesAnyCharacter();
    UnderscoreMatchesOneCharacterOnly();
    ParsedListing(daily, "2_24", "05", userArg, today, 224, 5);
    DailyListingContents(daily, userArg, "2_24" + "-" + "05" + "-");
  }

  /** The prefix built from the arguments as given: a one-character month
      such as `"5"` never matches a stored `'YYYY-MM-DD'` date, whatever the
      year text short of a `%`, since the prefix would need dashes two
      places apart. */
  lemma UnpaddedMonthMatchesNoDate(s: string, year: string, month: string)
    requires IsoDateShape(s) && |month| == 1 && month[0] != '%'
    requires forall i :: 0 <= i < |year| ==> year[i] != '%'
    ensures !LikePrefix(s, year + "-" + month + "-")
  {
    var p := year + "-" + month + "-";
    var n := |year|;
    assert p[n] == '-' && p[n + 1] == month[0] && p[n + 2] == '-';
    assert forall i :: 0 <= i < |p| ==> p[i] != '%' by {
      forall i | 0 <= i < |p| ensures p[i] != '%' {
        if i < n {
          assert p[i] == year[i];
        }
      }
    }
    LikePrefixMatches(s, p);
    if MatchesAtStart(s, p) {
      CharLikeLiteral(p[n], s[n]);
      CharLikeLiteral(p[n + 2], s[n + 2]);
      assert false;
    }
  }

  /** So a request for a single-digit month, such as year `"2024"` and
      month `"5"`, lists nothing from a table whose dates are all stored in
      the `YYYY-MM-DD` form, as the daily job writes them. */
  lemma SingleDigitMonthListsNothing(daily: seq<DailyRow>, yearArg: string, c: char,
                                     userArg: Option<string>, today: Date)
    requires ValidDate(today) && '1' <= c <= '9'
    requires |yearArg| > 0 && ParseIntText(yearArg).Some?
    requires forall k :: 0 <= k < |daily| ==> IsoDateShape(daily[k].date)
    ensures GetDailySummaries(daily, Some(yearArg), Some([c]), userArg, today)
      == Ok(DailyListing(ParseIntText(yearArg).value, DigitValue(c), []))
  {
    var n := DigitValue(c);
    assert ParseIntText([c]) == Some(n) by {
      assert IntToString(n) == [c];
      ParseIntOfIntToString(n);
    }
    assert DailyRowsWithPrefix(daily, userArg, yearArg + "-" + [c] + "-") == [] by {
      ParsedTextChars(yearArg);
      NothingUnderUnpaddedPrefix(daily, yearArg, c, userArg);
    }
    ParsedListing(daily, yearArg, [c], userArg, today, ParseIntText(yearArg).value, n);
  }

  /** With both arguments parsed, the listing is the prefix built from them. */
  lemma ParsedListing(daily: seq<DailyRow>, yearArg: string, monthArg: string,
                      userArg: Option<string>, today: Date, y: int, m: int)
    requires ValidDate(today) && |yearArg| > 0 && |monthArg| > 0
    requires ParseIntText(yearArg) == Some(y) && ParseIntText(monthArg) == Some(m)
    ensures GetDailySummaries(daily, Some(yearArg), Some(monthArg), userArg, today)
      == Ok(DailyListing(y, m, DailyRowsWithPrefix(daily, userArg, yearArg + "-" + monthArg + "-")))
  {
  }

  lemma NothingUnderUnpaddedPrefix(daily: seq<DailyRow>, yearArg: string, c: char, userArg: Option<string>)
    requires forall k :: 0 <= k < |daily| ==> IsoDateShape(daily[k].date)
    requires forall i :: 0 <= i < |yearArg| ==> IntTextChar(yearArg[i]) && c != '%'
    ensures DailyRowsWithPrefix(daily, userArg, yearArg + "-" + [c] + "-") == []
  {
    var prefix := yearArg + "-" + [c] + "-";
    var kept := Filter(daily, (r: DailyRow) => OwnedBy(r.userId, userArg) && LikePrefix(r.date, prefix));
    if |kept| > 0 {
      assert kept[0] in daily;
      var k :| 0 <= k < |daily| && daily[k] == kept[0];
      UnpaddedMonthMatchesNoDate(daily[k].date, yearArg, [c]);
    }
    assert kept == [];
  }

  // ---------------------------------------------------------------------------
  // GET /api/v1/yearly-monthly-diaries

  /** The `data` part of a year's monthly listing, before pagination. */
  datatype YearlyListing = YearlyListing(year: int, entries: seq<MonthlyRow>)

  /** The user's rows whose month text is `LIKE` the year, a dash and `%`,
      latest month text first. */
  function MonthlyRowsOfYear(monthly: seq<MonthlyRow>, userArg: Option<string>, year: int): seq<MonthlyRow> {
    SortDesc(Filter(monthly, (r: MonthlyRow) => OwnedBy(r.userId, userArg) && LikePrefix(r.month, IntToString(year) + "-")),
             (r: MonthlyRow) => r.month)
  }

  /** `get_yearly_monthly_summaries()`: a given year must parse and lie in
      1900..2100; without one, the current year. */
  function GetYearlyMonthlySummaries(monthly: seq<MonthlyRow>, yearArg: Option<string>, userArg: Option<string>,
                                     today: Date): HttpResult<YearlyListing>
  {
    if Truthy(yearArg) then
      match ParseIntText(yearArg.value)
      case None => Fail(400, "Invalid year parameter")
      case Some(y) =>
        if y < 1900 || y > 2100 then Fail(400, "Invalid year parameter")
        else Ok(YearlyListing(y, MonthlyRowsOfYear(monthly, userArg, y)))
    else Ok(YearlyListing(today.year, MonthlyRowsOfYear(monthly, userArg, today.year)))
  }

  /** The yearly listing is refused exactly for a given year that is not an
      integer in 1900..2100; otherwise it reports the given or the current
      year and holds the user's rows whose month text starts with that year
      and a dash, each as often as the table holds it, latest month text
      first. */
  lemma YearlyListingRules(monthly: seq<MonthlyRow>, yearArg: Option<string>, userArg: Option<string>, today: Date)
    ensures var r := GetYearlyMonthlySummaries(monthly, yearArg, userArg, today);
      (r.Fail? <==> Truthy(yearArg) && (ParseIntText(yearArg.value).None?
                                        || !(1900 <= ParseIntText(yearArg.value).value <= 2100)))
      && (r.Fail? ==> r == Fail(400, "Invalid year parameter"))
      && (r.Ok? ==> r.value.year == if Truthy(yearArg) then ParseIntText(yearArg.value).value else today.year)
    ensures var r := GetYearlyMonthlySummaries(monthly, yearArg, userArg, today);
      r.Ok? ==>
        (forall x :: x in r.value.entries <==>
           x in monthly && OwnedBy(x.userId, userArg) && StartsWith(x.month, IntToString(r.value.year) + "-"))
        && (forall x :: multiset(r.value.entries)[x] ==
              if OwnedBy(x.userId, userArg) && StartsWith(x.month, IntToString(r.value.year) + "-")
              then multiset(monthly)[x] else 0)
        && DescendingBy(r.value.entries, (x: MonthlyRow) => x.month)
  {
    var r := GetYearlyMonthlySummaries(monthly, yearArg, userArg, today);
    if r.Ok? {
      YearlyListingContents(monthly, userArg, r.value.year);
    }
  }

  /** The rows of a year: those whose month text starts with the year and a
      dash (the pattern has no wildcard), each as often as in the table. */
  lemma YearlyListingContents(monthly: seq<MonthlyRow>, userArg: Option<string>, y: int)
    ensures var rows := MonthlyRowsOfYear(monthly, userArg, y);
      (forall x :: x in rows <==> x in monthly && OwnedBy(x.userId, userArg) && StartsWith(x.month, IntToString(y) + "-"))
      && (forall x :: multiset(rows)[x] ==
            if OwnedBy(x.userId, userArg) && StartsWith(x.month, IntToString(y) + "-") then multiset(monthly)[x] else 0)
      && DescendingBy(rows, (x: MonthlyRow) => x.month)
  {
    var p := IntToString(y) + "-";
    var keep := (x: MonthlyRow) => OwnedBy(x.userId, userArg) && LikePrefix(x.month, p);
    var kept := Filter(monthly, keep);
    var rows := MonthlyRowsOfYear(monthly, userArg, y);
    assert forall x: MonthlyRow :: LikePrefix(x.month, p) <==> StartsWith(x.month, p) by {
      IntToStringChars(y);
      assert forall i :: 0 <= i < |p| ==> IsDigit(p[i]) || p[i] == '-' by {
        forall i | 0 <= i < |p| ensures IsDigit(p[i]) || p[i] == '-' {
          if i < |IntToString(y)| {
            assert p[i] == IntToString(y)[i];
          }
        }
      }
      forall x: MonthlyRow ensures LikePrefix(x.month, p) <==> StartsWith(x.month, p) {
        LiteralPrefix(x.month, p);
      }
    }
    assert multiset(rows) == multiset(kept);
    FilterCounts(monthly, keep);
    forall x
      ensures x in rows <==> x in kept
    {
      assert x in rows <==> x in multiset(rows);
      assert x in kept <==> x in multiset(kept);
    }
  }

  /** A year argument led by an ASCII separator U+001C..U+001F, such as
      `?year=%1C2024`, is refused with 400: `int()` does not skip it,
      although Python counts it as whitespace. */
  lemma SeparatorYearRefused(monthly: seq<MonthlyRow>, yearText: string, userArg: Option<string>, today: Date)
    requires |yearText| > 0 && '\U{1c}' <= yearText[0] <= '\U{1f}'
    ensures GetYearlyMonthlySummaries(monthly, Some(yearText), userArg, today) == Fail(400, "Invalid year parameter")
  {
    LeadingSeparatorRefused(yearText);
  }

  /** Both month-key formats are found by year: a row keyed `'YYYY-MM'` by
      the scheduled job and a row keyed `'YYYY-MM-01'` by the route are
      listed for year y exactly when their month lies in y. */
  lemma BothKeyFormatsListedByYear(d: Date, y: int)
    requires ValidDate(d) && 1900 <= y <= 2100
    ensures StartsWith(YearMonthKey(d), IntToString(y) + "-") <==> d.year == y
    ensures StartsWith(IsoDate(Date(d.year, d.month, 1)), IntToString(y) + "-") <==> d.year == y
  {
    FourDigitYear(y);
    var first := Date(d.year, d.month, 1);
    PaddedLengths(d);
    PaddedLengths(first);
    var p := ZeroPad(y, 4) + "-";
    assert Pow10(4) == 10000;
    ZeroPadLength(y, 4);
    assert YearMonthKey(d)[..4] == ZeroPad(d.year, 4);
    assert IsoDate(first)[..4] == ZeroPad(d.year, 4);
    if StartsWith(YearMonthKey(d), p) {
      assert YearMonthKey(d)[..4] == p[..4];
      ZeroPadInjective(d.year, y, 4);
    }
    if StartsWith(IsoDate(first), p) {
      assert IsoDate(first)[..4] == p[..4];
      ZeroPadInjective(d.year, y, 4);
    }
    if d.year == y {
      assert YearMonthKey(d)[..5] == p;
      assert IsoDate(first)[..5] == p;
    }
  }

  // ---------------------------------------------------------------------------
  // GET /api/v1/diaries

  /** One day's entry, or every daily and monthly row of the user. */
  datatype DiaryView =
    | OneDay(date: string, dailySummary: string)
    | Everything(dailyEntries: seq<DailyRow>, monthlyEntries: seq<MonthlyRow>)

  /** `get_diary()` */
  function GetDiary(daily: seq<DailyRow>, monthly: seq<MonthlyRow>, dateArg: Option<string>,
                    userArg: Option<string>): HttpResult<DiaryView>
  {
    if Truthy(dateArg) then
      if userArg.None? then Fail(404, "No daily diary entry found for the given date")
      else
        match FirstDaily(daily, userArg.value, dateArg.value)
        case None => Fail(404, "No daily diary entry found for the given date")
        case Some(i) => Ok(OneDay(daily[i].date, daily[i].dailySummary))
    else
      Ok(Everything(Filter(daily, (r: DailyRow) => OwnedBy(r.userId, userArg)),
                    Filter(monthly, (r: MonthlyRow) => OwnedBy(r.userId, userArg))))
  }

  /** A dated lookup finds the user's entry for that date exactly when one
      exists, and then returns the first one in table order: after the daily
      job ran twice on a day, the first run's summary. */
  lemma DiaryLookupByDate(daily: seq<DailyRow>, monthly: seq<MonthlyRow>, date: string, userId: string)
    requires |date| > 0
    ensures var r := GetDiary(daily, monthly, Some(date), Some(userId));
      (r.Ok? <==> exists k :: 0 <= k < |daily| && daily[k].userId == userId && daily[k].date == date)
      && (r.Fail? ==> r.status == 404)
      && (r.Ok? ==> var i := FirstDaily(daily, userId, date).value;
                    r.value == OneDay(date, daily[i].dailySummary)
                    && forall k :: 0 <= k < i ==> !(daily[k].userId == userId && daily[k].date == date))
  {
  }

  /** Without a date the view holds exactly the user's daily and monthly
      rows, each as often as its table holds it, and nothing at all when no
      `user_id` argument is given. */
  lemma DiaryWithoutDate(daily: seq<DailyRow>, monthly: seq<MonthlyRow>, dateArg: Option<string>,
                         userArg: Option<string>)
    requires !Truthy(dateArg)
    ensures var r := GetDiary(daily, monthly, dateArg, userArg);
      r.Ok? && r.value.Everything?
      && (forall x :: x in r.value.dailyEntries <==> x in daily && OwnedBy(x.userId, userArg))
      && (forall x :: x in r.value.monthlyEntries <==> x in monthly && OwnedBy(x.userId, userArg))
      && (forall x :: multiset(r.value.dailyEntries)[x] == if OwnedBy(x.userId, userArg) then multiset(daily)[x] else 0)
      && (forall x :: multiset(r.value.monthlyEntries)[x] == if OwnedBy(x.userId, userArg) then multiset(monthly)[x] else 0)
      && (userArg.None? ==> r.value.dailyEntries == [] && r.value.monthlyEntries == [])
  {
    var r := GetDiary(daily, monthly, dateArg, userArg);
    FilterCounts(daily, (x: DailyRow) => OwnedBy(x.userId, userArg));
    FilterCounts(monthly, (x: MonthlyRow) => OwnedBy(x.userId, userArg));
    if userArg.None? {
      HeadIsMember(r.value.dailyEntries);
      HeadIsMember(r.value.monthlyEntries);
    }
  }

  /** The undated view keeps table order: rows added to either table after
      others come after them in the view, and a single row is shown exactly
      when it is the user's. */
  lemma DiaryKeepsTableOrder(daily: seq<DailyRow>, moreDaily: seq<DailyRow>, monthly: seq<MonthlyRow>,
                             moreMonthly: seq<MonthlyRow>, userArg: Option<string>)
    ensures var whole := GetDiary(daily + moreDaily, monthly + moreMonthly, None, userArg).value;
      var front := GetDiary(daily, monthly, None, userArg).value;
      var back := GetDiary(moreDaily, moreMonthly, None, userArg).value;
      whole.dailyEntries == front.dailyEntries + back.dailyEntries
      && whole.monthlyEntries == front.monthlyEntries + back.monthlyEntries
    ensures forall d: DailyRow, m: MonthlyRow ::
              GetDiary([d], [m], None, userArg).value
              == Everything(if OwnedBy(d.userId, userArg) then [d] else [], if OwnedBy(m.userId, userArg) then [m] else [])
  {
    FilterAppend(daily, moreDaily, (x: DailyRow) => OwnedBy(x.userId, userArg));
    FilterAppend(monthly, moreMonthly, (x: MonthlyRow) => OwnedBy(x.userId, userArg));
    forall d: DailyRow, m: MonthlyRow
      ensures GetDiary([d], [m], None, userArg).value ==
        Everything(if OwnedBy(d.userId, userArg) then [d] else [], if OwnedBy(m.userId, userArg) then [m] else [])
    {
      FilterOne(d, (x: DailyRow) => OwnedBy(x.userId, userArg));
      FilterOne(m, (x: MonthlyRow) => OwnedBy(x.userId, userArg));
    }
  }

  lemma HeadIsMember<T>(s: seq<T>)
    ensures |s| == 0 || s[0] in s
  {
  }

  // ---------------------------------------------------------------------------
  // POST /api/v1/conversation

  /** `f"Q: {input} A: {bot_response}"` */
  function TurnText(input: string, reply: string): string {
    "Q: " + input + " A: " + reply
  }

  /** The stored turn reads question then answer: the input sits right
      after `"Q: "` and the reply is everything after `" A: "` that follows it. */
  lemma TurnTextParts(input: string, reply: string)
    ensures var t := TurnText(input, reply);
      StartsWith(t, "Q: ") && t[3..3 + |input|] == input
      && t[3 + |input|..7 + |input|] == " A: " && t[7 + |input|..] == reply
      && EndsWith(t, reply)
  {
    var t := TurnText(input, reply);
    assert t == "Q: " + input + " A: " + reply;
    assert t[|t| - |reply|..] == reply;
  }

  /** The answer of `conversation()` and the collections after it. The
      collection written is the one named by the body's `user_id`, not the
      signed-in user. */
  function ConversationOutcome(collections: map<string, seq<Record>>, body: Option<Body>,
                               chat: ChatRequest -> Completion, chain: string -> Option<string>,
                               rank: Ranking, polarity: string -> real)
    : (HttpResult<string>, map<string, seq<Record>>)
  {
    if body.None? || |body.value| == 0 || "input" !in body.value then
      (Fail(400, "Missing conversation input"), collections)
    else
      var input := PyStr(body.value["input"]);
      match chat(GenerateSummaryRequest(input, DefaultPersonality, false))
      case Raised => (Fail(500, "Internal server error"), collections)
      case Completed(_, reply) =>
        if "user_id" !in body.value then (Fail(500, "Internal server error"), collections)
        else
          var name := CollectionName(PyStr(body.value["user_id"]));
          var before := Lookup(collections, name);
          match Summary(LatestSummary(before, rank), TurnText(input, reply), chain, polarity)
          case None => (Fail(500, "Internal server error"), collections[name := before])
          case Some(s) => (Ok(reply), collections[name := Appended(before, s)])
  }

  /** `conversation()` */
  method Conversation(store: VectorStore, body: Option<Body>, chat: ChatRequest -> Completion,
                      chain: string -> Option<string>, rank: Ranking, polarity: string -> real)
    returns (res: HttpResult<string>)
    modifies store
    ensures (res, store.collections) == ConversationOutcome(old(store.collections), body, chat, chain, rank, polarity)
  {
    if body.None? || |body.value| == 0 || "input" !in body.value {
      return Fail(400, "Missing conversation input");
    }
    var data := body.value;
    var input := PyStr(data["input"]);
    var response := chat(GenerateSummaryRequest(input, DefaultPersonality, false));
    if response.Raised? {
      return Fail(500, "Internal server error");
    }
    if "user_id" !in data {
      return Fail(500, "Internal server error");
    }
    var botResponse := response.content;
    var added := store.AddConversation(PyStr(data["user_id"]), TurnText(input, botResponse), chain, rank, polarity);
    if !added {
      return Fail(500, "Internal server error");
    }
    res := Ok(botResponse);
  }

  /** A body without `input` is refused with 400 before anything else. */
  lemma ConversationNeedsInput(collections: map<string, seq<Record>>, body: Option<Body>,
                               chat: ChatRequest -> Completion, chain: string -> Option<string>,
                               rank: Ranking, polarity: string -> real)
    requires body.None? || "input" !in body.value
    ensures ConversationOutcome(collections, body, chat, chain, rank, polarity) == (Fail(400, "Missing conversation input"), collections)
  {
  }

  /** A turn that succeeds adds exactly one record to the user's collection:
      the summary of `"Q: " + input + " A: " + reply`, not the raw turn, with
      the next counter as id; every other collection keeps its records. A
      turn that fails stores nothing. */
  lemma ConversationStoresSummaryOfTurn(collections: map<string, seq<Record>>, body: Option<Body>,
                                        chat: ChatRequest -> Completion, chain: string -> Option<string>,
                                        rank: Ranking, polarity: string -> real)
    ensures var out := ConversationOutcome(collections, body, chat, chain, rank, polarity);
      out.0.Fail? ==> forall name :: Lookup(out.1, name) == Lookup(collections, name)
    ensures var out := ConversationOutcome(collections, body, chat, chain, rank, polarity);
      out.0.Ok? ==>
        body.Some? && "input" in body.value && "user_id" in body.value
        && var name := CollectionName(PyStr(body.value["user_id"]));
           var before := Lookup(collections, name);
           var s := Summary(LatestSummary(before, rank), TurnText(PyStr(body.value["input"]), out.0.value), chain, polarity);
           s.Some?
           && Lookup(out.1, name) == before + [Record(NatToString(|before|), s.value, SourceTag)]
           && (forall other :: other != name ==> Lookup(out.1, other) == Lookup(collections, other))
  {
  }

  /** The route keeps every collection numbered: ids stay "0", "1", … in
      storage order, so no two records of a collection share an id. */
  lemma ConversationKeepsNumbering(collections: map<string, seq<Record>>, body: Option<Body>,
                                   chat: ChatRequest -> Completion, chain: string -> Option<string>,
                                   rank: Ranking, polarity: string -> real)
    requires AllNumbered(collections)
    ensures AllNumbered(ConversationOutcome(collections, body, chat, chain, rank, polarity).1)
  {
    if body.Some? && "user_id" in body.value {
      StoreKeepsNumbering(collections, CollectionName(PyStr(body.value["user_id"])));
    }
  }
}
