/** The two diary tables the routes and the scheduled jobs share. The row
    types are reconstructed from how the code uses them: a daily row has a
    day key, its owner and a summary; a monthly row has a month key, its
    owner and a summary. Both keys are kept as the text SQLite stores. */
module DiaryTables {
  import opened Strings

  /** A `DailyDiaryEntry` row. */
  datatype DailyRow = DailyRow(date: string, userId: string, dailySummary: string)

  /** A `MonthlyDiaryEntry` row. The `month` column holds `'YYYY-MM'` when
      the scheduled job wrote the row and `'YYYY-MM-01'` when the route did. */
  datatype MonthlyRow = MonthlyRow(month: string, userId: string, monthlySummary: string)

  // ---------------------------------------------------------------------------
  // Counting and finding rows by key

  predicate MonthlyKey(row: MonthlyRow, userId: string, month: string) {
    row.userId == userId && row.month == month
  }

  /** How many monthly rows carry the key (user, month). */
  function CountMonthly(rows: seq<MonthlyRow>, userId: string, month: string): nat
    decreases |rows|
  {
    if |rows| == 0 then 0
    else CountMonthly(rows[..|rows| - 1], userId, month) + (if MonthlyKey(rows[|rows| - 1], userId, month) then 1 else 0)
  }

  /** How many daily rows carry the key (user, date). */
  function CountDaily(rows: seq<DailyRow>, userId: string, date: string): nat
    decreases |rows|
  {
    if |rows| == 0 then 0
    else CountDaily(rows[..|rows| - 1], userId, date) + (if rows[|rows| - 1].userId == userId && rows[|rows| - 1].date == date then 1 else 0)
  }

  lemma {:induction false} CountMonthlyZero(rows: seq<MonthlyRow>, userId: string, month: string)
    ensures CountMonthly(rows, userId, month) == 0 <==> forall i :: 0 <= i < |rows| ==> !MonthlyKey(rows[i], userId, month)
    decreases |rows|
  {
    if |rows| > 0 {
      CountMonthlyZero(rows[..|rows| - 1], userId, month);
    }
  }

  lemma {:induction false} CountMonthlyAppend(rows: seq<MonthlyRow>, more: seq<MonthlyRow>, userId: string, month: string)
    ensures CountMonthly(rows + more, userId, month) == CountMonthly(rows, userId, month) + CountMonthly(more, userId, month)
    decreases |more|
  {
    if |more| == 0 {
      assert rows + more == rows;
    } else {
      assert (rows + more)[..|rows + more| - 1] == rows + more[..|more| - 1];
      CountMonthlyAppend(rows, more[..|more| - 1], userId, month);
    }
  }

  lemma {:induction false} CountDailyAppend(rows: seq<DailyRow>, more: seq<DailyRow>, userId: string, date: string)
    ensures CountDaily(rows + more, userId, date) == CountDaily(rows, userId, date) + CountDaily(more, userId, date)
    decreases |more|
  {
    if |more| == 0 {
      assert rows + more == rows;
    } else {
      assert (rows + more)[..|rows + more| - 1] == rows + more[..|more| - 1];
      CountDailyAppend(rows, more[..|more| - 1], userId, date);
    }
  }

  /** Overwriting the summary of a row leaves every key count as it was. */
  lemma {:induction false} CountMonthlyUpdate(rows: seq<MonthlyRow>, i: nat, summary: string, userId: string, month: string)
    requires i < |rows|
    ensures CountMonthly(rows[i := rows[i].(monthlySummary := summary)], userId, month) == CountMonthly(rows, userId, month)
    decreases |rows|
  {
    var updated := rows[i := rows[i].(monthlySummary := summary)];
    if i == |rows| - 1 {
      assert updated[..|rows| - 1] == rows[..|rows| - 1];
    } else {
      assert updated[..|rows| - 1] == rows[..|rows| - 1][i := rows[i].(monthlySummary := summary)];
      CountMonthlyUpdate(rows[..|rows| - 1], i, summary, userId, month);
    }
  }

  /** `MonthlyDiaryEntry.query.filter_by(month=…, user_id=…).first()`: the
      position of the first row with the key, in table order. */
  function FirstMonthly(rows: seq<MonthlyRow>, userId: string, month: string): (r: Option<nat>)
    ensures r.Some? ==> r.value < |rows| && MonthlyKey(rows[r.value], userId, month)
    ensures r.Some? ==> forall i :: 0 <= i < r.value ==> !MonthlyKey(rows[i], userId, month)
    ensures r.None? ==> forall i :: 0 <= i < |rows| ==> !MonthlyKey(rows[i], userId, month)
    decreases |rows|
  {
    if |rows| == 0 then None
    else if MonthlyKey(rows[0], userId, month) then Some(0)
    else match FirstMonthly(rows[1..], userId, month)
      case None => None
      case Some(k) => Some(k + 1)
  }

  /** `DailyDiaryEntry.query.filter_by(date=…, user_id=…).first()`: the
      position of the first row for that user and date, in table order. */
  function FirstDaily(rows: seq<DailyRow>, userId: string, date: string): (r: Option<nat>)
    ensures r.Some? ==> r.value < |rows| && rows[r.value].userId == userId && rows[r.value].date == date
    ensures r.Some? ==> forall i :: 0 <= i < r.value ==> !(rows[i].userId == userId && rows[i].date == date)
    ensures r.None? ==> forall i :: 0 <= i < |rows| ==> !(rows[i].userId == userId && rows[i].date == date)
    decreases |rows|
  {
    if |rows| == 0 then None
    else if rows[0].userId == userId && rows[0].date == date then Some(0)
    else match FirstDaily(rows[1..], userId, date)
      case None => None
      case Some(k) => Some(k + 1)
  }

  /** The summaries of some daily rows, in the same order. */
  function DailySummaries(rows: seq<DailyRow>): (r: seq<string>)
    ensures |r| == |rows| && forall k :: 0 <= k < |rows| ==> r[k] == rows[k].dailySummary
  {
    seq(|rows|, k requires 0 <= k < |rows| => rows[k].dailySummary)
  }

  /** The summaries of two runs of rows are those of the first run followed
      by those of the second. */
  lemma DailySummariesAppend(a: seq<DailyRow>, b: seq<DailyRow>)
    ensures DailySummaries(a + b) == DailySummaries(a) + DailySummaries(b)
  {
    assert forall k :: 0 <= k < |b| ==> (a + b)[|a| + k] == b[k];
  }

  // ---------------------------------------------------------------------------
  // Upsert

  /** The monthly table after the route saves `summary` under (user, month):
      the first row with that key gets the new summary, and when there is
      none a row is appended. */
  function Upserted(rows: seq<MonthlyRow>, userId: string, month: string, summary: string): seq<MonthlyRow> {
    match FirstMonthly(rows, userId, month)
    case Some(i) => rows[i := rows[i].(monthlySummary := summary)]
    case None => rows + [MonthlyRow(month, userId, summary)]
  }

  /** After an upsert the key is present with the new summary, the number of
      rows with that key is one if there were none and unchanged otherwise,
      and every row with another key is untouched. */
  lemma UpsertedKey(rows: seq<MonthlyRow>, userId: string, month: string, summary: string)
    ensures var r := Upserted(rows, userId, month, summary);
      var before := CountMonthly(rows, userId, month);
      CountMonthly(r, userId, month) == (if before == 0 then 1 else before)
      && |r| == (if before == 0 then |rows| + 1 else |rows|)
      && (forall i :: 0 <= i < |rows| && !MonthlyKey(rows[i], userId, month) ==> r[i] == rows[i])
      && FirstMonthly(r, userId, month).Some?
      && r[FirstMonthly(r, userId, month).value] == MonthlyRow(month, userId, summary)
  {
    var r := Upserted(rows, userId, month, summary);
    CountMonthlyZero(rows, userId, month);
    match FirstMonthly(rows, userId, month)
    case Some(i) =>
      CountMonthlyUpdate(rows, i, summary, userId, month);
      FirstIsStable(rows, r, i, userId, month);
    case None =>
      CountMonthlyAppend(rows, [MonthlyRow(month, userId, summary)], userId, month);
      assert CountMonthly([MonthlyRow(month, userId, summary)], userId, month) == 1 by {
        assert [MonthlyRow(month, userId, summary)][..0] == [];
      }
      FirstIsStable(rows, r, |rows|, userId, month);
  }

  lemma FirstIsStable(rows: seq<MonthlyRow>, r: seq<MonthlyRow>, i: nat, userId: string, month: string)
    requires i < |r| && MonthlyKey(r[i], userId, month)
    requires forall k :: 0 <= k < i ==> k < |rows| && r[k] == rows[k] && !MonthlyKey(rows[k], userId, month)
    ensures FirstMonthly(r, userId, month) == Some(i)
  {
    var f := FirstMonthly(r, userId, month);
    assert f.Some?;
  }

  /** Saving the same summary twice leaves the table as saving it once. */
  lemma UpsertIdempotent(rows: seq<MonthlyRow>, userId: string, month: string, summary: string)
    ensures Upserted(Upserted(rows, userId, month, summary), userId, month, summary) == Upserted(rows, userId, month, summary)
  {
    var once := Upserted(rows, userId, month, summary);
    UpsertedKey(rows, userId, month, summary);
    var i := FirstMonthly(once, userId, month).value;
    assert once[i := once[i].(monthlySummary := summary)] == once;
  }

  /** No key is carried by two rows. */
  predicate UniqueKeys(rows: seq<MonthlyRow>) {
    forall i, j :: 0 <= i < j < |rows| ==> !(rows[i].userId == rows[j].userId && rows[i].month == rows[j].month)
  }

  /** A table in which the route alone writes keeps one row per key. */
  lemma UpsertKeepsUniqueKeys(rows: seq<MonthlyRow>, userId: string, month: string, summary: string)
    requires UniqueKeys(rows)
    ensures UniqueKeys(Upserted(rows, userId, month, summary))
  {
    var r := Upserted(rows, userId, month, summary);
    match FirstMonthly(rows, userId, month)
    case Some(k) =>
      forall i, j | 0 <= i < j < |r|
        ensures !(r[i].userId == r[j].userId && r[i].month == r[j].month)
      {
        assert r[i].userId == rows[i].userId && r[i].month == rows[i].month;
        assert r[j].userId == rows[j].userId && r[j].month == rows[j].month;
      }
    case None =>
  }

  // ---------------------------------------------------------------------------
  // Selecting and ordering rows

  /** The rows a query's filter keeps, in table order. */
  function Filter<T(!new)>(rows: seq<T>, keep: T -> bool): (r: seq<T>)
    ensures |r| <= |rows|
    ensures forall x :: x in r <==> x in rows && keep(x)
    decreases |rows|
  {
    if |rows| == 0 then []
    else Filter(rows[..|rows| - 1], keep) + (if keep(rows[|rows| - 1]) then [rows[|rows| - 1]] else [])
  }

  /** A kept row is kept as often as the table holds it, any other row never. */
  lemma {:induction false} FilterCounts<T(!new)>(rows: seq<T>, keep: T -> bool)
    ensures forall x :: multiset(Filter(rows, keep))[x] == if keep(x) then multiset(rows)[x] else 0
    decreases |rows|
  {
    if |rows| > 0 {
      var front := rows[..|rows| - 1];
      assert rows == front + [rows[|rows| - 1]];
      FilterCounts(front, keep);
    }
  }

  /** The filter keeps table order: the rows kept from a table followed by
      more rows are those kept from the table, then those kept from the rest. */
  lemma {:induction false} FilterAppend<T(!new)>(a: seq<T>, b: seq<T>, keep: T -> bool)
    ensures Filter(a + b, keep) == Filter(a, keep) + Filter(b, keep)
    decreases |b|
  {
    if |b| == 0 {
      assert a + b == a;
    } else {
      var last := b[|b| - 1];
      var front := b[..|b| - 1];
      var tail := if keep(last) then [last] else [];
      calc {
        Filter(a + b, keep);
        { assert (a + b)[..|a + b| - 1] == a + front && (a + b)[|a + b| - 1] == last; }
        Filter(a + front, keep) + tail;
        { FilterAppend(a, front, keep); }
        Filter(a, keep) + Filter(front, keep) + tail;
        Filter(a, keep) + (Filter(front, keep) + tail);
      }
    }
  }

  /** A one-row table keeps its row exactly when the filter does. */
  lemma FilterOne<T(!new)>(x: T, keep: T -> bool)
    ensures Filter([x], keep) == if keep(x) then [x] else []
  {
    assert [x][..0] == [];
  }

  // ---------------------------------------------------------------------------
  // Text patterns

  predicate IsAsciiLetter(ch: char) {
    'a' <= ch <= 'z' || 'A' <= ch <= 'Z'
  }

  function AsciiLower(ch: char): char {
    if 'A' <= ch <= 'Z' then (ch as int + 32) as char else ch
  }

  /** One pattern character against one text character: `_` matches any
      character, any other character itself up to ASCII case. */
  predicate CharLike(pc: char, ch: char) {
    pc == '_' || AsciiLower(pc) == AsciiLower(ch)
  }

  /** SQLite's `text LIKE pattern` with no `ESCAPE` clause: `%` matches any
      run of characters, `_` any one character, every other character
      itself with ASCII letters compared case-insensitively. */
  predicate Like(s: string, pattern: string)
    decreases |s| + |pattern|
  {
    if |pattern| == 0 then |s| == 0
    else if pattern[0] == '%' then Like(s, pattern[1..]) || (|s| > 0 && Like(s[1..], pattern))
    else |s| > 0 && CharLike(pattern[0], s[0]) && Like(s[1..], pattern[1..])
  }

  /** `column.startswith(p)` in a query: SQLAlchemy sends `column LIKE p || '%'`
      without escaping `p`. */
  predicate LikePrefix(s: string, p: string) {
    Like(s, p + "%")
  }

  /** A prefix without `%` matches character by character at the start. */
  predicate MatchesAtStart(s: string, p: string) {
    |p| <= |s| && forall i :: 0 <= i < |p| ==> CharLike(p[i], s[i])
  }

  lemma {:induction false} LikeAnything(s: string)
    ensures Like(s, "%")
    decreases |s|
  {
    assert "%"[1..] == "";
    if |s| > 0 {
      LikeAnything(s[1..]);
    }
  }

  /** With no `%` in it, the prefix pattern holds exactly when each of its
      characters matches the text's character at the same place, `_`
      matching any. */
  lemma {:induction false} LikePrefixMatches(s: string, p: string)
    requires forall i :: 0 <= i < |p| ==> p[i] != '%'
    ensures LikePrefix(s, p) <==> MatchesAtStart(s, p)
    decreases |p|
  {
    if |p| == 0 {
      assert p + "%" == "%";
      LikeAnything(s);
    } else {
      assert (p + "%")[0] == p[0] && (p + "%")[1..] == p[1..] + "%";
      if |s| > 0 {
        LikePrefixMatches(s[1..], p[1..]);
        if MatchesAtStart(s, p) {
          assert forall i :: 0 <= i < |p| - 1 ==> CharLike(p[1..][i], s[1..][i]) by {
            forall i | 0 <= i < |p| - 1 ensures CharLike(p[1..][i], s[1..][i]) {
              assert CharLike(p[i + 1], s[i + 1]);
            }
          }
        }
        if CharLike(p[0], s[0]) && MatchesAtStart(s[1..], p[1..]) {
          forall i | 0 <= i < |p| ensures CharLike(p[i], s[i]) {
            if i > 0 {
              assert CharLike(p[1..][i - 1], s[1..][i - 1]);
            }
          }
        }
      }
    }
  }

  /** `_` in a prefix matches any character, so the prefix built from the
      texts `"2_24"` and `"05"` matches the dates of May 2024 and of May 2124
      alike. */
  lemma UnderscoreMatchesAnyCharacter()
    ensures LikePrefix("2024-05-01", "2_24" + "-" + "05" + "-") && LikePrefix("2124-05-31", "2_24" + "-" + "05" + "-")
  {
    var p := "2_24-05-";
    assert "2_24" + "-" + "05" + "-" == p;
    LikePrefixMatches("2024-05-01", p);
    LikePrefixMatches("2124-05-31", p);
  }

  /** The characters around the `_` still have to match: that prefix does
      not match the dates of May 0224, the year `int()` reads from `"2_24"`. */
  lemma UnderscoreMatchesOneCharacterOnly()
    ensures !LikePrefix("0224-05-01", "2_24" + "-" + "05" + "-")
  {
    var p := "2_24-05-";
    assert "2_24" + "-" + "05" + "-" == p;
    LikePrefixMatches("0224-05-01", p);
    assert !CharLike(p[0], '0');
  }

  /** A character that is neither `_` nor an ASCII letter matches only itself. */
  lemma CharLikeLiteral(pc: char, ch: char)
    requires pc != '_' && !IsAsciiLetter(pc)
    ensures CharLike(pc, ch) <==> pc == ch
  {
  }

  /** A prefix of digits and dashes, as every date key is, matches exactly
      the texts that start with it. */
  lemma LiteralPrefix(s: string, p: string)
    requires forall i :: 0 <= i < |p| ==> IsDigit(p[i]) || p[i] == '-'
    ensures LikePrefix(s, p) <==> StartsWith(s, p)
  {
    LikePrefixMatches(s, p);
    if MatchesAtStart(s, p) {
      forall i | 0 <= i < |p| ensures s[..|p|][i] == p[i] {
        CharLikeLiteral(p[i], s[i]);
      }
      assert s[..|p|] == p;
    }
    if StartsWith(s, p) {
      forall i | 0 <= i < |p| ensures CharLike(p[i], s[i]) {
        assert s[..|p|][i] == s[i];
      }
    }
  }

  /** Descending code-point order of the key, which is how SQLite orders
      `ORDER BY … DESC` on a TEXT column. */
  predicate DescendingBy<T>(rows: seq<T>, key: T -> string) {
    forall i, j :: 0 <= i < j < |rows| ==> TextLe(key(rows[j]), key(rows[i]))
  }

  function InsertDesc<T>(x: T, rows: seq<T>, key: T -> string): (r: seq<T>)
    requires DescendingBy(rows, key)
    ensures multiset(r) == multiset(rows) + multiset{x}
    ensures DescendingBy(r, key)
    decreases |rows|
  {
    if |rows| == 0 then [x]
    else if TextLe(key(rows[0]), key(x)) then
      InsertFrontDesc(x, rows, key);
      [x] + rows
    else
      TextLeTotal(key(rows[0]), key(x));
      var rest := InsertDesc(x, rows[1..], key);
      assert rows == [rows[0]] + rows[1..];
      InsertBehindDesc(rows[0], rest, rows[1..], x, key);
      [rows[0]] + rest
  }

  lemma InsertFrontDesc<T>(x: T, rows: seq<T>, key: T -> string)
    requires |rows| > 0 && DescendingBy(rows, key) && TextLe(key(rows[0]), key(x))
    ensures DescendingBy([x] + rows, key)
  {
    var r := [x] + rows;
    forall i, j | 0 <= i < j < |r|
      ensures TextLe(key(r[j]), key(r[i]))
    {
      if i == 0 && j > 1 {
        assert TextLe(key(rows[j - 1]), key(rows[0]));
        TextLeTransitive(key(rows[j - 1]), key(rows[0]), key(x));
      } else if i > 0 {
        assert r[i] == rows[i - 1] && r[j] == rows[j - 1];
      }
    }
  }

  lemma InsertBehindDesc<T>(head: T, rest: seq<T>, tail: seq<T>, x: T, key: T -> string)
    requires DescendingBy(rest, key) && DescendingBy([head] + tail, key)
    requires multiset(rest) == multiset(tail) + multiset{x}
    requires TextLe(key(x), key(head))
    ensures DescendingBy([head] + rest, key)
  {
    var r := [head] + rest;
    forall i, j | 0 <= i < j < |r|
      ensures TextLe(key(r[j]), key(r[i]))
    {
      if i == 0 {
        var e := rest[j - 1];
        assert r[j] == e && r[0] == head;
        assert e in multiset(rest);
        if e != x {
          assert e in multiset(tail);
          var k :| 0 <= k < |tail| && tail[k] == e;
          assert ([head] + tail)[k + 1] == e && ([head] + tail)[0] == head;
        }
      } else {
        assert r[i] == rest[i - 1] && r[j] == rest[j - 1];
      }
    }
  }

  /** `ORDER BY key DESC`: the same rows, greatest key first. */
  function SortDesc<T>(rows: seq<T>, key: T -> string): (r: seq<T>)
    ensures multiset(r) == multiset(rows)
    ensures DescendingBy(r, key)
    decreases |rows|
  {
    if |rows| == 0 then []
    else
      assert rows == [rows[0]] + rows[1..];
      InsertDesc(rows[0], SortDesc(rows[1..], key), key)
  }

  // ---------------------------------------------------------------------------
  // The tables

  /** The committed contents of the two tables. */
  class DiaryDb {
    var daily: seq<DailyRow>
    var monthly: seq<MonthlyRow>

    constructor ()
      ensures daily == [] && monthly == []
    {
      daily := [];
      monthly := [];
    }

    /** Daily rows added to the session one by one, then one commit. */
    method CommitDaily(rows: seq<DailyRow>)
      modifies this
      ensures daily == old(daily) + rows && monthly == old(monthly)
    {
      daily := daily + rows;
    }

    /** Monthly rows added to the session one by one, then one commit. */
    method CommitMonthly(rows: seq<MonthlyRow>)
      modifies this
      ensures monthly == old(monthly) + rows && daily == old(daily)
    {
      monthly := monthly + rows;
    }

    /** Look up the first row for (user, month); overwrite its summary or
        add a row; commit. */
    method UpsertMonthly(userId: string, month: string, summary: string)
      modifies this
      ensures monthly == Upserted(old(monthly), userId, month, summary) && daily == old(daily)
    {
      var existing := FirstMonthly(monthly, userId, month);
      if existing.Some? {
        var i := existing.value;
        monthly := monthly[i := monthly[i].(monthlySummary := summary)];
      } else {
        monthly := monthly + [MonthlyRow(month, userId, summary)];
      }
    }
  }
}
