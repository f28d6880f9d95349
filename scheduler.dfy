/** The two scheduled jobs. Once a day every user gets a new daily row
    summarising their stored conversations; on the first of every month
    every user gets a new monthly row summarising the daily rows of the
    current month. Each job loops over all users, adds one row per user to
    the session and commits once after the loop, so a completion call that
    raises for any user leaves the tables as they were. The clock is a
    parameter: one date per run. */
module Scheduler {
  import opened Strings
  import opened Calendar
  import opened OpenAIUtils
  import opened VectorDb
  import opened DiaryTables

  // ---------------------------------------------------------------------------
  // One step per user

  /** Running `step` for every user in order: all the rows, or `None` when
      the step fails for some user. */
  function Batch<R>(users: seq<string>, step: string -> Option<R>): (r: Option<seq<R>>)
    ensures r.Some? ==> |r.value| == |users|
    decreases |users|
  {
    if |users| == 0 then Some([])
    else
      match Batch(users[..|users| - 1], step)
      case None => None
      case Some(rows) =>
        match step(users[|users| - 1])
        case None => None
        case Some(row) => Some(rows + [row])
  }

  /** A batch succeeds exactly when every user's step does, and then holds
      each user's row at that user's position. */
  lemma {:induction false} BatchAll<R>(users: seq<string>, step: string -> Option<R>)
    ensures Batch(users, step).Some? <==> forall k :: 0 <= k < |users| ==> step(users[k]).Some?
    ensures Batch(users, step).Some? ==>
      forall k :: 0 <= k < |users| ==> Batch(users, step).value[k] == step(users[k]).value
    decreases |users|
  {
    if |users| > 0 {
      var init := users[..|users| - 1];
      BatchAll(init, step);
      assert forall k :: 0 <= k < |init| ==> init[k] == users[k];
    }
  }

  /** The batch over one more user extends the batch over the users before. */
  lemma BatchStep<R>(users: seq<string>, i: nat, step: string -> Option<R>, rows: seq<R>)
    requires i < |users| && Batch(users[..i], step) == Some(rows)
    ensures Batch(users[..i + 1], step)
      == match step(users[i]) case None => None case Some(row) => Some(rows + [row])
  {
    assert users[..i + 1][..i] == users[..i];
  }

  /** Once the step has failed for a prefix of the users, the whole batch fails. */
  lemma {:induction false} BatchPrefixFails<R>(users: seq<string>, i: nat, step: string -> Option<R>)
    requires i <= |users| && Batch(users[..i], step).None?
    ensures Batch(users, step).None?
    decreases |users| - i
  {
    if i < |users| {
      assert users[..i + 1][..i] == users[..i];
      BatchPrefixFails(users, i + 1, step);
    } else {
      assert users[..i] == users;
    }
  }

  /** How often `userId` occurs in `users`. */
  function Occurrences(users: seq<string>, userId: string): nat
    decreases |users|
  {
    if |users| == 0 then 0
    else Occurrences(users[..|users| - 1], userId) + (if users[|users| - 1] == userId then 1 else 0)
  }

  // ---------------------------------------------------------------------------
  // The daily job

  /** `f"请对以下内容进行总结：{all_conversations}"` */
  function DailyPrompt(conversations: string): string {
    "请对以下内容进行总结：" + conversations
  }

  /** The row the daily job builds for one user: the reply to the prompt
      over all the user's stored conversations, dated `day`; `None` when the
      completion call raises. */
  function DailyRowFor(collections: map<string, seq<Record>>, day: string, chat: ChatRequest -> Completion,
                       rank: Ranking, userId: string): Option<DailyRow>
  {
    var conversations := AllConversations(Lookup(collections, CollectionName(userId)), rank);
    match chat(SeekChatRequest(DailyPrompt(conversations), false))
    case Raised => None
    case Completed(_, content) => Some(DailyRow(day, userId, content))
  }

  /** The rows one run of the daily job commits, or `None` when it commits nothing. */
  function DailyBatch(collections: map<string, seq<Record>>, users: seq<string>, day: string,
                      chat: ChatRequest -> Completion, rank: Ranking): Option<seq<DailyRow>>
  {
    Batch(users, u => DailyRowFor(collections, day, chat, rank, u))
  }

  /** `generate_daily_summaries()`, run on `today`. */
  method GenerateDailySummaries(db: DiaryDb, store: VectorStore, users: seq<string>, today: Date,
                                chat: ChatRequest -> Completion, rank: Ranking) returns (committed: bool)
    requires ValidDate(today)
    modifies db, store
    ensures var batch := DailyBatch(old(store.collections), users, IsoDate(today), chat, rank);
      committed == batch.Some?
      && db.daily == old(db.daily) + (if committed then batch.value else [])
      && db.monthly == old(db.monthly)
    ensures forall name :: Lookup(store.collections, name) == Lookup(old(store.collections), name)
  {
    var day := IsoDate(today);
    ghost var collections := store.collections;
    ghost var step := u => DailyRowFor(collections, day, chat, rank, u);
    var pending: seq<DailyRow> := [];
    var i := 0;
    while i < |users|
      invariant 0 <= i <= |users|
      invariant Batch(users[..i], step) == Some(pending)
      invariant forall name :: Lookup(store.collections, name) == Lookup(old(store.collections), name)
      invariant db.daily == old(db.daily) && db.monthly == old(db.monthly)
    {
      ghost var before := store.collections;
      var conversations := store.GetAllConversations(users[i], rank);
      EnsuredReadsSame(before, store.collections, CollectionName(users[i]));
      assert conversations == AllConversations(Lookup(collections, CollectionName(users[i])), rank);
      var reply := chat(SeekChatRequest(DailyPrompt(conversations), false));
      assert step(users[i]) == if reply.Raised? then None else Some(DailyRow(day, users[i], reply.content));
      BatchStep(users, i, step, pending);
      if reply.Raised? {
        BatchPrefixFails(users, i + 1, step);
        return false;
      }
      pending := pending + [DailyRow(day, users[i], reply.content)];
      i := i + 1;
    }
    assert users[..i] == users;
    db.CommitDaily(pending);
    committed := true;
  }

  /** A successful daily run gives every user one row dated `day`, in user
      order, holding the reply to the prompt over that user's conversations;
      it fails exactly when the completion call raises for some user. */
  lemma DailyBatchRows(collections: map<string, seq<Record>>, users: seq<string>, day: string,
                       chat: ChatRequest -> Completion, rank: Ranking)
    ensures var batch := DailyBatch(collections, users, day, chat, rank);
      (batch.Some? <==> forall k :: 0 <= k < |users| ==> DailyRowFor(collections, day, chat, rank, users[k]).Some?)
      && (batch.Some? ==>
            (|batch.value| == |users|
             && forall k :: 0 <= k < |users| ==>
                  batch.value[k].date == day && batch.value[k].userId == users[k]
                  && batch.value[k] == DailyRowFor(collections, day, chat, rank, users[k]).value))
  {
    BatchAll(users, u => DailyRowFor(collections, day, chat, rank, u));
  }

  /** A user without stored conversations is not skipped: the job asks for
      a summary of the empty text and stores the reply. */
  lemma EmptyUserNotSkipped(collections: map<string, seq<Record>>, day: string,
                            chat: ChatRequest -> Completion, rank: Ranking, userId: string)
    requires Matching(Lookup(collections, CollectionName(userId))) == []
    ensures var reply := chat(SeekChatRequest("请对以下内容进行总结：", false));
      DailyRowFor(collections, day, chat, rank, userId)
        == if reply.Raised? then None else Some(DailyRow(day, userId, reply.content))
  {
    AllConversationsShape(Lookup(collections, CollectionName(userId)), rank);
    assert DailyPrompt("") == "请对以下内容进行总结：";
  }

  /** Each run adds one row per occurrence of the user, whatever rows that
      day already has. */
  lemma {:induction false} DailyBatchCount(collections: map<string, seq<Record>>, users: seq<string>, day: string,
                                           chat: ChatRequest -> Completion, rank: Ranking, userId: string)
    requires DailyBatch(collections, users, day, chat, rank).Some?
    ensures CountDaily(DailyBatch(collections, users, day, chat, rank).value, userId, day) == Occurrences(users, userId)
    decreases |users|
  {
    if |users| > 0 {
      var init := users[..|users| - 1];
      DailyBatchCount(collections, init, day, chat, rank, userId);
      var rows := DailyBatch(collections, init, day, chat, rank).value;
      var row := DailyRowFor(collections, day, chat, rank, users[|users| - 1]).value;
      assert DailyBatch(collections, users, day, chat, rank).value == rows + [row];
      CountDailyAppend(rows, [row], userId, day);
      assert [row][..0] == [];
    }
  }

  /** The daily job does not upsert: two successful runs on one day leave
      two rows for that day per user (when each user is listed once). */
  lemma DailyTwiceDuplicates(daily: seq<DailyRow>, users: seq<string>, day: string, userId: string,
                             c1: map<string, seq<Record>>, chat1: ChatRequest -> Completion, rank1: Ranking,
                             c2: map<string, seq<Record>>, chat2: ChatRequest -> Completion, rank2: Ranking)
    requires DailyBatch(c1, users, day, chat1, rank1).Some? && DailyBatch(c2, users, day, chat2, rank2).Some?
    ensures var first := DailyBatch(c1, users, day, chat1, rank1).value;
      var second := DailyBatch(c2, users, day, chat2, rank2).value;
      CountDaily(daily + first + second, userId, day) == CountDaily(daily, userId, day) + 2 * Occurrences(users, userId)
  {
    var first := DailyBatch(c1, users, day, chat1, rank1).value;
    var second := DailyBatch(c2, users, day, chat2, rank2).value;
    DailyBatchCount(c1, users, day, chat1, rank1, userId);
    DailyBatchCount(c2, users, day, chat2, rank2, userId);
    CountDailyAppend(daily, first, userId, day);
    CountDailyAppend(daily + first, second, userId, day);
  }

  // ---------------------------------------------------------------------------
  // The monthly job

  /** `f"请对以下每日总结进行月度总结：{all_daily_summaries}"` */
  function MonthlyPrompt(summaries: string): string {
    "请对以下每日总结进行月度总结：" + summaries
  }

  /** The user's daily rows in table order whose date text matches the
      month key under `startswith`, which the ORM sends to SQLite as
      `LIKE key || '%'`. */
  function DailyOfMonth(daily: seq<DailyRow>, userId: string, monthKey: string): seq<DailyRow> {
    Filter(daily, (r: DailyRow) => LikePrefix(r.date, monthKey) && r.userId == userId)
  }

  /** The job's own month key holds only digits and dashes, so under `LIKE`
      it matches exactly the dates that start with it. */
  lemma MonthKeyIsLiteral(today: Date, s: string)
    requires ValidDate(today)
    ensures LikePrefix(s, YearMonthKey(today)) <==> StartsWith(s, YearMonthKey(today))
  {
    KeysAreDigitsAndDashes(today);
    LiteralPrefix(s, YearMonthKey(today));
  }

  /** The row the monthly job builds for one user: the reply to the prompt
      over that user's daily summaries of the month joined by single
      spaces, keyed by the month text; `None` when the call raises. */
  function MonthlyRowFor(daily: seq<DailyRow>, monthKey: string, chat: ChatRequest -> Completion,
                         userId: string): Option<MonthlyRow>
  {
    var summaries := Join(" ", DailySummaries(DailyOfMonth(daily, userId, monthKey)));
    match chat(SeekChatRequest(MonthlyPrompt(summaries), false))
    case Raised => None
    case Completed(_, content) => Some(MonthlyRow(monthKey, userId, content))
  }

  /** The rows one run of the monthly job commits, or `None` when it commits nothing. */
  function MonthlyBatch(daily: seq<DailyRow>, users: seq<string>, monthKey: string,
                        chat: ChatRequest -> Completion): Option<seq<MonthlyRow>>
  {
    Batch(users, u => MonthlyRowFor(daily, monthKey, chat, u))
  }

  /** `generate_monthly_summaries()`, run on `today`. */
  method GenerateMonthlySummaries(db: DiaryDb, users: seq<string>, today: Date,
                                  chat: ChatRequest -> Completion) returns (committed: bool)
    requires ValidDate(today)
    modifies db
    ensures var batch := MonthlyBatch(old(db.daily), users, YearMonthKey(today), chat);
      committed == batch.Some?
      && db.monthly == old(db.monthly) + (if committed then batch.value else [])
      && db.daily == old(db.daily)
  {
    var month := YearMonthKey(today);
    ghost var daily := db.daily;
    ghost var step := u => MonthlyRowFor(daily, month, chat, u);
    var pending: seq<MonthlyRow> := [];
    var i := 0;
    while i < |users|
      invariant 0 <= i <= |users|
      invariant Batch(users[..i], step) == Some(pending)
      invariant db.daily == old(db.daily) && db.monthly == old(db.monthly)
    {
      var entries := DailyOfMonth(db.daily, users[i], month);
      var allDailySummaries := Join(" ", DailySummaries(entries));
      var reply := chat(SeekChatRequest(MonthlyPrompt(allDailySummaries), false));
      BatchStep(users, i, step, pending);
      if reply.Raised? {
        BatchPrefixFails(users, i + 1, step);
        return false;
      }
      pending := pending + [MonthlyRow(month, users[i], reply.content)];
      i := i + 1;
    }
    assert users[..i] == users;
    db.CommitMonthly(pending);
    committed := true;
  }

  /** A successful monthly run gives every user one row keyed by the month
      text, in user order; it fails exactly when the call raises for some user. */
  lemma MonthlyBatchRows(daily: seq<DailyRow>, users: seq<string>, monthKey: string, chat: ChatRequest -> Completion)
    ensures var batch := MonthlyBatch(daily, users, monthKey, chat);
      (batch.Some? <==> forall k :: 0 <= k < |users| ==> MonthlyRowFor(daily, monthKey, chat, users[k]).Some?)
      && (batch.Some? ==>
            (|batch.value| == |users|
             && forall k :: 0 <= k < |users| ==>
                  batch.value[k].month == monthKey && batch.value[k].userId == users[k]
                  && batch.value[k] == MonthlyRowFor(daily, monthKey, chat, users[k]).value))
  {
    BatchAll(users, u => MonthlyRowFor(daily, monthKey, chat, u));
  }

  /** The prompt for a user is built from exactly that user's daily rows of
      the month, each as often as the table holds it. */
  lemma MonthlyPromptSources(daily: seq<DailyRow>, monthKey: string, userId: string)
    ensures var rows := DailyOfMonth(daily, userId, monthKey);
      (forall r :: r in rows <==> r in daily && r.userId == userId && LikePrefix(r.date, monthKey))
      && (forall r :: multiset(rows)[r]
            == if r.userId == userId && LikePrefix(r.date, monthKey) then multiset(daily)[r] else 0)
  {
    FilterCounts(daily, (r: DailyRow) => LikePrefix(r.date, monthKey) && r.userId == userId);
  }

  /** The summaries in the prompt follow the table's order: the rows of a
      table extended by `more` come first from the table, then from `more`,
      and a single row contributes itself exactly when it is the user's and
      of the month. */
  lemma MonthlyPromptOrder(daily: seq<DailyRow>, more: seq<DailyRow>, monthKey: string, userId: string)
    ensures DailyOfMonth(daily + more, userId, monthKey)
      == DailyOfMonth(daily, userId, monthKey) + DailyOfMonth(more, userId, monthKey)
    ensures DailySummaries(DailyOfMonth(daily + more, userId, monthKey))
      == DailySummaries(DailyOfMonth(daily, userId, monthKey)) + DailySummaries(DailyOfMonth(more, userId, monthKey))
    ensures forall r: DailyRow ::
              DailyOfMonth([r], userId, monthKey)
              == if r.userId == userId && LikePrefix(r.date, monthKey) then [r] else []
  {
    var keep := (r: DailyRow) => LikePrefix(r.date, monthKey) && r.userId == userId;
    FilterAppend(daily, more, keep);
    DailySummariesAppend(DailyOfMonth(daily, userId, monthKey), DailyOfMonth(more, userId, monthKey));
    forall r: DailyRow
      ensures DailyOfMonth([r], userId, monthKey)
              == if r.userId == userId && LikePrefix(r.date, monthKey) then [r] else []
    {
      FilterOne(r, keep);
    }
  }

  /** Each run adds one row per occurrence of the user under the month key. */
  lemma {:induction false} MonthlyBatchCount(daily: seq<DailyRow>, users: seq<string>, monthKey: string,
                                             chat: ChatRequest -> Completion, userId: string, key: string)
    requires MonthlyBatch(daily, users, monthKey, chat).Some?
    ensures CountMonthly(MonthlyBatch(daily, users, monthKey, chat).value, userId, key)
      == if key == monthKey then Occurrences(users, userId) else 0
    decreases |users|
  {
    if |users| > 0 {
      var init := users[..|users| - 1];
      MonthlyBatchCount(daily, init, monthKey, chat, userId, key);
      var rows := MonthlyBatch(daily, init, monthKey, chat).value;
      var row := MonthlyRowFor(daily, monthKey, chat, users[|users| - 1]).value;
      assert MonthlyBatch(daily, users, monthKey, chat).value == rows + [row];
      CountMonthlyAppend(rows, [row], userId, key);
      assert [row][..0] == [];
    }
  }

  /** The job's `'YYYY-MM'` keys never equal the route's first-of-month
      dates: its rows are never found, overwritten or counted by the route's
      upsert, and a table the route alone kept at one row per key stays so
      for the route's keys. */
  lemma MonthlyJobKeysAreNotRouteKeys(monthly: seq<MonthlyRow>, daily: seq<DailyRow>, users: seq<string>,
                                      today: Date, chat: ChatRequest -> Completion, first: Date, userId: string)
    requires ValidDate(today) && ValidDate(first)
    requires MonthlyBatch(daily, users, YearMonthKey(today), chat).Some?
    ensures var batch := MonthlyBatch(daily, users, YearMonthKey(today), chat).value;
      CountMonthly(monthly + batch, userId, IsoDate(first)) == CountMonthly(monthly, userId, IsoDate(first))
      && CountMonthly(monthly + batch, userId, YearMonthKey(today))
           == CountMonthly(monthly, userId, YearMonthKey(today)) + Occurrences(users, userId)
  {
    var batch := MonthlyBatch(daily, users, YearMonthKey(today), chat).value;
    KeyLengths(today);
    KeyLengths(first);
    MonthlyBatchCount(daily, users, YearMonthKey(today), chat, userId, IsoDate(first));
    MonthlyBatchCount(daily, users, YearMonthKey(today), chat, userId, YearMonthKey(today));
    CountMonthlyAppend(monthly, batch, userId, IsoDate(first));
    CountMonthlyAppend(monthly, batch, userId, YearMonthKey(today));
  }

  /** When the UTC date the job reads is the first of a month and every
      daily row is dated on or before that day, the only rows it can
      summarise are those of that very day. Whether the firing on the
      scheduler's day 1 sees such a date depends on the host's offset
      from UTC, which is not modelled. */
  lemma MonthlyOnTheFirstSeesOnlyThatDay(daily: seq<DailyRow>, when: seq<Date>, today: Date, userId: string)
    requires ValidDate(today) && today.day == 1
    requires |when| == |daily|
    requires forall k :: 0 <= k < |daily| ==> ValidDate(when[k]) && DateLe(when[k], today) && daily[k].date == IsoDate(when[k])
    ensures forall r :: r in DailyOfMonth(daily, userId, YearMonthKey(today)) ==> r.date == IsoDate(today)
  {
    forall r | r in DailyOfMonth(daily, userId, YearMonthKey(today))
      ensures r.date == IsoDate(today)
    {
      var k :| 0 <= k < |daily| && daily[k] == r;
      MonthKeyIsLiteral(today, r.date);
      DayInMonthKey(when[k], today);
      assert when[k] == today;
    }
  }

  // ---------------------------------------------------------------------------
  // Triggers

  /** A moment of the scheduler's clock. */
  datatype Moment = Moment(date: Date, hour: int, minute: int, second: int)

  /** A cron trigger with the fields the jobs set: day of month, hour and
      minute; `None` is a field left out. */
  datatype CronTrigger = CronTrigger(day: Option<int>, hour: Option<int>, minute: Option<int>)

  /** Position of the least significant field given (day 1, hour 2,
      minute 3), or 0 when none is. */
  function LastGiven(t: CronTrigger): nat {
    if t.minute.Some? then 3 else if t.hour.Some? then 2 else if t.day.Some? then 1 else 0
  }

  /** A field matches its given value; a field left out matches anything,
      except that one less significant than every given field is fixed at
      its least value. */
  predicate FieldFires(given: Option<int>, position: nat, last: nat, value: int, least: int) {
    match given
    case Some(v) => value == v
    case None => 0 < last < position ==> value == least
  }

  /** The moments at which a trigger fires; the seconds field is never
      given, so it sits at 0 as soon as any field is. */
  predicate Fires(t: CronTrigger, m: Moment) {
    var last := LastGiven(t);
    FieldFires(t.day, 1, last, m.date.day, 1)
    && FieldFires(t.hour, 2, last, m.hour, 0)
    && FieldFires(t.minute, 3, last, m.minute, 0)
    && FieldFires(None, 4, last, m.second, 0)
  }

  /** `CronTrigger(hour=0, minute=0)` */
  const DailyTrigger := CronTrigger(None, Some(0), Some(0))

  /** `CronTrigger(day=1, hour=0, minute=0)` */
  const MonthlyTrigger := CronTrigger(Some(1), Some(0), Some(0))

  /** The daily job fires once a day, at midnight. */
  lemma DailyFiresAtMidnight(m: Moment)
    ensures Fires(DailyTrigger, m) <==> m.hour == 0 && m.minute == 0 && m.second == 0
  {
  }

  /** The monthly job fires at midnight on the first of each month. */
  lemma MonthlyFiresOnTheFirst(m: Moment)
    ensures Fires(MonthlyTrigger, m) <==> m.date.day == 1 && m.hour == 0 && m.minute == 0 && m.second == 0
  {
  }

  /** Every moment the monthly job fires, the daily job fires too. */
  lemma MonthlyFiringIsDailyFiring(m: Moment)
    requires Fires(MonthlyTrigger, m)
    ensures Fires(DailyTrigger, m)
  {
  }
}
