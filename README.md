# Diary assistant back end: a Dafny model

This project models the bookkeeping core of a diary assistant. The assistant
is a Flask service over SQLite, a per-user vector store (ChromaDB) and an
OpenAI-compatible chat service. The model covers:

- **Conversation memory** (`vector_db.dfy`, module `VectorDb`). Each user has
  one collection, named `user_<id>_diary_conversations` and created on first
  use. A conversation turn is summarised by a language model, stripped,
  sentiment-adjusted and appended as one record. The record's id is the
  decimal size of the collection before the append. Reads join the stored
  documents with single spaces and fall back to `""`.
- **Diary tables** (`diary_tables.dfy`, module `DiaryTables`). There is a daily
  table and a monthly table. The class `DiaryDb` holds the committed rows.
  It has methods for a batch commit and for the route's upsert.
- **Scheduled jobs** (`scheduler.dfy`, module `Scheduler`). The daily job and
  the monthly job each loop over all users. They add one row per user and
  commit once. Their cron triggers are modelled too.
- **Routes** (`routes.dfy`, module `Routes`):
  - on-demand monthly summary: validation, 404, upsert and answer;
  - daily listing by date-text prefix;
  - yearly listing;
  - diary lookup;
  - one conversation turn.
- **Prompt construction** (`openai_utils.dfy`, module `OpenAIUtils`):
  - the four personality templates, with fallback;
  - `str.format` on them;
  - the message layout of every request;
  - the loop that accumulates a streamed completion.
- **Support**: `strings.dfy` (`Strings`) covers Python's `strip`, `join`, `str(int)` and
  code-point order. `calendar.dfy` (`Calendar`) covers `strftime` texts and
  SQLite's `extract`. `json.dfy` (`Json`) covers JSON values and Python's
  `str()` and `int()`.

Outside services are parameters:

- The chat service is a function `ChatRequest -> Completion`. A completion
  either raises or returns content.
- The LangChain summariser is a function `string -> Option<string>`.
- TextBlob's polarity is a function `string -> real`.
- The vector store's similarity ranking is a function from documents to
  positions.
- The clock is a `Date` argument.

The state that changes in place is modelled with classes:

- the vector store's collections: `VectorDb.VectorStore.collections`;
- the committed table rows: `DiaryTables.DiaryDb.daily` and `DiaryTables.DiaryDb.monthly`.

Each method that changes state states its new state. It does so through a
function that the lemmas reason about.

Where the system's design description and the code disagree, the model
follows the code:

- Record ids are the collection size as a decimal string, not
  collision-resistant ids.
- The daily job does not skip users without conversations.
- The scheduled jobs insert and never upsert.
- A failure for one user aborts the whole run before its single commit.
- A failed summarisation is not replaced by the raw turn. The conversation
  route answers 500 and stores nothing.

## Model

| member | source | states |
|---|---|---|
| Strings.StripTrimsBothEnds | backend/app/vector_db.py:64 | `strip()` leaves text that is empty or neither starts nor ends with whitespace |
| Strings.StripIdempotent | backend/app/vector_db.py:64 | stripping an already stripped summary changes nothing |
| Strings.SplitJoin | backend/app/routes.py:332 | texts without the separator come back out of their join by splitting, in order |
| Strings.NatToStringInjective | backend/app/vector_db.py:76 | different collection sizes give different `str(len(collection))` ids |
| Strings.DecimalValueOfNatToString | backend/app/vector_db.py:76 | the id text reads back as the collection size it was made from |
| Strings.IntToStringChars | backend/app/routes.py:268 | `str(i)` holds only digits and a minus sign |
| Strings.ZeroPadInjective | backend/app/scheduler.py:23 | zero-padded fields of `strftime` are equal only for equal numbers |
| Strings.TextLeTotal | backend/app/routes.py:213 | any two date texts are ordered one way or the other under SQLite's text order |
| Strings.TextLeTransitive | backend/app/routes.py:213 | SQLite's text order is transitive |
| Strings.TextLeAntisymmetric | backend/app/routes.py:213 | two texts ordered both ways are equal |
| Calendar.KeyLengths | backend/app/scheduler.py:33 | a `'%Y-%m'` key has 7 characters and a stored date 10, and the date starts with its month's prefix |
| Calendar.IsoDateShaped | backend/app/scheduler.py:23 | the daily job's `'%Y-%m-%d'` date has dashes at positions 4 and 7 only |
| Calendar.DateParts | backend/app/routes.py:323-324 | `extract` on a stored text yields a year of at most 9999 and a month in 1..12, or nothing |
| Calendar.DatePartsOfDayText | backend/app/routes.py:322-326 | a `YYYY-MM-DD` text with a day from 1 to 31 is read as its year, and as its month when the day fits the month, otherwise as the next month |
| Calendar.DayOverflowNextMonth | backend/app/routes.py:322-326 | `YYYY-02-31` is read as March and `YYYY-04-31` as May, as SQLite's date arithmetic carries the surplus days over |
| Calendar.DatePartsOfIsoDate | backend/app/routes.py:322-326 | `extract('year')` and `extract('month')` on a stored date give that date's year and month |
| Calendar.IsoDateInjective | backend/app/scheduler.py:23 | different days are stored as different texts |
| Calendar.KeysAreDigitsAndDashes | backend/app/scheduler.py:33 | the `'%Y-%m'` key and the `'%Y-%m-'` prefix of a date hold only digits and dashes, so no `LIKE` wildcard |
| Calendar.DayInMonthKey | backend/app/scheduler.py:33-36 | a stored day starts with a month's `'%Y-%m'` key exactly when it lies in that month |
| Json.PyInt | backend/app/routes.py:313-314 | `int()` raises `TypeError` exactly for `null`, arrays and objects, `OverflowError` exactly for an infinity, and `ValueError` exactly for NaN and for a string that does not parse; a string converts exactly when it parses, skipping only the whitespace `int()` skips, which leaves out U+001C..U+001F |
| Json.DecimalOf | backend/app/routes.py:313 | a character `int()` reads as a digit has a value below 10 and is not below `'0'`; the ASCII digits read as their own value |
| Json.SingleDigitParses | backend/app/routes.py:313 | a lone decimal digit of any script is read by `int()` as its value |
| Json.ArabicIndicDigitParses | backend/app/routes.py:313 | the Arabic-Indic digit U+0660+d is read as d, as Python reads it |
| Json.UnderscoredYearParses | backend/app/routes.py:197 | `int("2_24")` is 224: an underscore between digits is skipped |
| Json.LeadingZeroParses | backend/app/routes.py:198 | `int("05")` is 5 |
| Json.LongLiteralRefused | backend/app/routes.py:313 | a decimal text of more than 4300 digits is refused with `ValueError`, Python's default digit limit |
| Json.LeadingSeparatorRefused | backend/app/routes.py:313 | a text led by one of U+001C..U+001F is refused with `ValueError`, although Python counts that character as whitespace |
| Json.ParsedTextChars | backend/app/routes.py:197-198 | a text `int()` accepts holds only whitespace, signs, underscores and decimal digits, so never `%` |
| Json.ParseIntOfIntToString | backend/app/routes.py:313 | `int(str(i)) == i` for every integer of at most 4300 digits |
| Json.ParseIntIgnoresPadding | backend/app/routes.py:197 | `int()` reads an integer text with any whitespace it skips before it and after it as that integer |
| OpenAIUtils.ChatMessages | backend/app/openai_utils.py:46-49 | every request has the system message and then one user message with the given content |
| OpenAIUtils.TemplateLookup | backend/app/openai_utils.py:41 | the four personalities get their own template; any other key gets the friendly one |
| OpenAIUtils.TemplateShape | backend/app/openai_utils.py:7-36 | each template is brace-free text, one `{user_input}`, and brace-free text |
| OpenAIUtils.FormatCopiesPlainText | backend/app/openai_utils.py:42 | `format` copies brace-free text unchanged |
| OpenAIUtils.FormattedPromptIsFormat | backend/app/openai_utils.py:64-65 | formatting the chosen template never raises and holds the prompt once, verbatim, between the template's fixed texts |
| OpenAIUtils.RequestLayout | backend/app/openai_utils.py:82-89 | `seek_chat_service` sends the prompt unchanged; `generate_summary` sends it inside the template |
| OpenAIUtils.StreamStopsAtRaise | backend/app/openai_utils.py:53-59 | once a `None` delta has raised, later parts change nothing |
| OpenAIUtils.RunningJoinsPrefixes | backend/app/openai_utils.py:53-59 | the k-th yielded value is the first k+1 deltas concatenated |
| OpenAIUtils.RunningJoinsChain | backend/app/openai_utils.py:53-59 | each yield is the previous one plus one delta, so it extends it; the last is all deltas concatenated |
| OpenAIUtils.AccumulateStream | backend/app/openai_utils.py:53-59 | the loop yields the running concatenations of the content deltas and raises at the first `None` content; parts without choices or content add nothing |
| VectorDb.CollectionNameInjective | backend/app/vector_db.py:20-22 | different user ids name different collections |
| VectorDb.AppendedKeepsNumbering | backend/app/vector_db.py:73-77 | appending keeps ids `"0"`, `"1"`, … in order, leaves earlier records alone, and the new id is new |
| VectorDb.NumberedIdsDistinct | backend/app/vector_db.py:76 | in a collection written only by `add_conversation` no two records share an id |
| VectorDb.AppendAllFromEmpty | backend/app/vector_db.py:73-77 | n adds to an empty collection give ids `"0"` … `"n-1"` with the documents in order |
| VectorDb.AppendAllExtends | backend/app/vector_db.py:73-77 | adds to a numbered collection keep its records and append the new documents in order |
| VectorDb.MatchingNumbered | backend/app/vector_db.py:82-83 | the `source` filter admits every record `add_conversation` wrote, in storage order |
| VectorDb.QueryReturnsStored | backend/app/vector_db.py:38-43 | whatever the ranking, a query returns at most `n_results` stored, tagged documents |
| VectorDb.LatestSummaryIsStored | backend/app/vector_db.py:36-46 | the latest summary is a stored document, or `""` when nothing is stored |
| VectorDb.AllConversationsShape | backend/app/vector_db.py:80-86 | the text is at most 1000 stored documents joined by single spaces, and `""` for an empty collection |
| VectorDb.SentimentPolicy | backend/app/vector_db.py:30-33 | the reframing clause is put in front exactly when the score is below zero; the text always survives at the end |
| VectorDb.SummaryOfAnswer | backend/app/vector_db.py:49-64 | a summary exists exactly when the chain answers; it is the stripped answer, alone or after the clause exactly when its score is negative |
| VectorDb.StoreKeepsNumbering | backend/app/vector_db.py:67-77 | creating a collection or appending one summary keeps every collection numbered |
| VectorDb.SameRecordsKeepNumbering | backend/app/vector_db.py:20-22 | creating empty collections keeps every collection numbered |
| VectorDb.VectorStore.GetUserCollection | backend/app/vector_db.py:20-22 | returns the user's collection name and creates it empty when missing; nothing else changes |
| VectorDb.VectorStore.GetLatestConversationSummary | backend/app/vector_db.py:36-46 | returns the first ranked tagged document or `""`; only the collection's creation changes the store |
| VectorDb.VectorStore.GetAllConversations | backend/app/vector_db.py:80-86 | returns the joined documents; only the collection's creation changes the store |
| VectorDb.VectorStore.SummarizeConversation | backend/app/vector_db.py:49-64 | returns the summary of the prompt over the latest summary and the turn |
| VectorDb.VectorStore.AddConversation | backend/app/vector_db.py:67-77 | appends exactly the summary, numbered by the size before, when summarising succeeds; otherwise only creates the collection |
| DiaryTables.CountMonthlyAppend | backend/app/scheduler.py:47-48 | committed rows add their key counts to the table's |
| DiaryTables.CountDailyAppend | backend/app/scheduler.py:25-26 | committed daily rows add their key counts to the table's |
| DiaryTables.CountMonthlyUpdate | backend/app/routes.py:347 | overwriting a summary keeps every key count |
| DiaryTables.FirstMonthly | backend/app/routes.py:341-344 | `.first()` finds the first row with the key in insertion order, or none when no row has it |
| DiaryTables.FirstDaily | backend/app/routes.py:125 | `.first()` finds the first row for the user and date in insertion order, or none |
| DiaryTables.DailySummaries | backend/app/routes.py:332 | the summaries of the rows, in row order |
| DiaryTables.UpsertedKey | backend/app/routes.py:341-356 | after the upsert the key holds the new summary, its count is 1 if it was 0 and unchanged otherwise, and other keys' rows are untouched |
| DiaryTables.UpsertIdempotent | backend/app/routes.py:341-356 | saving the same summary twice equals saving it once |
| DiaryTables.UpsertKeepsUniqueKeys | backend/app/routes.py:341-356 | the upsert keeps one row per (user, month) |
| DiaryTables.Filter | backend/app/routes.py:210-212 | a filter keeps exactly the rows satisfying it |
| DiaryTables.FilterCounts | backend/app/routes.py:210-212 | a filter keeps each satisfying row as often as the table holds it, and no other row |
| DiaryTables.FilterAppend | backend/app/routes.py:210-212 | a filter keeps table order: filtering two runs of rows gives the filtered first run, then the filtered second |
| DiaryTables.FilterOne | backend/app/routes.py:210-212 | a single row is kept exactly when it satisfies the filter |
| DiaryTables.DailySummariesAppend | backend/app/scheduler.py:40 | the summaries of two runs of rows are the first run's, then the second's |
| DiaryTables.LikePrefixMatches | backend/app/routes.py:212 | `startswith(p)`, sent as `LIKE p || '%'`, holds for a text exactly when each character of a `%`-free p matches the text's character at its place: `_` any character, letters without regard to ASCII case, others only themselves |
| DiaryTables.LiteralPrefix | backend/app/routes.py:212 | for a prefix of digits and dashes, `LIKE` is plain `startswith` |
| DiaryTables.UnderscoreMatchesAnyCharacter | backend/app/routes.py:201 | the prefix `"2_24-05-"` matches the dates `"2024-05-01"` and `"2124-05-31"` |
| DiaryTables.UnderscoreMatchesOneCharacterOnly | backend/app/routes.py:201 | the prefix `"2_24-05-"` does not match `"0224-05-01"`: `_` stands for exactly one character |
| DiaryTables.SortDesc | backend/app/routes.py:213 | `ORDER BY … DESC` is a permutation of the rows in descending text order |
| DiaryTables.DiaryDb.CommitDaily | backend/app/scheduler.py:25-26 | the session's daily rows are appended at commit; the monthly table is unchanged |
| DiaryTables.DiaryDb.CommitMonthly | backend/app/scheduler.py:47-48 | the session's monthly rows are appended at commit; the daily table is unchanged |
| DiaryTables.DiaryDb.UpsertMonthly | backend/app/routes.py:341-356 | the monthly table becomes the upserted table |
| Scheduler.Batch | backend/app/scheduler.py:16-26 | a per-user batch has one row per user when it succeeds |
| Scheduler.BatchAll | backend/app/scheduler.py:16-26 | a batch succeeds exactly when every user's step does, with each user's row at that user's place |
| Scheduler.BatchPrefixFails | backend/app/scheduler.py:16-26 | a failure for one user means the whole run commits nothing |
| Scheduler.GenerateDailySummaries | backend/app/scheduler.py:14-26 | commits exactly the daily batch, or nothing if any call raises; the collections read the same |
| Scheduler.DailyBatchRows | backend/app/scheduler.py:14-26 | a successful run gives every user one row dated today, in user order, holding the reply |
| Scheduler.EmptyUserNotSkipped | backend/app/scheduler.py:18-25 | a user without conversations still gets a row for the empty-content prompt |
| Scheduler.DailyBatchCount | backend/app/scheduler.py:23-25 | a run adds one row for the day per occurrence of the user |
| Scheduler.DailyTwiceDuplicates | backend/app/scheduler.py:23-25 | two runs on one day leave two rows per user for that day |
| Scheduler.GenerateMonthlySummaries | backend/app/scheduler.py:29-48 | commits exactly the monthly batch, or nothing if any call raises |
| Scheduler.MonthlyBatchRows | backend/app/scheduler.py:29-48 | a successful run gives every user one row keyed by the `'YYYY-MM'` text, in user order |
| Scheduler.MonthKeyIsLiteral | backend/app/scheduler.py:33-36 | the job's `'%Y-%m'` key under `LIKE` matches exactly the dates that start with it |
| Scheduler.MonthlyPromptSources | backend/app/scheduler.py:34-40 | the prompt is built from exactly the user's daily rows whose date matches the month key under `LIKE`, each as often as the table holds it |
| Scheduler.MonthlyPromptOrder | backend/app/scheduler.py:34-40 | the prompt's summaries follow table order: rows of a table extended by more rows come first from the table, then from the rest, and a single row contributes itself exactly when it is the user's and of the month |
| Scheduler.MonthlyBatchCount | backend/app/scheduler.py:46-47 | a run adds one row under the month key per occurrence of the user and none under any other key |
| Scheduler.MonthlyJobKeysAreNotRouteKeys | backend/app/scheduler.py:33 | the job's keys never meet the route's first-of-month keys, so the route's upsert never sees the job's rows |
| Scheduler.MonthlyOnTheFirstSeesOnlyThatDay | backend/app/scheduler.py:32-38 | when the UTC date the job reads is the 1st and no row is dated later, the job sees only rows of that day |
| Scheduler.DailyFiresAtMidnight | backend/app/scheduler.py:51 | the daily trigger fires exactly at 00:00:00 |
| Scheduler.MonthlyFiresOnTheFirst | backend/app/scheduler.py:52 | the monthly trigger fires exactly at 00:00:00 on day 1 |
| Scheduler.MonthlyFiringIsDailyFiring | backend/app/scheduler.py:51-52 | every monthly firing is also a daily firing |
| Routes.ValidateMonthlyRequest | backend/app/routes.py:304-318 | a passed request has a month in 1..12; a refusal is 400 or 500 |
| Routes.MonthlyValidationRules | backend/app/routes.py:304-318 | a request passes exactly when the body is a non-empty object with both fields, both convert with `int()` and the month is in 1..12, with those values; it gets 500 exactly when the first failing `int()` raises `TypeError` or `OverflowError` (not caught by `except ValueError`), 400 otherwise |
| Routes.RejectedBeforeAnyWork | backend/app/routes.py:304-318 | a refused request's answer depends on the body alone and the monthly table is unchanged |
| Routes.YearBeyondSqlIntegers | backend/app/routes.py:320-326 | a year outside SQLite's signed 64-bit integers fails the query inside the `try`: 500, and nothing changes |
| Routes.NoEntriesNotFound | backend/app/routes.py:322-329 | for a year the query can bind, without a daily row of that user, year and month the answer is 404 and nothing changes |
| Routes.GenerateMonthlySummary | backend/app/routes.py:301-366 | the answer and the monthly table are the route's outcome; the daily table is unchanged |
| Routes.SuccessUpserts | backend/app/routes.py:341-362 | success leaves one row under (user, first of month) with the new summary, keeps rows under other keys, and answers `year-MM` |
| Routes.TwoDigitMonth | backend/app/routes.py:360 | `{month:02d}` has two digits and reads back as the month |
| Routes.SummariseMonthSucceeded | backend/app/routes.py:338-362 | success means the year is representable and the table is the upsert of the reply |
| Routes.RouteKeepsUniqueKeys | backend/app/routes.py:341-356 | a table the route alone writes keeps one row per (user, month) |
| Routes.ResponseMonthIsNotStoredKey | backend/app/routes.py:342 | the answer's month is written like the job's key, yet the row is stored under a different text |
| Routes.MonthlyPromptHoldsSummaries | backend/app/routes.py:332-333 | the prompt names the year and month and the summaries come back out of it in order |
| Routes.DailyJobRowsAreFound | backend/app/routes.py:322-326 | a row the daily job wrote on day d is an entry of a month exactly when d lies in it |
| Routes.DailyListingRules | backend/app/routes.py:195-240 | refused with 400 exactly when a given year or month is not an integer; otherwise the parsed or current year and month, and exactly the user's rows whose date is `LIKE` the prefix, each as often as in the table, latest first |
| Routes.DailyListingContents | backend/app/routes.py:210-213 | the listing holds exactly the user's rows whose date is `LIKE` the prefix, each as often as in the table, in descending date text |
| Routes.UnderscoreYearListing | backend/app/routes.py:195-213 | year `"2_24"` and month `"05"` report year 224 yet list the user's rows of May 2024 and May 2124, and no row dated `"0224-05-01"` |
| Routes.DefaultListingIsCurrentMonth | backend/app/routes.py:203-205 | without arguments a row dated on day d is listed exactly when d is in today's month |
| Routes.ParsedListing | backend/app/routes.py:195-201 | with both arguments parsed, the prefix is the two texts as given |
| Routes.UnpaddedMonthMatchesNoDate | backend/app/routes.py:201 | an unpadded one-digit month prefix matches no stored `YYYY-MM-DD` date |
| Routes.SingleDigitMonthListsNothing | backend/app/routes.py:195-213 | asking for month `"5"` lists nothing from a table of stored dates |
| Routes.YearlyListingRules | backend/app/routes.py:256-295 | refused with 400 exactly for a given year that is not an integer in 1900..2100; otherwise the parsed or current year, and exactly the user's rows whose month text starts with that year and a dash, each as often as in the table, latest first |
| Routes.YearlyListingContents | backend/app/routes.py:266-269 | the `LIKE` pattern built from `str(year)` has no wildcard, so the listing holds exactly the user's rows starting with it, each as often as in the table, latest first |
| Routes.SeparatorYearRefused | backend/app/routes.py:256-295 | a year argument led by one of U+001C..U+001F gets 400 "Invalid year parameter" |
| Routes.BothKeyFormatsListedByYear | backend/app/routes.py:268 | both `'YYYY-MM'` and `'YYYY-MM-01'` keys are listed by year exactly when their year matches |
| Routes.DiaryLookupByDate | backend/app/routes.py:124-132 | a dated lookup succeeds exactly when the user has a row for that date and returns the first one; otherwise 404 |
| Routes.DiaryWithoutDate | backend/app/routes.py:133-147 | without a date the view holds exactly the user's daily and monthly rows, each as often as its table holds it, and nothing without a `user_id` |
| Routes.DiaryKeepsTableOrder | backend/app/routes.py:134-142 | the undated view keeps table order in both lists, and a single row is shown exactly when it is the user's |
| Routes.TurnTextParts | backend/app/routes.py:108 | the stored turn is `"Q: "`, the input, `" A: "`, then the reply |
| Routes.Conversation | backend/app/routes.py:93-116 | the answer and the collections are the route's outcome |
| Routes.ConversationNeedsInput | backend/app/routes.py:96-98 | a body without `input` gets 400 and nothing changes |
| Routes.ConversationStoresSummaryOfTurn | backend/app/routes.py:100-116 | success appends exactly the summary of the turn text, numbered by the size before, to the body's user's collection; failure stores nothing |
| Routes.ConversationKeepsNumbering | backend/app/routes.py:108 | the route keeps every collection numbered, so ids stay distinct |

## Left out

- Authentication is left out: `token_required`, `register` and `login` rest on the JWT and password-hashing libraries. The signed-in user is a parameter.
- `get_monthly_summaries` (routes.py:150-182) is left out. It filters with `extract` on a column that holds text, and formats it with `strftime`; both depend on SQLAlchemy behaviour the repository does not show.
- Pagination and JSON formatting of the answers are left out: they are library behaviour. The listings model the rows before `paginate`.
- Embeddings, the similarity search, and the `sort_by`/`sort_order` arguments of the vector store are left out. Their order is the `rank` parameter.
- The vector store's rules on valid collection names are not modelled.
- TextBlob's polarity is a parameter, and its floating-point score is a `real`.
- The language-model calls are parameters.
  - `vector_db.py:50` reads `Config.OPENAI_API`, which `config.py` does not define. As written, every summarisation raises. The model keeps the summariser as a parameter that may fail, so it also covers a fixed configuration.
  - `SimpleChain` is modelled only as a call that may fail.
- `Routes.GenerateMonthlySummary`: the check `not gpt_response or 'choices' not in gpt_response` (routes.py:335) depends on the client library's response type. It is the opaque flag `wellFormed`.
- `Json.PyInt`: a JSON number with a fraction is given with the integer `int()` truncates it to and the text `str()` prints. Float arithmetic and float formatting are not modelled.
- `Routes.EntriesOfMonth`: SQLite's `extract` is modelled for texts of exactly the form `YYYY-MM-DD` with a month from 1 to 12 and a day from 1 to 31, which SQLite accepts; a day past the end of its month is carried into the next month. Any other text, including one with a time part, yields nothing. Row order is table order.
- `Routes.DailyRowsWithPrefix`: rows with equal dates may come back in any order from SQLite. The model fixes one order, and its lemmas state only the descending order and the contents with their counts.
- `DiaryTables.Like`: SQLite's `LIKE` is modelled with ASCII case folding and no `ESCAPE` clause, as SQLAlchemy's `startswith` sends it; characters beyond ASCII compare exactly.
- `Json.DecimalOf`: the decimal digits of other scripts are those of Unicode 15.0; later additions are not modelled.
- `Json.ParseIntOfIntToString`: stated for integers of at most 4300 digits, since `int()` refuses longer texts.
- A JSON body with an integer literal of more than 4300 digits is refused by Python's JSON reader before the route sees it; such bodies are not modelled.
- `Scheduler.GenerateDailySummaries`: the source reads the clock once per user; the model uses one date per run.
- `Scheduler.GenerateMonthlySummaries`: the same holds for the month key (scheduler.py:32).
- `Scheduler.Fires`: the cron triggers (scheduler.py:51-52) fire on the host's local clock, since neither the triggers nor `BackgroundScheduler()` name a time zone, while the jobs date their rows with `datetime.utcnow()`. The model does not relate a `Moment` to the `today` a run reads; on a host east of UTC the day-1 firing reads the last day of the month just ended and summarises that month.
- `DiaryTables.Filter`: every query without `ORDER BY` — `.all()` at scheduler.py:35-38, routes.py:134 and routes.py:139, `.first()` at routes.py:125 and routes.py:341-344 — is modelled as returning rows in insertion order. A plain SQLite table scan gives that order, but SQLite does not promise it. `Scheduler.MonthlyPromptOrder`, `Routes.DiaryKeepsTableOrder`, `DiaryTables.FirstMonthly` and `DiaryTables.FirstDaily` rest on this; with duplicate daily rows (`Scheduler.DailyTwiceDuplicates`) it decides which one `.first()` returns.
- The background scheduler thread, its start (scheduler.py:55) and any concurrency between jobs and requests are left out.
- After an exception in a scheduled job the session keeps its pending rows uncommitted. The model treats the run as committing nothing.
- `get_diary` with a date but no `user_id` argument is modelled as finding nothing. The model assumes every row has an owner.
- JSON bodies that are not objects (a list, a string) are left out. Only an object body or no body is modelled.
- `utils.py` (embedding inference) is not part of this model. Nor is `models.py`, beyond the field shapes of the two diary tables it does not define.
- `VectorDb.AllNumbered`: the numbering of every collection is stated as lemmas preserved by each operation, not as a class invariant of `VectorStore`.
