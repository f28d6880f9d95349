/** The per-user conversation memory kept in the vector store. Each user has
    one collection, created on first use and named after the user; a
    conversation turn is summarised by a language model, adjusted for
    sentiment and appended as one record whose id is the collection's size
    before the append. Embeddings, the similarity search and the sentiment
    scorer are outside the model: the ranking and the scorer are parameters. */
module VectorDb {
  import opened Strings

  const SourceTag := "user_conversation"

  /** The clause put in front of a summary whose sentiment is negative. */
  const Reframe := "虽然今天有些挑战，但我相信一切都会好起来的。"

  // ---------------------------------------------------------------------------
  // Collections

  /** `f"user_{user_id}_diary_conversations"` */
  function CollectionName(userId: string): string {
    "user_" + userId + "_diary_conversations"
  }

  /** Different users get different collections. */
  lemma CollectionNameInjective(a: string, b: string)
    requires a != b
    ensures CollectionName(a) != CollectionName(b)
  {
    assert CollectionName(a)[5..5 + |a|] == a;
  }

  /** One stored document with its id and its `source` metadata. */
  datatype Record = Record(id: string, document: string, source: string)

  /** The records of the named collection; a missing collection reads as empty. */
  function Lookup(collections: map<string, seq<Record>>, name: string): seq<Record> {
    if name in collections then collections[name] else []
  }

  /** `collection.add(documents=[doc], metadatas=[{"source": "user_conversation"}],
      ids=[str(len(collection))])` */
  function Appended(records: seq<Record>, doc: string): seq<Record> {
    records + [Record(NatToString(|records|), doc, SourceTag)]
  }

  /** A collection written only by `add_conversation`: the record at
      position i has id `str(i)` and the conversation tag. */
  predicate Numbered(records: seq<Record>) {
    forall i :: 0 <= i < |records| ==> records[i].id == NatToString(i) && records[i].source == SourceTag
  }

  /** Appending keeps the numbering, and the new id is used by no earlier
      record; earlier records are unchanged. */
  lemma AppendedKeepsNumbering(records: seq<Record>, doc: string)
    requires Numbered(records)
    ensures Numbered(Appended(records, doc))
    ensures Appended(records, doc)[..|records|] == records
    ensures Appended(records, doc)[|records|].document == doc
    ensures forall i :: 0 <= i < |records| ==> records[i].id != Appended(records, doc)[|records|].id
  {
    forall i | 0 <= i < |records|
      ensures records[i].id != NatToString(|records|)
    {
      NatToStringInjective(i, |records|);
    }
  }

  /** In a numbered collection no two records share an id. */
  lemma NumberedIdsDistinct(records: seq<Record>, i: nat, j: nat)
    requires Numbered(records) && i < |records| && j < |records| && i != j
    ensures records[i].id != records[j].id
  {
    NatToStringInjective(i, j);
  }

  /** The collection after appending `docs` one after the other. */
  function AppendAll(records: seq<Record>, docs: seq<string>): seq<Record>
    decreases |docs|
  {
    if |docs| == 0 then records else AppendAll(Appended(records, docs[0]), docs[1..])
  }

  /** Starting from an empty collection, n adds give the records with ids
      "0" … "n-1", holding the documents in the order they were added. */
  lemma {:induction false} AppendAllFromEmpty(docs: seq<string>)
    ensures var r := AppendAll([], docs);
      |r| == |docs| && Numbered(r)
      && forall i :: 0 <= i < |docs| ==> r[i] == Record(NatToString(i), docs[i], SourceTag)
  {
    AppendAllExtends([], docs);
  }

  lemma {:induction false} AppendAllExtends(records: seq<Record>, docs: seq<string>)
    requires Numbered(records)
    ensures var r := AppendAll(records, docs);
      |r| == |records| + |docs| && Numbered(r) && r[..|records|] == records
      && forall i :: 0 <= i < |docs| ==> r[|records| + i].document == docs[i]
    decreases |docs|
  {
    if |docs| > 0 {
      var next := Appended(records, docs[0]);
      AppendedKeepsNumbering(records, docs[0]);
      AppendAllExtends(next, docs[1..]);
      var r := AppendAll(records, docs);
      assert r == AppendAll(next, docs[1..]);
      assert r[..|records|] == r[..|next|][..|records|];
      forall i | 0 <= i < |docs|
        ensures r[|records| + i].document == docs[i]
      {
        if i == 0 {
          assert r[|records|] == r[..|next|][|records|];
        } else {
          assert r[|next| + (i - 1)].document == docs[1..][i - 1];
        }
      }
    }
  }

  // ---------------------------------------------------------------------------
  // Queries

  /** The documents the query filter `where={"source": "user_conversation"}`
      admits, in storage order. */
  function Matching(records: seq<Record>): (docs: seq<string>)
    ensures |docs| <= |records|
    decreases |records|
  {
    if |records| == 0 then []
    else
      var last := records[|records| - 1];
      Matching(records[..|records| - 1]) + (if last.source == SourceTag then [last.document] else [])
  }

  /** In a collection written only by `add_conversation` every document matches. */
  lemma {:induction false} MatchingNumbered(records: seq<Record>)
    requires Numbered(records)
    ensures |Matching(records)| == |records|
    ensures forall i :: 0 <= i < |records| ==> Matching(records)[i] == records[i].document
    decreases |records|
  {
    if |records| > 0 {
      MatchingNumbered(records[..|records| - 1]);
    }
  }

  /** The similarity ranking of the store, left abstract: for the matching
      documents, the positions it returns, best first. */
  type Ranking = seq<string> -> seq<nat>

  function Pick(docs: seq<string>, positions: seq<nat>): (r: seq<string>)
    ensures |r| <= |positions|
    ensures forall k :: 0 <= k < |r| ==> r[k] in docs
    decreases |positions|
  {
    if |positions| == 0 then []
    else (if positions[0] < |docs| then [docs[positions[0]]] else []) + Pick(docs, positions[1..])
  }

  /** `collection.query(where={"source": "user_conversation"}, n_results=n)['documents']`:
      the stored, tagged documents in the store's ranking order, at most n. */
  function Query(records: seq<Record>, n: nat, rank: Ranking): seq<string> {
    var docs := Matching(records);
    Take(Pick(docs, rank(docs)), n)
  }

  /** Whatever the ranking, a query returns at most n documents, each a
      stored document carrying the conversation tag. */
  lemma QueryReturnsStored(records: seq<Record>, n: nat, rank: Ranking)
    ensures |Query(records, n, rank)| <= n
    ensures forall k :: 0 <= k < |Query(records, n, rank)| ==> Query(records, n, rank)[k] in Matching(records)
  {
    var docs := Matching(records);
    var picked := Pick(docs, rank(docs));
    assert Query(records, n, rank) == Take(picked, n);
  }

  /** `get_latest_conversation_summary`: the first document the query
      returns, or `""` when it returns none. */
  function LatestSummary(records: seq<Record>, rank: Ranking): string {
    var found := Query(records, 1, rank);
    if |found| > 0 then found[0] else ""
  }

  /** The latest summary is a stored document, or `""` for a collection
      with nothing stored. */
  lemma LatestSummaryIsStored(records: seq<Record>, rank: Ranking)
    ensures Matching(records) == [] ==> LatestSummary(records, rank) == ""
    ensures LatestSummary(records, rank) == "" || LatestSummary(records, rank) in Matching(records)
  {
    QueryReturnsStored(records, 1, rank);
  }

  /** `get_all_conversations`: the documents of one query for at most 1000
      of them, joined by single spaces. */
  function AllConversations(records: seq<Record>, rank: Ranking): string {
    Join(" ", Query(records, 1000, rank))
  }

  /** Reading a user's conversations gives exactly the text joined from at
      most 1000 stored documents; an empty collection reads as `""`. */
  lemma AllConversationsShape(records: seq<Record>, rank: Ranking)
    ensures var q := Query(records, 1000, rank);
      AllConversations(records, rank) == Join(" ", q) && |q| <= 1000
      && (forall k :: 0 <= k < |q| ==> q[k] in Matching(records))
    ensures Matching(records) == [] ==> AllConversations(records, rank) == ""
  {
    QueryReturnsStored(records, 1000, rank);
  }

  // ---------------------------------------------------------------------------
  // Summarising one turn

  /** `enhance_positive_sentiment(text)`, with TextBlob's polarity given as
      the parameter `polarity`. */
  function EnhancePositiveSentiment(text: string, polarity: string -> real): string {
    if polarity(text) < 0.0 then Reframe + text else text
  }

  /** The adjustment only ever puts the fixed clause in front: the text
      survives at the end, and something is added exactly when the score
      is below zero (a score of exactly zero leaves the text alone). */
  lemma SentimentPolicy(text: string, polarity: string -> real)
    ensures var r := EnhancePositiveSentiment(text, polarity);
      EndsWith(r, text)
      && (|r| > |text| <==> polarity(text) < 0.0)
      && (|r| > |text| ==> r == Reframe + text)
      && (|r| == |text| ==> r == text)
  {
    var r := EnhancePositiveSentiment(text, polarity);
    if polarity(text) < 0.0 {
      assert r[|r| - |text|..] == text;
    } else {
      assert r[0..] == r;
    }
  }

  /** The prompt `summarize_conversation` renders from its template. */
  function SummaryPrompt(latest: string, conversation: string): string {
    "请对以下对话进行简化，并使其内容更加丰富和积极乐观：\n\n"
    + "之前的日记内容：\n" + latest + "\n\n"
    + "当前对话内容：\n" + conversation + "\n\n"
    + "简化后的对话："
  }

  /** `summarize_conversation` once the latest summary is known: the model's
      answer, stripped, then sentiment-adjusted; `None` when the chain
      raises (there is no fallback). */
  function Summary(latest: string, conversation: string, chain: string -> Option<string>,
                   polarity: string -> real): Option<string>
  {
    match chain(SummaryPrompt(latest, conversation))
    case None => None
    case Some(raw) => Some(EnhancePositiveSentiment(Strip(raw), polarity))
  }

  /** A summary exists exactly when the chain answers, and it is the
      stripped answer, alone or after the reframing clause. */
  lemma SummaryOfAnswer(latest: string, conversation: string, chain: string -> Option<string>,
                        polarity: string -> real)
    ensures Summary(latest, conversation, chain, polarity).Some? <==> chain(SummaryPrompt(latest, conversation)).Some?
    ensures var r := Summary(latest, conversation, chain, polarity);
      r.Some? ==>
        var s := Strip(chain(SummaryPrompt(latest, conversation)).value);
        EndsWith(r.value, s) && (r.value == s || r.value == Reframe + s)
        && (r.value == Reframe + s <==> polarity(s) < 0.0)
  {
    match chain(SummaryPrompt(latest, conversation))
    case None =>
    case Some(raw) => SentimentPolicy(Strip(raw), polarity);
  }

  /** Every collection was written by `add_conversation` only. */
  predicate AllNumbered(collections: map<string, seq<Record>>) {
    forall name :: name in collections ==> Numbered(collections[name])
  }

  /** Creating a missing collection, or appending one summary to a
      collection, keeps every collection numbered. */
  lemma StoreKeepsNumbering(collections: map<string, seq<Record>>, name: string)
    requires AllNumbered(collections)
    ensures AllNumbered(collections[name := Lookup(collections, name)])
    ensures forall doc :: AllNumbered(collections[name := Appended(Lookup(collections, name), doc)])
  {
    forall doc
      ensures AllNumbered(collections[name := Appended(Lookup(collections, name), doc)])
    {
      AppendedKeepsNumbering(Lookup(collections, name), doc);
    }
  }

  /** A store whose every collection reads the same is still numbered, even
      with empty collections created on the way. */
  lemma SameRecordsKeepNumbering(before: map<string, seq<Record>>, after: map<string, seq<Record>>)
    requires AllNumbered(before)
    requires forall name :: Lookup(after, name) == Lookup(before, name)
    ensures AllNumbered(after)
  {
    forall name | name in after
      ensures Numbered(after[name])
    {
      assert Lookup(after, name) == Lookup(before, name);
    }
  }

  /** Making sure a collection exists a second time changes nothing. */
  lemma EnsuredTwice(c0: map<string, seq<Record>>, c1: map<string, seq<Record>>, c2: map<string, seq<Record>>,
                     name: string)
    requires c1 == c0[name := Lookup(c0, name)] && c2 == c1[name := Lookup(c1, name)]
    ensures c2 == c1 && Lookup(c1, name) == Lookup(c0, name)
  {
  }

  /** Making sure a collection exists changes what no collection reads. */
  lemma EnsuredReadsSame(c0: map<string, seq<Record>>, c1: map<string, seq<Record>>, name: string)
    requires c1 == c0[name := Lookup(c0, name)]
    ensures forall other :: Lookup(c1, other) == Lookup(c0, other)
  {
  }

  // ---------------------------------------------------------------------------
  // The store

  /** The vector-store client: every collection by name. Each method states
      the whole new store; `StoreKeepsNumbering` shows they keep every
      collection numbered. */
  class VectorStore {
    var collections: map<string, seq<Record>>

    constructor ()
      ensures collections == map[]
    {
      collections := map[];
    }

    /** `get_user_collection`: creates the user's collection if it is missing. */
    method GetUserCollection(userId: string) returns (name: string)
      modifies this
      ensures name == CollectionName(userId)
      ensures collections == old(collections)[name := Lookup(old(collections), name)]
    {
      name := CollectionName(userId);
      if name !in collections {
        collections := collections[name := []];
      }
    }

    /** `get_latest_conversation_summary(user_id)` */
    method GetLatestConversationSummary(userId: string, rank: Ranking) returns (latest: string)
      modifies this
      ensures var name := CollectionName(userId);
        latest == LatestSummary(Lookup(old(collections), name), rank)
        && collections == old(collections)[name := Lookup(old(collections), name)]
    {
      var name := GetUserCollection(userId);
      latest := LatestSummary(collections[name], rank);
    }

    /** `get_all_conversations(user_id)` */
    method GetAllConversations(userId: string, rank: Ranking) returns (text: string)
      modifies this
      ensures var name := CollectionName(userId);
        text == AllConversations(Lookup(old(collections), name), rank)
        && collections == old(collections)[name := Lookup(old(collections), name)]
    {
      var name := GetUserCollection(userId);
      text := AllConversations(collections[name], rank);
    }

    /** `summarize_conversation(user_id, conversation)` */
    method SummarizeConversation(userId: string, conversation: string, chain: string -> Option<string>,
                                 rank: Ranking, polarity: string -> real) returns (summary: Option<string>)
      modifies this
      ensures var name := CollectionName(userId);
        summary == Summary(LatestSummary(Lookup(old(collections), name), rank), conversation, chain, polarity)
        && collections == old(collections)[name := Lookup(old(collections), name)]
    {
      var latest := GetLatestConversationSummary(userId, rank);
      var raw := chain(SummaryPrompt(latest, conversation));
      if raw.None? {
        return None;
      }
      summary := Some(EnhancePositiveSentiment(Strip(raw.value), polarity));
    }

    /** `add_conversation(user_id, conversation)`: summarise first, then
        append the summary (not the raw turn) as one record numbered by the
        collection's size. If summarising raises, nothing is appended,
        though the collection now exists. */
    method AddConversation(userId: string, conversation: string, chain: string -> Option<string>,
                           rank: Ranking, polarity: string -> real) returns (added: bool)
      modifies this
      ensures var name := CollectionName(userId);
        var before := Lookup(old(collections), name);
        var s := Summary(LatestSummary(before, rank), conversation, chain, polarity);
        added == s.Some?
        && collections == old(collections)[name := if added then Appended(before, s.value) else before]
    {
      var name := GetUserCollection(userId);
      ghost var before := Lookup(old(collections), name);
      ghost var created := collections;
      var summarized := SummarizeConversation(userId, conversation, chain, rank, polarity);
      EnsuredTwice(old(collections), created, collections, name);
      assert summarized == Summary(LatestSummary(before, rank), conversation, chain, polarity);
      if summarized.None? {
        return false;
      }
      assert collections[name] == before;
      collections := collections[name := Appended(collections[name], summarized.value)];
      added := true;
    }
  }
}
