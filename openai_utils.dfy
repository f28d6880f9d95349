/** The chat-completion side of the diary back end: the four personality
    templates, how a prompt is put into one, the message list every request
    carries, and the loop that turns a streamed completion into a growing
    text. The completion service itself is not modelled: callers receive
    its answers as function parameters. */
module OpenAIUtils {
  import opened Strings

  // ---------------------------------------------------------------------------
  // Requests and answers

  datatype Message = Message(role: string, content: string)

  datatype ChatRequest = ChatRequest(model: string, messages: seq<Message>, stream: bool)

  /** The answer to a non-streamed request: the call raised, or it returned a
      response whose first choice carries `content`. `wellFormed` is the
      check `not gpt_response or 'choices' not in gpt_response` negated,
      which the model leaves opaque. */
  datatype Completion = Raised | Completed(wellFormed: bool, content: string)

  const ChatModel := "deepseek-chat"
  const SystemPrompt := "You are a helpful assistant"

  /** Every request sends a system message and then one user message. */
  function ChatMessages(userContent: string): (r: seq<Message>)
    ensures |r| == 2 && r[0] == Message("system", SystemPrompt)
    ensures r[1].role == "user" && r[1].content == userContent
  {
    [Message("system", SystemPrompt), Message("user", userContent)]
  }

  /** `seek_chat_service(prompt, stream)`: the prompt goes out unchanged. */
  function SeekChatRequest(prompt: string, stream: bool): ChatRequest {
    ChatRequest(ChatModel, ChatMessages(prompt), stream)
  }

  // ---------------------------------------------------------------------------
  // Personality templates

  const Placeholder := "{user_input}"
  const DefaultPersonality := "友好风格"

  const FriendlyIntro := "\n    你是一位亲切友好且乐于助人的助手。请以亲切自然、"
  const FriendlyAsk := "礼貌的对话方式回应以下用户的输入：\n\n    User: "
  const FriendlyTail := "\n\n    Assistant: 您好呀，我来为您好好解答啦。\n    "

  const FormalIntro := "\n    你是一位正式且专业的助手。请以恭敬、严谨、"
  const FormalAsk := "准确的态度回应以下用户的输入：\n\n    用户："
  const FormalTail := "\n\n    助手：尊敬的用户，针对您提出的问题，以下是详细且专业的回复。\n    "

  const HumorIntro := "\n    你是一位幽默风趣、机智俏皮的助手。请带着轻松愉快的"
  const HumorAsk := "幽默感回应以下用户的输入：\n\n    用户："
  const HumorTailStart := "\n\n    助手：嘿呀，听您这话呀，就像给我出了个超有趣的"
  const HumorTailEnd := "小谜题呢，且看我逗趣地给您解一解！\n    "

  const EmpathyIntro := "\n    你是一位善解人意、富有同理心的助手。请带着理解和支持"
  const EmpathyAsk := "回应以下用户的输入：\n\n    用户："
  const EmpathyTail := "\n\n    助手：我完全能体会到您此刻的感受，别着急，咱们一起想办法来解决。\n    "

  /** The text before and after the placeholder in each template. */
  function TemplateParts(personality: string): (string, string) {
    if personality == "正式风格" then (FormalIntro + FormalAsk, FormalTail)
    else if personality == "幽默风格" then (HumorIntro + HumorAsk, HumorTailStart + HumorTailEnd)
    else if personality == "共情风格" then (EmpathyIntro + EmpathyAsk, EmpathyTail)
    else (FriendlyIntro + FriendlyAsk, FriendlyTail)
  }

  function TemplateText(personality: string): string {
    TemplateParts(personality).0 + Placeholder + TemplateParts(personality).1
  }

  /** `TEMPLATES` */
  const Templates: map<string, string> := map[
    "友好风格" := TemplateText("友好风格"),
    "正式风格" := TemplateText("正式风格"),
    "幽默风格" := TemplateText("幽默风格"),
    "共情风格" := TemplateText("共情风格")]

  /** `TEMPLATES.get(personality, TEMPLATES["友好风格"])` */
  function TemplateFor(personality: string): string {
    if personality in Templates then Templates[personality] else Templates[DefaultPersonality]
  }

  /** A key of `TEMPLATES` gets its own template; any other key falls back to
      the friendly one. */
  lemma TemplateLookup(personality: string)
    ensures personality in Templates <==> personality in {"友好风格", "正式风格", "幽默风格", "共情风格"}
    ensures TemplateFor(personality) == TemplateText(personality)
    ensures personality !in Templates ==> TemplateFor(personality) == Templates["友好风格"]
  {
  }

  // ---------------------------------------------------------------------------
  // str.format with the single keyword argument user_input

  predicate NoBrace(s: string) {
    forall i :: 0 <= i < |s| ==> s[i] != '{' && s[i] != '}'
  }

  function Prefixed(p: string, r: Option<string>): Option<string> {
    match r
    case None => None
    case Some(x) => Some(p + x)
  }

  /** `t.format(user_input=value)`: `{{` and `}}` stand for single braces,
      `{user_input}` for `value`; a lone brace raises (`None`). Any other
      replacement field, including `{user_input}` with a conversion, format
      spec or index, is modelled as raising too; the four templates
      contain none. */
  function FormatUserInput(t: string, value: string): Option<string>
    decreases |t|
  {
    if |t| == 0 then Some("")
    else if StartsWith(t, "{{") then Prefixed("{", FormatUserInput(t[2..], value))
    else if StartsWith(t, "}}") then Prefixed("}", FormatUserInput(t[2..], value))
    else if StartsWith(t, Placeholder) then Prefixed(value, FormatUserInput(t[|Placeholder|..], value))
    else if t[0] == '{' || t[0] == '}' then None
    else Prefixed([t[0]], FormatUserInput(t[1..], value))
  }

  /** Text without braces is copied through by `format`. */
  lemma {:induction false} FormatCopiesPlainText(h: string, rest: string, value: string)
    requires NoBrace(h)
    ensures FormatUserInput(h + rest, value) == Prefixed(h, FormatUserInput(rest, value))
    decreases |h|
  {
    if |h| == 0 {
      assert h + rest == rest;
      PrefixedEmpty(FormatUserInput(rest, value));
    } else {
      var t := h + rest;
      assert t[0] == h[0] && t[1..] == h[1..] + rest;
      FormatPlainChar(t, value);
      FormatCopiesPlainText(h[1..], rest, value);
      PrefixedTwice([h[0]], h[1..], FormatUserInput(rest, value));
      assert [h[0]] + h[1..] == h;
    }
  }

  lemma PrefixedEmpty(r: Option<string>)
    ensures Prefixed("", r) == r
  {
    if r.Some? {
      assert "" + r.value == r.value;
    }
  }

  lemma PrefixedTwice(a: string, b: string, r: Option<string>)
    ensures Prefixed(a, Prefixed(b, r)) == Prefixed(a + b, r)
  {
    if r.Some? {
      assert a + (b + r.value) == a + b + r.value;
    }
  }

  /** A character other than a brace is copied. */
  lemma FormatPlainChar(t: string, value: string)
    requires |t| > 0 && t[0] != '{' && t[0] != '}'
    ensures FormatUserInput(t, value) == Prefixed([t[0]], FormatUserInput(t[1..], value))
  {
    assert !StartsWith(t, "{{") && !StartsWith(t, "}}") && !StartsWith(t, Placeholder);
  }

  /** A template made of brace-free text around one placeholder formats to
      that text around the value. */
  lemma FormatOnePlaceholder(h: string, t: string, value: string)
    requires NoBrace(h) && NoBrace(t)
    ensures FormatUserInput(h + Placeholder + t, value) == Some(h + value + t)
  {
    FormatCopiesPlainText(t, "", value);
    assert t + "" == t;
    FormatAtPlaceholder(t, value);
    FormatCopiesPlainText(h, Placeholder + t, value);
    assert h + (Placeholder + t) == h + Placeholder + t;
    assert h + (value + t) == h + value + t;
  }

  /** `{user_input}` at the front of a template is replaced by the value. */
  lemma FormatAtPlaceholder(rest: string, value: string)
    ensures FormatUserInput(Placeholder + rest, value) == Prefixed(value, FormatUserInput(rest, value))
  {
    var p := Placeholder + rest;
    assert p[..|Placeholder|] == Placeholder && p[|Placeholder|..] == rest;
    assert p[1] == 'u';
  }

  lemma NoBraceConcat(a: string, b: string)
    requires NoBrace(a) && NoBrace(b)
    ensures NoBrace(a + b)
  {
  }

  lemma FriendlyBraceFree()
    ensures NoBrace(FriendlyIntro + FriendlyAsk) && NoBrace(FriendlyTail)
  {
    assert NoBrace(FriendlyIntro);
    assert NoBrace(FriendlyAsk);
    assert NoBrace(FriendlyTail);
    NoBraceConcat(FriendlyIntro, FriendlyAsk);
  }

  lemma FormalBraceFree()
    ensures NoBrace(FormalIntro + FormalAsk) && NoBrace(FormalTail)
  {
    assert NoBrace(FormalIntro);
    assert NoBrace(FormalAsk);
    assert NoBrace(FormalTail);
    NoBraceConcat(FormalIntro, FormalAsk);
  }

  lemma HumorBraceFree()
    ensures NoBrace(HumorIntro + HumorAsk) && NoBrace(HumorTailStart + HumorTailEnd)
  {
    assert NoBrace(HumorIntro);
    assert NoBrace(HumorAsk);
    assert NoBrace(HumorTailStart);
    assert NoBrace(HumorTailEnd);
    NoBraceConcat(HumorIntro, HumorAsk);
    NoBraceConcat(HumorTailStart, HumorTailEnd);
  }

  lemma EmpathyBraceFree()
    ensures NoBrace(EmpathyIntro + EmpathyAsk) && NoBrace(EmpathyTail)
  {
    assert NoBrace(EmpathyIntro);
    assert NoBrace(EmpathyAsk);
    assert NoBrace(EmpathyTail);
    NoBraceConcat(EmpathyIntro, EmpathyAsk);
  }

  /** Every template is brace-free text, exactly one `{user_input}`, and
      brace-free text: the placeholder is its only replacement field. */
  lemma TemplateShape(personality: string)
    ensures NoBrace(TemplateParts(personality).0) && NoBrace(TemplateParts(personality).1)
    ensures TemplateFor(personality) == TemplateParts(personality).0 + Placeholder + TemplateParts(personality).1
  {
    FriendlyBraceFree();
    FormalBraceFree();
    HumorBraceFree();
    EmpathyBraceFree();
    TemplateLookup(personality);
  }

  /** The text of the user message: the template's fixed texts around
      the prompt. */
  function FormattedPrompt(prompt: string, personality: string): string {
    var (h, t) := TemplateParts(personality);
    h + prompt + t
  }

  /** `TEMPLATES.get(personality, …).format(user_input=prompt)` never raises
      and gives the formatted prompt: the prompt verbatim, once, between
      the fixed texts of the chosen template. */
  lemma FormattedPromptIsFormat(prompt: string, personality: string)
    ensures FormatUserInput(TemplateFor(personality), prompt) == Some(FormattedPrompt(prompt, personality))
  {
    TemplateShape(personality);
    var (h, t) := TemplateParts(personality);
    FormatOnePlaceholder(h, t, prompt);
  }

  /** The request of `generate_summary` (stream off) and
      `generate_summary_stream` (stream on). */
  function GenerateSummaryRequest(prompt: string, personality: string, stream: bool): ChatRequest {
    ChatRequest(ChatModel, ChatMessages(FormattedPrompt(prompt, personality)), stream)
  }

  /** Both request builders send the system message and one user message;
      `seek_chat_service` sends the prompt as it is, `generate_summary`
      sends it inside the template's fixed texts. */
  lemma RequestLayout(prompt: string, personality: string, stream: bool)
    ensures var s := SeekChatRequest(prompt, stream);
      s.model == ChatModel && s.stream == stream && |s.messages| == 2
      && s.messages[0] == Message("system", "You are a helpful assistant")
      && s.messages[1] == Message("user", prompt)
    ensures var g := GenerateSummaryRequest(prompt, personality, stream);
      var (h, t) := TemplateParts(personality);
      g.model == ChatModel && g.stream == stream && |g.messages| == 2
      && g.messages[0] == Message("system", "You are a helpful assistant")
      && g.messages[1] == Message("user", h + prompt + t)
  {
  }

  // ---------------------------------------------------------------------------
  // The streamed completion

  /** What `choice.delta.content` is for one part: no such attribute,
      `None`, or a text. */
  datatype DeltaContent = Missing | Null | Text(text: string)

  /** One streamed part: no `choices` attribute, or its choices, each
      given by its delta's content. */
  datatype Chunk = Chunk(choices: Option<seq<DeltaContent>>)

  /** The content the loop finds in one part (only the first choice counts). */
  function PartDelta(part: Chunk): DeltaContent {
    match part.choices
    case None => Missing
    case Some(cs) => if |cs| > 0 then cs[0] else Missing
  }

  /** The texts the stream loop appends, in order, and whether it raised:
      `result += None` raises `TypeError` at the first `None` content. */
  function StreamDeltas(parts: seq<Chunk>): (seq<string>, bool)
    decreases |parts|
  {
    if |parts| == 0 then ([], false)
    else
      var (ds, raised) := StreamDeltas(parts[..|parts| - 1]);
      if raised then (ds, true)
      else match PartDelta(parts[|parts| - 1])
        case Missing => (ds, false)
        case Null => (ds, true)
        case Text(s) => (ds + [s], false)
  }

  /** Once the loop has raised, later parts change nothing. */
  lemma {:induction false} StreamStopsAtRaise(parts: seq<Chunk>, i: nat)
    requires i <= |parts| && StreamDeltas(parts[..i]).1
    ensures StreamDeltas(parts) == StreamDeltas(parts[..i])
    decreases |parts| - i
  {
    if i < |parts| {
      var n := |parts|;
      assert parts[..n - 1][..i] == parts[..i];
      StreamStopsAtRaise(parts[..n - 1], i);
      assert parts[..n] == parts;
    } else {
      assert parts[..i] == parts;
    }
  }

  /** The values the loop yields for the given deltas: the running
      concatenations, one per delta. */
  function RunningJoins(ds: seq<string>): seq<string>
    decreases |ds|
  {
    if |ds| == 0 then [] else RunningJoins(ds[..|ds| - 1]) + [Join("", ds)]
  }

  /** The k-th yielded value is the first k + 1 deltas concatenated. */
  lemma {:induction false} RunningJoinsPrefixes(ds: seq<string>)
    ensures |RunningJoins(ds)| == |ds|
    ensures forall k :: 0 <= k < |ds| ==> RunningJoins(ds)[k] == Join("", ds[..k + 1])
    decreases |ds|
  {
    if |ds| > 0 {
      var n := |ds|;
      var init := ds[..n - 1];
      RunningJoinsPrefixes(init);
      forall k | 0 <= k < n - 1
        ensures RunningJoins(ds)[k] == Join("", ds[..k + 1])
      {
        assert init[..k + 1] == ds[..k + 1];
      }
      assert ds[..n] == ds;
    }
  }

  /** Each yielded value is the previous one with one delta appended (so it
      extends it), the first is the first delta, and the last is all the
      deltas concatenated. */
  lemma RunningJoinsChain(ds: seq<string>)
    ensures |RunningJoins(ds)| == |ds|
    ensures |ds| > 0 ==> RunningJoins(ds)[0] == ds[0]
    ensures forall k :: 0 < k < |ds| ==> RunningJoins(ds)[k] == RunningJoins(ds)[k - 1] + ds[k]
    ensures forall k :: 0 < k < |ds| ==> StartsWith(RunningJoins(ds)[k], RunningJoins(ds)[k - 1])
    ensures |ds| > 0 ==> RunningJoins(ds)[|ds| - 1] == Join("", ds)
  {
    var rs := RunningJoins(ds);
    RunningJoinsPrefixes(ds);
    forall k | 0 < k < |ds|
      ensures rs[k] == rs[k - 1] + ds[k] && StartsWith(rs[k], rs[k - 1])
    {
      JoinPrefixStep(ds, k);
      assert (rs[k - 1] + ds[k])[..|rs[k - 1]|] == rs[k - 1];
    }
    if |ds| > 0 {
      assert ds[..1] == [ds[0]];
      assert ds[..|ds|] == ds;
    }
  }

  lemma JoinPrefixStep(ds: seq<string>, k: nat)
    requires 0 < k < |ds|
    ensures Join("", ds[..k + 1]) == Join("", ds[..k]) + ds[k]
  {
    JoinSnoc("", ds[..k], ds[k]);
    assert ds[..k] + [ds[k]] == ds[..k + 1];
  }

  /** The loop of `generate_summary_stream`: `result` starts empty, every
      content delta is appended and the new `result` yielded, until a `None`
      content raises. */
  method AccumulateStream(parts: seq<Chunk>) returns (emitted: seq<string>, raised: bool)
    ensures raised == StreamDeltas(parts).1
    ensures emitted == RunningJoins(StreamDeltas(parts).0)
  {
    var result := "";
    emitted, raised := [], false;
    ghost var ds: seq<string> := [];
    var i := 0;
    while i < |parts| && !raised
      invariant 0 <= i <= |parts|
      invariant StreamDeltas(parts[..i]) == (ds, raised)
      invariant emitted == RunningJoins(ds) && result == Join("", ds)
    {
      var part := parts[i];
      assert parts[..i + 1][..i] == parts[..i];
      if part.choices.Some? && |part.choices.value| > 0 {
        var choice := part.choices.value[0];
        match choice
        case Missing =>
        case Null =>
          raised := true;
        case Text(s) =>
          JoinSnoc("", ds, s);
          assert Join("", ds + [s]) == result + s;
          assert (ds + [s])[..|ds|] == ds;
          assert RunningJoins(ds + [s]) == RunningJoins(ds) + [Join("", ds + [s])];
          result := result + s;
          ds := ds + [s];
          emitted := emitted + [result];
      }
      i := i + 1;
    }
    if raised {
      StreamStopsAtRaise(parts, i);
    } else {
      assert parts[..i] == parts;
    }
  }
}
