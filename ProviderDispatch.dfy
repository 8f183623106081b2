/**
 * `sendMessageToModel(model, message)` of the older client
 * (client/original_frontend_backup/src/config/api.js): pick the vendor by its
 * model key, build that vendor's POST request, read the reply text out of the
 * vendor's JSON answer, and turn every failure into one fixed string.
 *
 * The network is an oracle: `fetched` is what the single `fetch` call for the
 * built request produces (a transport failure, a body that is not JSON, or a
 * parsed JSON body together with its HTTP status).
 */
module ProviderDispatch {
  import opened Basics

  /** The JavaScript values a parsed JSON body and reads of its properties can produce. */
  datatype JsValue =
    | Undefined
    | Null
    | Bool(b: bool)
    | Num(n: real)
    | Str(s: string)
    | Arr(items: seq<JsValue>)
    | Obj(fields: map<string, JsValue>)

  /** One step of a property path: `.name` or `[i]`. */
  datatype Key = Name(name: string) | Index(i: nat)

  /** The result of a property read: a value, or the TypeError thrown on `undefined`/`null`. */
  datatype Access = Value(v: JsValue) | TypeError

  predicate IsNullish(a: Access) {
    a == Value(Undefined) || a == Value(Null)
  }

  function Digit(d: nat): char
    requires d < 10
  {
    "0123456789"[d]
  }

  /** The decimal property name JavaScript uses for an index into a plain object. */
  function DecimalString(n: nat): (r: string)
    ensures |r| >= 1
  {
    if n < 10 then [Digit(n)] else DecimalString(n / 10) + [Digit(n % 10)]
  }

  /**
   * `v.name` / `v[i]` on a value of JSON origin. Reads of inherited
   * prototype members are not modelled; no name on the reply paths is one.
   */
  function Get(v: JsValue, k: Key): (r: Access)
    ensures r == TypeError <==> (v == Undefined || v == Null)
  {
    match v
    case Undefined => TypeError
    case Null => TypeError
    case Obj(fields) =>
      var name := match k case Name(n) => n case Index(i) => DecimalString(i);
      if name in fields then Value(fields[name]) else Value(Undefined)
    case Arr(items) =>
      (match k
       case Index(i) => if i < |items| then Value(items[i]) else Value(Undefined)
       case Name(n) => if n == "length" then Value(Num(|items| as real)) else Value(Undefined))
    case Str(s) =>
      (match k
       case Index(i) => if i < |s| then Value(Str([s[i]])) else Value(Undefined)
       case Name(n) => if n == "length" then Value(Num(|s| as real)) else Value(Undefined))
    case _ => Value(Undefined)
  }

  /** Follow a property path, stopping at the first TypeError. */
  function Walk(v: JsValue, path: seq<Key>): Access
    decreases |path|
  {
    if path == [] then Value(v)
    else
      match Get(v, path[0])
      case TypeError => TypeError
      case Value(w) => Walk(w, path[1..])
  }

  /** The supported vendors. */
  datatype Provider = Gpt4 | Claude | Gemini

  /** The model key that selects each vendor. */
  function ModelKey(p: Provider): string {
    match p
    case Gpt4 => "gpt-4"
    case Claude => "claude"
    case Gemini => "gemini"
  }

  /** The `switch (model)`: a supported key or nothing. */
  function ParseModel(model: string): (r: Option<Provider>)
    ensures forall p: Provider :: r == Some(p) <==> model == ModelKey(p)
  {
    if model == "gpt-4" then Some(Gpt4)
    else if model == "claude" then Some(Claude)
    else if model == "gemini" then Some(Gemini)
    else None
  }

  /** The three `import.meta.env` keys; None when the variable is not defined. */
  datatype Env = Env(openaiKey: Option<string>, claudeKey: Option<string>, geminiKey: Option<string>)

  /** How an environment value reads inside a template literal or a header value. */
  function EnvText(v: Option<string>): string {
    match v
    case Some(s) => s
    case None => "undefined"
  }

  const OpenAIUrl: string := "https://api.openai.com/v1/chat/completions"
  const AnthropicUrl: string := "https://api.anthropic.com/v1/messages"
  const GeminiUrlPrefix: string :=
    "https://generativelanguage.googleapis.com/v1beta/models/gemini-pro:generateContent?key="
  const ErrorReply: string := "\U{26A0}\U{FE0F} Error fetching response!"

  /** The request handed to `fetch`; `body` is the value that is `JSON.stringify`-ed. */
  datatype Request = Request(httpMethod: string, url: string, headers: map<string, string>, body: JsValue)

  function UserMessage(message: string): JsValue {
    Obj(map["role" := Str("user"), "content" := Str(message)])
  }

  /** The vendor's request for the current message. */
  function BuildRequest(p: Provider, message: string, env: Env): (r: Request)
    ensures r.httpMethod == "POST"
    ensures "Content-Type" in r.headers && r.headers["Content-Type"] == "application/json"
    ensures p == Gpt4 ==> r.url == OpenAIUrl && r.headers.Keys == {"Content-Type", "Authorization"}
    ensures p == Claude ==> r.url == AnthropicUrl && r.headers.Keys == {"Content-Type", "x-api-key"}
    ensures p == Gemini ==> r.url == GeminiUrlPrefix + EnvText(env.geminiKey)
                            && r.headers.Keys == {"Content-Type"}
  {
    var json := map["Content-Type" := "application/json"];
    match p
    case Gpt4 =>
      Request("POST", OpenAIUrl,
              json["Authorization" := "Bearer " + EnvText(env.openaiKey)],
              Obj(map["model" := Str("gpt-4"), "messages" := Arr([UserMessage(message)])]))
    case Claude =>
      Request("POST", AnthropicUrl,
              json["x-api-key" := EnvText(env.claudeKey)],
              Obj(map["model" := Str("claude-3-opus-20240229"), "max_tokens" := Num(512.0),
                      "messages" := Arr([UserMessage(message)])]))
    case Gemini =>
      Request("POST", GeminiUrlPrefix + EnvText(env.geminiKey), json,
              Obj(map["contents" := Arr([Obj(map["parts" := Arr([Obj(map["text" := Str(message)])])])])]))
  }

  /** Where each vendor's answer keeps the reply text. */
  function ReplyPath(p: Provider): (path: seq<Key>)
    ensures |path| >= 3 && path[0].Name? && path[1] == Index(0)
  {
    match p
    case Gpt4 => [Name("choices"), Index(0), Name("message"), Name("content")]
    case Claude => [Name("content"), Index(0), Name("text")]
    case Gemini => [Name("candidates"), Index(0), Name("content"), Name("parts"), Index(0), Name("text")]
  }

  /** What the single `fetch` for the request produced. */
  datatype FetchOutcome =
    | NetworkError
    | NotJson(status: int)
    | Received(status: int, data: JsValue)

  /** What the call issued (at most one request) and what it resolved to. */
  datatype Dispatch = Dispatch(sent: Option<Request>, reply: JsValue)

  function SendMessageToModel(model: string, message: string, env: Env, fetched: FetchOutcome): (r: Dispatch)
    ensures r.sent.None? <==> ParseModel(model).None?
    ensures r.sent.Some? ==> r.sent.value == BuildRequest(ParseModel(model).value, message, env)
  {
    match ParseModel(model)
    case None => Dispatch(None, Str(ErrorReply))
    case Some(p) =>
      var request := BuildRequest(p, message, env);
      match fetched
      case NetworkError => Dispatch(Some(request), Str(ErrorReply))
      case NotJson(_) => Dispatch(Some(request), Str(ErrorReply))
      case Received(_, data) =>
        match Walk(data, ReplyPath(p))
        case TypeError => Dispatch(Some(request), Str(ErrorReply))
        case Value(v) => Dispatch(Some(request), v)
  }

  // ---------------------------------------------------------------------------
  // The request side

  /** The model key of every vendor selects that vendor, and nothing else is a key. */
  lemma ModelKeyRoundTrip(p: Provider, model: string)
    ensures ParseModel(ModelKey(p)) == Some(p)
    ensures ParseModel(model).Some? ==> ModelKey(ParseModel(model).value) == model
  {
  }

  /** A key outside "gpt-4", "claude" and "gemini" fails before any request is issued. */
  lemma UnsupportedModel(model: string, message: string, env: Env, fetched: FetchOutcome)
    requires model != "gpt-4" && model != "claude" && model != "gemini"
    ensures SendMessageToModel(model, message, env, fetched) == Dispatch(None, Str(ErrorReply))
  {
  }

  /** A `{role: "user", content: <string>}` entry of a chat body. */
  predicate IsUserTurn(v: JsValue) {
    v.Obj? && "role" in v.fields && v.fields["role"] == Str("user")
    && "content" in v.fields && v.fields["content"].Str?
  }

  /** Contents of the `messages` entries of a chat body, when each is a user message. */
  function UserContents(items: seq<JsValue>): Option<seq<string>>
    decreases |items|
  {
    if items == [] then Some([])
    else
      var rest := UserContents(items[1..]);
      if IsUserTurn(items[0]) && rest.Some?
      then Some([items[0].fields["content"].s] + rest.value) else None
  }

  /** A `{text: <string>}` part of a Gemini body. */
  predicate IsTextPart(v: JsValue) {
    v.Obj? && "text" in v.fields && v.fields["text"].Str?
  }

  /** Texts of the `contents[].parts[]` entries of a Gemini body. */
  function PartTexts(items: seq<JsValue>): Option<seq<string>>
    decreases |items|
  {
    if items == [] then Some([])
    else
      var rest := PartTexts(items[1..]);
      if IsTextPart(items[0]) && rest.Some?
      then Some([items[0].fields["text"].s] + rest.value) else None
  }

  /** A `{parts: [...]}` entry of a Gemini body whose parts all carry text. */
  predicate IsContent(v: JsValue) {
    v.Obj? && "parts" in v.fields && v.fields["parts"].Arr? && PartTexts(v.fields["parts"].items).Some?
  }

  function ContentTexts(items: seq<JsValue>): Option<seq<string>>
    decreases |items|
  {
    if items == [] then Some([])
    else
      var rest := ContentTexts(items[1..]);
      if IsContent(items[0]) && rest.Some?
      then Some(PartTexts(items[0].fields["parts"].items).value + rest.value) else None
  }

  /** The conversation a vendor reads from a request body. */
  function SentTurns(p: Provider, body: JsValue): Option<seq<string>> {
    match body
    case Obj(m) =>
      if p == Gemini then
        if "contents" in m && m["contents"].Arr? then ContentTexts(m["contents"].items) else None
      else
        if "messages" in m && m["messages"].Arr? then UserContents(m["messages"].items) else None
    case _ => None
  }

  lemma SingleUserMessage(message: string)
    ensures UserContents([UserMessage(message)]) == Some([message])
  {
    var turn := UserMessage(message);
    assert [turn][1..] == [];
    assert IsUserTurn(turn);
    assert UserContents([]) == Some([]);
    assert turn.fields["content"].s == message;
    assert [message] + [] == [message];
  }

  /** Every request carries exactly the current message as its one user turn, never earlier ones. */
  lemma OnlyCurrentMessage(p: Provider, message: string, env: Env)
    ensures SentTurns(p, BuildRequest(p, message, env).body) == Some([message])
  {
    var body := BuildRequest(p, message, env).body;
    match p {
      case Gpt4 =>
        SingleUserMessage(message);
      case Claude =>
        SingleUserMessage(message);
      case Gemini =>
        var part := Obj(map["text" := Str(message)]);
        assert [part][1..] == [];
        assert IsTextPart(part);
        assert [message] + [] == [message];
        assert PartTexts([part]) == Some([message]);
        var content := Obj(map["parts" := Arr([part])]);
        assert [content][1..] == [];
        assert IsContent(content);
        assert ContentTexts([content]) == Some([message]);
    }
  }

  /** The key goes in a header for "gpt-4" and "claude" and in the URL query for "gemini". */
  lemma CredentialPlacement(p: Provider, message: string, env: Env)
    ensures var r := BuildRequest(p, message, env);
            match p
            case Gpt4 => r.headers["Authorization"] == "Bearer " + EnvText(env.openaiKey)
            case Claude => r.headers["x-api-key"] == EnvText(env.claudeKey)
            case Gemini => "Authorization" !in r.headers && "x-api-key" !in r.headers
                           && GeminiUrlPrefix <= r.url
  {
  }

  // ---------------------------------------------------------------------------
  // The response side

  /** A vendor answer shaped as the vendor documents it, with `v` as the reply text. */
  function ResponseEnvelope(p: Provider, v: JsValue): JsValue {
    match p
    case Gpt4 => Obj(map["choices" := Arr([Obj(map["message" := Obj(map["content" := v])])])])
    case Claude => Obj(map["content" := Arr([Obj(map["text" := v])])])
    case Gemini =>
      Obj(map["candidates" := Arr([Obj(map["content" := Obj(map["parts" := Arr([Obj(map["text" := v])])])])])])
  }

  lemma ZeroIndexName()
    ensures DecimalString(0) == "0"
  {
  }

  /** One step of a walk that does not throw. */
  lemma WalkStep(v: JsValue, k: Key, rest: seq<Key>, w: JsValue)
    requires Get(v, k) == Value(w)
    ensures Walk(v, [k] + rest) == Walk(w, rest)
  {
    assert ([k] + rest)[0] == k;
    assert ([k] + rest)[1..] == rest;
  }

  lemma Gpt4EnvelopeWalk(v: JsValue)
    ensures Walk(ResponseEnvelope(Gpt4, v), ReplyPath(Gpt4)) == Value(v)
  {
    ZeroIndexName();
    var message := Obj(map["content" := v]);
    var choice := Obj(map["message" := message]);
    var p3: seq<Key> := [Name("content")];
    var p2 := [Name("message")] + p3;
    var p1 := [Index(0)] + p2;
    assert ReplyPath(Gpt4) == [Name("choices")] + p1;
    WalkStep(message, Name("content"), [], v);
    assert p3 == [Name("content")] + [];
    WalkStep(choice, Name("message"), p3, message);
    WalkStep(Arr([choice]), Index(0), p2, choice);
    WalkStep(ResponseEnvelope(Gpt4, v), Name("choices"), p1, Arr([choice]));
  }

  lemma ClaudeEnvelopeWalk(v: JsValue)
    ensures Walk(ResponseEnvelope(Claude, v), ReplyPath(Claude)) == Value(v)
  {
    ZeroIndexName();
    var block := Obj(map["text" := v]);
    var p2: seq<Key> := [Name("text")];
    var p1 := [Index(0)] + p2;
    assert ReplyPath(Claude) == [Name("content")] + p1;
    assert p2 == [Name("text")] + [];
    WalkStep(block, Name("text"), [], v);
    WalkStep(Arr([block]), Index(0), p2, block);
    WalkStep(ResponseEnvelope(Claude, v), Name("content"), p1, Arr([block]));
  }

  lemma GeminiEnvelopeWalk(v: JsValue)
    ensures Walk(ResponseEnvelope(Gemini, v), ReplyPath(Gemini)) == Value(v)
  {
    ZeroIndexName();
    var part := Obj(map["text" := v]);
    var content := Obj(map["parts" := Arr([part])]);
    var candidate := Obj(map["content" := content]);
    var p3: seq<Key> := [Name("parts"), Index(0), Name("text")];
    var p2 := [Name("content")] + p3;
    var p1 := [Index(0)] + p2;
    assert ReplyPath(Gemini) == [Name("candidates")] + p1;
    GeminiContentWalk(v);
    WalkStep(candidate, Name("content"), p3, content);
    WalkStep(Arr([candidate]), Index(0), p2, candidate);
    WalkStep(ResponseEnvelope(Gemini, v), Name("candidates"), p1, Arr([candidate]));
  }

  /** The inner half of the Gemini path: `parts[0].text` inside a candidate's content. */
  lemma GeminiContentWalk(v: JsValue)
    ensures Walk(Obj(map["parts" := Arr([Obj(map["text" := v])])]), [Name("parts"), Index(0), Name("text")])
         == Value(v)
  {
    ZeroIndexName();
    var part := Obj(map["text" := v]);
    var p5: seq<Key> := [Name("text")];
    var p4 := [Index(0)] + p5;
    assert [Name("parts"), Index(0), Name("text")] == [Name("parts")] + p4;
    assert p5 == [Name("text")] + [];
    WalkStep(part, Name("text"), [], v);
    WalkStep(Arr([part]), Index(0), p5, part);
    WalkStep(Obj(map["parts" := Arr([part])]), Name("parts"), p4, Arr([part]));
  }

  /** The reply path of each vendor leads to the reply inside that vendor's envelope. */
  lemma EnvelopeWalk(p: Provider, v: JsValue)
    ensures Walk(ResponseEnvelope(p, v), ReplyPath(p)) == Value(v)
  {
    match p {
      case Gpt4 => Gpt4EnvelopeWalk(v);
      case Claude => ClaudeEnvelopeWalk(v);
      case Gemini => GeminiEnvelopeWalk(v);
    }
  }

  /** Reading the reply path of a well-shaped answer gives back the reply, whatever the HTTP status. */
  lemma ReplyRoundTrip(p: Provider, v: JsValue, message: string, env: Env, status: int)
    ensures SendMessageToModel(ModelKey(p), message, env, Received(status, ResponseEnvelope(p, v))).reply == v
  {
    ModelKeyRoundTrip(p, ModelKey(p));
    EnvelopeWalk(p, v);
  }

  /**
   * The walk throws exactly when some proper prefix of the path reads
   * `undefined` or `null`: a missing or empty array, or a missing
   * intermediate object, on the way.
   */
  lemma {:induction false} WalkThrowsIff(v: JsValue, path: seq<Key>)
    ensures Walk(v, path) == TypeError <==>
            exists k :: 0 <= k < |path| && IsNullish(Walk(v, path[..k]))
    decreases |path|
  {
    if path != [] {
      assert path[..0] == [];
      match Get(v, path[0]) {
        case TypeError =>
          assert IsNullish(Walk(v, path[..0]));
        case Value(w) =>
          WalkThrowsIff(w, path[1..]);
          assert !IsNullish(Walk(v, path[..0]));
          forall k | 1 <= k <= |path| ensures Walk(v, path[..k]) == Walk(w, path[1..][..k - 1]) {
            assert path[..k][0] == path[0];
            assert path[..k][1..] == path[1..][..k - 1];
          }
          if exists k :: 0 <= k < |path| && IsNullish(Walk(v, path[..k])) {
            var k :| 0 <= k < |path| && IsNullish(Walk(v, path[..k]));
            assert IsNullish(Walk(w, path[1..][..k - 1]));
          }
          if exists k :: 0 <= k < |path[1..]| && IsNullish(Walk(w, path[1..][..k])) {
            var k :| 0 <= k < |path[1..]| && IsNullish(Walk(w, path[1..][..k]));
            assert IsNullish(Walk(v, path[..k + 1]));
          }
      }
    }
  }

  /**
   * The HTTP status is never consulted, the function never throws, and the
   * reply is the fixed error text exactly on a transport failure, a body that
   * is not JSON, or a walk that throws.
   */
  lemma ReplyCases(p: Provider, message: string, env: Env, fetched: FetchOutcome)
    ensures var r := SendMessageToModel(ModelKey(p), message, env, fetched);
            match fetched
            case NetworkError => r.reply == Str(ErrorReply)
            case NotJson(_) => r.reply == Str(ErrorReply)
            case Received(status, data) =>
              && r == SendMessageToModel(ModelKey(p), message, env, Received(0, data))
              && (Walk(data, ReplyPath(p)) == TypeError ==> r.reply == Str(ErrorReply))
              && (Walk(data, ReplyPath(p)).Value? ==> r.reply == Walk(data, ReplyPath(p)).v)
  {
    ModelKeyRoundTrip(p, ModelKey(p));
  }

  /** A missing or empty first array yields the error text. */
  lemma MissingOrEmptyArray(p: Provider, message: string, env: Env, status: int, fields: map<string, JsValue>)
    requires ReplyPath(p)[0].name !in fields || fields[ReplyPath(p)[0].name] == Arr([])
    ensures SendMessageToModel(ModelKey(p), message, env, Received(status, Obj(fields))).reply
         == Str(ErrorReply)
  {
    ModelKeyRoundTrip(p, ModelKey(p));
    var path := ReplyPath(p);
    ZeroIndexName();
    var first := Get(Obj(fields), path[0]);
    assert Walk(Obj(fields), path[..1]) == first by {
      assert path[..1][1..] == [];
    }
    if first == Value(Undefined) {
      assert IsNullish(Walk(Obj(fields), path[..1]));
    } else {
      assert first == Value(Arr([]));
      assert Walk(Obj(fields), path[..2]) == Value(Undefined) by {
        assert path[..2][1..] == [path[1]];
        assert Walk(Arr([]), [path[1]]) == Value(Undefined);
      }
    }
    WalkThrowsIff(Obj(fields), path);
  }

  /**
   * For "claude", an answer whose first content block lacks `text` is not an
   * error: the last step of the path reads `undefined`, and that is returned.
   */
  lemma ClaudeMissingTextIsUndefined(message: string, env: Env, status: int)
    ensures SendMessageToModel("claude", message, env,
                               Received(status, Obj(map["content" := Arr([Obj(map[])])]))).reply
         == Undefined
  {
    var data := Obj(map["content" := Arr([Obj(map[])])]);
    var path := ReplyPath(Claude);
    assert Get(data, path[0]) == Value(Arr([Obj(map[])]));
    assert Walk(Obj(map[]), path[2..]) == Value(Undefined);
  }
}
