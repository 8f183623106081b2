/**
 * The `/chat` handler of the server (server/routes/chat.py): choose between a
 * canned answer of the intent classifier and a Gemini answer, fall back when
 * Gemini is missing or fails, scrub the old brand name from the reply, and
 * echo the classification.
 *
 * Every collaborator is an oracle given as a parameter: the classifier's
 * prediction, the sentiment label, the knowledge-base search, the model's
 * answer to the prompt, and `pick`, which stands for the random draw of
 * `random.choice`. Each may instead be the exception it raised.
 */
module ChatRoute {
  import opened Basics
  import opened StringOps
  import GeminiClient

  const ConfidenceThreshold: real := 0.85

  /** The intents answered locally when the classifier is confident. */
  const SmallTalk: seq<string> := ["greeting", "goodbye", "thanks"]

  const TroubleMessage: string := "I'm having trouble connecting to my knowledge base. Please try again."
  const ConfigureKeyMessage: string :=
    "I need Gemini API to answer complex questions. Please configure GEMINI_API_KEY in server/.env"
  /** The text of the IndexError `random.choice` raises on an empty list. */
  const EmptyChoiceMessage: string := "Cannot choose from an empty sequence"

  /** The three `replace` calls applied to every reply, in order. */
  const ChatRules: seq<Rule> :=
    [Rule("PratChat", "Prat.AI"), Rule("pratchat", "Prat.AI"), Rule("Pratchat", "Prat.AI")]

  /** What `intent_classifier.predict` returns. */
  datatype IntentResult = IntentResult(intent: string, confidence: real, responses: seq<string>)

  datatype ResponseType = MlLocal | LlmGemini | MlFallback | Error | Fallback

  /** The `response_type` string of each kind of answer. */
  function Label(t: ResponseType): string {
    match t
    case MlLocal => "ml_local"
    case LlmGemini => "llm_gemini"
    case MlFallback => "ml_fallback"
    case Error => "error"
    case Fallback => "fallback"
  }

  datatype ChatResponse = ChatResponse(
    response: string, intent: string, confidence: real, sentiment: string, responseType: ResponseType)

  /** The HTTP outcome of one request: the response body, or an error status with its detail. */
  datatype HttpResult = Answered(body: ChatResponse) | HttpError(status: int, detail: string)

  /** The module-level client: present exactly when its construction did not raise. */
  function ClientAtStartup(apiKey: Option<string>): (c: Option<GeminiClient.Client>)
    ensures c.Some? <==> GeminiClient.NewClient(apiKey).Ok?
  {
    match GeminiClient.NewClient(apiKey)
    case Ok(client) => Some(client)
    case Raised(_) => None
  }

  /** `random.choice(xs)`, with `pick` standing for the random draw. */
  function Choice(xs: seq<string>, pick: nat): (r: Result<string>)
    ensures r.Raised? <==> xs == []
    ensures r.Raised? ==> r.message == EmptyChoiceMessage
    ensures r.Ok? ==> r.value in xs
  {
    if xs == [] then Raised(EmptyChoiceMessage) else Ok(xs[pick % |xs|])
  }

  /** The classifier is confident enough and the intent is small talk. */
  predicate IsConfidentSmallTalk(ir: IntentResult) {
    ir.confidence >= ConfidenceThreshold && ir.intent in SmallTalk
  }

  /** The knowledge-base context handed to Gemini for the documents found. */
  function ContextOf(docs: seq<string>): string {
    if docs != [] then Join(docs, "\n\n") else ""
  }

  /** The reply before scrubbing, or the exception that escapes to the outer handler. */
  function Route(message: string, ir: IntentResult, client: Option<GeminiClient.Client>,
                 search: Result<seq<string>>, modelReply: Result<string>, pick: nat)
    : Result<(string, ResponseType)>
  {
    if IsConfidentSmallTalk(ir) then
      match Choice(ir.responses, pick)
      case Ok(text) => Ok((text, MlLocal))
      case Raised(e) => Raised(e)
    else if client.Some? then
      var answer := match search
                    case Raised(e) => Raised(e)
                    case Ok(docs) =>
                      GeminiClient.GenerateResponse(client.value, message, ContextOf(docs), modelReply).reply;
      match answer
      case Ok(text) => Ok((text, LlmGemini))
      case Raised(_) =>
        if ir.responses != [] then Ok((Choice(ir.responses, pick).value, MlFallback))
        else Ok((TroubleMessage, Error))
    else if ir.responses != [] then Ok((Choice(ir.responses, pick).value, MlLocal))
    else Ok((ConfigureKeyMessage, Fallback))
  }

  /** The brand-name rewrite applied to every reply. */
  function Scrub(text: string): string {
    ReplaceAll(text, ChatRules)
  }

  /**
   * `chat(request)`. `logFailed` says whether `log_conversation` raised;
   * that exception is caught and printed.
   */
  function Chat(message: string, classified: Result<IntentResult>, sentiment: Result<string>,
                client: Option<GeminiClient.Client>, search: Result<seq<string>>,
                modelReply: Result<string>, pick: nat, logFailed: bool): (r: HttpResult)
    ensures r.HttpError? ==> r.status == 500
    ensures r.Answered? ==> classified.Ok? && sentiment.Ok?
  {
    match classified
    case Raised(e) => HttpError(500, e)
    case Ok(ir) =>
      match sentiment
      case Raised(e) => HttpError(500, e)
      case Ok(mood) =>
        match Route(message, ir, client, search, modelReply, pick)
        case Raised(e) => HttpError(500, e)
        case Ok((text, kind)) => Answered(ChatResponse(Scrub(text), ir.intent, ir.confidence, mood, kind))
  }

  // ---------------------------------------------------------------------------
  // Oracles

  /** Every canned response can be the one `random.choice` returns. */
  lemma ChoiceReaches(xs: seq<string>, i: nat)
    requires i < |xs|
    ensures Choice(xs, i) == Ok(xs[i])
  {
  }

  /** The client exists exactly when a non-empty key was configured. */
  lemma ClientIffKey(apiKey: Option<string>)
    ensures ClientAtStartup(apiKey).Some? <==> apiKey.Some? && apiKey.value != ""
  {
  }

  /** The emptiness test before joining changes nothing: no documents join to "". */
  lemma ContextIsJoin(docs: seq<string>)
    ensures ContextOf(docs) == Join(docs, "\n\n")
    ensures docs == [] ==> ContextOf(docs) == ""
  {
  }

  /** The five labels are distinct, so the label names the branch taken. */
  lemma LabelsDistinct(t1: ResponseType, t2: ResponseType)
    ensures Label(t1) == Label(t2) <==> t1 == t2
  {
    if t1 != t2 {
      assert Label(t1)[0] != Label(t2)[0] || |Label(t1)| != |Label(t2)|;
    }
  }

  // ---------------------------------------------------------------------------
  // The branches

  /** Shorthand for the answer of a request whose classification and sentiment succeeded. */
  function Answer(message: string, ir: IntentResult, mood: string, client: Option<GeminiClient.Client>,
                  search: Result<seq<string>>, modelReply: Result<string>, pick: nat): HttpResult
  {
    Chat(message, Ok(ir), Ok(mood), client, search, modelReply, pick, false)
  }

  /**
   * A confident small-talk intent is answered locally with one of its canned
   * responses; with no canned responses `random.choice` raises and the
   * request fails with status 500.
   */
  lemma ConfidentSmallTalkIsLocal(message: string, ir: IntentResult, mood: string,
                                  client: Option<GeminiClient.Client>, search: Result<seq<string>>,
                                  modelReply: Result<string>, pick: nat)
    requires IsConfidentSmallTalk(ir)
    ensures var r := Answer(message, ir, mood, client, search, modelReply, pick);
            if ir.responses == [] then r == HttpError(500, EmptyChoiceMessage)
            else && r.Answered? && r.body.responseType == MlLocal
                 && exists i :: 0 <= i < |ir.responses| && r.body.response == Scrub(ir.responses[i])
  {
    if ir.responses != [] {
      var i := pick % |ir.responses|;
      assert Answer(message, ir, mood, client, search, modelReply, pick).body.response == Scrub(ir.responses[i]);
    }
  }

  /**
   * Gemini answers exactly when the request is not confident small talk, a
   * client exists, the search succeeds and generation succeeds; the reply is
   * the generated text for the message and the joined documents.
   */
  lemma GeminiAnswerIff(message: string, ir: IntentResult, mood: string,
                        client: Option<GeminiClient.Client>, search: Result<seq<string>>,
                        modelReply: Result<string>, pick: nat)
    ensures var r := Answer(message, ir, mood, client, search, modelReply, pick);
            (r.Answered? && r.body.responseType == LlmGemini) <==>
              && !IsConfidentSmallTalk(ir) && client.Some? && search.Ok?
              && GeminiClient.GenerateResponse(client.value, message, ContextOf(search.value), modelReply).reply.Ok?
    ensures var r := Answer(message, ir, mood, client, search, modelReply, pick);
            r.Answered? && r.body.responseType == LlmGemini ==>
              r.body.response
              == Scrub(GeminiClient.GenerateResponse(client.value, message, ContextOf(search.value), modelReply)
                       .reply.value)
  {
  }

  /**
   * When the search or the generation raises, a canned response is used if
   * there is one ("ml_fallback"), and otherwise the fixed trouble message
   * ("error"); the request itself never fails here.
   */
  lemma GeminiFailureFallsBack(message: string, ir: IntentResult, mood: string,
                               client: GeminiClient.Client, search: Result<seq<string>>,
                               modelReply: Result<string>, pick: nat)
    requires !IsConfidentSmallTalk(ir)
    requires search.Raised? ||
             GeminiClient.GenerateResponse(client, message, ContextOf(search.value), modelReply).reply.Raised?
    ensures var r := Answer(message, ir, mood, Some(client), search, modelReply, pick);
            && r.Answered?
            && (ir.responses == [] ==> r.body.response == Scrub(TroubleMessage) && r.body.responseType == Error)
            && (ir.responses != [] ==> r.body.responseType == MlFallback
                                       && exists i :: 0 <= i < |ir.responses|
                                                      && r.body.response == Scrub(ir.responses[i]))
  {
    if ir.responses != [] {
      var i := pick % |ir.responses|;
      assert Answer(message, ir, mood, Some(client), search, modelReply, pick).body.response
          == Scrub(ir.responses[i]);
    }
  }

  /** Without a client, a canned response is used if there is one, and otherwise the configure-key message. */
  lemma NoClientFallsBack(message: string, ir: IntentResult, mood: string,
                          search: Result<seq<string>>, modelReply: Result<string>, pick: nat)
    requires !IsConfidentSmallTalk(ir)
    ensures var r := Answer(message, ir, mood, None, search, modelReply, pick);
            && r.Answered?
            && (ir.responses == [] ==> r.body.response == Scrub(ConfigureKeyMessage)
                                       && r.body.responseType == Fallback)
            && (ir.responses != [] ==> r.body.responseType == MlLocal
                                       && exists i :: 0 <= i < |ir.responses|
                                                      && r.body.response == Scrub(ir.responses[i]))
  {
    if ir.responses != [] {
      var i := pick % |ir.responses|;
      assert Answer(message, ir, mood, None, search, modelReply, pick).body.response == Scrub(ir.responses[i]);
    }
  }

  /** "ml_local" comes from confident small talk, or from a missing client with canned responses. */
  lemma LocalAnswerSources(message: string, ir: IntentResult, mood: string,
                           client: Option<GeminiClient.Client>, search: Result<seq<string>>,
                           modelReply: Result<string>, pick: nat)
    ensures var r := Answer(message, ir, mood, client, search, modelReply, pick);
            (r.Answered? && r.body.responseType == MlLocal) <==>
              ir.responses != [] && (IsConfidentSmallTalk(ir) || client.None?)
  {
  }

  /** The only failures are an exception from the classifier or the sentiment analyser, or an empty choice. */
  lemma FailureCauses(message: string, classified: Result<IntentResult>, sentiment: Result<string>,
                      client: Option<GeminiClient.Client>, search: Result<seq<string>>,
                      modelReply: Result<string>, pick: nat, logFailed: bool)
    ensures var r := Chat(message, classified, sentiment, client, search, modelReply, pick, logFailed);
            r.HttpError? <==>
              || classified.Raised? || sentiment.Raised?
              || (IsConfidentSmallTalk(classified.value) && classified.value.responses == [])
    ensures var r := Chat(message, classified, sentiment, client, search, modelReply, pick, logFailed);
            r.HttpError? ==>
              r.detail == (if classified.Raised? then classified.message
                           else if sentiment.Raised? then sentiment.message
                           else EmptyChoiceMessage)
  {
  }

  // ---------------------------------------------------------------------------
  // What every answer satisfies

  /** The answer echoes the classification and the sentiment, and a logging failure changes nothing. */
  lemma EchoesClassification(message: string, ir: IntentResult, mood: string,
                             client: Option<GeminiClient.Client>, search: Result<seq<string>>,
                             modelReply: Result<string>, pick: nat, logFailed: bool)
    ensures var r := Chat(message, Ok(ir), Ok(mood), client, search, modelReply, pick, logFailed);
            && r == Chat(message, Ok(ir), Ok(mood), client, search, modelReply, pick, !logFailed)
            && (r.Answered? ==> r.body.intent == ir.intent && r.body.confidence == ir.confidence
                                && r.body.sentiment == mood)
  {
  }

  lemma ChatRulesCompatible()
    ensures WellFormed(ChatRules)
    ensures RepsCompatible(Patterns(ChatRules), ChatRules)
  {
    var ps := Patterns(ChatRules);
    forall i, j | 0 <= i < |ps| && 0 <= j < |ChatRules| ensures Compatible(ps[i], ChatRules[j].rep) {
      GeminiClient.BrandCompatible(ps[i], ChatRules[j].rep);
    }
  }

  /** After scrubbing no old spelling remains, and scrubbing again changes nothing. */
  lemma ScrubClears(text: string)
    ensures !Contains(Scrub(text), "PratChat")
    ensures !Contains(Scrub(text), "pratchat")
    ensures !Contains(Scrub(text), "Pratchat")
    ensures Scrub(Scrub(text)) == Scrub(text)
  {
    ChatRulesCompatible();
    ReplaceAllClears(text, ChatRules);
    ReplaceAllIdempotent(text, ChatRules);
  }

  /** Every answer, whatever branch produced it, is free of the old brand spellings. */
  lemma AnswerScrubbed(message: string, classified: Result<IntentResult>, sentiment: Result<string>,
                       client: Option<GeminiClient.Client>, search: Result<seq<string>>,
                       modelReply: Result<string>, pick: nat, logFailed: bool)
    ensures var r := Chat(message, classified, sentiment, client, search, modelReply, pick, logFailed);
            r.Answered? ==>
              && !Contains(r.body.response, "PratChat")
              && !Contains(r.body.response, "pratchat")
              && !Contains(r.body.response, "Pratchat")
              && Scrub(r.body.response) == r.body.response
  {
    var r := Chat(message, classified, sentiment, client, search, modelReply, pick, logFailed);
    if r.Answered? {
      var ir := classified.value;
      var routed := Route(message, ir, client, search, modelReply, pick);
      assert r.body.response == Scrub(routed.value.0);
      ScrubClears(routed.value.0);
    }
  }

  /** Each old spelling on its own is scrubbed to "Prat.AI", whatever its case. */
  lemma ScrubRewrites()
    ensures Scrub("PratChat") == "Prat.AI"
    ensures Scrub("pratchat") == "Prat.AI"
    ensures Scrub("Pratchat") == "Prat.AI"
  {
    ReplaceWhole("PratChat", "Prat.AI");
    ReplaceWhole("pratchat", "Prat.AI");
    ReplaceWhole("Pratchat", "Prat.AI");
    ReplaceSameLength("pratchat", "PratChat", "Prat.AI");
    ReplaceSameLength("Pratchat", "PratChat", "Prat.AI");
    ReplaceSameLength("Pratchat", "pratchat", "Prat.AI");
    assert ChatRules[1..][1..][1..] == [];
  }

  /**
   * The Gemini wrapper rewrites a model's "pratchat" to "prat.ai" before the
   * route's own rewrite runs, so that answer keeps the lower-case name.
   */
  lemma GeminiLowerCaseBrandKept(message: string, ir: IntentResult, mood: string,
                                 client: GeminiClient.Client, docs: seq<string>, pick: nat)
    requires !IsConfidentSmallTalk(ir)
    requires !GeminiClient.MatchesAny(message, GeminiClient.IdentityKeywords)
    requires !GeminiClient.MatchesAny(message, GeminiClient.CreatorKeywords)
    ensures Answer(message, ir, mood, Some(client), Ok(docs), Ok("pratchat"), pick)
         == Answered(ChatResponse("prat.ai", ir.intent, ir.confidence, mood, LlmGemini))
  {
    GeminiClient.GeminiRewrites();
    ReplaceShort("prat.ai", "PratChat", "Prat.AI");
    ReplaceShort("prat.ai", "pratchat", "Prat.AI");
    ReplaceShort("prat.ai", "Pratchat", "Prat.AI");
    assert ChatRules[1..][1..][1..] == [];
  }

  /**
   * An identity question that reaches Gemini is answered with the persona
   * text, without a model call, whatever the model would have said.
   */
  lemma IdentityQuestionGetsPersona(message: string, ir: IntentResult, mood: string,
                                    client: GeminiClient.Client, docs: seq<string>,
                                    modelReply: Result<string>, pick: nat)
    requires !IsConfidentSmallTalk(ir)
    requires GeminiClient.MatchesAny(message, GeminiClient.IdentityKeywords)
    ensures Answer(message, ir, mood, Some(client), Ok(docs), modelReply, pick)
         == Answered(ChatResponse(Scrub(GeminiClient.Persona), ir.intent, ir.confidence, mood, LlmGemini))
  {
  }

  /**
   * A creator question that is not an identity question and reaches Gemini
   * is answered with the biography, whatever the model would have said.
   */
  lemma CreatorQuestionGetsBio(message: string, ir: IntentResult, mood: string,
                               client: GeminiClient.Client, docs: seq<string>,
                               modelReply: Result<string>, pick: nat)
    requires !IsConfidentSmallTalk(ir)
    requires !GeminiClient.MatchesAny(message, GeminiClient.IdentityKeywords)
    requires GeminiClient.MatchesAny(message, GeminiClient.CreatorKeywords)
    ensures Answer(message, ir, mood, Some(client), Ok(docs), modelReply, pick)
         == Answered(ChatResponse(Scrub(GeminiClient.Bio), ir.intent, ir.confidence, mood, LlmGemini))
  {
  }
}
