/**
 * The server's Gemini wrapper (server/utils/gemini_client.py): construction
 * fails without an API key; `generate_response` answers identity and creator
 * questions with fixed texts, and otherwise builds a persona prompt, asks the
 * model, and rewrites the old brand name in the model's answer.
 *
 * The model call is an oracle: `modelReply` is what `generate_content(prompt).text`
 * yields for the prompt that was built, or the exception it raised.
 */
module GeminiClient {
  import opened Basics
  import opened StringOps

  // The two fixed texts are written as many short literals: the verifier's cost of a
  // string literal grows quickly with its length, and these constants are in scope of
  // every proof about the client.

  /** The persona text, returned verbatim for identity questions and heading every prompt. */
  const Persona: string :=
    "I am " + "Prat.AI, an " + "India's " + "Indigenous " + "hybrid AI " + "assistant "
    + "created by " + "Pratyush " + "Srivastava " + "under " + "PratWare \U{2014} "
    + "Multiverse " + "of " + "Softwares.\n" + "I combine " + "lightweight, " + "explainable "
    + "machine " + "learning " + "models for " + "intent and " + "sentiment " + "with a "
    + "retrieval-augmented " + "LLM layer " + "powered by " + "Gemini API.\n" + "My design "
    + "goal is to " + "demonstrate " + "how a " + "developer " + "can build a " + "practical, "
    + "locally " + "tunable " + "LLM-like " + "system " + "using open " + "tools.\n\nMy "
    + "core " + "strengths " + "include:\n- " + "Local ML " + "(intent + " + "sentiment) "
    + "that adapts " + "to your " + "data\n- " + "Retrieval-Augmented " + "Generation "
    + "(RAG) for " + "context-rich " + "answers\n- " + "Gemini-powered " + "reasoning "
    + "for complex " + "queries\n- " + "Transparent " + "and " + "developer-friendly "
    + "explanations\n" + "\nI " + "represent " + "India's " + "indigenous " + "effort in "
    + "hybrid AI \U{2014} " + "blending " + "creativity, " + "explainability, " + "and "
    + "efficiency. " + "Designed " + "and " + "implemented " + "by Pratyush " + "Srivastava "
    + "CEO of " + "PratWare."

  /** The creator biography, returned verbatim for questions about the author. */
  const Bio: string :=
    "Pratyush " + "Srivastava " + "is an " + "exceptional " + "young " + "visionary "
    + "and the " + "Founder & " + "CEO of " + "PratWare \U{2014} " + "Multiverse " + "of "
    + "Softwares. " + "At just 22 " + "years old, " + "he stands " + "as one of " + "India's "
    + "youngest " + "and most " + "talented " + "tech " + "entrepreneurs, " + "demonstrating "
    + "remarkable " + "expertise " + "in " + "artificial " + "intelligence, " + "machine "
    + "learning, " + "and " + "full-stack " + "development.\n" + "\nAs the " + "creator of "
    + "Prat.AI, " + "Pratyush " + "has " + "pioneered " + "the concept " + "of " + "indigenous "
    + "hybrid AI " + "systems " + "that blend " + "classical " + "machine " + "learning "
    + "with modern " + "LLM " + "capabilities. " + "His vision " + "is to make " + "AI "
    + "technology " + "more " + "transparent, " + "explainable, " + "and " + "accessible " + "to "
    + "developers " + "worldwide " + "while " + "maintaining " + "India's " + "leadership "
    + "in the " + "global AI " + "revolution.\n" + "\nKey " + "Achievements:\n"
    + "\U{2022} Founder & " + "CEO of " + "PratWare \U{2014} " + "Multiverse " + "of "
    + "Softwares\n\U{2022} " + "Creator of " + "Prat.AI, an " + "innovative " + "hybrid AI "
    + "assistant\n\U{2022} " + "Expert in " + "ML, AI, and " + "full-stack " + "development\n"
    + "\U{2022} " + "Passionate " + "about " + "building " + "indigenous " + "AI "
    + "solutions\n\U{2022} " + "Advocate " + "for " + "explainable " + "and "
    + "developer-friendly " + "AI systems\n\n" + "At such a " + "young age, " + "Pratyush "
    + "has already " + "made " + "significant " + "contributions " + "to the AI " + "community "
    + "by " + "demonstrating " + "how hybrid " + "systems can " + "achieve the " + "perfect "
    + "balance " + "between " + "cost-efficiency, " + "performance, " + "and " + "transparency. "
    + "His work " + "with " + "Prat.AI " + "showcases " + "his deep " + "understanding "
    + "of both " + "classical " + "machine " + "learning " + "algorithms " + "and "
    + "cutting-edge " + "LLM " + "technologies.\n" + "\nPratyush's " + "philosophy " + "centers "
    + "around " + "making AI " + "accessible " + "and " + "understandable. " + "He believes "
    + "that " + "developers " + "should have " + "full " + "control " + "over their "
    + "AI systems, " + "which is " + "why Prat.AI " + "is designed " + "with " + "transparency "
    + "and " + "customization " + "at its " + "core. His " + "innovative " + "approach "
    + "combines " + "local ML " + "models for " + "speed and " + "explainability " + "with "
    + "powerful " + "LLM " + "capabilities " + "for complex " + "reasoning.\n\n" + "Under his "
    + "leadership, " + "PratWare is " + "building a " + "multiverse " + "of software "
    + "solutions " + "that push " + "the " + "boundaries " + "of what's " + "possible "
    + "with AI " + "technology. " + "Pratyush " + "represents " + "the new " + "generation "
    + "of Indian " + "tech " + "leaders who " + "are not " + "just " + "consuming "
    + "technology " + "but " + "creating " + "world-class " + "innovations " + "that "
    + "compete on " + "the global " + "stage.\n\nHis " + "dedication " + "to " + "indigenous "
    + "AI " + "development " + "and his " + "commitment " + "to building " + "practical, "
    + "production-ready " + "systems " + "make him a " + "rising star " + "in India's " + "tech "
    + "ecosystem. " + "At 22, " + "Pratyush " + "Srivastava " + "is already " + "leaving his "
    + "mark on the " + "future of " + "artificial " + "intelligence."

  const MissingKeyMessage: string := "GEMINI_API_KEY not found in environment"
  const ModelName: string := "gemini-2.5-flash"

  const IdentityKeywords: seq<string> :=
    ["who are you", "what are you", "who is prat.ai", "is prat.ai an llm", "what is pratware",
     "tell me about yourself"]

  const CreatorKeywords: seq<string> :=
    ["who is pratyush", "pratyush srivastava", "tell me about pratyush", "who created prat.ai",
     "founder of pratware", "ceo of pratware", "who made you", "your creator"]

  const ContextLabel: string := "Context from knowledge base:\n"
  const UserLabel: string := "User: "
  const AnswerCue: string := "\nPrat.AI:"

  /** The three `replace` calls applied to the model's answer, in order. */
  const GeminiRules: seq<Rule> :=
    [Rule("PratChat", "Prat.AI"), Rule("pratchat", "prat.ai"), Rule("Pratchat", "Prat.AI")]

  /** A configured client; it keeps the name of the model it talks to. */
  datatype Client = Client(modelName: string)

  /** `GeminiClient()`: the `GEMINI_API_KEY` environment value decides whether construction raises. */
  function NewClient(apiKey: Option<string>): (r: Result<Client>)
    ensures r.Raised? <==> (apiKey == None || apiKey == Some(""))
    ensures r.Raised? ==> r.message == MissingKeyMessage
    ensures r.Ok? ==> r.value.modelName == ModelName
  {
    match apiKey
    case None => Raised(MissingKeyMessage)
    case Some(key) => if key == "" then Raised(MissingKeyMessage) else Ok(Client(ModelName))
  }

  predicate IsAsciiUpper(c: char) {
    'A' <= c <= 'Z'
  }

  function LowerChar(c: char): char {
    if IsAsciiUpper(c) then (c as int + 32) as char else c
  }

  /** `str.lower()`, restricted to the ASCII letters. */
  function AsciiLower(s: string): string {
    seq(|s|, i requires 0 <= i < |s| => LowerChar(s[i]))
  }

  predicate IsLowercase(s: string) {
    forall i :: 0 <= i < |s| ==> !IsAsciiUpper(s[i])
  }

  /** `any(keyword in text.lower() for keyword in keywords)`. */
  predicate MatchesAny(text: string, keywords: seq<string>) {
    exists i :: 0 <= i < |keywords| && Contains(AsciiLower(text), keywords[i])
  }

  /** The optional knowledge-base block of the prompt; empty when the context is empty. */
  function ContextBlock(context: string): string {
    if context == "" then "" else ContextLabel + context + "\n\n"
  }

  /** The part of every prompt that precedes the context block. */
  function PromptHead(): string {
    Persona + "\n\n"
  }

  /** The prompt sent to the model. */
  function BuildPrompt(message: string, context: string): string {
    PromptHead() + ContextBlock(context) + UserLabel + message + AnswerCue
  }

  /** What one `generate_response` call did: the prompt it sent, if any, and what it returned or raised. */
  datatype Generation = Generation(prompt: Option<string>, reply: Result<string>)

  function GenerateResponse(client: Client, message: string, context: string, modelReply: Result<string>)
    : (g: Generation)
    ensures g.prompt.Some? <==> !MatchesAny(message, IdentityKeywords) && !MatchesAny(message, CreatorKeywords)
    ensures g.prompt.Some? ==> g.prompt.value == BuildPrompt(message, context)
  {
    if MatchesAny(message, IdentityKeywords) then Generation(None, Ok(Persona))
    else if MatchesAny(message, CreatorKeywords) then Generation(None, Ok(Bio))
    else
      var reply := match modelReply
                   case Ok(text) => Ok(ReplaceAll(text, GeminiRules))
                   case Raised(e) => Raised(e);
      Generation(Some(BuildPrompt(message, context)), reply)
  }

  // ---------------------------------------------------------------------------
  // Keyword matching

  /** Lowering is idempotent and leaves exactly the strings without capitals unchanged. */
  lemma LowerFixpoints(s: string)
    ensures AsciiLower(AsciiLower(s)) == AsciiLower(s)
    ensures AsciiLower(s) == s <==> IsLowercase(s)
    ensures IsLowercase(AsciiLower(s))
  {
    var l := AsciiLower(s);
    assert forall i :: 0 <= i < |s| ==> LowerChar(l[i]) == l[i];
    if AsciiLower(s) == s {
      assert forall i :: 0 <= i < |s| ==> s[i] == LowerChar(s[i]);
    }
  }

  /**
   * Every keyword is already lower case, so each one can match some
   * message (a keyword with a capital could never be found in a lowered text).
   */
  lemma KeywordsAreLowercase()
    ensures forall i :: 0 <= i < |IdentityKeywords| ==> IsLowercase(IdentityKeywords[i])
    ensures forall i :: 0 <= i < |CreatorKeywords| ==> IsLowercase(CreatorKeywords[i])
  {
    IdentityKeywordsLowercase();
    CreatorKeywordsLowercase();
  }

  lemma IdentityKeywordsLowercase()
    ensures forall i :: 0 <= i < |IdentityKeywords| ==> IsLowercase(IdentityKeywords[i])
  {
    ListLowercase(IdentityKeywords);
  }

  lemma CreatorKeywordsLowercase()
    ensures forall i :: 0 <= i < |CreatorKeywords| ==> IsLowercase(CreatorKeywords[i])
  {
    ListLowercase(CreatorKeywords);
  }

  lemma ListLowercase(keywords: seq<string>)
    requires forall i, j :: 0 <= i < |keywords| && 0 <= j < |keywords[i]| ==>
               keywords[i][j] == ' ' || keywords[i][j] == '.' || 'a' <= keywords[i][j] <= 'z'
    ensures forall i :: 0 <= i < |keywords| ==> IsLowercase(keywords[i])
  {
    forall i | 0 <= i < |keywords| ensures IsLowercase(keywords[i]) {
      LowercaseWord(keywords[i]);
    }
  }

  /** Text made of lower-case letters, digits, spaces and dots has no capital. */
  lemma LowercaseWord(s: string)
    requires forall i :: 0 <= i < |s| ==> s[i] == ' ' || s[i] == '.' || 'a' <= s[i] <= 'z'
    ensures IsLowercase(s)
  {
  }

  /** A keyword is matched by the message that is exactly that keyword, in any letter case. */
  lemma KeywordMatchesItself(keywords: seq<string>, i: nat, message: string)
    requires i < |keywords| && IsLowercase(keywords[i])
    requires AsciiLower(message) == keywords[i]
    ensures MatchesAny(message, keywords)
  {
    assert OccursAt(AsciiLower(message), keywords[i], 0);
  }

  /** Messages that differ only in the case of ASCII letters are routed alike. */
  lemma RoutingIgnoresCase(client: Client, m1: string, m2: string, context: string, modelReply: Result<string>)
    requires AsciiLower(m1) == AsciiLower(m2)
    ensures var g1 := GenerateResponse(client, m1, context, modelReply);
            var g2 := GenerateResponse(client, m2, context, modelReply);
            && (g1.prompt.Some? <==> g2.prompt.Some?)
            && (g1.prompt.None? ==> g1.reply == g2.reply)
            && (g1.prompt.Some? ==> g1.reply == g2.reply)
  {
    SameLowerSameMatch(m1, m2, IdentityKeywords);
    SameLowerSameMatch(m1, m2, CreatorKeywords);
    if MatchesAny(m1, IdentityKeywords) {
      IdentityOutranksCreator(client, m1, context, modelReply);
      IdentityOutranksCreator(client, m2, context, modelReply);
    } else if MatchesAny(m1, CreatorKeywords) {
      CreatorQuestionGetsBio(client, m1, context, modelReply);
      CreatorQuestionGetsBio(client, m2, context, modelReply);
    } else {
      ModelPathAlike(client, m1, m2, context, modelReply);
    }
  }

  /** Two messages that both go to the model get the same reply for the same model answer. */
  lemma ModelPathAlike(client: Client, m1: string, m2: string, context: string, modelReply: Result<string>)
    requires !MatchesAny(m1, IdentityKeywords) && !MatchesAny(m1, CreatorKeywords)
    requires !MatchesAny(m2, IdentityKeywords) && !MatchesAny(m2, CreatorKeywords)
    ensures GenerateResponse(client, m1, context, modelReply).prompt.Some?
    ensures GenerateResponse(client, m2, context, modelReply).prompt.Some?
    ensures GenerateResponse(client, m1, context, modelReply).reply
         == GenerateResponse(client, m2, context, modelReply).reply
  {
  }

  lemma SameLowerSameMatch(m1: string, m2: string, keywords: seq<string>)
    requires AsciiLower(m1) == AsciiLower(m2)
    ensures MatchesAny(m1, keywords) == MatchesAny(m2, keywords)
  {
  }

  // ---------------------------------------------------------------------------
  // Precedence of the fixed answers

  /** An identity question gets the persona text, whether or not it also asks about the creator. */
  lemma IdentityOutranksCreator(client: Client, message: string, context: string, modelReply: Result<string>)
    requires MatchesAny(message, IdentityKeywords)
    ensures GenerateResponse(client, message, context, modelReply) == Generation(None, Ok(Persona))
  {
  }

  /** A creator question that is not an identity question gets the biography, and no prompt is sent. */
  lemma CreatorQuestionGetsBio(client: Client, message: string, context: string, modelReply: Result<string>)
    requires !MatchesAny(message, IdentityKeywords) && MatchesAny(message, CreatorKeywords)
    ensures GenerateResponse(client, message, context, modelReply) == Generation(None, Ok(Bio))
  {
  }

  // ---------------------------------------------------------------------------
  // The brand-name rewrite

  /** No old brand spelling can overlap an inserted "Prat.AI" or "prat.ai". */
  lemma BrandCompatible(q: string, rep: string)
    requires q == "PratChat" || q == "pratchat" || q == "Pratchat"
    requires rep == "Prat.AI" || rep == "prat.ai"
    ensures Compatible(q, rep)
  {
    assert q[4] != rep[4];
    assert q[0] == 'P' || q[0] == 'p';
    assert rep[0] == 'P' || rep[0] == 'p';
    assert rep[1..] == "rat.AI" || rep[1..] == "rat.ai";
    assert q[1..] == "ratChat" || q[1..] == "ratchat";
  }

  lemma GeminiRulesCompatible()
    ensures WellFormed(GeminiRules)
    ensures RepsCompatible(Patterns(GeminiRules), GeminiRules)
  {
    var ps := Patterns(GeminiRules);
    forall i, j | 0 <= i < |ps| && 0 <= j < |GeminiRules| ensures Compatible(ps[i], GeminiRules[j].rep) {
      BrandCompatible(ps[i], GeminiRules[j].rep);
    }
  }

  /** A text with none of the three old spellings, which the rewrites leave as it is. */
  predicate BrandFree(text: string) {
    && !Contains(text, "PratChat")
    && !Contains(text, "pratchat")
    && !Contains(text, "Pratchat")
    && ReplaceAll(text, GeminiRules) == text
  }

  predicate CleanReply(r: Result<string>) {
    r.Ok? && BrandFree(r.value)
  }

  /**
   * A model answer comes back with none of the three old spellings left,
   * rewriting it again changes nothing, and a model failure propagates.
   */
  lemma ModelReplyScrubbed(client: Client, message: string, context: string, modelReply: Result<string>)
    requires !MatchesAny(message, IdentityKeywords) && !MatchesAny(message, CreatorKeywords)
    ensures var g := GenerateResponse(client, message, context, modelReply);
            match modelReply
            case Raised(e) => g.reply == Raised(e)
            case Ok(_) => CleanReply(g.reply)
  {
    if modelReply.Ok? {
      BrandScrubbed(modelReply.value);
    }
  }

  /** The three rewrites leave no old spelling behind and are idempotent. */
  lemma BrandScrubbed(text: string)
    ensures BrandFree(ReplaceAll(text, GeminiRules))
  {
    GeminiRulesCompatible();
    ReplaceAllClears(text, GeminiRules);
    ReplaceAllIdempotent(text, GeminiRules);
  }

  /** An answer without any old spelling is returned exactly as the model gave it. */
  lemma CleanReplyUntouched(client: Client, message: string, context: string, text: string)
    requires !MatchesAny(message, IdentityKeywords) && !MatchesAny(message, CreatorKeywords)
    requires !Contains(text, "PratChat") && !Contains(text, "pratchat") && !Contains(text, "Pratchat")
    ensures GenerateResponse(client, message, context, Ok(text)).reply == Ok(text)
  {
    ReplaceAllAbsent(text, GeminiRules);
  }

  /** Each old spelling on its own becomes the new name, keeping the lower case of "pratchat". */
  lemma GeminiRewrites()
    ensures ReplaceAll("PratChat", GeminiRules) == "Prat.AI"
    ensures ReplaceAll("pratchat", GeminiRules) == "prat.ai"
    ensures ReplaceAll("Pratchat", GeminiRules) == "Prat.AI"
  {
    ReplaceWhole("PratChat", "Prat.AI");
    ReplaceWhole("pratchat", "prat.ai");
    ReplaceWhole("Pratchat", "Prat.AI");
    ReplaceSameLength("pratchat", "PratChat", "Prat.AI");
    ReplaceSameLength("Pratchat", "PratChat", "Prat.AI");
    ReplaceSameLength("Pratchat", "pratchat", "prat.ai");
    assert GeminiRules[1..][1..][1..] == [];
  }

  // ---------------------------------------------------------------------------
  // The prompt

  /** The knowledge-base block can be read back from its text. */
  lemma ContextBlockInverse(context: string)
    ensures |ContextBlock(context)| == 0 <==> context == ""
    ensures context != "" ==>
              ContextBlock(context)[|ContextLabel|..|ContextBlock(context)| - 2] == context
  {
  }

  /**
   * The layout of a prompt `p` built from head `h`, context `x`, user label `u`,
   * message `m` and answer cue `c`: it opens with `h`, ends with the message as
   * typed followed by `c`, and carries the labelled context right after `h`
   * exactly when the context is non-empty.
   */
  predicate Shaped(p: string, h: string, x: string, u: string, m: string, c: string) {
    && h <= p
    && |p| >= |c| + |m|
    && p[|p| - |c|..] == c
    && p[|p| - |c| - |m|..|p| - |c|] == m
    && (x == "" ==> p == h + u + m + c)
    && (x != "" ==> |p| >= |h| + |ContextLabel| + |x| && p[|h|..|h| + |ContextLabel| + |x|] == ContextLabel + x)
  }

  /**
   * The prompt opens with the persona and a blank line, carries the message
   * as typed (not lowered) just before the closing "\nPrat.AI:", and has the
   * knowledge-base block exactly when the context is non-empty.
   */
  lemma PromptShape(message: string, context: string)
    ensures Shaped(BuildPrompt(message, context), PromptHead(), context, UserLabel, message, AnswerCue)
  {
    Shape(PromptHead(), context, UserLabel, message, AnswerCue);
  }

  /** `PromptShape` over arbitrary pieces, so that no literal is unfolded. */
  lemma Shape(h: string, x: string, u: string, m: string, c: string)
    ensures Shaped(h + ContextBlock(x) + u + m + c, h, x, u, m, c)
  {
    Layout(h, ContextBlock(x), u, m, c);
    if x != "" {
      BlockLayout(h, ContextLabel, x, "\n\n", u, m, c);
    }
  }

  lemma Layout(h: string, b: string, u: string, m: string, c: string)
    ensures var p := h + b + u + m + c;
            && h <= p
            && p[|p| - |c|..] == c
            && p[|p| - |c| - |m|..|p| - |c|] == m
            && (b == "" ==> p == h + u + m + c)
  {
  }

  lemma BlockLayout(h: string, l: string, x: string, sep: string, u: string, m: string, c: string)
    ensures var p := h + (l + x + sep) + u + m + c;
            p[|h|..|h| + |l| + |x|] == l + x
  {
  }

  /** With the same message, different contexts give different prompts. */
  lemma PromptDeterminesContext(message: string, c1: string, c2: string)
    requires BuildPrompt(message, c1) == BuildPrompt(message, c2)
    ensures c1 == c2
  {
    CancelBlock(PromptHead(), ContextBlock(c1), ContextBlock(c2), UserLabel, message, AnswerCue);
    ContextBlockInjective(c1, c2);
  }

  lemma ContextBlockInjective(c1: string, c2: string)
    requires ContextBlock(c1) == ContextBlock(c2)
    ensures c1 == c2
  {
    ContextBlockInverse(c1);
    ContextBlockInverse(c2);
  }

  /** With the same context, different messages give different prompts. */
  lemma PromptDeterminesMessage(m1: string, m2: string, context: string)
    requires BuildPrompt(m1, context) == BuildPrompt(m2, context)
    ensures m1 == m2
  {
    Cancel(PromptHead() + ContextBlock(context) + UserLabel, m1, m2, AnswerCue);
  }

  lemma CancelBlock(h: string, b1: string, b2: string, u: string, m: string, c: string)
    requires h + b1 + u + m + c == h + b2 + u + m + c
    ensures b1 == b2
  {
    assert h + b1 + u + m + c == h + b1 + (u + m + c);
    assert h + b2 + u + m + c == h + b2 + (u + m + c);
    Cancel(h, b1, b2, u + m + c);
  }

  /** Equal texts with a common prefix and suffix have equal middles. */
  lemma Cancel(h: string, b1: string, b2: string, t: string)
    requires h + b1 + t == h + b2 + t
    ensures b1 == b2
  {
    assert |b1| == |b2|;
    assert b1 == (h + b1 + t)[|h|..|h| + |b1|];
  }

  /**
   * The prompt does not separate the context from the message: a retrieved
   * context that itself contains a blank line and "User: " produces the same
   * prompt as a different context and message pair.
   */
  lemma ContextCanForgeUserTurn(a: string, b: string, x: string)
    requires a != ""
    ensures BuildPrompt(x, a + "\n\n" + UserLabel + b) == BuildPrompt(b + "\n\n" + UserLabel + x, a)
  {
    var c1, m2 := a + "\n\n" + UserLabel + b, b + "\n\n" + UserLabel + x;
    assert ContextBlock(c1) == ContextLabel + c1 + "\n\n";
    assert ContextBlock(a) == ContextLabel + a + "\n\n";
    Regroup(PromptHead(), ContextLabel, a, "\n\n", UserLabel, b, x, AnswerCue);
  }

  lemma Regroup(h: string, l: string, a: string, sep: string, u: string, b: string, x: string, cue: string)
    ensures h + (l + (a + sep + u + b) + sep) + u + x + cue == h + (l + a + sep) + u + (b + sep + u + x) + cue
  {
  }
}
