/**
 * The live conversation context (client/src/context/Context.jsx): the state
 * cells the page reads, and `onSent`, `loadPrompt` and `newChat`.
 *
 * `onSent` runs in two atomic phases around its single `await`:
 * `OnSentBegin` is everything before the backend call, `OnSentComplete` is
 * what happens when the call resolves or throws (the `try`/`catch`/`finally`).
 * There is no busy guard: a new prompt may begin while `loading` is true.
 */
module LiveContext {
  import opened ReplyFormat

  const InvalidPromptMessage: string := "Please enter a valid message."
  const ConnectionFailureMessage: string :=
    "Unable to connect to Prat.AI server. Please ensure the backend is running."

  class ContextProvider {
    var input: string
    var recentPrompt: string
    var prevPrompts: seq<string>
    var showResult: bool
    var loading: bool
    var resultData: string
    var errorMsg: string
    var showAbout: bool
    /** Calls of `onSent` that passed validation and whose backend call has not settled. */
    ghost var pending: nat

    /** The initial value of every state cell. */
    constructor ()
      ensures input == "" && recentPrompt == "" && prevPrompts == []
      ensures !showResult && !loading && resultData == "" && errorMsg == ""
      ensures !showAbout && pending == 0
    {
      input, recentPrompt, prevPrompts := "", "", [];
      showResult, loading, resultData, errorMsg := false, false, "", "";
      showAbout, pending := false, 0;
    }

    /** The exposed setter `setInput` (the text box). */
    method SetInput(text: string)
      modifies this
      ensures input == text
      ensures recentPrompt == old(recentPrompt) && prevPrompts == old(prevPrompts)
      ensures showResult == old(showResult) && loading == old(loading)
      ensures resultData == old(resultData) && errorMsg == old(errorMsg)
      ensures showAbout == old(showAbout) && pending == old(pending)
    {
      input := text;
    }

    /** The exposed setter `setShowAbout`. */
    method SetShowAbout(show: bool)
      modifies this
      ensures showAbout == show
      ensures input == old(input) && recentPrompt == old(recentPrompt)
      ensures prevPrompts == old(prevPrompts) && showResult == old(showResult)
      ensures loading == old(loading) && resultData == old(resultData)
      ensures errorMsg == old(errorMsg) && pending == old(pending)
    {
      showAbout := show;
    }

    /**
     * `onSent(prompt)` up to its `await`. A blank prompt only sets the error
     * message and nothing is sent; otherwise the prompt is appended to the
     * history unchanged and the backend call starts (`sent`).
     */
    method OnSentBegin(prompt: string) returns (sent: bool)
      modifies this
      ensures sent <==> !IsBlank(prompt)
      ensures !sent ==> errorMsg == InvalidPromptMessage
      ensures !sent ==> && prevPrompts == old(prevPrompts) && recentPrompt == old(recentPrompt)
                        && loading == old(loading) && showResult == old(showResult)
                        && resultData == old(resultData) && pending == old(pending)
      ensures sent ==> && prevPrompts == old(prevPrompts) + [prompt] && recentPrompt == prompt
                       && errorMsg == "" && resultData == "" && loading && showResult
                       && pending == old(pending) + 1
      ensures input == old(input) && showAbout == old(showAbout)
    {
      errorMsg := "";
      if IsBlank(prompt) {
        errorMsg := InvalidPromptMessage;
        return false;
      }
      resultData := "";
      loading := true;
      showResult := true;
      prevPrompts := prevPrompts + [prompt];
      recentPrompt := prompt;
      pending := pending + 1;
      sent := true;
    }

    /**
     * The settling of one begun `onSent`: a reply is formatted into
     * `resultData`, a failure puts the fixed connection message there; in
     * both cases `loading` drops and the input box is cleared.
     */
    method OnSentComplete(outcome: Outcome)
      requires pending > 0
      modifies this
      ensures resultData == (match outcome
                               case Reply(text) => FormatReply(text)
                               case Failure => ConnectionFailureMessage)
      ensures !loading && input == "" && pending == old(pending) - 1
      ensures recentPrompt == old(recentPrompt) && prevPrompts == old(prevPrompts)
      ensures showResult == old(showResult) && errorMsg == old(errorMsg)
      ensures showAbout == old(showAbout)
    {
      match outcome {
        case Reply(text) =>
          resultData := FormatReply(text);
        case Failure =>
          resultData := ConnectionFailureMessage;
      }
      loading := false;
      input := "";
      pending := pending - 1;
    }

    /** `loadPrompt(prompt)`: show the prompt as the recent one, then `onSent` it. */
    method LoadPromptBegin(prompt: string) returns (sent: bool)
      modifies this
      ensures sent <==> !IsBlank(prompt)
      ensures recentPrompt == prompt
      ensures !sent ==> && errorMsg == InvalidPromptMessage && prevPrompts == old(prevPrompts)
                        && loading == old(loading) && showResult == old(showResult)
                        && resultData == old(resultData) && pending == old(pending)
      ensures sent ==> && prevPrompts == old(prevPrompts) + [prompt]
                       && errorMsg == "" && resultData == "" && loading && showResult
                       && pending == old(pending) + 1
      ensures input == old(input) && showAbout == old(showAbout)
    {
      recentPrompt := prompt;
      sent := OnSentBegin(prompt);
    }

    /** `newChat`: every display cell back to its initial value; the history is kept. */
    method NewChat()
      modifies this
      ensures !loading && !showResult && recentPrompt == "" && input == ""
      ensures resultData == "" && errorMsg == ""
      ensures prevPrompts == old(prevPrompts)
      ensures showAbout == old(showAbout) && pending == old(pending)
    {
      loading := false;
      showResult := false;
      recentPrompt := "";
      input := "";
      resultData := "";
      errorMsg := "";
    }
  }

  /**
   * A reply that settles after `newChat` still lands in `resultData` and
   * drops `loading`, while the result panel stays hidden.
   */
  method LateReplyAfterNewChat(context: ContextProvider, prompt: string, reply: string)
    requires !IsBlank(prompt)
    modifies context
    ensures context.prevPrompts == old(context.prevPrompts) + [prompt]
    ensures context.resultData == FormatReply(reply)
    ensures !context.showResult && !context.loading && context.recentPrompt == ""
  {
    var sent := context.OnSentBegin(prompt);
    context.NewChat();
    context.OnSentComplete(Reply(reply));
  }
}
