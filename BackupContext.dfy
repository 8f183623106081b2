/**
 * The older conversation context (client/original_frontend_backup/src/context/Context.jsx).
 * Same two-phase `onSent` as the live copy; it differs in the failure text
 * and in `newChat`, which also empties the prompt history.
 */
module BackupContext {
  import opened ReplyFormat

  const InvalidPromptMessage: string := "Please enter a valid message."
  const FailureMessage: string := "Something went wrong while contacting AI. Please try again."

  class ContextProvider {
    var input: string
    var recentPrompt: string
    var prevPrompts: seq<string>
    var showResult: bool
    var loading: bool
    var resultData: string
    var errorMsg: string
    /** Calls of `onSent` that passed validation and whose backend call has not settled. */
    ghost var pending: nat

    /** Every state cell holds the value it is created with. */
    predicate IsInitial()
      reads this
    {
      && input == "" && recentPrompt == "" && prevPrompts == []
      && !showResult && !loading && resultData == "" && errorMsg == ""
    }

    constructor ()
      ensures IsInitial() && pending == 0
    {
      input, recentPrompt, prevPrompts := "", "", [];
      showResult, loading, resultData, errorMsg := false, false, "", "";
      pending := 0;
    }

    /** The exposed setter `setInput` (the text box). */
    method SetInput(text: string)
      modifies this
      ensures input == text
      ensures recentPrompt == old(recentPrompt) && prevPrompts == old(prevPrompts)
      ensures showResult == old(showResult) && loading == old(loading)
      ensures resultData == old(resultData) && errorMsg == old(errorMsg)
      ensures pending == old(pending)
    {
      input := text;
    }

    /**
     * `onSent(prompt)` up to its `await`: a blank prompt only sets the error
     * message; otherwise it is appended to the history and the call starts.
     */
    method OnSentBegin(prompt: string) returns (sent: bool)
      modifies this
      ensures sent <==> !IsBlank(prompt)
      ensures !sent ==> errorMsg == InvalidPromptMessage
      ensures !sent ==> && prevPrompts == old(prevPrompts) && recentPrompt == old(recentPrompt)
                        && loading == old(loading) && showResult == old(showResult)
                        && resultData == old(resultData) && pending == old(pending)
      ensures sent ==> && prevPrompts == old(prevPrompts) + [prompt] && recentPrompt == prompt
                       && errorMsg == "" && resultData == "" && loading && showResult
                       && pending == old(pending) + 1
      ensures input == old(input)
    {
      errorMsg := "";
      if IsBlank(prompt) {
        errorMsg := InvalidPromptMessage;
        return false;
      }
      resultData := "";
      loading := true;
      showResult := true;
      prevPrompts := prevPrompts + [prompt];
      recentPrompt := prompt;
      pending := pending + 1;
      sent := true;
    }

    /** The settling of one begun `onSent`: formatted reply or the fixed failure text. */
    method OnSentComplete(outcome: Outcome)
      requires pending > 0
      modifies this
      ensures resultData == (match outcome
                               case Reply(text) => FormatReply(text)
                               case Failure => FailureMessage)
      ensures !loading && input == "" && pending == old(pending) - 1
      ensures recentPrompt == old(recentPrompt) && prevPrompts == old(prevPrompts)
      ensures showResult == old(showResult) && errorMsg == old(errorMsg)
    {
      match outcome {
        case Reply(text) =>
          resultData := FormatReply(text);
        case Failure =>
          resultData := FailureMessage;
      }
      loading := false;
      input := "";
      pending := pending - 1;
    }

    /** `loadPrompt(prompt)`: show the prompt as the recent one, then `onSent` it. */
    method LoadPromptBegin(prompt: string) returns (sent: bool)
      modifies this
      ensures sent <==> !IsBlank(prompt)
      ensures recentPrompt == prompt
      ensures !sent ==> && errorMsg == InvalidPromptMessage && prevPrompts == old(prevPrompts)
                        && loading == old(loading) && showResult == old(showResult)
                        && resultData == old(resultData) && pending == old(pending)
      ensures sent ==> && prevPrompts == old(prevPrompts) + [prompt]
                       && errorMsg == "" && resultData == "" && loading && showResult
                       && pending == old(pending) + 1
      ensures input == old(input)
    {
      recentPrompt := prompt;
      sent := OnSentBegin(prompt);
    }

    /** `newChat`: every state cell, the history included, back to its initial value. */
    method NewChat()
      modifies this
      ensures IsInitial() && pending == old(pending)
    {
      loading := false;
      showResult := false;
      recentPrompt := "";
      input := "";
      resultData := "";
      errorMsg := "";
      prevPrompts := [];
    }
  }

  /** `newChat` is idempotent: a second call leaves the state as the first left it. */
  method NewChatTwice(context: ContextProvider)
    modifies context
    ensures context.IsInitial()
  {
    context.NewChat();
    var afterOne := (context.input, context.recentPrompt, context.prevPrompts, context.showResult,
                     context.loading, context.resultData, context.errorMsg);
    context.NewChat();
    assert afterOne == (context.input, context.recentPrompt, context.prevPrompts, context.showResult,
                        context.loading, context.resultData, context.errorMsg);
  }
}
