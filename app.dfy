/** The request router of the "BA Genie" chat page (app.py): a keyword
    classifier that picks a generator, a validator that rejects vague
    requests, and the per-submission update of the session's append-only
    message history. The language-model chains are opaque: a `Completion`
    maps what the page hands to a chain to the text the chain returns. */
module App {
  import opened PyStr

  datatype Option<T> = None | Some(value: T)

  // ---------------------------------------------------------------------
  // Keywords and the two string results of the classifier (app.py:51-58)
  // ---------------------------------------------------------------------

  const USER_STORY: string := "User Story"
  const EMAIL_TEMPLATE: string := "Email Template"

  /** The user-story keywords, in the order they are tried. "As a" keeps
      its upper-case A, which lowered text can never contain. */
  const USER_STORY_KEYWORDS: seq<string> :=
    ["user story", "acceptance criteria", "feature", "As a", "so that"]

  const EMAIL_KEYWORDS: seq<string> := ["email", "subject", "greeting", "template"]

  /** The user-story keywords that can match at all: the list without "As a". */
  const LIVE_USER_STORY_KEYWORDS: seq<string> :=
    USER_STORY_KEYWORDS[..3] + USER_STORY_KEYWORDS[4..]

  /** The fixed assistant reply to an input that fails validation (app.py:86). */
  const REJECTION: string :=
    "Please provide a more detailed requirement, such as a user story or email template request."

  /** Inputs shorter than this are rejected before any keyword is looked at. */
  const MIN_INPUT_LENGTH: nat := 10

  /** Some keyword of `keywords` occurs in the lowered prompt: the meaning
      of `any(keyword in prompt.lower() for keyword in keywords)`. */
  ghost predicate Mentions(prompt: string, keywords: seq<string>)
  {
    exists k :: 0 <= k < |keywords| && Contains(Lower(prompt), keywords[k])
  }

  /** `any(keyword in text for keyword in keywords)`, tried left to right. */
  function AnyKeywordIn(keywords: seq<string>, text: string): (r: bool)
    ensures r <==> exists k :: 0 <= k < |keywords| && Contains(text, keywords[k])
  {
    if keywords == [] then
      false
    else if Contains(text, keywords[0]) then
      true
    else
      var rest := AnyKeywordIn(keywords[1..], text);
      assert forall k :: 1 <= k < |keywords| ==> keywords[k] == keywords[1..][k - 1];
      rest
  }

  /** Searching a concatenation of keyword lists is searching either list. */
  lemma {:induction false} AnyKeywordInConcat(a: seq<string>, b: seq<string>, text: string)
    ensures AnyKeywordIn(a + b, text) <==> AnyKeywordIn(a, text) || AnyKeywordIn(b, text)
  {
    if AnyKeywordIn(a + b, text) {
      var k :| 0 <= k < |a + b| && Contains(text, (a + b)[k]);
      if k < |a| {
        assert Contains(text, a[k]);
      } else {
        assert Contains(text, b[k - |a|]);
      }
    }
    if AnyKeywordIn(a, text) {
      var k :| 0 <= k < |a| && Contains(text, a[k]);
      assert Contains(text, (a + b)[k]);
    }
    if AnyKeywordIn(b, text) {
      var k :| 0 <= k < |b| && Contains(text, b[k]);
      assert Contains(text, (a + b)[|a| + k]);
    }
  }

  /** `detect_response_type`: user-story keywords win over e-mail keywords,
      and a prompt matching neither falls back to "User Story". */
  function DetectResponseType(prompt: string): (r: string)
    ensures r == USER_STORY || r == EMAIL_TEMPLATE
    ensures Mentions(prompt, USER_STORY_KEYWORDS) ==> r == USER_STORY
    ensures r == EMAIL_TEMPLATE <==>
      !Mentions(prompt, USER_STORY_KEYWORDS) && Mentions(prompt, EMAIL_KEYWORDS)
    ensures !Mentions(prompt, USER_STORY_KEYWORDS) && !Mentions(prompt, EMAIL_KEYWORDS) ==>
      r == USER_STORY
  {
    if AnyKeywordIn(USER_STORY_KEYWORDS, Lower(prompt)) then
      USER_STORY
    else if AnyKeywordIn(EMAIL_KEYWORDS, Lower(prompt)) then
      EMAIL_TEMPLATE
    else
      USER_STORY
  }

  /** `is_valid_input`: at least ten characters and some keyword of either
      list in the lowered prompt. */
  function IsValidInput(prompt: string): (r: bool)
    ensures |prompt| < MIN_INPUT_LENGTH ==> !r
    ensures r <==> (|prompt| >= MIN_INPUT_LENGTH &&
      (Mentions(prompt, USER_STORY_KEYWORDS) || Mentions(prompt, EMAIL_KEYWORDS)))
  {
    if |prompt| < MIN_INPUT_LENGTH then
      false
    else
      AnyKeywordInConcat(USER_STORY_KEYWORDS, EMAIL_KEYWORDS, Lower(prompt));
      AnyKeywordIn(USER_STORY_KEYWORDS + EMAIL_KEYWORDS, Lower(prompt))
  }

  /** For a valid input the fallback of `detect_response_type` is never
      taken: "User Story" then means a user-story keyword was found. */
  lemma ValidInputNeverFallsBack(prompt: string)
    requires IsValidInput(prompt)
    ensures DetectResponseType(prompt) == USER_STORY <==> Mentions(prompt, USER_STORY_KEYWORDS)
  {
  }

  // ---------------------------------------------------------------------
  // The keyword "As a" (app.py:52, 54, 68, 70)
  // ---------------------------------------------------------------------

  /** "As a" never occurs in a lowered prompt. */
  lemma AsANeverMatches(prompt: string)
    ensures !Contains(Lower(prompt), "As a")
  {
    UppercaseNeverInLowered(prompt, "As a", 0);
  }

  /** The user-story list finds exactly what it finds without "As a". */
  lemma UserStoryKeywordsWithoutAsA(prompt: string)
    ensures Mentions(prompt, USER_STORY_KEYWORDS) <==> Mentions(prompt, LIVE_USER_STORY_KEYWORDS)
  {
    AsANeverMatches(prompt);
    var text := Lower(prompt);
    if Mentions(prompt, USER_STORY_KEYWORDS) {
      var k :| 0 <= k < |USER_STORY_KEYWORDS| && Contains(text, USER_STORY_KEYWORDS[k]);
      assert k != 3;
      var j := if k < 3 then k else 3;
      assert Contains(text, LIVE_USER_STORY_KEYWORDS[j]);
    }
    if Mentions(prompt, LIVE_USER_STORY_KEYWORDS) {
      var j :| 0 <= j < |LIVE_USER_STORY_KEYWORDS| && Contains(text, LIVE_USER_STORY_KEYWORDS[j]);
      var k := if j < 3 then j else 4;
      assert Contains(text, USER_STORY_KEYWORDS[k]);
    }
  }

  /** Both functions behave exactly as they would with "As a" removed
      from the user-story list. */
  lemma AsAKeywordIsDead(prompt: string)
    ensures DetectResponseType(prompt) == EMAIL_TEMPLATE <==>
      !Mentions(prompt, LIVE_USER_STORY_KEYWORDS) && Mentions(prompt, EMAIL_KEYWORDS)
    ensures IsValidInput(prompt) <==> (|prompt| >= MIN_INPUT_LENGTH &&
      (Mentions(prompt, LIVE_USER_STORY_KEYWORDS) || Mentions(prompt, EMAIL_KEYWORDS)))
  {
    UserStoryKeywordsWithoutAsA(prompt);
  }

  /** Lowered text without the letters t, c and f names no user-story keyword. */
  lemma NoUserStoryKeywordWithout(prompt: string)
    requires 't' !in Lower(prompt) && 'c' !in Lower(prompt) && 'f' !in Lower(prompt)
    ensures !Mentions(prompt, USER_STORY_KEYWORDS)
  {
    var text := Lower(prompt);
    forall k | 0 <= k < |USER_STORY_KEYWORDS|
      ensures !Contains(text, USER_STORY_KEYWORDS[k])
    {
      if k == 3 {
        AsANeverMatches(prompt);
      } else {
        var c := if k == 1 then 'c' else if k == 2 then 'f' else 't';
        AbsentCharBlocksMatch(text, USER_STORY_KEYWORDS[k], c);
      }
    }
  }

  /** Lowered text without the letters m, j and t names no e-mail keyword. */
  lemma NoEmailKeywordWithout(prompt: string)
    requires 'm' !in Lower(prompt) && 'j' !in Lower(prompt) && 't' !in Lower(prompt)
    ensures !Mentions(prompt, EMAIL_KEYWORDS)
  {
    var text := Lower(prompt);
    forall k | 0 <= k < |EMAIL_KEYWORDS|
      ensures !Contains(text, EMAIL_KEYWORDS[k])
    {
      var c := if k == 0 then 'm' else if k == 1 then 'j' else 't';
      AbsentCharBlocksMatch(text, EMAIL_KEYWORDS[k], c);
    }
  }

  /** The letters that rule out every keyword are missing from the lowered "As a buyer". */
  lemma BuyerPromptLacksKeywordLetters()
    ensures 't' !in Lower("As a buyer") && 'c' !in Lower("As a buyer") && 'f' !in Lower("As a buyer")
    ensures 'm' !in Lower("As a buyer") && 'j' !in Lower("As a buyer")
  {
  }

  /** A request phrased as a user story ("As a ...") but naming no other
      keyword is rejected, although its lowered text does contain "as a". */
  lemma AsAPromptIsRejected()
    ensures Contains(Lower("As a buyer"), "as a")
    ensures !IsValidInput("As a buyer")
  {
    var prompt := "As a buyer";
    var text := Lower(prompt);
    assert text[..4] == [LowerChar('A'), 's', ' ', 'a'] == "as a";
    assert OccursAt(text, "as a", 0);
    BuyerPromptLacksKeywordLetters();
    NoUserStoryKeywordWithout(prompt);
    NoEmailKeywordWithout(prompt);
  }

  // ---------------------------------------------------------------------
  // The two generators (app.py:11-49), over an opaque language model
  // ---------------------------------------------------------------------

  /** What the page hands to a chain's `run`: which prompt template, and
      the values of its variables. */
  datatype LlmRequest =
    | UserStoryRequest(featureName: string, title: string, user: string, feature: string, goal: string)
    | EmailRequest(details: string)

  /** The model behind the chains: the raw text it returns for a request. */
  type Completion = LlmRequest -> string

  /** The fixed values `generate_precise_user_story` fills into its template (app.py:31-37). */
  const LOGIN_STORY_REQUEST: LlmRequest := UserStoryRequest(
    "E-commerce Website Login Page",
    "Existing Customer Login to Access Profile",
    "existing customer",
    "log into the e-commerce website",
    "access my profile and manage my account details")

  /** `generate_precise_user_story`: the prompt is not used; the model's
      answer to the fixed login-page request is returned stripped. */
  function GeneratePreciseUserStory(llm: Completion, prompt: string): (r: string)
    ensures exists i :: StrippedAt(llm(LOGIN_STORY_REQUEST), r, i)
    ensures r == [] || (!IsSpace(r[0]) && !IsSpace(r[|r| - 1]))
  {
    Strip(llm(LOGIN_STORY_REQUEST))
  }

  /** `generate_email_template`: the prompt goes verbatim into the e-mail
      template and the model's answer is returned stripped. */
  function GenerateEmailTemplate(llm: Completion, prompt: string): (r: string)
    ensures exists i :: StrippedAt(llm(EmailRequest(prompt)), r, i)
    ensures r == [] || (!IsSpace(r[0]) && !IsSpace(r[|r| - 1]))
  {
    Strip(llm(EmailRequest(prompt)))
  }

  /** The request handed to the model for a user story does not depend on
      what the user typed, so one model answer gives the same story for
      every prompt (the real model samples, so two runs may still differ). */
  lemma UserStoryIgnoresPrompt(llm: Completion, p: string, q: string)
    ensures GeneratePreciseUserStory(llm, p) == GeneratePreciseUserStory(llm, q)
  {
  }

  // ---------------------------------------------------------------------
  // One submission (app.py:74-86)
  // ---------------------------------------------------------------------

  datatype Role = User | Assistant

  /** One entry of `st.session_state.messages`: `{"role": ..., "content": ...}`. */
  datatype Message = Message(role: Role, content: string)

  datatype Generator = PreciseUserStory | EmailTemplate

  /** The generator a non-empty input is sent to, or None when it is rejected. */
  function ChooseGenerator(input: string): (g: Option<Generator>)
    ensures g == None <==> (|input| < MIN_INPUT_LENGTH ||
      (!Mentions(input, USER_STORY_KEYWORDS) && !Mentions(input, EMAIL_KEYWORDS)))
    ensures g == Some(PreciseUserStory) <==>
      |input| >= MIN_INPUT_LENGTH && Mentions(input, USER_STORY_KEYWORDS)
    ensures g == Some(EmailTemplate) <==> (|input| >= MIN_INPUT_LENGTH &&
      !Mentions(input, USER_STORY_KEYWORDS) && Mentions(input, EMAIL_KEYWORDS))
  {
    if !IsValidInput(input) then None
    else if DetectResponseType(input) == USER_STORY then Some(PreciseUserStory)
    else Some(EmailTemplate)
  }

  /** The assistant's answer to a non-empty input. */
  function Reply(input: string, llm: Completion): string
  {
    match ChooseGenerator(input)
    case None => REJECTION
    case Some(PreciseUserStory) => GeneratePreciseUserStory(llm, input)
    case Some(EmailTemplate) => GenerateEmailTemplate(llm, input)
  }

  /** The input counts as submitted: Python's truth value of `user_input`. */
  predicate Submitted(userInput: Option<string>)
  {
    userInput.Some? && userInput.value != ""
  }

  /** The messages one run of the page appends for `userInput`. */
  function Turn(userInput: Option<string>, llm: Completion): (t: seq<Message>)
    ensures !Submitted(userInput) ==> t == []
    ensures Submitted(userInput) ==> (|t| == 2 &&
      t[0] == Message(User, userInput.value) &&
      t[1].role == Assistant)
  {
    if Submitted(userInput) then
      [Message(User, userInput.value), Message(Assistant, Reply(userInput.value, llm))]
    else
      []
  }

  /** What the assistant turn of a submission holds: the fixed rejection
      for a short or keyword-free input, otherwise the user story when a
      user-story keyword occurs and the e-mail when only e-mail keywords do. */
  lemma TurnAnswers(userInput: Option<string>, llm: Completion)
    requires Submitted(userInput)
    ensures var input := userInput.value;
      |input| < MIN_INPUT_LENGTH ==> Turn(userInput, llm)[1].content == REJECTION
    ensures var input := userInput.value;
      !Mentions(input, USER_STORY_KEYWORDS) && !Mentions(input, EMAIL_KEYWORDS) ==>
        Turn(userInput, llm)[1].content == REJECTION
    ensures var input := userInput.value;
      |input| >= MIN_INPUT_LENGTH && Mentions(input, USER_STORY_KEYWORDS) ==>
        Turn(userInput, llm)[1].content == GeneratePreciseUserStory(llm, input)
    ensures var input := userInput.value;
      |input| >= MIN_INPUT_LENGTH && !Mentions(input, USER_STORY_KEYWORDS) &&
      Mentions(input, EMAIL_KEYWORDS) ==>
        Turn(userInput, llm)[1].content == GenerateEmailTemplate(llm, input)
  {
  }

  /** The role of the message at `index` in a history that starts with
      the user and alternates. */
  function ExpectedRole(index: nat): Role
  {
    if index % 2 == 0 then User else Assistant
  }

  /** The history alternates user and assistant turns, starting with the
      user, has as many of each, and every user turn holds a non-empty input. */
  ghost predicate Alternates(messages: seq<Message>)
  {
    && |messages| % 2 == 0
    && (forall i :: 0 <= i < |messages| ==> messages[i].role == ExpectedRole(i))
    && (forall i :: 0 <= i < |messages| && messages[i].role == User ==> messages[i].content != "")
  }

  /** Appending one turn keeps the history alternating. */
  lemma TurnKeepsAlternation(messages: seq<Message>, userInput: Option<string>, llm: Completion)
    requires Alternates(messages)
    ensures Alternates(messages + Turn(userInput, llm))
  {
  }

  /** The chat session: `st.session_state.messages`, created empty on the
      first run (app.py:74-75) and extended by each submission. */
  class Session {
    var messages: seq<Message>

    ghost predicate Valid()
      reads this
    {
      Alternates(messages)
    }

    constructor ()
      ensures Valid() && messages == []
    {
      messages := [];
    }

    /** One run of the page with `userInput` from the chat box: appends the
        user turn and then one assistant turn, and says which generator
        was called (None: no input, or the fixed rejection). */
    method Submit(userInput: Option<string>, llm: Completion) returns (called: Option<Generator>)
      requires Valid()
      modifies this
      ensures Valid()
      ensures messages == old(messages) + Turn(userInput, llm)
      ensures called == (if Submitted(userInput) then ChooseGenerator(userInput.value) else None)
    {
      ghost var before := messages;
      ghost var turn := Turn(userInput, llm);
      TurnKeepsAlternation(messages, userInput, llm);
      called := None;
      if userInput.Some? && userInput.value != "" {
        var input := userInput.value;
        messages := messages + [Message(User, input)];
        var response;
        if IsValidInput(input) {
          var responseType := DetectResponseType(input);
          if responseType == USER_STORY {
            response := GeneratePreciseUserStory(llm, input);
            called := Some(PreciseUserStory);
          } else {
            response := GenerateEmailTemplate(llm, input);
            called := Some(EmailTemplate);
          }
        } else {
          response := REJECTION;
        }
        messages := messages + [Message(Assistant, response)];
        assert response == Reply(input, llm);
        assert messages == before + [turn[0], turn[1]];
      }
    }
  }
}
