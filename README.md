# BA Genie request router — a Dafny model

BA Genie (`app.py`) is a single-page chat application that turns a business
analyst's request into either a user story or a formal e-mail. The
language-model calls and the page widgets are glue; what this project models
is the router between them:

- `detect_response_type` — a lexical classifier: the prompt is lowered and
  searched for five user-story keywords, then for four e-mail keywords. The
  answer is `"User Story"` or `"Email Template"`; a prompt matching nothing
  falls back to `"User Story"`.
- `is_valid_input` — a validator: prompts shorter than ten characters are
  rejected; otherwise the prompt is accepted exactly when some keyword of
  either list occurs in the lowered prompt.
- the per-submission update of the session history
  (`st.session_state.messages`): a non-empty input appends the user turn
  verbatim and then exactly one assistant turn, which is either the output
  of the generator the classifier chose or a fixed rejection message.

Two files:

- `pystr.dfy` (module `PyStr`) — the Python string operations the router
  uses: `needle in hay` (`Contains`, proved equal to "occurs at some index"),
  `str.lower()` over ASCII letters (`Lower`), and `str.strip()` with Python's
  own set of white-space characters (`Strip`).
- `app.dfy` (module `App`) — the keyword lists, `DetectResponseType`,
  `IsValidInput`, the two generators over an opaque language model, the
  turn a submission appends (`Turn`), and the `Session` class whose
  `messages` field `Submit` extends in place.

The language model is a function value `Completion` from a request (which
prompt template, and the values `chain.run` receives) to the raw text the
chain returns; the generators strip that text, as `app.py` does.

The keyword `"As a"` (app.py:52, 68) keeps an upper-case `A` while the text
it is searched in is `prompt.lower()`, so it can never match. The model
proves this (`App.AsANeverMatches`), proves that both functions behave as if
the keyword were not in the list (`App.AsAKeywordIsDead`), and exhibits a
prompt, `"As a buyer"`, that reads as a user story yet is rejected by
`is_valid_input` (`App.AsAPromptIsRejected`). The model keeps the code as
written.

## Model

| member | source | states |
|---|---|---|
| `PyStr.Contains` | app.py:54 | `needle in hay` holds exactly when the needle occurs in the text at some index |
| `PyStr.Lower` | app.py:54 | `prompt.lower()` keeps the length, lowers each ASCII capital and leaves every other character; no ASCII capital remains |
| `PyStr.UppercaseNeverInLowered` | app.py:52-54 | a keyword holding an ASCII capital never occurs in lowered text |
| `PyStr.Strip` | app.py:38 | `strip()` returns a slice of its input outside which there is only white space, and the slice neither starts nor ends with white space |
| `PyStr.StripIdempotent` | app.py:49 | stripping text that was already stripped changes nothing |
| `App.AnyKeywordIn` | app.py:54 | `any(keyword in text for keyword in keywords)` holds exactly when some keyword of the list occurs in the text |
| `App.AnyKeywordInConcat` | app.py:70 | searching `keywords_user_story + keywords_email` is searching one list or the other |
| `App.DetectResponseType` | app.py:51-58 | the result is only ever "User Story" or "Email Template"; a user-story keyword forces "User Story" even when e-mail keywords are present; "Email Template" holds exactly when no user-story keyword and some e-mail keyword occurs; a prompt matching nothing gets "User Story" |
| `App.IsValidInput` | app.py:65-70 | every prompt under ten characters is rejected; a prompt is valid exactly when it has at least ten characters and some keyword of either list occurs in its lowered text |
| `App.ValidInputNeverFallsBack` | app.py:51-70 | for a valid prompt, "User Story" means a user-story keyword was found: the fallback branch is unreachable |
| `App.AsANeverMatches` | app.py:52-54 | the keyword "As a" never occurs in `prompt.lower()` |
| `App.UserStoryKeywordsWithoutAsA` | app.py:52 | the user-story list finds a keyword exactly when the list without "As a" does |
| `App.AsAKeywordIsDead` | app.py:51-70 | the classifier and the validator give the same answers as they would with "As a" removed from the list |
| `App.AsAPromptIsRejected` | app.py:65-70 | the prompt "As a buyer" contains "as a" once lowered, yet is not a valid input |
| `App.GeneratePreciseUserStory` | app.py:11-38 | the user story is the model's answer to the fixed login-page request, stripped of surrounding white space |
| `App.UserStoryIgnoresPrompt` | app.py:31-37 | the request handed to the model for a user story does not depend on what the user typed: for one and the same model answer, every prompt gives the same story (the model itself samples at temperature 0.5, so two real runs may differ) |
| `App.GenerateEmailTemplate` | app.py:40-49 | the e-mail is the model's answer to the e-mail request carrying the prompt verbatim, stripped of surrounding white space |
| `App.ChooseGenerator` | app.py:81-83 | a submitted input is rejected exactly when it is short or names no keyword; it goes to the user-story generator exactly when it is long enough and names a user-story keyword, and to the e-mail generator exactly when it is long enough and names only e-mail keywords |
| `App.Turn` | app.py:79-86 | an input that is absent or empty appends nothing; a submitted input appends exactly two messages, the user's input verbatim and then one assistant message |
| `App.TurnAnswers` | app.py:81-86 | the assistant message is the fixed rejection for a short or keyword-free input, the user story when a user-story keyword occurs, and the e-mail when only e-mail keywords occur |
| `App.TurnKeepsAlternation` | app.py:79-86 | appending a turn keeps the history alternating user and assistant messages, with non-empty user inputs |
| `App.Session.constructor` | app.py:74-75 | a new session starts with an empty history |
| `App.Session.Submit` | app.py:79-86 | the history becomes the old history followed by the submission's turn, earlier messages unchanged; the generator called is the one `ChooseGenerator` picks, and none for an absent, empty or invalid input |

## Left out

- Page rendering, the chat input box, the chat bubbles and the download buttons (app.py:72, 77, 88-97): framework I/O. The input box's value is the `userInput` parameter of `Submit`.
- The language-model chains (app.py:12-13, 29, 41-42, 47): network calls with nondeterministic output. They are the `Completion` parameter; the template wording, model name and temperature are not modelled.
- An exception raised by a chain: `app.py` does not catch it, and the model assumes every call returns text. Since app.py:80 appends the user message before the chain is called, a chain that raises leaves a user message with no reply and the real history stops alternating; `App.Session.Valid` and `App.TurnKeepsAlternation` hold only under this assumption.
- The unused `brd_content` parameter of `generate_precise_user_story` (app.py:11).
- `save_as_word` and the `response.docx` file (app.py:60-63, 95-97): a document library and the file system.
- The API key read from the secret store (app.py:9).
- The check `"messages" not in st.session_state` on later runs of the page: the `Session` constructor is the first run; later runs find the history already there.
- PyStr.Lower: lowers ASCII capitals only; Python's `str.lower()` also lowers other scripts and can change the length of a string. This changes no keyword match: the only non-ASCII characters Python lowers into ASCII letters are U+212A KELVIN SIGN (to `k`) and U+0130 (to `i` followed by U+0307); no keyword contains `k` and none ends in `i`, so every keyword occurs in Python's lowered text exactly when it occurs in `Lower(prompt)`.
- The repository's other application variants (task-label prompt formatting, history serialisation, response normalisation with canned fallbacks) are not part of this model.
