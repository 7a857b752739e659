# FANG-style mock interviewer: prompt composer and chat transcript

A Dafny model of the logic in `streamlit_app.py`, a Streamlit script that runs a mock
interview against a chat-completion model. The model has two parts.

- **The prompt composer `get_prompt(role, company)`.** It lower-cases the company name. It then
  picks a "values" phrase by case-insensitive substring tests, first match wins, in the order
  amazon, google, meta or facebook, netflix, apple. A generic phrase is the fallback. Finally it
  builds one fixed sentence from the title-cased company, the role and the phrase.
- **The transcript in `st.session_state.messages`.** It is created once, holding the system
  prompt, when it is absent and both inputs are non-empty. Each rerun shows it on screen
  without its first entry. Each non-empty chat input appends a user message and then the
  assistant's reply.

Modules:

- `Text` (`text.dfy`): ASCII models of Python's `str.lower`, `str.title` and substring `in`.
  Each is proved against a pointwise or existential characterisation.
- `Prompt` (`prompt.dfy`): `CompanyValues` (the if/elif chain) and `GetPrompt`. Beside them is an
  independent ordered rule table, `Rules` with `FirstMatch`, and a proof that the chain is that
  table. The lemmas cover first-match-wins, the fallback, case-insensitivity and the sentence layout.
- `Chat` (`chat.dfy`): the class `ChatSession`. Its field `messages: Option<seq<Message>>` is the
  session key, `None` while the key is absent. Its methods are one per block of the script:
  `Seed`, `Render`, `Submit`, and `Rerun` for a whole script run. Pure specifications (`Seeded`,
  `Exchange`, `Conversation`) carry the lemmas about many reruns.

Collaborators become parameters:

- The presence of the API key in the secrets is `hasKey`.
- The text widgets' values are `role`, `company` and `input`. An empty string means no input,
  which is Python's falsy value.
- The completion call's reply is `reply: Option<string>`. `None` means the call raised.

Behaviour of the script worth knowing, all modelled as written:

- There is no question counter, no interview phase, no final score and no audio rule. The prompt asks the
  model for a score (1-5) after each candidate response.
- Any non-empty chat input is appended, including one made only of spaces (`Submit`).
- The user message is appended before the completion call. A call that raises therefore leaves
  that user entry in the transcript with no assistant entry after it (`Submit` with
  `reply == None`). User and assistant entries alternate only while every call returns
  (`ConversationAlternates`).

## Model

| member | source | states |
|---|---|---|
| Text.ToLower | streamlit_app.py:24 | the result has the input's length and holds, at every position, that character lower-cased (A-Z to a-z, everything else kept) |
| Text.ToLowerIdentifiesCase | streamlit_app.py:24 | two names lower-case to the same string if and only if they differ only in letter case |
| Text.ToLowerFixesLowerCase | streamlit_app.py:24 | lower-casing leaves a string unchanged if and only if it holds no upper-case letter |
| Text.TitleFrom | streamlit_app.py:39 | title-casing a suffix: each character is lower-cased when the character before it is a letter, upper-cased otherwise |
| Text.Title | streamlit_app.py:39 | `str.title()`: same length, and a letter is upper-cased exactly when it does not follow a letter ("3m" gives "3M"), lower-cased otherwise, other characters kept |
| Text.TitleIgnoresCase | streamlit_app.py:39 | names that differ only in case have the same title case |
| Text.TitleOfLower | streamlit_app.py:24-39 | title-casing the lower-cased company gives the title case of the company as typed |
| Text.OccursInTail | streamlit_app.py:25 | when the needle is not at the front, it occurs in the haystack exactly when it occurs in the haystack's tail |
| Text.Contains | streamlit_app.py:25-34 | the substring test `k in s` is true if and only if `k` occurs at some index of `s` |
| Text.LoweredContainsIgnoresCase | streamlit_app.py:24-34 | for a keyword without capitals, testing the lower-cased name is the same as a case-insensitive substring test on the name as typed |
| Text.OccursInLowered | streamlit_app.py:24-34 | at each index, the keyword occurs in the lower-cased name exactly when it matches the name there up to case |
| Prompt.CompanyValues | streamlit_app.py:24-36 | the phrase is one of the six phrases; it is the fallback if and only if none of the six keywords occurs; "amazon" always selects the Amazon phrase |
| Prompt.FirstMatchRange | streamlit_app.py:25-36 | an ordered table always yields the fallback or the phrase of one of its rules |
| Prompt.TailDistinct | streamlit_app.py:25-36 | dropping the first rule of a table with distinct phrases keeps them distinct |
| Prompt.FirstMatchAt | streamlit_app.py:25-36 | in an ordered table with distinct phrases, rule i is chosen if and only if it fires and no earlier rule fires |
| Prompt.FirstMatchFallback | streamlit_app.py:35-36 | in such a table the fallback is chosen if and only if no rule fires |
| Prompt.RulesDistinct | streamlit_app.py:26-36 | the five company phrases and the fallback are pairwise different |
| Prompt.FiresOne | streamlit_app.py:25-34 | a rule with the single keyword k fires exactly when k occurs |
| Prompt.CompanyValuesFollowsRules | streamlit_app.py:25-36 | the if/elif chain is the ordered table amazon, google, meta/facebook, netflix, apple with the generic fallback |
| Prompt.FirstKeywordWins | streamlit_app.py:25-34 | a company's phrase is rule i's phrase if and only if rule i fires and no earlier rule does; a name with both "amazon" and "google" gets the Amazon phrase |
| Prompt.MetaAndFacebookAgree | streamlit_app.py:29-30 | the Meta phrase is chosen if and only if neither amazon nor google occurs and "meta" or "facebook" does |
| Prompt.GetPrompt | streamlit_app.py:23-43 | `get_prompt`: the prompt starts with "You are a senior engineer at ", ends with the fixed boilerplate, and is exactly as long as the fixed text, the company, the role and the chosen phrase together; `PromptLayout`, `PromptIgnoresCompanyCase` and `RoleDeterminedByPrompt` give the rest |
| Prompt.PromptLayout | streamlit_app.py:38-43 | the prompt holds, in order and with nothing else, "You are a senior engineer at ", the title-cased company, the role verbatim, the phrase for the lower-cased company, and the closing boilerplate |
| Prompt.PromptEndsWithScoreSentence | streamlit_app.py:42 | every prompt ends with the sentence asking for a score (1-5) and feedback after each response |
| Prompt.PromptIgnoresCompanyCase | streamlit_app.py:23-43 | two company names that differ only in letter case give the same phrase and the same prompt |
| Prompt.RoleDeterminedByPrompt | streamlit_app.py:39 | for a fixed company, equal prompts mean equal roles: the role is embedded verbatim |
| Prompt.KeywordTestIgnoresCase | streamlit_app.py:24-34 | each of the six keyword tests is a case-insensitive substring test on the name as typed |
| Prompt.AmazonExample | streamlit_app.py:24-39 | "AMAZON" selects the Amazon Leadership Principles phrase and appears as "Amazon" |
| Prompt.FallbackExample | streamlit_app.py:35-36 | "IBM" matches no keyword and gets the generic best-practices phrase |
| Prompt.TitleExamples | streamlit_app.py:39 | title case upper-cases a letter after a digit: "3m" gives "3M" |
| Chat.Seeded | streamlit_app.py:46-49 | a transcript exists afterwards if and only if it existed or both inputs are non-empty; an existing one is kept; a new one is exactly the system message built by `get_prompt` |
| Chat.SeedOnce | streamlit_app.py:46 | seeding again never replaces an existing transcript; the first successful seeding sticks |
| Chat.SeededWellFormed | streamlit_app.py:47-49 | a freshly seeded transcript starts with the system entry and alternates |
| Chat.Exchange | streamlit_app.py:58-71 | an empty input changes nothing; a non-empty one grows the transcript by a user entry with that text and, when the call returned, an assistant entry with the reply, leaving all earlier entries unchanged |
| Chat.ExchangePreserves | streamlit_app.py:59-71 | an exchange keeps the system entry first and alone, and keeps the user/assistant alternation when the call returned |
| Chat.Conversation | streamlit_app.py:46-71 | the transcript after a run of script reruns, one chat input each, keeps the starting transcript as its prefix |
| Chat.ConversationKeepsHistory | streamlit_app.py:46-71 | over any run of inputs the transcript only grows at its end: earlier entries, entry 0 included, are unchanged and it stays well formed |
| Chat.ConversationAlternates | streamlit_app.py:58-71 | when the call made for every non-empty input returns, each such input adds exactly two entries, empty inputs add none, and user and assistant entries alternate |
| Chat.ChatSession.constructor | streamlit_app.py:46 | a new session has no transcript |
| Chat.ChatSession.Seed | streamlit_app.py:46-49 | the new session state is `Seeded` of the old one; the transcript stays well formed |
| Chat.ChatSession.Render | streamlit_app.py:52-55 | the displayed entries are exactly the transcript without its first entry, in order, and none of them is a system entry |
| Chat.ChatSession.Submit | streamlit_app.py:58-71 | the new transcript is `Exchange` of the old one; the request sent to the completion call is the old transcript plus the user entry; alternation is kept when the call returned |
| Chat.ChatSession.Rerun | streamlit_app.py:17-73 | without an API key nothing changes; otherwise the transcript is seeded, the entries shown are the seeded transcript minus its first entry, and the input is then appended |

## Left out

- Streamlit widgets and rendering (`st.title`, `st.write`, `text_input`, `chat_input`, `chat_message`, `markdown`, `info`, `error`) are UI. Their values become method parameters, and `Render` returns the list of displayed messages.
- The OpenAI client and the streamed chat completion (model name, streaming, `write_stream`) are network I/O into a library that is not part of this model. The reply is an arbitrary string parameter, or `None` when the call raises.
- Secrets loading is reduced to the boolean `hasKey`.
- Text.ToLower, Text.Title: model Python's `str.lower` and `str.title` on ASCII letters only. Non-ASCII characters are kept as they are, so Unicode case mappings (such as "É" to "é") are not modelled. Non-ASCII letters also count as uncased, so an ASCII letter that follows one is upper-cased: the model title-cases "société" as "SociéTé" and "Crédit Agricole" as "CréDit Agricole", where Python gives "Société" and "Crédit Agricole".
- Concurrency between browser sessions: each `ChatSession` object is one session's state. Streamlit's rerun scheduling is not modelled.
