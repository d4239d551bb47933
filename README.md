# Chat reply pipeline (codecubicle, `CC5/routes/chat.js`)

A Dafny model of the single-turn reply pipeline of the chat route. It has
three stages with early return, plus the input guard of the `/message`
endpoint:

1. **Distress detection** (`Chat.DetectDistress`). The message is
   lower-cased. Distress is detected when any of the ten lexicon phrases
   is a substring.
2. **Knowledge retrieval** (`Chat.RetrieveKnowledge`). The lower-cased
   message is checked against the five-entry corpus in its declared order.
   The result is the content of the first entry whose topic is a
   substring, or `None`.
3. **Reply composition** (`Chat.GenerateResponse`):
   - on distress, the fixed crisis message, flagged `distressDetected`;
   - on a retrieval hit, `"I understand you're asking about <label>. <content>"`,
     where the label comes from a separate `anxiety → depression → stress →
     mindfulness → self-care` chain;
   - otherwise one of five supportive phrases. Only the first phrase
     mentions the user's name.
4. **Input guard** (`Chat.HandleMessage`). An absent or empty message is
   rejected with `MessageRequired`. A missing username becomes `"User"`.
   Otherwise the result is the echoed message and the reply.

Files:
- `wrappers.dfy`: `Option` and `Result`.
- `strings.dfy`: ASCII `Lower` and substring `Contains`, each proved against
  a pointwise or positional definition.
- `chat.dfy`: the pipeline (module `Chat`).
- `chat_tables.dfy`: the route's literal tables and the facts about them
  (module `ChatTables`).

Modelling choices:
- The pipeline takes the route's fixed tables as one `Tables` value
  (corpus, distress lexicon, supportive phrases). The deployed value is
  `ChatTables.Standard`. The lemmas are proved for every table value that
  meets their stated requirements, and `ChatTables` proves those
  requirements for the deployed tables. One reason is that the long corpus
  texts are expensive to carry through every proof.
- The label chain is hard-coded, as in the source. Its agreement with the
  retrieved entry therefore needs `Chat.MirrorsLabelChain`: the corpus
  topics must be exactly anxiety, depression, stress, mindfulness,
  self_care, in that order. `ChatTables.CorpusMirrorsLabelChain` proves
  this for the deployed corpus. `Chat.LabelMismatchWithoutMirror` shows
  that the requirement is needed: a corpus that put stress first would
  label a stress reply "anxiety".
- A supportive phrase is a template: `Fixed(text)` or
  `Addressed(before, after)`, rendered around the username by `Chat.Render`.
  The source's template literal `I hear you, ${username}. …` becomes
  `Addressed("I hear you, ", ". How long …")`.
- `Math.floor(Math.random() * 5)` becomes the parameter `pick`, with
  `pick < |t.phrases|`.
- The crisis message and the reply lead text are constants in `Chat`, as
  they are inline literals in `generateResponse`.

Two consequences of the code are worth stating:
- The message "I've been feeling really anxious lately" gets a supportive
  phrase, not the anxiety reply. "anxious" does not contain the topic
  "anxiety" (line 52), and no other topic or distress phrase occurs in the
  message. `Chat.FallbackReply` therefore applies.
- The knowledge branch tests the retrieved content for truthiness
  (line 76). A retrieved empty content therefore falls back to a supportive
  phrase, as `Chat.EmptyContentFallsBack` states. The deployed contents are
  all non-empty (`ChatTables.CorpusContentsDistinct`), so with the deployed
  corpus every retrieval hit is announced.

The route validates the message itself (lines 112-116). This is modelled
as `Chat.HandleMessage`.

## Model

| member | source | states |
|---|---|---|
| Strings.Lower | CC5/routes/chat.js:42 | lower-casing keeps the length, lower-cases every character in place, and leaves no upper-case ASCII letter |
| Strings.LowerIdempotent | CC5/routes/chat.js:42 | lower-casing an already lower-cased message changes nothing |
| Strings.Contains | CC5/routes/chat.js:43 | `includes` is true exactly when the needle occurs at some position of the text |
| Chat.AnyContained | CC5/routes/chat.js:43 | `some(keyword => text.includes(keyword))` is true exactly when some listed phrase occurs in the text |
| Chat.DetectDistress | CC5/routes/chat.js:41-44 | distress is detected if and only if some lexicon phrase is a substring of the lower-cased message |
| Chat.DetectDistressEmpty | CC5/routes/chat.js:41-44 | with non-empty keywords, the empty message is never flagged |
| Chat.DetectDistressCaseInsensitive | CC5/routes/chat.js:42 | detection gives the same answer for a message and its lower-cased form |
| Chat.FirstMatchContent | CC5/routes/chat.js:51-57 | the in-order scan yields nothing exactly when no topic occurs, else the content of the first entry whose topic occurs |
| Chat.RetrieveKnowledge | CC5/routes/chat.js:47-58 | retrieval is `None` if and only if no corpus topic occurs in the lower-cased message, and is the content of entry k whenever k is the least matching index |
| Chat.RetrieveKnowledgeCaseInsensitive | CC5/routes/chat.js:48 | retrieval gives the same answer for a message and its lower-cased form |
| Chat.EarlierTopicWins | CC5/routes/chat.js:51-55 | when the topic of entry i occurs, the answer is the content of a first match at some index k ≤ i |
| Chat.LaterTopicLoses | CC5/routes/chat.js:51-55 | with distinct contents, a later entry's content is never returned when an earlier entry's topic occurs |
| Chat.TopicLabelMatchesEntry | CC5/routes/chat.js:78-81 | for a corpus in label-chain order, the label chain `Chat.TopicLabel` yields the topic of the first matching entry, with `self_care` shown as `self-care` |
| Chat.LabelMismatchWithoutMirror | CC5/routes/chat.js:78-81 | without that order (stress first), a message naming anxiety and stress matches the stress entry, but `Chat.TopicLabel` gives "anxiety", which is not the stress entry's name |
| Chat.RenderUsername | CC5/routes/chat.js:84-90 | rendering a phrase template with `Chat.Render`: an addressed phrase contains the username, and a fixed phrase reads the same for every username |
| Chat.GenerateResponse | CC5/routes/chat.js:61-101 | `distressDetected` is true exactly when distress is detected, and then the text is the crisis message |
| Chat.DistressTakesPriority | CC5/routes/chat.js:63-67 | any lexicon phrase in the message yields exactly the crisis reply, whatever topics are also present |
| Chat.KnowledgeReply | CC5/routes/chat.js:76-81 | without distress, when entry k is the first match and its content is non-empty, the reply is the lead text, entry k's display name, ". " and entry k's content, unflagged |
| Chat.EmptyContentFallsBack | CC5/routes/chat.js:76-94 | without distress, when the first match has empty (falsy) content, the reply is the picked phrase rendered for the user, unflagged |
| Chat.FallbackReply | CC5/routes/chat.js:82-100 | without distress and without any topic, the reply is the picked phrase rendered for the user, unflagged |
| Chat.ReplyShapes | CC5/routes/chat.js:61-101 | every reply is the flagged crisis message, the announcement of one corpus entry, or one phrase of the bank, unflagged |
| Chat.HandleMessage | CC5/routes/chat.js:111-119 | the request is rejected with `MessageRequired` if and only if the message is absent or empty; otherwise the message is echoed and the reply is flagged exactly on distress |
| Chat.HandleMessageUsername | CC5/routes/chat.js:112 | a missing username gives the reply for "User"; a given username is passed through unchanged |
| ChatTables.CorpusMirrorsLabelChain | CC5/routes/chat.js:5-31 | the deployed corpus has topics anxiety, depression, stress, mindfulness, self_care in that order, and ids 1 to 5 |
| ChatTables.CorpusContentsDistinct | CC5/routes/chat.js:5-31 | the five deployed contents are non-empty and pairwise different |
| ChatTables.StandardLaterTopicLoses | CC5/routes/chat.js:5-31 | with the deployed corpus, when an earlier entry's topic occurs in the message, a later entry's content is never returned |
| ChatTables.KeywordsWellFormed | CC5/routes/chat.js:34-38 | the lexicon has ten non-empty, lower-case phrases |
| ChatTables.EmptyMessageNoDistress | CC5/routes/chat.js:34-44 | with the deployed lexicon, the empty message is not flagged |
| ChatTables.PhrasesAddressOnlyFirst | CC5/routes/chat.js:84-90 | there are five phrases; the username appears in phrase 0, and phrases 1 to 4 do not depend on it |
| ChatTables.StandardKnowledgeReply | CC5/routes/chat.js:76-81 | with the deployed corpus, a knowledge reply names the entry whose content it quotes |

## Left out

- Express routing, `req`/`res`, the HTTP 400 status and JSON serialisation (lines 1-2, 104-138) are transport. Only the validation and defaulting logic is modelled.
- The `/history` endpoint (lines 104-108) is not modelled. It always answers with an empty list.
- The `timestamp: new Date()` fields (lines 127, 132) read the wall clock. They are dropped, and so are the constant `sender` fields. `Chat.Exchange` keeps the echoed text and the reply.
- `Math.random()` and `Math.floor` (line 93) are floating-point randomness. They become the bounded parameter `pick`.
- `toLowerCase` is modelled as ASCII lower-casing. Unicode case mappings, including mappings that change a string's length, are not modelled.
- JavaScript truthiness of arbitrary request bodies is not modelled. The message is a string that is either absent or present. A non-string truthy message, or a `null` username (the destructuring default applies only to `undefined`), has no counterpart.
- The tables are passed as a parameter instead of being read from module-level constants. Each lemma names the table facts it needs, and `ChatTables` proves them for the deployed tables. The lemmas about the deployed corpus take any `Tables` value whose corpus is `ChatTables.Corpus`.
