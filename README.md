# Voice journal: conversation and valuation model

This project models the core of a browser-based voice journaling agent (`script.js`). Each utterance the agent hears is trimmed and then does one of three things:

- logs the user in, the first time;
- answers a pending follow-up question;
- becomes a new journal entry, after which the agent asks a topical question picked from a fixed keyword table, unless the daily capacity of six entries has been reached.

The accumulated text can be sold for an offer of 5, 10 or 20 rupees, which depends on its word count and on how many topics it mentions. Selling credits the offer and empties the log. Cancelling only says an acknowledgement.

Modules, leaves first:

- `Wrappers`: an `Option` type.
- `JsString`: the JavaScript string operations the logic relies on:
  - `trim` and the `\s` white-space class;
  - `toLowerCase`;
  - `includes`;
  - `split(/\s+/).filter(Boolean)`;
  - `join(" ")`;
  - `String(n)`.

  The number of words found by splitting is proved equal to an independent count of the positions where a word starts. Joining two texts with a space is proved to add their word counts.
- `Entries`: the stored record `LogEntry(text, kind, time)`, whose `kind` is the source's `type`, and the capacity `MAX_ENTRIES` (6).
- `Topics`: the rule table `QUESTION_MAP` and `DecideNextQuestion`, a first-match search with a fallback question.
- `Valuation`: `Richness`, the decision table `OfferFor`, `GetOfferForEntries`, the meter's offer and the "limit reached" note. In `Offer`, the source's `label` field is called `tier`, because `label` is a reserved word in Dafny.
- `Conversation`: the shared `state` record as a `Session` value, plus:
  - `OnSpeech`, `OnSell` and the replies, as functions;
  - the invariant every handler keeps;
  - lemmas about runs of several steps.
- `Speech`: the speech queue as a class. Its invariant says that spoken order is queuing order.
- `JournalApp`: the `state` record as a class. Its handlers update the fields in place and are proved to perform exactly the `Conversation` steps.

Three behaviours of the code are easy to misread, and the model follows the code in each:

- **Offer for an empty log.** `getOfferForEntries` has no empty case: an empty log has no words and is offered 5 "Basic". The 0 "No data yet" offer exists only in `updateMeter`'s guard (script.js:101, `MeterOffer`), and `handleSell` never computes an offer for an empty log.
- **Capacity.** Once the log is full and no question is pending, every further utterance is stored as an "Entry" and no question is asked, so the log grows without bound (`CapacityNotEnforced`). Only the follow-up question stops at six entries.
- **Where the checks live.** `storeEntry` appends unconditionally. `handleSpeechResult` drops blank utterances, and its Login and Answer paths never look at the capacity.

## Model

| member | source | states |
|---|---|---|
| JsString.Trim | script.js:127-128 | the result is the input without its maximal leading and trailing runs of ECMAScript white space; it is empty exactly when the input is all white space |
| JsString.TrimIdempotent | script.js:127 | trimming a trimmed utterance changes nothing |
| JsString.SplitOnSpaces | script.js:85 | `split(/\s+/)` yields at least one piece and no piece contains white space |
| JsString.WordCountIsWordStarts | script.js:85 | the split-and-filter word count equals the number of positions where a non-space character follows a space or the start of the text |
| JsString.WordCountJoin2 | script.js:84-85 | joining two texts with one space gives a word count equal to the sum of their word counts |
| JsString.WordCountJoin | script.js:84-85 | the word count of the space-joined entry texts is the sum of the entries' word counts |
| JsString.Join | script.js:84 | joining no texts gives the empty string and joining one text gives that text |
| JsString.LowerChar | script.js:118 | ASCII capitals map to their lower-case letters (code point plus 32); every other character is unchanged |
| JsString.ToLower | script.js:118 | lower-casing keeps the length and lower-cases each character in place |
| JsString.ToLowerConcat | script.js:87 | lower-casing a concatenation lower-cases each part |
| JsString.Includes | script.js:119 | every text includes the empty string, and a text never includes a longer one |
| JsString.IncludesExtend | script.js:87 | a text that includes a term still includes it with more text appended |
| Topics.Matches | script.js:119 | a rule with no keywords never matches |
| JsString.NonEmpty | script.js:85 | `filter(Boolean)` keeps no empty piece and never adds a piece |
| JsString.NonEmptyKeepsWords | script.js:85 | the kept pieces are exactly the non-empty input pieces; if no piece is empty, all are kept |
| JsString.NonEmptyConcat | script.js:85 | filtering a concatenation filters each part, so the kept pieces stay in their input order |
| JsString.WordCount | script.js:85 | the word count is at most the number of split pieces, and the empty text has no words |
| JsString.NoWordsIffAllSpace | script.js:85 | a text has no words exactly when it is all white space, which is exactly when it trims to nothing |
| JsString.IntToString | script.js:203 | the decimal text is non-empty, has no white space, starts with '-' exactly for negative numbers, and reads back as the same integer |
| JsString.IntToStringInjective | script.js:203 | different integers have different texts |
| Entries.Store | script.js:110-111 | `storeEntry` grows the log by exactly one, leaves every earlier entry and its position untouched, and puts the new entry last |
| Entries.Texts | script.js:84 | `map` gives one text per entry, each the text of the entry at the same position |
| Entries.TextsStore | script.js:84 | the texts of the log after a store are the old texts followed by the new text |
| Valuation.CombinedText | script.js:84 | an empty log gives the empty text and a one-entry log gives that entry's text |
| Valuation.CombinedTextStore | script.js:84 | storing into a non-empty log appends one space and the new entry's text to the combined text |
| Topics.FindRule | script.js:119 | `find` returns the index of a matching rule with no matching rule before it, or nothing when no rule matches |
| Topics.DecideNextQuestion | script.js:117-124 | the result is the question of the first rule, in table order, that has a keyword inside the lower-cased text; it is the fallback question exactly when no rule matches; it is always a non-empty follow-up question |
| Topics.WorkTopicFirst | script.js:25-31 | any keyword of the first (work) rule in the text yields the work question, whatever later rules also match |
| Topics.MeetingWithFriendExample | script.js:117-124 | "I had a Meeting with a friend" is routed to the work question, not the conversation question |
| Valuation.Richness | script.js:86-89 | richness lies between 0 and the number of rules; it is 0 exactly when no rule matches and equals the number of rules exactly when every rule matches |
| Valuation.RichnessCountsMatchingRules | script.js:86-89 | richness is exactly the number of rule indices whose rule has a keyword in the text |
| Valuation.RichnessAtLeastTwo | script.js:86-94 | richness is at least 2 exactly when two different rules both have a keyword in the text |
| Valuation.HighValueOffer | script.js:83-97 | the 20 "High-value" offer is made exactly when the combined text has at least 60 words and two different topics are mentioned |
| Valuation.MatchesExtend | script.js:87 | a rule that matches a text still matches it with more text appended |
| Valuation.RichnessBound | script.js:86-89 | richness over the shared table is at most 5 |
| Valuation.FallbackIffNoRichness | script.js:86-89 | the classifier falls back exactly when the same text has richness 0, since both read one rule table |
| Valuation.RichnessExtend | script.js:86-89 | appending text never lowers the richness |
| Valuation.OfferFor | script.js:91-97 | the amount is 5, 10 or 20; it is 5 exactly when there are fewer than 20 words; it is 20 exactly when there are at least 60 words and a richness of at least 2; each amount carries its own label |
| Valuation.OfferMonotone | script.js:91-97 | more words or more richness never lower the amount |
| Valuation.GetOfferForEntries | script.js:83-98 | the offer is between 5 and 20, and an empty log is offered 5 "Basic" |
| Valuation.OfferGrowsOnStore | script.js:83-98 | storing one more entry never lowers the offer |
| Valuation.OneWordEntriesAreBasic | script.js:83-92 | fewer than 20 one-word entries are offered exactly 5 "Basic" |
| Valuation.MeterOffer | script.js:101 | the meter shows the 0 "No data yet" offer exactly when the log is empty, and otherwise at least 5 |
| Valuation.FillPercent | script.js:102 | the fill percentage is clamped to the range 0 to 100 |
| Valuation.LimitNoteShown | script.js:102-107 | the "limit reached" note is shown exactly when the log holds at least 6 entries |
| Conversation.Initial | script.js:15-23 | the start-up session carries the persisted login flag, entries and credits, has no pending question, and satisfies the invariant |
| Conversation.OnSpeech | script.js:126-158 | a blank utterance changes nothing; a non-blank one appends exactly one entry with the trimmed text, tagged by the state before it, and makes a question pending exactly as it should (full list below) |
| Conversation.SpeechReply | script.js:126-158 | blank utterances get no reply; a login says the confirmation followed by the drawn greeting; every prompt is exactly the question the turn leaves pending; on an "Entry" the limit message is said exactly when the new count reaches capacity; an answer gets the acknowledgement |
| Conversation.OnSell | script.js:195-208 | an empty log changes nothing; otherwise the credits grow by exactly the offer (between 5 and 20) and the log becomes empty, with the login and question fields untouched |
| Conversation.SellReply | script.js:195-203 | the "no data" message is said exactly when the log is empty; otherwise the confirmation names the offer credited and the balance of the session after the sale (`OnSell`) |
| Conversation.SoldReplyDetermines | script.js:203 | two confirmations are equal only when they name the same amount and the same balance, so both can be read back from what is spoken |
| Conversation.OnSpeechPreservesInvariant | script.js:126-158 | every turn keeps the invariant: a question is pending only after login and below capacity, and the current question is non-empty exactly while one is pending |
| Conversation.OnSellPreservesInvariant | script.js:195-208 | selling keeps the same invariant |
| Conversation.CreditsNeverDecrease | script.js:201 | utterances never change the credits and selling never lowers them |
| Conversation.OfferGrowsOnSpeech | script.js:126-158 | no utterance lowers the offer for the stored entries |
| Conversation.CapacityNotEnforced | script.js:148-152 | from a full log with no pending question, n non-blank utterances add exactly n "Entry" entries and never ask a question |
| Conversation.LoginStep | script.js:131-137 | a non-blank utterance while logged out logs in and stores a Login entry, and changes nothing else |
| Conversation.EntryStep | script.js:148-157 | a non-blank utterance below capacity with no question pending stores an Entry and leaves the classifier's question pending |
| Conversation.AnswerStep | script.js:140-145 | a non-blank utterance while a question is pending stores an Answer and clears the question |
| Conversation.LoginEntryAnswerScenario | script.js:126-158 | the sequence login, then a work utterance, then an answer stores Login, Entry and Answer in order, asks the work question in between, and leaves nothing pending |
| Conversation.HelloWorkFineExample | script.js:126-158 | "hello", "I went to work" and "it was fine" are stored as Login, Entry and Answer |
| Conversation.SellOneWordEntries | script.js:195-204 | selling a non-empty log of fewer than 20 one-word entries credits exactly 5 and empties the log |
| Speech.SpeechQueue.constructor | script.js:39 | the queue starts empty |
| Speech.SpeechQueue.Playing | script.js:53-57 | the message being spoken is the head of the queue |
| Speech.SpeechQueue.Speak | script.js:42-51 | the text is appended at the back; playback starts only when the queue was empty, and then plays this text; otherwise the message being spoken is not interrupted |
| Speech.SpeechQueue.FinishCurrent | script.js:53-63 | when the current message ends it is removed from the front, and the new head, if any, is played next; messages finish in the order they were queued |
| JournalApp.Journal.constructor | script.js:15-23 | the state starts from the persisted values with no pending question and satisfies the invariant |
| JournalApp.Journal.StoreEntry | script.js:110-115 | the log becomes the old log with the new entry appended; no other field changes |
| JournalApp.Journal.HandleSpeechResult | script.js:126-158 | the fields are updated in place to exactly the `OnSpeech` step, and the reply `SpeechReply` is queued for speech; the invariant is kept |
| JournalApp.Journal.Say | script.js:42-51 | `speak` hands exactly one message to the queue, appended after the earlier ones |
| JournalApp.Journal.HandleSell | script.js:195-208 | the fields are updated in place to exactly the `OnSell` step, and `SellReply` is queued |
| JournalApp.Journal.HandleCancel | script.js:210-212 | no field changes; the cancel acknowledgement is queued |
| JournalApp.Journal.Meter | script.js:100-101 | the meter offer of the current log is the "No data yet" offer exactly when the log is empty |
| JournalApp.CancelTwice | script.js:210-212 | cancelling twice queues the same acknowledgement twice and leaves every field unchanged, so cancel is idempotent |

What `Conversation.OnSpeech` states in full:

- A blank utterance leaves the session unchanged.
- Credits never change.
- A non-blank utterance:
  - leaves the user logged in;
  - appends exactly one entry holding the trimmed text and the clock reading;
  - keeps the earlier entries.
- The new entry's tag:
  - "Login" exactly when the user was logged out;
  - "Answer" exactly when a question was pending;
  - "Entry" otherwise.
- Logging in does not touch the question fields.
- For a logged-in user, a question is pending afterwards exactly when none was pending before and the new count is below capacity. That question is `DecideNextQuestion` of the trimmed text.
- Answering clears the current question.

## Left out

- Rendering: the log, the login status, the meter bar and its label text (`updateLog`, `updateLoginStatus`, the element writes in `updateMeter`), and the assistant text panel. These are display writes. The model keeps only the message sequence handed to `speak`, as `SpeechQueue.announced`.
- Persistence: the `localStorage` writes, and the `JSON.parse` and `Number` of the persisted values. The persisted login flag, entries and credits are parameters of the start-up state.
- Credits are modelled as an integer. An unparsable or fractional persisted balance (`NaN` or a float) is not modelled.
- Timestamps: `new Date().toISOString()` is an opaque string parameter.
- Greeting: the random greeting choice is an index parameter below 3.
- Speech: recognition (`startListening` and its callbacks, the `isListening` flag) and the actual speech synthesis calls. These are browser services. Only the queue discipline of `speak` and `playSpeechQueue` is modelled. The `onend` callback is the `FinishCurrent` method.
- Startup: the event-listener wiring and the start-up greeting are not modelled.
- The static file server `server.js` is not part of this model: it only wraps Node file-system and HTTP calls.
- JsString.LowerChar: lower-cases ASCII `A`–`Z` only. `toLowerCase` does full Unicode case mapping, which can also change a string's length, and that is not modelled. All keywords are lower-case ASCII.
- Valuation.FillPercent: computed in exact real arithmetic rather than IEEE doubles. For counts up to 6, the double result lands on the same side of 100.
- JsString.IntToString: gives plain decimal digits. JavaScript's exponent notation for very large magnitudes is not modelled.
- `state.maxEntries` is the constant `MAX_ENTRIES`, since nothing assigns it.
- JournalApp.Journal.HandleSell: the source adds the offer to `credits`, speaks, then empties the log. The model speaks first and then writes both fields; `speak` reads neither, so the state and the spoken message are the same.
