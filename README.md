# Chat frontend core in Dafny

This project models the logic at the core of the Azure OpenAI chat web component:

- **Answer analysis.** `processText` replaces `[...]` citations with numbered `<sup>` markers and lists the citations. It extracts the "following steps" and the follow-up questions, then cuts the display text.
- **Messages.** The chat-message record, plus its helpers `cleanUpFollowUp`, `chatEntryToString` and `newListWithEntryAtIndex`. `ChatResponseError` is here too.
- **The NDJSON decoder.** `NdJsonParserStream.transform` splits chunks on newlines and buffers partial records until they parse.
- **The chat controller.** `useChatController` holds three flags, the message being built and the abort-controller slot. It is driven by `generateAnswer`, `processResponse`, `clear`, `reset` and `cancelRequest`.
- **The chat history.** `useChatHistory` trims the stored history on load, saves the history as a concatenation, and toggles the history panel.

Modules:

- `JsText` (js_text.dfy): the JavaScript string and array built-ins, with their ECMAScript edge cases. These are `trim`, `split`, `join`, `indexOf`, `includes`, string `replace`, `slice` with negative indices, and `String(n)`.
- `Messages` (messages.dfy): the message datatypes, `chatEntryToString` and `newListWithEntryAtIndex`.
- `Citations` (citations.dfy): the citation replace and its callback, and `Object.keys` ordering.
- `ResponseText` (response_text.dfy): the rest of `processText`, and `cleanUpFollowUp`.
- `NdJson` (ndjson.dfy): the stream transformer, as a class over its buffer.
- `ChatControl` (chat_controller.dfy): the controller, as a class.
- `ChatHistory` (chat_history.dfy): the history hook, as a class.

How the model is built:

- **Pure code becomes functions and lemmas.** `processText`, `cleanUpFollowUp` and `chatEntryToString` are functions, and their properties are lemmas.
- **State-changing code becomes methods.** The decoder's `transform` loop, and the replace pass with its callback object, are methods with loop invariants. Each is proved equal to a specification function, and the properties are proved about that function.
- **The hooks become classes.** The controller and the history hook are classes whose methods update their fields. Each method is tied to a state function, and lemmas over those functions state what the hook promises.
- **React setters are immediate updates.** Each state setter takes effect at once, in program order.
- **`JSON.parse` is a parameter.** The decoder takes it as a function `string -> Option<V>`, where `None` means the parse threw.
- **External call results are parameters.** This covers the HTTP transport and the stream parser. It also covers `getTimestamp()` (one value for each `processResponse` call, three per `generateAnswer`) and `crypto.randomUUID()` (a counter `nextId`).

## Model

| member | source | states |
|---|---|---|
| Citations.SubstituteCitations | src/utils/index.js:9-19 | The replace with its callback, as a loop over the input. The numbered keys are the trimmed captures in order of first appearance, minus the names inherited from `Object.prototype`. The text is the input with each match replaced by the marker of its key. |
| Citations.ConsumePiece | src/utils/index.js:13-19 | One step of the replace: the next match goes through the callback and its marker is written, or one character is copied. The numbering state is kept. |
| Citations.NumberCitation | src/utils/index.js:14-18 | The callback: a key not yet numbered and not inherited gets the counter, which then moves on. The marker shows the key's number, or the inherited value for an inherited name. |
| Citations.CloseBracket | src/utils/index.js:3 | The lazy `(.*?)]`: the first `]` after the `[`, with no line terminator before it. When there is no match, every `]` after the `[` has a line terminator before it. |
| Citations.NextPiece | src/utils/index.js:3 | At each index, the scan reads either a match or a single character, and always moves forward. |
| Citations.CapturesAreSingleLine | src/utils/index.js:3 | No capture of the citation pattern spans a line terminator. |
| Citations.ScanCovers | src/utils/index.js:3-13 | The matches and the characters between them, read back, give the input. |
| Citations.NoBracketNoKeys | src/utils/index.js:3-13 | An input without `[` has no match and no citation key. |
| Citations.FirstSeen | src/utils/index.js:15-16 | The numbered keys are distinct. A key is numbered exactly when it occurs and is not an inherited name. |
| Citations.FirstSeenOrder | src/utils/index.js:15-16 | Keys are numbered in the order of their first appearance. |
| Citations.ObjectKeysSpec | src/utils/index.js:21 | `Object.keys` lists every own key exactly once. Array-index keys come first, ascending; the others follow in insertion order. |
| Citations.ObjectKeysInsertionOrder | src/utils/index.js:21 | Without array-index keys, `Object.keys` is the insertion order. |
| Citations.CitationListEntries | src/utils/index.js:21-24 | The list built from `Object.keys` has one entry per numbered key. Refs count from 1, and every key is listed once. |
| Citations.IndexKeyListedOutOfOrder | src/utils/index.js:15-24 | Counterexample, for the input `[b] [1]`. `b` is numbered 1 and its marker shows 1, but the list puts `1` first. |
| Citations.CitationListInOrderMatchesMarkers | src/utils/index.js:18-24 | In the list in numbering order, entry `n` has ref `n+1`, and the markers of its key show `n+1`. |
| Citations.CitationListMarkers | src/utils/index.js:21-24 | The source's list has one entry per key, refs from 1, in `Object.keys` order. When no key is an array index, entry `n`'s markers show `n+1`. |
| Citations.CitationListWithoutIndexKeys | src/utils/index.js:21-24 | When no key is an array index, the source's list equals the one in numbering order. |
| JsText.DecimalStringValue | src/utils/index.js:18 | Reading back the digits written for a number gives the number. |
| ResponseText.ProcessText | src/utils/index.js:1-46 | The whole `processText` pass equals the specification function `Analysis`. That includes the citation list in `Object.keys` order, as the source builds it. |
| ResponseText.CitationListSpec | src/utils/index.js:13-25 | The returned citations list each numbered key once, in `Object.keys` order, with refs from 1. When no key is an array index, entry `n` is the key whose markers in the text show `n`. |
| ResponseText.NumberedKeysSpec | src/utils/index.js:13-19 | The numbered keys are distinct, and are the non-inherited trimmed captures. They are numbered in first-appearance order. |
| ResponseText.CitationsInNumberingOrder | src/utils/index.js:21-25 | When no key is an array index, the returned list is in numbering order. |
| ResponseText.NoBracketsNoCitations | src/utils/index.js:13-25 | An answer without `[` keeps its text and has no citations. Its steps and follow-ups are read from the input itself. |
| ResponseText.ReplacedTextIsPrefix | src/utils/index.js:41-42 | The returned text is always a prefix of the input. |
| ResponseText.DisplayTextPrefix | src/utils/index.js:41-42 | Without `s:` in the substituted text, the display text is the whole input. Otherwise it is the first min(length, i+6) characters of the input, where `i` is the index of `s:` in the substituted text. |
| ResponseText.StepsEnd | src/utils/index.js:4 | The steps capture stops at the earliest of `Follow-up questions:`, `Next questions:`, `<<` or the end of the text. |
| ResponseText.StepsCapture | src/utils/index.js:4-29 | The steps pattern fails exactly when the text has no `:`. |
| ResponseText.StepsFromCapture | src/utils/index.js:4-33 | The capture runs from the first `:` to the first stop, and contains no stop marker. Each step is a non-empty line of the trimmed capture, with no line break, and with at most one numbered prefix removed. |
| ResponseText.NoColonNoSteps | src/utils/index.js:28-30 | Without `:` there are no steps. |
| ResponseText.StripNumberingSpec | src/utils/index.js:7-33 | Stripping removes nothing or exactly one `digits . whitespace` prefix. It always removes such a prefix when the line starts with one. |
| ResponseText.FollowingSteps | src/utils/index.js:30-33 | There is one step per non-empty line of the capture. |
| ResponseText.ArrowMatchToken | src/utils/index.js:6 | A match of `<<([^<>]+)>>` is a whole token: `<<`, a non-empty inner text without `<` or `>`, then `>>`. |
| ResponseText.ArrowTokensAreTokens | src/utils/index.js:6-37 | Every match of the global arrow pattern is such a token, and every such token in the text is matched. |
| ResponseText.TokenMatchesAt | src/utils/index.js:6 | A token in the text is matched where it starts, and the match ends where the token ends. |
| ResponseText.MatchEndsBeforeToken | src/utils/index.js:6-37 | A match starting before a token ends at or before the token's start, so the scan cannot skip a token. |
| ResponseText.ArrowTokensComplete | src/utils/index.js:6-37 | Every token at or after the scan's start is among the matches. |
| ResponseText.NoAngleNoTokens | src/utils/index.js:6-37 | A text without `<` has no arrow token. |
| ResponseText.CleanUpFollowUp | src/utils/index.js:48-53 | The list keeps its length. It is returned unchanged when it is empty or its first item does not start with `<<`. |
| ResponseText.StripArrowsToken | src/utils/index.js:50 | Removing the first `<<` and then the first `>>` of a token leaves its inner text. |
| ResponseText.CleanUpTokens | src/utils/index.js:48-53 | `cleanUpFollowUp` on a list of tokens gives their inner texts. |
| ResponseText.FollowUpsAreTokens | src/utils/index.js:27-39 | Without the literal `nextQuestionMatch` string, the follow-ups are the inner texts of the matches, in order. The matches are tokens, and every `<<...>>` token of the text is one of them. |
| ResponseText.FollowUpsWithPatternString | src/utils/index.js:27-39 | With that literal string present: no `Next Questions:` gives no follow-ups. Otherwise they are the whole match and its capture, from the header to the end. |
| Messages.NewListWithEntryAtIndex | src/utils/index.js:79-81 | For an index inside the list, only that position changes. For an index at or past the end, the entry is appended. |
| Messages.SupSpansCover | src/utils/index.js:67 | The `<sup>` scan reads the text back without loss or reordering. |
| Messages.SupSpansLeftmost | src/utils/index.js:67 | The replace misses no element. A character is kept exactly where no `<sup...>...</sup>` match starts, and a span is removed exactly where one starts, as far as that match reaches. |
| Messages.RemovedSpansAreElements | src/utils/index.js:67 | Every removed span is a whole `<sup...>...</sup>` element. |
| Messages.NoSupUnchanged | src/utils/index.js:67 | Text without `<sup` passes through the replace unchanged. |
| Messages.ChatEntryToStringPlain | src/utils/index.js:63-70 | Without `<sup`, a message gives exactly its text entries, each followed by a blank line and its steps numbered `1.`, `2.`, and so on. The entries are joined by blank lines. |
| JsText.TrimSpec | src/utils/index.js:14-29 | `trim` gives an infix with no white space at either end, and only white space is cut off. |
| JsText.TrimIdempotent | src/utils/index.js:14 | Trimming twice is trimming once. |
| JsText.SplitJoin | src/utils/index.js:30 | No piece of a split holds the separator, and joining the pieces with it gives back the string. |
| JsText.SplitAppend | src/core/stream/data-format/ndjson.js:11 | Splitting a concatenation fuses the last piece of the left part with the first piece of the right part. |
| JsText.NonEmpty | src/utils/index.js:30 | `filter(Boolean)` keeps exactly the non-empty pieces. |
| JsText.IndexOfFrom | src/utils/index.js:41 | `indexOf` gives the first occurrence, or none at all. |
| JsText.RemoveFirst | src/utils/index.js:50 | `replace` of a literal string cuts out its first occurrence and keeps the text on both sides. It changes nothing when the string is absent. |
| JsText.SliceFrom | src/hooks/useChatHistory.js:24-28 | `slice(start)` resolves a negative or out-of-range start the way JavaScript does. |
| NdJson.NdJsonParserStream.Transform | src/core/stream/data-format/ndjson.js:10-21 | One `transform` call: the non-empty lines are fed in order. Each is appended to the buffer, and the buffer is emitted and cleared when it parses. |
| NdJson.FramesSpec | src/core/stream/data-format/ndjson.js:12-20 | The emitted values are the parses of the frames, in order. The buffer plus the input equals the frames plus the new buffer. A buffer left over is empty or did not parse. |
| NdJson.FeedPiecesAppend | src/core/stream/data-format/ndjson.js:12-20 | Feeding two runs of lines is feeding the first, then the second. |
| NdJson.NewlineChunkIsNoOp | src/core/stream/data-format/ndjson.js:11 | A chunk of newlines only changes nothing. |
| NdJson.UnparsedPiecesAccumulate | src/core/stream/data-format/ndjson.js:14-18 | Lines none of whose growing prefixes parses pile up in the buffer, and nothing is emitted. |
| NdJson.CompleteLinesEmit | src/core/stream/data-format/ndjson.js:12-20 | From an empty buffer, lines that each parse are emitted one value each, in order. |
| NdJson.FuseChunks | src/core/stream/data-format/ndjson.js:10-21 | Two chunks fed in turn act like their concatenation, unless the cut falls where the left half of the cut line already parses. |
| NdJson.ChunkBoundaryInvariance | src/core/stream/data-format/ndjson.js:10-21 | However a framed stream is cut into chunks, the values and the final buffer are those of feeding it whole. |
| NdJson.WellFramedDecodes | src/core/stream/data-format/ndjson.js:10-21 | A well-framed text in one chunk decodes to the values of its non-blank lines, and leaves the buffer empty. |
| NdJson.ChunkedStreamDecodes | src/core/stream/data-format/ndjson.js:10-21 | A well-framed stream cut anywhere decodes to the values of its lines, in order, and leaves the buffer empty. |
| ChatControl.ChatController.Clear | src/hooks/useChatController.js:14-18 | The three flags are lowered; nothing else changes. |
| ChatControl.ChatController.Reset | src/hooks/useChatController.js:20-23 | The message is dropped, then the controller is cleared. |
| ChatControl.ClearAndReset | src/hooks/useChatController.js:14-23 | `clear` keeps the message, while `reset` also drops it. Both lower every flag. |
| ChatControl.ChatController.CancelRequest | src/hooks/useChatController.js:125-127 | Aborts the current abort controller. |
| ChatControl.CancelAbortsCurrent | src/hooks/useChatController.js:125-127 | Exactly the current controller is aborted; no other controller or field changes. |
| ChatControl.ChatController.UpdateChatWithMessageOrChunk | src/hooks/useChatController.js:33-70 | Posts the new message. On the streamed path it also raises `isProcessingResponse`, installs a fresh abort controller, and applies the parser's callbacks and the closing `clear`. |
| ChatControl.ChatController.ProcessResponse | src/hooks/useChatController.js:25-89 | There are three paths: a string or user message, a stream, or a completion analysed by `processText`. A completion without `choices[0].message` throws. |
| ChatControl.ChatController.BeforeTransport | src/hooks/useChatController.js:96-103 | Raises `generatingAnswer`, and for a chat request posts the user message. Then it awaits with no message. |
| ChatControl.ChatController.Catch | src/hooks/useChatController.js:109-118 | Posts an empty assistant message when the captured message was null, then attaches the mapped error to the current message, if any. |
| ChatControl.ChatController.GenerateAnswer | src/hooks/useChatController.js:91-123 | The whole `generateAnswer` call equals the specification function `GenerateAnswerSt`. Each of its `processResponse` calls takes its own timestamp. |
| ChatControl.EmptyQuestionIsNoOp | src/hooks/useChatController.js:94 | An empty question changes nothing. |
| ChatControl.FlagsClearedAtEnd | src/hooks/useChatController.js:119-121 | Whatever the outcome, a non-empty question ends with the three flags lowered. |
| ChatControl.StateAtTransportCall | src/hooks/useChatController.js:96-105 | At the transport call the controller is generating and awaiting, with no message. A chat request has used one id. |
| ChatControl.UserMessagePostedFirst | src/hooks/useChatController.js:98-100 | The user message holds the question as its only text, and is marked as the user's. |
| ChatControl.NonStreamedAnswer | src/hooks/useChatController.js:76-88 | A completion is shown as its analysis: text, steps, citations and follow-ups. `thoughts` defaults to "" and data points to []. No error is attached. |
| ChatControl.StreamedAnswerSetup | src/hooks/useChatController.js:50-54 | Before the parser runs, a fresh unaborted controller is current, so cancelling aborts it and no earlier one. |
| ChatControl.StreamedMessageIsEmpty | src/hooks/useChatController.js:74-75 | A streamed answer starts from an empty text value. |
| ChatControl.TransportErrorOutcome | src/hooks/useChatController.js:109-118 | A `ChatResponseError` with code 400 maps to the invalid-request message. Any other code, or an error without one, maps to the API message. On a rejection: with no captured message, an empty assistant message carries the error; with one, no message is left. |
| ChatControl.MissingChoiceIsApiError | src/hooks/useChatController.js:109-118 | A completion without a message throws with no code. With no message captured at the call's start, an empty message carries the API error message. With one captured, no message is left. |
| ChatControl.StreamFailureOutcome | src/hooks/useChatController.js:52-69 | When the stream parser throws: with a message captured, the error is attached to the streamed message or its last chunk. With none, that message is replaced by an empty one carrying the error. |
| ChatControl.ErrorLostOnSecondQuestion | src/hooks/useChatController.js:14-18 | Counterexample: after one answered question, a rejected second question leaves no message, so its error is shown nowhere. |
| ChatControl.ErrorAlwaysShown | src/hooks/useChatController.js:114-118 | With the guard reading the message shown when the error occurs, every rejection, missing choice or stream failure ends with a message carrying the mapped error. A call that throws nothing ends as before. |
| ChatHistory.UserIndexesFrom | src/hooks/useChatHistory.js:21-23 | The user indexes are in range and point at user messages. |
| ChatHistory.NoUserMessagesUnchanged | src/hooks/useChatHistory.js:26-28 | A history without user messages loads unchanged. |
| ChatHistory.TrimCutsAtKeptIndex | src/hooks/useChatHistory.js:21-28 | The trim cuts at the earliest of the last MAX user indexes. |
| ChatHistory.TrimKeepsLastUserMessages | src/hooks/useChatHistory.js:21-28 | For a stored history with at least one user message and a non-negative MAX, the loaded history is a suffix of the stored one that starts with a user message. It keeps the last min(total, MAX) user messages in order, or all of them when MAX is 0. |
| ChatHistory.TrimIdempotent | src/hooks/useChatHistory.js:21-28 | Trimming a trimmed history changes nothing. |
| ChatHistory.ChatHistoryStore.Load | src/hooks/useChatHistory.js:13-35 | A readable stored history is trimmed and becomes the history; otherwise the history is unchanged. |
| ChatHistory.ChatHistoryStore.Save | src/hooks/useChatHistory.js:37-45 | Stores the loaded history followed by the current chat, unless the write fails. The hook's own history is unchanged. |
| ChatHistory.ChatHistoryStore.Toggle | src/hooks/useChatHistory.js:47-50 | Flips the panel flag and nothing else. |
| ChatHistory.SaveThenLoad | src/hooks/useChatHistory.js:13-45 | With MAX at least 1 and a current chat holding user messages, the next load after a save starts with a user message, and its last user message is the current chat's last. |
| ChatHistory.UserMessagesAppend | src/hooks/useChatHistory.js:38 | The user messages of a concatenation are those of each part, in order. |

## Left out

- Rendering (JSX, `renderHistoryButton`, the chat components) and DOMPurify sanitising are display code with no logic to prove.
- Local storage, `btoa`/`atob`, URI encoding and `JSON.stringify`/`JSON.parse` of the history are left out. The stored value is modelled decoded, as `Option` (`None` for absent, empty or unreadable). A decoded value that is not an array of messages is not modelled.
- `console.error` on load or save failures is I/O. Only the outcome is kept: the state is unchanged, or the write fails.
- Concurrency, `await` interleaving and React's batched state updates: setters are applied immediately, in program order.
- ChatControl.GenerateAnswerSt: `processingMessage` in the catch block is the value captured when `generateAnswer` is called. The source reads the value from the render that created the callback, which can be older.
- The streamed-message parser (`parseStreamedMessages`), `readStream` pacing and the HTTP module are not part of this model. They enter only as their outcomes: a `StreamRun`, and a `Transport` that either delivers a response or rejects. A rejection is a `ChatResponseError` carrying the HTTP status, or another error without a code.
- AbortController semantics beyond the aborted flag: a signal stopping the reader is inside the stream parser.
- `getTimestamp()` is an input: `generateAnswer` takes one value for each of its up to three `processResponse` calls (`ChatControl.Timestamps`). `crypto.randomUUID()` is an increasing counter, so ids are unique by construction.
- `globalConfig` strings (`INVALID_REQUEST_ERROR`, `API_ERROR_MESSAGE`) and `MAX_CHAT_HISTORY` are parameters (class constants) rather than fixed values.
- ChatControl.ChatController.UpdateChatWithMessageOrChunk: `[...new Set(citations)]` deduplicates by object identity. Every citation object is fresh, so nothing is removed, and the model keeps the list as it is.
- Messages.ChatEntryToString: a `followingSteps` of `undefined` (`?.map` gives the text "undefined") cannot arise, because steps are always a sequence here.
- ChatControl.ProcessResponseSt: `content` is taken to be a string. A non-string `content` is not modelled.
- ChatHistory.TrimKeepsLastUserMessages: only a non-negative `MAX_CHAT_HISTORY` is characterised. `TrimHistory` itself is defined for any bound.
- Messages.NewListWithEntryAtIndex: the contract does not characterise a negative index, though the function computes the source's result for it.
- `ChatResponseError` is a datatype with a message and a code. Its `Error` base class (the stack, `name`) is not modelled. The controller reads only the code.
- Strings are sequences of Dafny `char`. UTF-16 surrogate pairs are not modelled, and `trim` uses the ECMAScript white-space set written out in `JsText.IsWhiteSpace`.

## Findings

| source | as written | input that shows it | evidently intended | confidence | as-written member | corrected member |
|---|---|---|---|---|---|---|
| src/utils/index.js:21-24 | The list is built from `Object.keys(citation)`, which lists array-index keys (such as `"1"`) first, in ascending order, before the other keys. | `[b] [1]`: `b` is numbered 1 and its marker shows 1, but the list reads 1: "1", 2: "b". | The list is in numbering order, so that entry `n` is the citation whose markers show `n`. | medium, not executed | Citations.IndexKeyListedOutOfOrder | Citations.CitationListInOrderMatchesMarkers |
| src/hooks/useChatController.js:114-118 | The catch block posts an empty message only when the `processingMessage` captured by the callback is null. `clear()` never resets it, so from the second question on the guard sees the previous answer. The updater then finds the null set before the request, and keeps it. | A first question answered, then a second one rejected by the transport: no message is left, and the error is shown nowhere. | The guard evidently means "no message is shown to carry the error", so an empty message is posted whenever there is none at that moment. | medium, not executed | ChatControl.ErrorLostOnSecondQuestion | ChatControl.ErrorAlwaysShown |

`Citations.CitationList` is the list as the source builds it, and it is what `ResponseText.Analysis` and `ResponseText.ProcessText` return. `Citations.CitationListInOrder` is the corrected list, in numbering order, and it agrees with the markers for any keys. The two lists agree whenever no citation key is an array index (`ResponseText.CitationsInNumberingOrder`).

`ChatControl.GenerateAnswerSt` is `generateAnswer` as written, and it is what `ChatControl.ChatController.GenerateAnswer` implements. `ChatControl.GenerateAnswerShowingErrorSt` is the corrected version: its guard reads the message shown when the error occurs.
