# Voice chatbot: conversation session and stage-direction stripper

This project models, in Dafny, the two pieces of the voice-driven assistant
that hold logic of their own.

- **The conversation session** (`llm.py`, class `LLM`), module `Conversation`.
  A session keeps an append-only `history` of role-tagged messages and the
  reply last produced (`last_response`). Each query appends a user message. It
  then takes the tail window `history[-n:]` of the history and sends it to the
  language-model backend. In streaming mode the loop over the backend's chunks
  keeps every chunk whose delta content is present and non-empty. It yields
  that content and adds it to the response. When the stream ends, the
  assistant's message is appended and `last_response` is set. The class
  `Conversation.LLM` has the two fields. Its methods say exactly what the new
  history and last response are. The window is `Window`, with Python's slice
  rules for every integer `n`. The loop is `Accumulate`, proved against the
  specification function `Fragments`.
- **The stage-direction stripper** (`tts.py` line 60), module
  `StageDirections`. Before a reply is spoken, `re.sub(r'\*.*?\*', '', text)`
  removes every asterisk-delimited span. `Strip` is that substitution as a
  recursive function: a left-to-right search for lazy, non-overlapping
  matches that never cross a newline.

The backend is a parameter of each call. For a streamed call it is a function
from the context sent to a `Stream`: the `delta.get('content')` of each chunk
the loop received (`Option<string>`), and whether the loop ended normally.
For a call without streaming it is a function from the context to
`Option<Reply>`, where `Reply` is the message object the backend returns and
`None` is a call that raised.

In two places the code does something a reader might not expect, and the model follows the code:

- The code accepts any integer `n`, not only `n >= 1`. `n == 0` sends the whole
  history, because `h[-0:]` is `h[0:]`. A negative `n` drops the first `-n`
  messages.
- A call without streaming returns and stores the backend's whole message
  object, not the reply text (see Findings).

## Model

| member | source | states |
|---|---|---|
| `Conversation.UserMessage` | llm.py:46-47 | the query is appended as a message with the user role whose content is the query text |
| `Conversation.SliceStart` | llm.py:50 | Python's normalisation of a slice start: a negative index counts from the end and is clamped to 0, a non-negative one is clamped to the length |
| `Conversation.Window` | llm.py:50 | the context is always a suffix of the history; for n > 0 it is the last min(n, \|h\|) messages, for n == 0 the whole history, for n < 0 the history without its first min(-n, \|h\|) messages |
| `Conversation.WindowEndsWithNewest` | llm.py:48-50 | for n >= 1 the context is never empty and ends with the user message just appended |
| `Conversation.WindowIdempotent` | llm.py:88 | for n >= 0, selecting the window of the window gives the same messages |
| `Conversation.WindowNegativeDropsAgain` | llm.py:50 | for n < 0 a second selection drops more messages: `[1, 2]` gives `[2]`, then `[]` |
| `Conversation.Yielded` | llm.py:56-57 | a delta yields at most one fragment, and yields one exactly when its content is present and non-empty (Python's `if text:`), that content itself |
| `Conversation.Fragments` | llm.py:56-59 | every yielded fragment is non-empty, and there are no more fragments than chunks |
| `Conversation.FragmentsJoinDeltas` | llm.py:56-58 | the yielded fragments, joined in order, equal the text of all delta contents joined, so missing or empty contents contribute nothing |
| `Conversation.FragmentsOfPrefix` | llm.py:52-59 | a stream consumed up to a prefix yields a prefix of the fragments the whole stream yields |
| `Conversation.Accumulate` | llm.py:51-59 | the loop yields exactly `Fragments(deltas)`, and the response it builds is those fragments joined, which is the text of all the deltas |
| `Conversation.AlternatingTurn` | llm.py:61-63 | appending a user message and then an assistant message keeps a history of complete turns complete |
| `Conversation.UnansweredTurn` | llm.py:48 | a user message left without an answer breaks a history of complete turns |
| `Conversation.TurnKeeps` | llm.py:61-64 | a turn answered with text keeps the history all text and keeps it made of complete turns |
| `Conversation.TextOnlyAppend` | llm.py:63 | appending text messages to an all-text history keeps it all text |
| `Conversation.LLM.constructor` | llm.py:25-26 | a new session has an empty history and an empty last response |
| `Conversation.LLM.StreamedResponse` | llm.py:46-64 | the context is the window of the history with the user message appended; the fragments are the non-empty delta contents in order; on a completed stream the history grows by exactly the user message and the assistant message holding the joined fragments, which is also the last response; otherwise only the user message is added and the last response is kept; complete turns stay complete exactly when the stream completes |
| `Conversation.LLM.UnstreamedResponse` | llm.py:84-98 | as written: the context is the window; the value returned is the backend's message object; on success that object is stored as the assistant's content and as the last response, so the history is no longer all text; on failure only the user message is added |
| `Conversation.LLM.UnstreamedResponseText` | llm.py:93-98 | corrected: the reply's text is returned and stored as the assistant's message and the last response; the history stays all text; on failure only the user message is added |
| `Conversation.HelloTurnAsWritten` | llm.py:93-97 | a first turn "hello" answered "Hi" without streaming leaves a last response that is a message object, not "Hi" |
| `Conversation.HelloTurn` | llm.py:84-98 | with the correction the same turn leaves the history `[user "hello", assistant "Hi"]` and the last response "Hi" |
| `StageDirections.CloseAt` | tts.py:60 | where the lazy `.*?` stops: when found, the offset of an asterisk in the text after the opening one |
| `StageDirections.CloseAtSpan` | tts.py:60 | the text between the two asterisks of a match holds neither an asterisk nor a newline |
| `StageDirections.CloseAtUnmatched` | tts.py:60 | when an opening asterisk has no partner, every later asterisk is on a later line |
| `StageDirections.CloseAtFirstStar` | tts.py:60 | the closing asterisk is the first one after the opening one |
| `StageDirections.CloseAtStopsAtNewline` | tts.py:60 | the search for a closing asterisk never looks past a newline |
| `StageDirections.Strip` | tts.py:60 | the output is never longer than the input |
| `StageDirections.StripIsSubsequence` | tts.py:60 | the output is the input with characters deleted, never added or reordered |
| `StageDirections.StripKeepsStarFreePrefix` | tts.py:60 | a leading run of text without asterisks is kept as it is |
| `StageDirections.StripWithoutStars` | tts.py:60 | text containing no asterisk is returned unchanged |
| `StageDirections.SpanHasNoNewline` | tts.py:60 | a removed span, delimiters included, contains no newline |
| `StageDirections.StripKeepsNewlines` | tts.py:60 | the number of newlines is the same before and after |
| `StageDirections.StripRemovesSpan` | tts.py:60 | an asterisk-delimited span without asterisk or newline inside is removed whole, with both delimiters |
| `StageDirections.StripByLines` | tts.py:60 | stripping works line by line: `Strip(a + "\n" + b) == Strip(a) + "\n" + Strip(b)` |
| `StageDirections.StripKeepsUnmatched` | tts.py:60 | an asterisk with no partner on its line still has none after the rest is stripped |
| `StageDirections.StripLeavesOneStarPerLine` | tts.py:60 | every line of the output holds at most one asterisk |
| `StageDirections.StripFixedPoints` | tts.py:60 | the text is left unchanged if and only if each of its lines holds at most one asterisk |
| `StageDirections.StripIdempotent` | tts.py:60 | stripping twice gives the same result as stripping once |
| `StageDirections.StarsOnSeparateLines` | tts.py:60 | in text with at most one asterisk per line, a newline lies between any two asterisks |
| `StageDirections.LazyMatch` | tts.py:60 | matching is lazy: `"*a* b *c*"` becomes `" b "` |
| `StageDirections.SpanStopsAtNewline` | tts.py:60 | a span never crosses a newline: `"*a\nb*"` is left as it is |
| `StageDirections.SpacingKept` | tts.py:60 | surrounding spacing is kept: `"Hello *laughs* there"` becomes `"Hello  there"` |
| `StageDirections.DirectionRemoved` | tts.py:60 | `"*laughs* there"` becomes `" there"` |

## Left out

- Model loading (`Llama(...)`, llm.py:19-23) and what `create_chat_completion` computes. The backend is a parameter of each call.
- `max_tokens` and `temperature`. They are passed straight to the backend, and nothing in the session depends on them.
- Exceptions. A backend that raises, or a chunk without the expected `choices`/`delta` keys, is modelled as a stream that does not complete or as `None`. The model does not say which exception propagates.
- Generator laziness. In the source, nothing happens (not even the user append) until the caller first pulls the generator. The model performs the append when the call is made. A caller that stops pulling early is covered as a stream that does not complete after a prefix of its chunks.
- WindowIdempotent: stated for n >= 0 only, because for n < 0 a second selection drops more messages (WindowNegativeDropsAgain).
- stt.py (microphone capture, key polling, WAV writing, Whisper transcription) and main.py (argument parsing and the record, transcribe, generate, speak loop, which calls the streamed path with n = 3). Both are I/O and calls into foreign models.
- The rest of tts.py: stdout redirection (`HiddenPrints`), TTS model loading, `tts_to_file` and `playsound`. All of it is I/O or foreign calls.
- Python strings are modelled as sequences of characters. Only the one pattern `\*.*?\*` is modelled, not a general regular-expression engine.

## Findings

| source | as written | input that shows it | evidently intended | confidence | as-written member | corrected member |
|---|---|---|---|---|---|---|
| llm.py:93 | `text = output['choices'][0]['message']` takes the whole message object. That object is stored as the assistant's content and as `last_response`, and it is returned from a method annotated `-> str` | any successful call, e.g. a backend answering "hello" with the message `{role: assistant, content: "Hi"}`: `last_response` is that object, not "Hi" | `output['choices'][0]['message']['content']`, the reply text, as the streamed path stores | high (not executed) | `Conversation.LLM.UnstreamedResponse` | `Conversation.LLM.UnstreamedResponseText` |
