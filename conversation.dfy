/** The conversation session of the language-model wrapper (llm.py, class
    LLM): an append-only history of role-tagged messages, the reply last
    produced, and the two ways of asking the backend for the next reply. The
    backend (a llama.cpp `Llama` model) is a parameter of each call. */
module Conversation {
  import opened Wrappers

  datatype Role = User | Assistant

  /** A message as the backend returns it from a call without streaming:
      `output['choices'][0]['message']`. */
  datatype Reply = Reply(role: Role, content: string)

  /** What a stored message carries: text, or, where the source stores the
      backend's message object itself, that object. */
  datatype Content = Text(text: string) | ReplyObject(reply: Reply)

  datatype Message = Message(role: Role, content: Content)

  /** The message a query is appended as: `ChatCompletionMessage(role='user',
      content=query)`. */
  function UserMessage(query: string): (m: Message)
    ensures m.role == User && m.content.Text? && m.content.text == query
  {
    Message(User, Text(query))
  }

  /** What the `for` loop of a streamed call receives for a given context:
      the `delta.get('content')` of each chunk, in order, and whether the loop
      ended normally. `completed` is false when the backend raised after these
      chunks, or when the caller stopped pulling the generator after them. */
  datatype Stream = Stream(deltas: seq<Option<string>>, completed: bool)

  // ---------------------------------------------------------------------------
  // The window: `history[-n:]`

  /** Where a Python slice starting at index `i` starts, in a list of length
      `len`: a negative index counts from the end, and both are clamped. */
  function SliceStart(i: int, len: nat): (r: nat)
    ensures r <= len
    ensures i < 0 && -i <= len ==> r == len + i
    ensures i < 0 && -i > len ==> r == 0
    ensures 0 <= i <= len ==> r == i
    ensures i > len ==> r == len
  {
    if i < 0 then (if len + i < 0 then 0 else len + i)
    else if i > len then len
    else i
  }

  function Min(a: int, b: int): (r: int)
    ensures r <= a && r <= b && (r == a || r == b)
  {
    if a < b then a else b
  }

  /** The context sent to the backend: `h[-n:]` with Python's slice rules.
      It is always a suffix of the history; for n > 0 it is the last
      min(n, |h|) messages, for n == 0 the whole history (`h[-0:]` is `h[0:]`),
      and for n < 0 the history without its first min(-n, |h|) messages. */
  function Window<T>(h: seq<T>, n: int): (w: seq<T>)
    ensures |w| <= |h| && w == h[|h| - |w|..]
    ensures n > 0 ==> |w| == Min(n, |h|)
    ensures n == 0 ==> w == h
    ensures n < 0 ==> |w| == |h| - Min(-n, |h|)
  {
    h[SliceStart(-n, |h|)..]
  }

  /** With n >= 1, the newest message is always in the window, as its last
      element: after the user message is appended, the context ends with it. */
  lemma WindowEndsWithNewest<T>(h: seq<T>, x: T, n: int)
    requires n >= 1
    ensures var w := Window(h + [x], n); w != [] && w[|w| - 1] == x
  {
  }

  /** For n >= 0, taking the window of the window changes nothing. */
  lemma WindowIdempotent<T>(h: seq<T>, n: int)
    requires n >= 0
    ensures Window(Window(h, n), n) == Window(h, n)
  {
  }

  /** For n < 0 it does: each selection drops another -n leading messages. */
  lemma WindowNegativeDropsAgain()
    ensures Window([1, 2], -1) == [2]
    ensures Window(Window([1, 2], -1), -1) == []
  {
  }

  // ---------------------------------------------------------------------------
  // The fragments of a streamed reply

  /** What one delta contributes to the yielded fragments: `if text:` is false
      for a missing content and for the empty string. */
  function Yielded(delta: Option<string>): (fs: seq<string>)
    ensures |fs| <= 1
    ensures fs != [] <==> delta.Some? && delta.value != ""
    ensures fs != [] ==> fs[0] == delta.value
  {
    match delta
    case Some(t) => if t != "" then [t] else []
    case None => []
  }

  /** The fragments a streamed call yields for these deltas, in order. */
  function Fragments(deltas: seq<Option<string>>): (fs: seq<string>)
    ensures |fs| <= |deltas|
    ensures forall i :: 0 <= i < |fs| ==> fs[i] != ""
  {
    if deltas == [] then []
    else Fragments(deltas[..|deltas| - 1]) + Yielded(deltas[|deltas| - 1])
  }

  /** The fragments joined in order. */
  function Concat(fs: seq<string>): (s: string) {
    if fs == [] then "" else Concat(fs[..|fs| - 1]) + fs[|fs| - 1]
  }

  /** The text of every delta joined in order, a missing content read as "". */
  function Joined(deltas: seq<Option<string>>): (s: string) {
    if deltas == [] then ""
    else
      Joined(deltas[..|deltas| - 1])
      + match deltas[|deltas| - 1] case Some(t) => t case None => ""
  }

  lemma {:induction false} ConcatAppend(fs: seq<string>, gs: seq<string>)
    ensures Concat(fs + gs) == Concat(fs) + Concat(gs)
    decreases |gs|
  {
    if gs == [] {
      assert fs + gs == fs;
    } else {
      var last := gs[|gs| - 1];
      assert (fs + gs)[..|fs + gs| - 1] == fs + gs[..|gs| - 1];
      ConcatAppend(fs, gs[..|gs| - 1]);
    }
  }

  /** Skipped deltas contribute nothing: the yielded fragments, joined, are
      the text of all the deltas. */
  lemma {:induction false} FragmentsJoinDeltas(deltas: seq<Option<string>>)
    ensures Concat(Fragments(deltas)) == Joined(deltas)
    decreases |deltas|
  {
    if deltas != [] {
      var init, last := deltas[..|deltas| - 1], deltas[|deltas| - 1];
      FragmentsJoinDeltas(init);
      ConcatAppend(Fragments(init), Yielded(last));
      if Yielded(last) != [] {
        assert Yielded(last)[..0] == [];
      }
    }
  }

  /** A stream consumed up to a prefix yields a prefix of the fragments of the
      whole stream. */
  lemma {:induction false} FragmentsOfPrefix(deltas: seq<Option<string>>, i: nat)
    requires i <= |deltas|
    ensures Fragments(deltas[..i]) <= Fragments(deltas)
    decreases |deltas| - i
  {
    if i < |deltas| {
      FragmentsOfPrefix(deltas, i + 1);
      assert deltas[..i + 1][..i] == deltas[..i];
    } else {
      assert deltas[..i] == deltas;
    }
  }

  /** The `for` loop of a streamed call: each delta whose content is present
      and non-empty is appended to the response and yielded. The response is
      the fragments joined, and it is the text of all deltas joined. */
  method Accumulate(deltas: seq<Option<string>>) returns (response: string, fragments: seq<string>)
    ensures fragments == Fragments(deltas)
    ensures response == Concat(fragments) == Joined(deltas)
  {
    response, fragments := "", [];
    var i := 0;
    while i < |deltas|
      invariant 0 <= i <= |deltas|
      invariant fragments == Fragments(deltas[..i])
      invariant response == Concat(fragments)
    {
      var text := deltas[i];
      assert deltas[..i + 1][..i] == deltas[..i];
      if text.Some? && text.value != "" {
        response := response + text.value;
        fragments := fragments + [text.value];
      }
      i := i + 1;
    }
    assert deltas[..i] == deltas;
    FragmentsJoinDeltas(deltas);
  }

  // ---------------------------------------------------------------------------
  // The session

  /** Every message of `h` carries text (not a backend object). */
  ghost predicate TextOnly(h: seq<Message>) {
    forall i :: 0 <= i < |h| ==> h[i].content.Text?
  }

  /** `h` is a run of complete turns: user, assistant, user, assistant, ... */
  ghost predicate Alternating(h: seq<Message>) {
    |h| % 2 == 0 && forall i :: 0 <= i < |h| ==> h[i].role == (if i % 2 == 0 then User else Assistant)
  }

  /** A turn answered keeps a run of complete turns complete. */
  lemma AlternatingTurn(h: seq<Message>, query: Message, answer: Message)
    requires Alternating(h) && query.role == User && answer.role == Assistant
    ensures Alternating(h + [query, answer])
  {
  }

  /** A turn left unanswered breaks a run of complete turns. */
  lemma UnansweredTurn(h: seq<Message>, query: Message)
    ensures Alternating(h) ==> !Alternating(h + [query])
  {
  }

  /** A turn answered with text keeps both invariants of the history. */
  lemma TurnKeeps(h: seq<Message>, query: Message, answer: Message)
    requires query.role == User && query.content.Text?
    requires answer.role == Assistant && answer.content.Text?
    ensures TextOnly(h) ==> TextOnly(h + [query, answer])
    ensures Alternating(h) ==> Alternating(h + [query, answer])
  {
  }

  lemma TextOnlyAppend(h: seq<Message>, m: seq<Message>)
    requires TextOnly(h) && TextOnly(m)
    ensures TextOnly(h + m)
  {
  }

  class LLM {
    var history: seq<Message>
    var lastResponse: Content

    /** A new session: no history, and an empty last response. */
    constructor ()
      ensures history == [] && lastResponse == Text("")
    {
      history := [];
      lastResponse := Text("");
    }

    /** streamed_response: appends the user message, sends the window of the
        history to the backend, yields each non-empty delta while joining them,
        and, once the stream has run to its end, appends the joined reply as
        the assistant's message and keeps it as the last response. `context` is
        what was sent to the backend and `fragments` what was yielded. */
    method StreamedResponse(query: string, n: int, backend: seq<Message> -> Stream)
      returns (context: seq<Message>, fragments: seq<string>)
      modifies this
      ensures context == Window(old(history) + [UserMessage(query)], n)
      ensures fragments == Fragments(backend(context).deltas)
      ensures forall i :: 0 <= i < |fragments| ==> fragments[i] != ""
      ensures backend(context).completed ==>
        && history == old(history) + [UserMessage(query), Message(Assistant, Text(Concat(fragments)))]
        && lastResponse == Text(Concat(fragments))
      ensures !backend(context).completed ==>
        history == old(history) + [UserMessage(query)] && lastResponse == old(lastResponse)
      ensures TextOnly(old(history)) ==> TextOnly(history)
      ensures Alternating(old(history)) ==> (Alternating(history) <==> backend(context).completed)
    {
      history := history + [UserMessage(query)];
      context := Window(history, n);
      var stream := backend(context);
      var response;
      response, fragments := Accumulate(stream.deltas);
      if stream.completed {
        history := history + [Message(Assistant, Text(response))];
        lastResponse := Text(response);
        TurnKeeps(old(history), UserMessage(query), Message(Assistant, Text(response)));
      } else {
        UnansweredTurn(old(history), UserMessage(query));
        if TextOnly(old(history)) {
          TextOnlyAppend(old(history), [UserMessage(query)]);
        }
      }
    }

    /** unstreamed_response as written: appends the user message, sends the
        window of the history to the backend, and on success stores the
        backend's message object itself, not its text, as the assistant's
        content and as the last response, and returns it. `reply` is None when
        the backend call failed. */
    method UnstreamedResponse(query: string, n: int, backend: seq<Message> -> Option<Reply>)
      returns (context: seq<Message>, reply: Option<Reply>)
      modifies this
      ensures context == Window(old(history) + [UserMessage(query)], n)
      ensures reply == backend(context)
      ensures reply.Some? ==>
        && history == old(history) + [UserMessage(query), Message(Assistant, ReplyObject(reply.value))]
        && lastResponse == ReplyObject(reply.value)
        && !TextOnly(history) && !lastResponse.Text?
      ensures reply.None? ==>
        history == old(history) + [UserMessage(query)] && lastResponse == old(lastResponse)
      ensures Alternating(old(history)) ==> (Alternating(history) <==> reply.Some?)
    {
      history := history + [UserMessage(query)];
      context := Window(history, n);
      reply := backend(context);
      if reply.Some? {
        var text := reply.value;
        history := history + [Message(Assistant, ReplyObject(text))];
        lastResponse := ReplyObject(text);
        assert !history[|history| - 1].content.Text?;
        if Alternating(old(history)) {
          AlternatingTurn(old(history), UserMessage(query), Message(Assistant, ReplyObject(text)));
        }
      } else {
        UnansweredTurn(old(history), UserMessage(query));
      }
    }

    /** unstreamed_response as its signature and documentation promise: the
        backend message's text is what is stored and returned, so the history
        keeps holding text only and the last response is text, as after a
        streamed call. */
    method UnstreamedResponseText(query: string, n: int, backend: seq<Message> -> Option<Reply>)
      returns (context: seq<Message>, text: Option<string>)
      modifies this
      ensures context == Window(old(history) + [UserMessage(query)], n)
      ensures text == (if backend(context).Some? then Some(backend(context).value.content) else None)
      ensures text.Some? ==>
        && history == old(history) + [UserMessage(query), Message(Assistant, Text(text.value))]
        && lastResponse == Text(text.value)
      ensures text.None? ==>
        history == old(history) + [UserMessage(query)] && lastResponse == old(lastResponse)
      ensures TextOnly(old(history)) ==> TextOnly(history)
      ensures Alternating(old(history)) ==> (Alternating(history) <==> text.Some?)
    {
      history := history + [UserMessage(query)];
      context := Window(history, n);
      var output := backend(context);
      if output.Some? {
        text := Some(output.value.content);
        history := history + [Message(Assistant, Text(text.value))];
        lastResponse := Text(text.value);
        TurnKeeps(old(history), UserMessage(query), Message(Assistant, Text(text.value)));
      } else {
        text := None;
        UnansweredTurn(old(history), UserMessage(query));
        if TextOnly(old(history)) {
          TextOnlyAppend(old(history), [UserMessage(query)]);
        }
      }
    }
  }

  /** A first turn without streaming, as written: after "hello" is answered
      with "Hi", the last response is the backend's message object, not "Hi". */
  method HelloTurnAsWritten() returns (history: seq<Message>, last: Content)
    ensures history == [UserMessage("hello"), Message(Assistant, ReplyObject(Reply(Assistant, "Hi")))]
    ensures last == ReplyObject(Reply(Assistant, "Hi")) && last != Text("Hi")
  {
    var llm := new LLM();
    var context, reply := llm.UnstreamedResponse("hello", 3, (h: seq<Message>) => Some(Reply(Assistant, "Hi")));
    history, last := llm.history, llm.lastResponse;
  }

  /** The same turn with the text of the reply stored: the history is the user
      message and the assistant's "Hi", and the last response is "Hi". */
  method HelloTurn() returns (history: seq<Message>, last: Content)
    ensures history == [UserMessage("hello"), Message(Assistant, Text("Hi"))]
    ensures last == Text("Hi")
  {
    var llm := new LLM();
    var context, text := llm.UnstreamedResponseText("hello", 3, (h: seq<Message>) => Some(Reply(Assistant, "Hi")));
    history, last := llm.history, llm.lastResponse;
  }
}
