/** The chat transcript kept in the session state (`st.session_state.messages`): seeded
    once with the system prompt, replayed to the screen without that first entry, and
    extended by one user entry and one assistant entry per chat input. */
module Chat {
  import opened Prompt

  datatype Option<T> = None | Some(value: T)

  /** The `"role"` key of a message dictionary. */
  datatype Role = System | User | Assistant

  /** A message dictionary `{"role": ..., "content": ...}`. */
  datatype Message = Message(role: Role, content: string)

  /** The shape of every stored transcript: the system prompt first, no other system entry. */
  predicate WellFormed(m: seq<Message>)
  {
    |m| >= 1 && m[0].role == System && forall i :: 1 <= i < |m| ==> m[i].role != System
  }

  /** After the system entry, user and assistant entries alternate, ending on an assistant entry. */
  predicate Alternates(m: seq<Message>)
  {
    |m| % 2 == 1 && forall i :: 1 <= i < |m| ==> m[i].role == (if i % 2 == 1 then User else Assistant)
  }

  /** The session state after the seeding step: an existing transcript is kept, otherwise
      one is created when both inputs are non-empty strings. */
  function Seeded(state: Option<seq<Message>>, role: string, company: string): (r: Option<seq<Message>>)
    ensures r.Some? <==> state.Some? || (role != "" && company != "")
    ensures state.Some? ==> r == state
    ensures state.None? && r.Some? ==> r.value == [Message(System, GetPrompt(role, company))]
  {
    if state.Some? then state
    else if role != "" && company != "" then Some([Message(System, GetPrompt(role, company))])
    else None
  }

  /** Seeding twice is seeding once: a later role or company never replaces the prompt. */
  lemma SeedOnce(state: Option<seq<Message>>, r1: string, c1: string, r2: string, c2: string)
    ensures Seeded(Seeded(state, r1, c1), r2, c2)
         == if Seeded(state, r1, c1).Some? then Seeded(state, r1, c1) else Seeded(state, r2, c2)
  {
  }

  /** A freshly seeded transcript is well formed and alternates. */
  lemma SeededWellFormed(state: Option<seq<Message>>, role: string, company: string)
    requires state.None? || (WellFormed(state.value) && Alternates(state.value))
    ensures var r := Seeded(state, role, company);
      r.Some? ==> WellFormed(r.value) && Alternates(r.value)
  {
  }

  /** The transcript after one chat input (`reply` is `None` when the completion call raised):
      nothing for an empty input, otherwise the user entry and, when the call returned,
      the assistant entry, appended after everything that was there. */
  function Exchange(m: seq<Message>, input: string, reply: Option<string>): (r: seq<Message>)
    ensures input == "" ==> r == m
    ensures input != "" ==>
      |r| == |m| + (if reply.Some? then 2 else 1) && r[..|m|] == m && r[|m|] == Message(User, input)
    ensures input != "" && reply.Some? ==> r[|m| + 1] == Message(Assistant, reply.value)
  {
    if input == "" then m
    else match reply
      case None => m + [Message(User, input)]
      case Some(text) => m + [Message(User, input), Message(Assistant, text)]
  }

  /** One exchange keeps the transcript well formed, and keeps it alternating when the
      completion call returned. */
  lemma ExchangePreserves(m: seq<Message>, input: string, reply: Option<string>)
    ensures WellFormed(m) ==> WellFormed(Exchange(m, input, reply))
    ensures Alternates(m) && (input == "" || reply.Some?) ==> Alternates(Exchange(m, input, reply))
  {
  }

  /** One chat input together with what the completion call gave back. */
  datatype Turn = Turn(input: string, reply: Option<string>)

  /** The transcript after a run of chat inputs, one script run each. */
  function Conversation(m: seq<Message>, turns: seq<Turn>): (r: seq<Message>)
    ensures |m| <= |r| && r[..|m|] == m
    decreases |turns|
  {
    if turns == [] then m else Conversation(Exchange(m, turns[0].input, turns[0].reply), turns[1..])
  }

  /** The number of non-empty chat inputs in `turns`. */
  function Inputs(turns: seq<Turn>): nat
  {
    if turns == [] then 0 else (if turns[0].input == "" then 0 else 1) + Inputs(turns[1..])
  }

  /** Any run of chat inputs only appends: earlier entries, the system entry first among them,
      are unchanged and the transcript stays well formed. */
  lemma {:induction false} ConversationKeepsHistory(m: seq<Message>, turns: seq<Turn>)
    ensures |m| <= |Conversation(m, turns)| && Conversation(m, turns)[..|m|] == m
    ensures WellFormed(m) ==> WellFormed(Conversation(m, turns))
    decreases |turns|
  {
    if turns != [] {
      var next := Exchange(m, turns[0].input, turns[0].reply);
      ExchangePreserves(m, turns[0].input, turns[0].reply);
      ConversationKeepsHistory(next, turns[1..]);
      assert Conversation(m, turns)[..|next|][..|m|] == Conversation(m, turns)[..|m|];
    }
  }

  /** When every completion call returns, each non-empty input adds exactly two entries
      and the user/assistant alternation is kept. */
  lemma {:induction false} ConversationAlternates(m: seq<Message>, turns: seq<Turn>)
    requires forall t :: t in turns && t.input != "" ==> t.reply.Some?
    ensures |Conversation(m, turns)| == |m| + 2 * Inputs(turns)
    ensures Alternates(m) ==> Alternates(Conversation(m, turns))
    decreases |turns|
  {
    if turns != [] {
      ExchangePreserves(m, turns[0].input, turns[0].reply);
      assert forall t :: t in turns[1..] ==> t in turns;
      ConversationAlternates(Exchange(m, turns[0].input, turns[0].reply), turns[1..]);
    }
  }

  /** The session state of one browser session, as the script sees it on each run. */
  class ChatSession {
    /** `st.session_state.messages`; `None` while the key is absent. */
    var messages: Option<seq<Message>>

    ghost predicate Valid()
      reads this
    {
      messages.Some? ==> WellFormed(messages.value)
    }

    /** A new browser session holds no transcript. */
    constructor ()
      ensures Valid() && messages == None
    {
      messages := None;
    }

    /** Lines 46-49: create the transcript when it is absent and both inputs are non-empty. */
    method Seed(role: string, company: string)
      requires Valid()
      modifies this
      ensures Valid()
      ensures messages == Seeded(old(messages), role, company)
    {
      if messages.None? && role != "" && company != "" {
        messages := Some([Message(System, GetPrompt(role, company))]);
      }
    }

    /** Lines 52-55: the entries shown on screen, in order, skipping the system entry. */
    method Render() returns (shown: seq<Message>)
      requires Valid() && messages.Some?
      ensures shown == messages.value[1..]
      ensures forall i :: 0 <= i < |shown| ==> shown[i].role != System
    {
      var m := messages.value;
      shown := [];
      var i := 1;
      while i < |m|
        invariant 1 <= i <= |m|
        invariant shown == m[1..i]
      {
        shown := shown + [m[i]];
        i := i + 1;
      }
    }

    /** Lines 58-71: a non-empty chat input is appended as a user entry, the whole transcript
        is sent to the completion call (returned as `request`), and its reply is appended as
        an assistant entry. When the call raises (`reply == None`), the user entry stays. */
    method Submit(input: string, reply: Option<string>) returns (request: Option<seq<Message>>)
      requires Valid() && messages.Some?
      modifies this
      ensures Valid() && messages.Some?
      ensures messages.value == Exchange(old(messages).value, input, reply)
      ensures request == if input == "" then None else Some(old(messages).value + [Message(User, input)])
      ensures Alternates(old(messages).value) && (input == "" || reply.Some?) ==> Alternates(messages.value)
    {
      request := None;
      if input != "" {
        messages := Some(messages.value + [Message(User, input)]);
        request := messages;
        match reply {
          case Some(text) =>
            messages := Some(messages.value + [Message(Assistant, text)]);
          case None =>
        }
      }
      ExchangePreserves(old(messages).value, input, reply);
    }

    /** One run of the script: nothing happens without an API key; otherwise the transcript
        is seeded, replayed (`shown`) and, given a chat input, extended. */
    method Rerun(hasKey: bool, role: string, company: string, input: string, reply: Option<string>)
      returns (shown: seq<Message>, request: Option<seq<Message>>)
      requires Valid()
      modifies this
      ensures Valid()
      ensures !hasKey ==> messages == old(messages) && shown == [] && request == None
      ensures hasKey && Seeded(old(messages), role, company).None? ==>
        messages == None && shown == [] && request == None
      ensures hasKey && Seeded(old(messages), role, company).Some? ==>
        var seeded := Seeded(old(messages), role, company).value;
        shown == seeded[1..]
        && messages == Some(Exchange(seeded, input, reply))
        && request == (if input == "" then None else Some(seeded + [Message(User, input)]))
    {
      shown, request := [], None;
      if hasKey {
        Seed(role, company);
        if messages.Some? {
          shown := Render();
          request := Submit(input, reply);
        }
      }
    }
  }
}
