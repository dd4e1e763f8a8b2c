/** What `process_message` does with one message, as a function of the state before
    it: the activation flags, the memory, the message and the completion service. */
module Routing {
  import opened Options
  import opened Strings
  import opened Memory
  import opened Prompt
  import opened Completion

  const DeactivatedReply: string :=
    "**Ich wurde deaktiviert und antworte nicht mehr auf Nachrichten. Aktiviere mich mit 'Start'.**"
  const ActivatedReply: string := "**Ich bin jetzt aktiv und bereit zu helfen!**"
  /** The text of the error raised for an empty response. */
  const EmptyResponseError: string := "Leere Antwort von Gemini"

  /** The reply sent when no answer could be produced; it embeds the error text. */
  function Apology(error: string): string {
    "**Entschuldigung, ich konnte keine Antwort generieren. Fehler: " + error + "**"
  }

  /** A reply in bold. */
  function Bold(text: string): string {
    "**" + text + "**"
  }

  /** An incoming text that switches the assistant off for its chat (compared
      after lower-casing, without trimming). */
  predicate IsDeactivation(text: string) {
    var command := Lower(text);
    command == "stop" || command == "assistent stop"
  }

  /** An incoming text that switches it back on. */
  predicate IsActivation(text: string) {
    var command := Lower(text);
    command == "start" || command == "assistent aktiv"
  }

  /** `is_chat_active` on the flags: a chat without a flag counts as active. */
  function ActiveIn(flags: map<string, bool>, chat: string): bool {
    if chat in flags then flags[chat] else true
  }

  /** The state after a message and the reply to it (None: nothing is sent).
      `calls` is how many times the completion service was called. */
  datatype Reaction = Reaction(
    flags: map<string, bool>,
    memory: map<string, seq<Turn>>,
    reply: Option<string>,
    calls: nat)

  /** One message: control phrases first, then the gate, then memory, then the
      completion call and the handling of its result. */
  function React(flags: map<string, bool>, memory: map<string, seq<Turn>>, chat: string,
                 text: string, outgoing: bool, ask: Service): Reaction
  {
    if IsDeactivation(text) && !outgoing then
      Reaction(flags[chat := false], memory, Some(DeactivatedReply), 0)
    else if IsActivation(text) && !outgoing then
      Reaction(flags[chat := true], memory, Some(ActivatedReply), 0)
    else if !ActiveIn(flags, chat) && !outgoing then
      Reaction(flags, memory, None, 0)
    else
      var role := if !outgoing then UserRole else ModelRole;
      var recorded := Remember(History(memory, chat), Turn(role, [text]));
      if outgoing || !ActiveIn(flags, chat) then
        Reaction(flags, memory[chat := recorded], None, 0)
      else
        var out := Respond(recorded, ask);
        Reaction(flags, memory[chat := recorded][chat := out.history], Some(out.text), out.calls)
  }

  /** The result of answering: the chat's history afterwards, the reply sent and the
      number of service calls made. */
  datatype Outcome = Outcome(history: seq<Turn>, text: string, calls: nat)

  /** The completion call on the prompt for `recorded`, the chat's history with the
      incoming message already in it, and the handling of its result: a non-empty
      text is recorded and sent in bold, anything else is answered with the apology
      and only `recorded` is kept. */
  function Respond(recorded: seq<Turn>, ask: Service): Outcome {
    var (answer, calls) := CallWithRetry(ask, Render(recorded));
    if answer.Text? && answer.text != "" then
      Outcome(Remember(recorded, Turn(ModelRole, [answer.text])), Bold(answer.text), calls)
    else
      var error := if answer.Text? then EmptyResponseError else answer.message;
      Outcome(recorded, Apology(error), calls)
  }

  /** Whether the message goes on to the completion service. */
  predicate Answers(flags: map<string, bool>, text: string, outgoing: bool, chat: string) {
    !outgoing && !IsDeactivation(text) && !IsActivation(text) && ActiveIn(flags, chat)
  }

  /** No text is both a deactivation and an activation phrase, so the order of the
      two tests does not matter. */
  lemma ControlPhrasesDisjoint(text: string)
    ensures !(IsDeactivation(text) && IsActivation(text))
  {
  }

  /** Case does not matter: a text and its lower-case form are the same command. */
  lemma {:induction false} ControlPhrasesIgnoreCase(text: string)
    ensures IsDeactivation(Lower(text)) == IsDeactivation(text)
    ensures IsActivation(Lower(text)) == IsActivation(text)
  {
    assert Lower(Lower(text)) == Lower(text) by {
      forall i | 0 <= i < |text|
        ensures Lower(Lower(text))[i] == Lower(text)[i]
      {
        var c := text[i];
        assert LowerChar(LowerChar(c)) == LowerChar(c);
      }
    }
  }

  /** An incoming control phrase sets the chat's flag, answers with the fixed
      acknowledgement, leaves memory alone and calls no service. */
  lemma ControlPhraseSetsFlag(flags: map<string, bool>, memory: map<string, seq<Turn>>,
                              chat: string, text: string, ask: Service)
    requires IsDeactivation(text) || IsActivation(text)
    ensures var r := React(flags, memory, chat, text, false, ask);
      && r.memory == memory && r.calls == 0
      && r.flags == flags[chat := IsActivation(text)]
      && ActiveIn(r.flags, chat) == IsActivation(text)
      && r.reply == Some(if IsActivation(text) then ActivatedReply else DeactivatedReply)
  {
    ControlPhrasesDisjoint(text);
  }

  /** An incoming ordinary message to a switched-off chat gets no reply, is not
      recorded and never reaches the completion service. */
  lemma InactiveChatIsSilent(flags: map<string, bool>, memory: map<string, seq<Turn>>,
                             chat: string, text: string, ask: Service)
    requires !ActiveIn(flags, chat) && !IsDeactivation(text) && !IsActivation(text)
    ensures React(flags, memory, chat, text, false, ask) == Reaction(flags, memory, None, 0)
  {
  }

  /** The account's own messages are recorded as `model` turns, whatever the flag,
      never change the flag, never get a reply and never call the service. */
  lemma OutgoingRecordedNotAnswered(flags: map<string, bool>, memory: map<string, seq<Turn>>,
                                    chat: string, text: string, ask: Service)
    ensures var r := React(flags, memory, chat, text, true, ask);
      && r.flags == flags && r.reply == None && r.calls == 0
      && r.memory == memory[chat := Remember(History(memory, chat), Turn(ModelRole, [text]))]
  {
  }

  /** An incoming ordinary message to an active chat is recorded as a `user` turn
      and then answered: the chat's history, the reply and the calls are Respond's. */
  lemma AnsweredByRespond(flags: map<string, bool>, memory: map<string, seq<Turn>>,
                          chat: string, text: string, ask: Service)
    requires Answers(flags, text, false, chat)
    ensures var out := Respond(Remember(History(memory, chat), Turn(UserRole, [text])), ask);
      React(flags, memory, chat, text, false, ask)
        == Reaction(flags, memory[chat := out.history], Some(out.text), out.calls)
  {
    var recorded := Remember(History(memory, chat), Turn(UserRole, [text]));
    StoreTwice(memory, chat, recorded, Respond(recorded, ask).history);
  }

  /** A non-empty response is recorded as one `model` turn right after the turn that
      was asked about, and sent back in bold. */
  lemma AnswerRecorded(recorded: seq<Turn>, ask: Service)
    requires recorded != []
    requires var answer := CallWithRetry(ask, Render(recorded)).0;
      answer.Text? && answer.text != ""
    ensures var (answer, calls) := CallWithRetry(ask, Render(recorded));
      var out := Respond(recorded, ask);
      var h := out.history;
      && out.text == Bold(answer.text) && out.calls == calls
      && |h| >= 2 && h[|h| - 2..] == [recorded[|recorded| - 1], Turn(ModelRole, [answer.text])]
      && (|recorded| < MemoryLimit ==> h == recorded + [Turn(ModelRole, [answer.text])])
      && (|recorded| >= MemoryLimit ==> h == recorded[1..] + [Turn(ModelRole, [answer.text])])
  {
    var answer := CallWithRetry(ask, Render(recorded)).0;
    var h := Remember(recorded, Turn(ModelRole, [answer.text]));
    assert h[|h| - 2] == recorded[|recorded| - 1];
  }

  /** On an empty response or an error, the history stays as recorded (only the
      user's turn was added) and the reply is the apology carrying the error text. */
  lemma FailureRecordsOnlyUserTurn(recorded: seq<Turn>, ask: Service)
    requires var answer := CallWithRetry(ask, Render(recorded)).0;
      answer.Raised? || answer.text == ""
    ensures var (answer, calls) := CallWithRetry(ask, Render(recorded));
      var out := Respond(recorded, ask);
      && out.history == recorded && out.calls == calls
      && out.text == Apology(if answer.Raised? then answer.message else EmptyResponseError)
  {
  }

  /** The service is called (at most MaxRetries times) exactly for messages that are
      answered; a reply is produced for every incoming message except ordinary
      ones to a switched-off chat. */
  lemma CallsOnlyWhenAnswering(flags: map<string, bool>, memory: map<string, seq<Turn>>,
                               chat: string, text: string, outgoing: bool, ask: Service)
    ensures var r := React(flags, memory, chat, text, outgoing, ask);
      && r.calls <= MaxRetries
      && (r.calls > 0 <==> Answers(flags, text, outgoing, chat))
      && (r.reply.Some? <==> !outgoing && (ActiveIn(flags, chat) || IsDeactivation(text) || IsActivation(text)))
  {
  }

  /** No message changes another chat's memory or flag. */
  lemma OtherChatsUntouched(flags: map<string, bool>, memory: map<string, seq<Turn>>,
                            chat: string, text: string, outgoing: bool, ask: Service, other: string)
    requires other != chat
    ensures var r := React(flags, memory, chat, text, outgoing, ask);
      History(r.memory, other) == History(memory, other) && ActiveIn(r.flags, other) == ActiveIn(flags, other)
  {
    var r := React(flags, memory, chat, text, outgoing, ask);
    if (IsDeactivation(text) || IsActivation(text)) && !outgoing {
      assert r.memory == memory && r.flags == flags[chat := IsActivation(text)];
    } else if !ActiveIn(flags, chat) && !outgoing {
      assert r.memory == memory && r.flags == flags;
    } else {
      var role := if !outgoing then UserRole else ModelRole;
      var recorded := Remember(History(memory, chat), Turn(role, [text]));
      if outgoing || !ActiveIn(flags, chat) {
        assert r.memory == memory[chat := recorded];
      } else {
        var out := Respond(recorded, ask);
        StoreTwice(memory, chat, recorded, out.history);
        assert r.memory == memory[chat := out.history];
      }
    }
  }

  /** If every history is within the limit before a message, it is after. */
  lemma ReactKeepsBound(flags: map<string, bool>, memory: map<string, seq<Turn>>,
                        chat: string, text: string, outgoing: bool, ask: Service)
    requires Bounded(memory)
    ensures Bounded(React(flags, memory, chat, text, outgoing, ask).memory)
  {
    var r := React(flags, memory, chat, text, outgoing, ask);
    if (IsDeactivation(text) || IsActivation(text) || !ActiveIn(flags, chat)) && !outgoing {
      assert r.memory == memory;
    } else {
      var role := if !outgoing then UserRole else ModelRole;
      var h := History(memory, chat);
      assert |h| <= MemoryLimit;
      var recorded := Remember(h, Turn(role, [text]));
      StoreKeepsBound(memory, chat, recorded);
      if !outgoing && ActiveIn(flags, chat) {
        var out := Respond(recorded, ask);
        assert |out.history| <= MemoryLimit;
        StoreKeepsBound(memory[chat := recorded], chat, out.history);
      }
    }
  }

  /** Switching a chat off and on again loses nothing: memory is as before and the
      chat answers again. */
  lemma OffThenOn(flags: map<string, bool>, memory: map<string, seq<Turn>>,
                  chat: string, off: string, on: string, ask: Service)
    requires IsDeactivation(off) && IsActivation(on)
    ensures var r1 := React(flags, memory, chat, off, false, ask);
      var r2 := React(r1.flags, r1.memory, chat, on, false, ask);
      && r2.memory == memory && ActiveIn(r2.flags, chat)
      && r2.flags == flags[chat := true]
  {
    ControlPhrasesDisjoint(off);
    ControlPhrasesDisjoint(on);
  }
}
