/** The assistant's per-chat state and the operations that update it in place. */
module Assistant {
  import opened Options
  import opened Memory
  import opened Prompt
  import opened Completion
  import opened Routing

  /** What reading a JSON file gave: no file, a file that could not be read or
      decoded, or its contents. */
  datatype Stored<T> = Missing | Unreadable | Present(contents: T)

  class MuslimAssistant {
    /** `memory`: chat id to its history. */
    var memory: map<string, seq<Turn>>
    /** `active_chats`: chat id to its flag. */
    var activeChats: map<string, bool>

    /** Every chat's history is within the limit. */
    ghost predicate Valid()
      reads this
    {
      Bounded(memory)
    }

    /** Construction: empty memory, and the flags read from their file; a missing
        or undecodable file gives no flags. */
    constructor (savedFlags: Stored<map<string, bool>>)
      ensures Valid()
      ensures memory == map[]
      ensures activeChats == if savedFlags.Present? then savedFlags.contents else map[]
    {
      memory := map[];
      activeChats := if savedFlags.Present? then savedFlags.contents else map[];
    }

    /** `load_memory`: the chat's history becomes what its file holds, or empty
        when there is no file or it cannot be read. A stored history may exceed
        the limit, so this may break Valid(). */
    method LoadMemory(chat: string, saved: Stored<seq<Turn>>)
      modifies this`memory
      ensures memory == old(memory)[chat := if saved.Present? then saved.contents else []]
      ensures old(Valid()) && (saved.Present? ==> |saved.contents| <= MemoryLimit) ==> Valid()
    {
      if saved.Present? {
        memory := memory[chat := saved.contents];
      } else {
        memory := memory[chat := []];
      }
    }

    /** `add_to_memory`: appends the turn to the chat's history (creating it if
        needed) and drops the oldest turn when the history then exceeds the limit. */
    method AddToMemory(chat: string, role: string, content: string)
      modifies this`memory
      ensures memory == old(memory)[chat := Remember(History(old(memory), chat), Turn(role, [content]))]
      ensures History(memory, chat)[|History(memory, chat)| - 1] == Turn(role, [content])
      ensures forall c :: c != chat ==> History(memory, c) == History(old(memory), c)
      ensures old(Valid()) ==> Valid()
    {
      if chat !in memory {
        memory := memory[chat := []];
      }
      memory := memory[chat := memory[chat] + [Turn(role, [content])]];
      if |memory[chat]| > MemoryLimit {
        memory := memory[chat := memory[chat][1..]];
      }
    }

    /** `is_chat_active`: a chat that was never switched is active. */
    function IsChatActive(chat: string): (active: bool)
      reads this
      ensures chat !in activeChats ==> active
      ensures chat in activeChats ==> active == activeChats[chat]
    {
      ActiveIn(activeChats, chat)
    }

    /** `set_chat_active`: records the flag of one chat. */
    method SetChatActive(chat: string, active: bool)
      modifies this`activeChats
      ensures activeChats == old(activeChats)[chat := active]
      ensures IsChatActive(chat) == active
      ensures forall c :: c != chat ==> IsChatActive(c) == old(IsChatActive(c))
    {
      activeChats := activeChats[chat := active];
    }

    /** `process_message`: handles one message and returns the reply to send, if
        any, and how many times the completion service was called. */
    method ProcessMessage(chat: string, text: string, outgoing: bool, ask: Service)
      returns (reply: Option<string>, calls: nat)
      modifies this
      ensures Reaction(activeChats, memory, reply, calls)
           == React(old(activeChats), old(memory), chat, text, outgoing, ask)
      ensures old(Valid()) ==> Valid()
    {
      if IsDeactivation(text) && !outgoing {
        SetChatActive(chat, false);
        return Some(DeactivatedReply), 0;
      }
      if IsActivation(text) && !outgoing {
        SetChatActive(chat, true);
        return Some(ActivatedReply), 0;
      }
      if !IsChatActive(chat) && !outgoing {
        return None, 0;
      }
      var role := if !outgoing then UserRole else ModelRole;
      AddToMemory(chat, role, text);
      if outgoing || !IsChatActive(chat) {
        return None, 0;
      }
      var sent;
      sent, calls := GenerateReply(chat, ask);
      reply := Some(sent);
    }

    /** The second half of `process_message`, once the incoming message is in the
        chat's history: build the prompt, call the service with retries, and record
        and return the reply or return the apology. */
    method GenerateReply(chat: string, ask: Service) returns (reply: string, calls: nat)
      requires chat in memory
      modifies this`memory
      ensures var out := Respond(old(memory)[chat], ask);
        memory == old(memory)[chat := out.history] && reply == out.text && calls == out.calls
      ensures old(Valid()) ==> Valid()
    {
      var prompt := BuildPrompt(memory[chat]);
      var answer;
      answer, calls := GenerateWithRetry(ask, prompt);
      if answer.Raised? {
        assert memory == memory[chat := memory[chat]];
        return Apology(answer.message), calls;
      }
      if answer.text == "" {
        assert memory == memory[chat := memory[chat]];
        return Apology(EmptyResponseError), calls;
      }
      AddToMemory(chat, ModelRole, answer.text);
      reply := Bold(answer.text);
    }
  }
}
