# Per-chat bookkeeping of the Telegram/Gemini assistant, in Dafny

This project models the deterministic core of `MuslimAssistant` in
`main_chatbot.py`. The assistant relays a Telegram account's chats to a hosted
language model. The Telegram and Gemini plumbing around that core is not
modelled. The model covers:

- **Conversation memory** (`add_to_memory`). Each chat id, the chat's number as
  a string, maps to a list of `{role, parts}` turns with the oldest first. A new
  turn goes to the tail. If the list then holds more than 40 turns, exactly one
  turn is dropped from the head. `load_memory` replaces a chat's list with what
  its file holds; a missing or unreadable file gives an empty list.
- **Activation gate** (`is_chat_active`, `set_chat_active`). Each chat id maps
  to a flag, and a chat without a flag counts as active.
- **Message handling** (`process_message`). The steps, in order:
  - the control phrases `stop` / `assistent stop` and `start` /
    `assistent aktiv`, matched after lower-casing and without trimming, on
    incoming messages only;
  - the gate, which silently drops incoming messages to a switched-off chat;
  - recording the message as a `user` turn (incoming) or a `model` turn (the
    account's own message);
  - the prompt, built from the persona, the last ten turns and a closing
    instruction;
  - up to three calls of the completion service, where only errors whose text
    contains `429` are retried;
  - the result: a non-empty reply is recorded and sent in bold, while an empty
    reply or an error yields an apology that carries the error text.
- **`.env` line parser** (the fallback inside `load_env_variables`). Blank
  lines, `#` comment lines and lines without `=` are skipped. The key is the
  stripped text before the first `=`. The value is stripped of whitespace, then
  of `"`, then of `'`. The last assignment of a key wins.

The completion service is a parameter of type `Service`. It gives the answer to
each attempt: a response text, possibly empty, or a raised error with its
message. Reading the JSON files is a parameter of type `Stored<T>`: missing,
unreadable, or the decoded contents.

Modules: `Options`, `Strings` (the Python string operations used), `EnvFile`,
`Memory`, `Prompt`, `Completion` (the retry loop), `Routing` (the decision
procedure `React`, a function of the state before the message, and `Respond`, its
answer step once the message is recorded) and `Assistant` (the class
`MuslimAssistant`, whose `ProcessMessage` is proved equal to `React`; its second
half, from the prompt on, is the method `GenerateReply`, proved equal to `Respond`).

Notes on what the code does:
- An incoming message to a switched-off chat is not recorded in memory; the
  code returns before `add_to_memory`.
- Control phrases are only lower-cased, not trimmed.
- This source has no reset command and no splitting of long replies into
  4096-character pieces.
- A successful reply is returned wrapped in `**…**`.

## Model

| member | source | states |
|---|---|---|
| Strings.TrimLeftSpec | main_chatbot.py:33-36 | leading `strip`: the result is a suffix of the input that does not start with a stripped character, and every dropped character is one |
| Strings.TrimRightSpec | main_chatbot.py:33-36 | trailing `strip`: the result is a prefix that does not end with a stripped character, and every dropped character is one |
| Strings.TrimKeeps | main_chatbot.py:33-34 | stripping only removes characters, and a non-space character such as `=` survives it, so `'=' in line` also holds of `line.strip()` |
| Strings.StripIdempotent | main_chatbot.py:36 | stripping twice equals stripping once, so a key is already stripped |
| Strings.ContainsIffOccurs | main_chatbot.py:259 | the `"429" in str(e)` test holds exactly when `429` occurs at some position of the error text |
| Strings.SplitOnce | main_chatbot.py:34 | `split('=', 1)` cuts the text into the part before the first `=` (which holds no `=`) and the rest |
| Strings.SplitOnceUnique | main_chatbot.py:34 | that cut is unique: any decomposition `before + "=" + after` with no `=` in `before` is the one `split` returns |
| EnvFile.CleanValue | main_chatbot.py:36 | after the three successive strips, the value neither starts nor ends with `'` |
| EnvFile.CleanValueIsPiece | main_chatbot.py:36 | the stored value is a contiguous piece of the raw text, and every character dropped from either end is whitespace, `"` or `'` |
| EnvFile.ParseLine | main_chatbot.py:33-36 | a line assigns exactly when it is non-blank after strip, its first non-blank character is not `#`, and it holds `=`; the key has no `=` and no surrounding whitespace |
| EnvFile.SplitsAtFirstEquals | main_chatbot.py:34-36 | for a line `before=after` with no `=` in `before`, the key is `before` stripped and the value is `after` cleaned, so later `=` belong to the value |
| EnvFile.LoadEnvLines | main_chatbot.py:31-37 | the loop over the lines builds exactly ParseEnv of the lines |
| EnvFile.CollectKeys | main_chatbot.py:31-36 | folding assignments defines a key exactly when some assignment sets it |
| EnvFile.CollectLastWins | main_chatbot.py:31-36 | folding assignments gives a key the value of the last assignment that sets it |
| EnvFile.KeysComeFromLines | main_chatbot.py:31-36 | a key is in the result exactly when some line of the file assigns it |
| EnvFile.LastAssignmentWins | main_chatbot.py:31-36 | a key's value is the one from the last line that assigns it |
| Memory.Remember | main_chatbot.py:167-175 | the new turn is last; below the limit nothing is dropped; at or over it only the oldest turn is dropped; a history within the limit stays within it |
| Memory.RememberKeepsMostRecent | main_chatbot.py:173-175 | from a history within the limit, one append keeps exactly the 40 most recent turns |
| Memory.RememberAllKeepsMostRecent | main_chatbot.py:167-175 | after any sequence of appends to a history within the limit, it holds exactly the 40 most recent turns in their original order (FIFO eviction) |
| Memory.RememberAllBounded | main_chatbot.py:174-175 | after any sequence of appends, a history that started within the limit is still within it |
| Prompt.RenderFrame | main_chatbot.py:236-247 | the prompt starts with the persona and the history header, and ends with the closing instruction |
| Prompt.LinesAppend | main_chatbot.py:240-244 | the history lines of two runs of turns are the lines of the first followed by those of the second, so the original order is kept |
| Prompt.EmptyTurnSkipped | main_chatbot.py:241 | a turn with no parts adds no history line, wherever it stands (it still takes one of the ten window slots) |
| Prompt.OlderTurnsIgnored | main_chatbot.py:239 | turns before the last ten do not affect the prompt |
| Prompt.LatestUserMessageLast | main_chatbot.py:239-247 | when the history ends with a user's message, the prompt ends with `Benutzer: <message>` followed by the instruction |
| Prompt.BuildPrompt | main_chatbot.py:236-247 | the accumulating loop produces exactly Render of the history |
| Completion.RetryFrom | main_chatbot.py:252-265 | the loop makes between 1 and 3 calls; it ends with the answer to its last call; every earlier answer was a rate-limit error; a rate-limit error ends it only on the third call |
| Completion.CallWithRetry | main_chatbot.py:252-265 | the completion service is called at least once and at most three times |
| Completion.GenerateWithRetry | main_chatbot.py:252-265 | the `while retry_count < max_retries` loop returns the answer and call count that CallWithRetry defines |
| Completion.RetryOutcome | main_chatbot.py:254-265 | the answers determine the outcome: the loop stops at the first answer that is not a rate limit, or at the third call |
| Completion.OtherErrorNotRetried | main_chatbot.py:259-265 | an error without `429` on the first call propagates after exactly one call |
| Completion.SuccessAfterTwoRateLimits | main_chatbot.py:254-261 | two rate limits and then a response give that response after exactly three calls |
| Completion.ThirdRateLimitPropagates | main_chatbot.py:259-265 | a third rate limit is not retried: it propagates after exactly three calls |
| Routing.ControlPhrasesDisjoint | main_chatbot.py:198-205 | no text is both a deactivation and an activation phrase |
| Routing.ControlPhrasesIgnoreCase | main_chatbot.py:198-203 | a text and its lower-case form are the same command |
| Routing.ControlPhraseSetsFlag | main_chatbot.py:198-205 | an incoming control phrase sets the chat's flag to off or on and returns the fixed acknowledgement; memory is untouched and no call is made |
| Routing.InactiveChatIsSilent | main_chatbot.py:208-210 | an incoming ordinary message to a switched-off chat returns None and changes nothing, with no call |
| Routing.OutgoingRecordedNotAnswered | main_chatbot.py:212-220 | the account's own message is appended as a `model` turn whatever the flag; the flag is unchanged; there is no reply and no call |
| Routing.AnsweredByRespond | main_chatbot.py:212-283 | an incoming ordinary message to an active chat is recorded as a `user` turn, and the chat's new history, the reply and the call count are those of the answer step on that recorded history |
| Routing.AnswerRecorded | main_chatbot.py:267-279 | on a non-empty response, exactly one `model` turn holding the reply is appended to the recorded history (dropping its oldest turn when it already holds 40), so the history ends with the asked-about turn then that `model` turn; the reply is `**reply**` and the call count is the retry loop's |
| Routing.FailureRecordsOnlyUserTurn | main_chatbot.py:267-283 | on an empty response or an error, the history stays as recorded before the call (only the user's turn was added) and the reply is the apology carrying the error text |
| Routing.CallsOnlyWhenAnswering | main_chatbot.py:192-283 | at most three calls; calls are made exactly for incoming, non-control messages to active chats; a reply exists exactly for incoming messages that are control phrases or reach an active chat |
| Routing.OtherChatsUntouched | main_chatbot.py:192-283 | a message changes no other chat's history or flag |
| Routing.ReactKeepsBound | main_chatbot.py:212-273 | if every history is within the limit before a message, it is within it after |
| Routing.OffThenOn | main_chatbot.py:198-205 | a deactivation followed by an activation leaves memory as it was and the chat active |
| Assistant.MuslimAssistant.constructor | main_chatbot.py:108-140 | the assistant starts with empty memory and with the stored flags, or with no flags when the file is missing or cannot be decoded |
| Assistant.MuslimAssistant.LoadMemory | main_chatbot.py:152-165 | the chat's history becomes the stored one, or empty when it is missing or unreadable; other chats are unchanged |
| Assistant.MuslimAssistant.AddToMemory | main_chatbot.py:167-179 | the chat's history becomes Remember of the old one, starting from empty for an unseen chat; the new turn is last; other chats are unchanged; the bound is kept |
| Assistant.MuslimAssistant.IsChatActive | main_chatbot.py:181-184 | a chat without a flag is active; otherwise its flag decides |
| Assistant.MuslimAssistant.SetChatActive | main_chatbot.py:186-190 | afterwards the chat reads as `active`, and every other chat reads as before |
| Assistant.MuslimAssistant.ProcessMessage | main_chatbot.py:192-288 | the new flags, the new memory, the reply and the number of service calls are those that React defines; the bound is kept |
| Assistant.MuslimAssistant.GenerateReply | main_chatbot.py:236-283 | once the message is recorded: the chat's new history, the reply and the call count are those of the answer step on the recorded history; other chats are unchanged; the bound is kept |

## Left out

- The Telegram client, its event handlers and the stub group handler
  (main_chatbot.py:290-452), and `main` (454-481). These are network I/O and
  asynchronous dispatch.
- The Gemini configuration (73-106). The call itself is the `Service`
  parameter, which gives the answer to each attempt.
- Writing the JSON files: `save_active_chats`, `save_memory`, and the save
  inside `set_chat_active`. Also left out are creating the config directory and
  the file paths. Reading is the `Stored<T>` parameter.
- `load_active_chats` recovers only from a decoding error. In the source, any
  other read error escapes the constructor; the model does not represent that.
- The backoff wait before a retry (`time.sleep` with random jitter, 261-263).
  The model keeps only the attempt counter.
- `chat_description`, `sender_info` and `chat_type`. They are computed or passed
  but never used.
- Logging, the stdout/stderr reconfiguration, and the hard-coded fallback API
  key.
- Parts of `load_env_variables` other than the line loop:
  - the python-dotenv branch (22-26);
  - opening the file and the fallback on error (30, 38-41);
  - splitting the file into lines, including universal-newline translation. The
    model takes the lines as given.
  - the insertion order of the resulting dictionary, because a map has no order.
- Full Unicode lower-casing. `Lower` maps A-Z and the Kelvin sign, which are the
  only characters whose lower-case form is ASCII text, and leaves the rest
  unchanged. The control-phrase test is therefore the same as Python's, but
  `Lower` is not `str.lower()` on other text.
- Malformed stored history. Stored turns are typed here, so every turn has a
  role and string parts, and an entry without `parts` is a turn with empty
  parts. In the source, an entry with non-empty `parts` but no `role` raises a
  `KeyError` inside the prompt loop (243). The inner handler (281-283) catches
  it: the user's turn is already recorded, no call is made, and the apology is
  returned. The model does not represent that path. A part that is not a string
  does not raise, since the f-string at 244 formats any value, but the model
  has only string parts.
- The `except` clauses of `add_to_memory` (178-179) and of the outer
  `process_message` (285-288). With the I/O left out, nothing in the model
  raises there.
- Interleaving of two handlers for the same chat. The source does nothing to
  coordinate them.
