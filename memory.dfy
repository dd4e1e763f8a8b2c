/** The per-chat conversation memory: for each chat id (the chat's number as a
    string), the list of its turns, oldest first, kept to at most 40 entries. */
module Memory {

  /** One entry of a chat's history, as stored: `{"role": role, "parts": parts}`.
      The assistant itself writes one-element `parts`; a history read back from
      disk may hold any role and any number of parts. */
  datatype Turn = Turn(role: string, parts: seq<string>)

  const UserRole := "user"
  const ModelRole := "model"

  /** `memory_limit` of the assistant. */
  const MemoryLimit: nat := 40

  /** The history of `chat`; a chat never seen has an empty one. */
  function History(memory: map<string, seq<Turn>>, chat: string): seq<Turn> {
    if chat in memory then memory[chat] else []
  }

  /** Every chat's history is within the limit. */
  predicate Bounded(memory: map<string, seq<Turn>>) {
    forall chat :: chat in memory ==> |memory[chat]| <= MemoryLimit
  }

  /** Storing a history within the limit keeps every history within it. */
  lemma StoreKeepsBound(memory: map<string, seq<Turn>>, chat: string, history: seq<Turn>)
    requires Bounded(memory) && |history| <= MemoryLimit
    ensures Bounded(memory[chat := history])
  {
  }

  /** Storing a chat's history twice keeps only the second. */
  lemma StoreTwice(memory: map<string, seq<Turn>>, chat: string, first: seq<Turn>, second: seq<Turn>)
    ensures memory[chat := first][chat := second] == memory[chat := second]
  {
  }

  /** Python's `s[-n:]`: the last `n` entries of `s`, or all of `s` when it is shorter. */
  function LastN<T>(s: seq<T>, n: nat): seq<T> {
    if |s| <= n then s else s[|s| - n..]
  }

  /** `add_to_memory` on one history: the new turn goes to the tail; if the list
      then exceeds the limit, exactly one turn leaves from the head. */
  function Remember(history: seq<Turn>, turn: Turn): (r: seq<Turn>)
    ensures r != [] && r[|r| - 1] == turn
    ensures |history| < MemoryLimit ==> r == history + [turn]
    ensures |history| >= MemoryLimit ==> r == history[1..] + [turn]
    ensures |history| <= MemoryLimit ==> |r| <= MemoryLimit
  {
    var grown := history + [turn];
    if |grown| > MemoryLimit then grown[1..] else grown
  }

  /** A history within the limit keeps, after one more turn, exactly the most
      recent MemoryLimit turns of old history plus the new one. */
  lemma RememberKeepsMostRecent(history: seq<Turn>, turn: Turn)
    requires |history| <= MemoryLimit
    ensures Remember(history, turn) == LastN(history + [turn], MemoryLimit)
  {
  }

  /** Successive `add_to_memory` calls on one chat. */
  function RememberAll(history: seq<Turn>, turns: seq<Turn>): seq<Turn>
    decreases |turns|
  {
    if turns == [] then history else RememberAll(Remember(history, turns[0]), turns[1..])
  }

  /** Taking the last n of the last n of `s` and more entries is taking the last n. */
  lemma LastNOfLastN(s: seq<Turn>, more: seq<Turn>, n: nat)
    ensures LastN(LastN(s, n) + more, n) == LastN(s + more, n)
  {
    if |s| > n {
      var t := s[|s| - n..];
      if |t + more| > n {
        assert (t + more)[|t + more| - n..] == (s + more)[|s + more| - n..];
      } else {
        assert more == [];
        assert s + more == s;
      }
    }
  }

  /** FIFO eviction: after any sequence of turns, a history that started within the
      limit holds exactly the MemoryLimit most recent turns, in their original order. */
  lemma {:induction false} RememberAllKeepsMostRecent(history: seq<Turn>, turns: seq<Turn>)
    requires |history| <= MemoryLimit
    ensures RememberAll(history, turns) == LastN(history + turns, MemoryLimit)
    decreases |turns|
  {
    if turns == [] {
      assert history + turns == history;
    } else {
      var next := Remember(history, turns[0]);
      RememberKeepsMostRecent(history, turns[0]);
      RememberAllKeepsMostRecent(next, turns[1..]);
      LastNOfLastN(history + [turns[0]], turns[1..], MemoryLimit);
      assert history + [turns[0]] + turns[1..] == history + turns;
    }
  }

  /** The bound holds after any sequence of turns, from any history within it. */
  lemma {:induction false} RememberAllBounded(history: seq<Turn>, turns: seq<Turn>)
    requires |history| <= MemoryLimit
    ensures |RememberAll(history, turns)| <= MemoryLimit
  {
    RememberAllKeepsMostRecent(history, turns);
  }
}
