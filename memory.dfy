/**
 * The conversation history store of `core/memory.py`, with the JSON file it
 * persists to replaced by an in-memory sequence of turns.
 */
module Memory {

  datatype Role = User | Assistant

  /** One `{"role": ..., "content": ...}` record of the history file. */
  datatype Turn = Turn(role: Role, content: string)

  class HistoryStore {
    /** Every turn ever appended, oldest first. */
    var turns: seq<Turn>

    /** A store whose file already holds `saved` (`[]` when there is no file yet). */
    constructor (saved: seq<Turn>)
      ensures turns == saved
    {
      turns := saved;
    }

    /** `load_history()`: the whole log, in order. */
    method LoadHistory() returns (history: seq<Turn>)
      ensures history == turns
    {
      history := turns;
    }

    /** `add_message(role, content)`: append one turn at the end; nothing is reordered or dropped. */
    method AddMessage(role: Role, content: string)
      modifies this
      ensures turns == old(turns) + [Turn(role, content)]
    {
      turns := turns + [Turn(role, content)];
    }
  }
}
