/** The data declarations of lib/types.tsx: rules, the nested transition table
    and the configuration of a standalone machine. */
module Types {
  import opened Wrappers

  /** A head move. Declared as "L" | "R", but the editor offers "L", "R" and
      "S", the validator accepts "L", "R" and "N", and the two engines read
      anything else differently, so it stays an unrestricted string. */
  type Move = string

  datatype Transition = Transition(nextState: string, write: string, direction: Move)

  /** state -> symbol -> rule; an absent key at either level means "no rule". */
  type TransitionTable = map<string, map<string, Transition>>

  datatype MachineConfig = MachineConfig(
    states: seq<string>,
    alphabet: seq<string>,
    tapeAlphabet: seq<string>,
    transitions: TransitionTable,
    startState: string,
    acceptState: string,
    rejectState: string)

  /** `table[state]?.[symbol]`: the rule, or None when either key is missing. */
  function Lookup(table: TransitionTable, state: string, symbol: string): (r: Option<Transition>)
    ensures r.Some? <==> state in table && symbol in table[state]
    ensures r.Some? ==> r.value == table[state][symbol]
  {
    if state in table && symbol in table[state] then Some(table[state][symbol]) else None
  }

  /** Storing a rule in a state's row (a fresh row when the state has none)
      makes it the rule found at that key and leaves every other key's rule as
      it was. */
  lemma LookupAfterStore(table: TransitionTable, state: string, symbol: string, t: Transition, s: string, y: string)
    ensures var row := if state in table then table[state] else map[];
            Lookup(table[state := row[symbol := t]], s, y) ==
              if s == state && y == symbol then Some(t) else Lookup(table, s, y)
  {
  }
}
