/** The engine inside the simulator page (app/simulator/page.tsx): the editable
    transition table, its validator, tape preparation, the single step and the
    Run / Reset / Step controls. The component's React state is one explicit
    record, `SimulatorState`, that every operation takes and returns. */
module SimulatorPage {
  import opened Wrappers
  import opened Types
  import opened Tape

  const BlankSymbol: string := Tape.Blank
  const Accepted: string := "halt"
  const Rejected: string := "reject"
  /** The directions `validateTable` accepts. The editor offers "S", not "N". */
  const ValidDirections: seq<string> := ["L", "R", "N"]
  /** The start state used when no normal state can be chosen. */
  const FallbackStart: string := "q0"

  datatype Status = Idle | Running | Halt | Reject | Error | Validated

  /** One run of the machine. `noRuleNote` is the message the step leaves in the
      record when no rule applies; nothing reads it. */
  datatype Simulation = Simulation(
    currentTape: seq<string>,
    headPosition: nat,
    currentState: string,
    status: Status,
    speed: int,
    initialInput: string,
    noRuleNote: Option<string>)

  /** The component's state: the declared states and symbols, the chosen start
      state, the table, the last validation message and the run. */
  datatype SimulatorState = SimulatorState(
    states: seq<string>,
    symbols: seq<string>,
    initialState: string,
    table: TransitionTable,
    validationError: Option<string>,
    sim: Simulation)

  /** A `Partial<Transition>`: the fields an editor event supplies. */
  datatype PartialTransition = PartialTransition(
    write: Option<string>,
    nextState: Option<string>,
    direction: Option<Move>)

  /** Every reachable run has its head on the tape or just past its end (the
      initial empty tape with head 0). */
  predicate WellFormed(sim: Simulation)
  {
    sim.headPosition <= |sim.currentTape|
  }

  /** The component as first rendered. */
  function Initial(): (c: SimulatorState)
    ensures WellFormed(c.sim) && c.sim.status == Idle && c.table == map[]
    ensures c.sim.currentTape == [] && c.sim.headPosition == 0
    ensures c.initialState in NormalStates(c.states)
  {
    var states := ["q0", "q1", Accepted, Rejected];
    SimulatorState(states, ["0", "1"], "q0", map[], None,
      Simulation([], 0, "q0", Idle, 300, "010", None))
  }

  // ---------------------------------------------------------------------------
  // Declared states and symbols

  /** `allStates`: the declared states other than the accept and reject states,
      in declaration order. */
  function NormalStates(states: seq<string>): (normal: seq<string>)
    ensures forall s :: s in normal <==> s in states && s != Accepted && s != Rejected
    ensures normal == [] <==> forall k :: 0 <= k < |states| ==> states[k] == Accepted || states[k] == Rejected
    ensures |states| == 1 ==> normal == (if states[0] == Accepted || states[0] == Rejected then [] else states)
  {
    if states == [] then []
    else if states[0] == Accepted || states[0] == Rejected then NormalStates(states[1..])
    else [states[0]] + NormalStates(states[1..])
  }

  /** Filtering distributes over concatenation; with the one-element case this
      pins `NormalStates` down as the declared list with the terminal states
      removed and the rest kept in declaration order. */
  lemma {:induction false} NormalStatesOfConcat(a: seq<string>, b: seq<string>)
    ensures NormalStates(a + b) == NormalStates(a) + NormalStates(b)
  {
    if a != [] {
      assert (a + b)[1..] == a[1..] + b;
      NormalStatesOfConcat(a[1..], b);
    } else {
      assert a + b == b;
    }
  }

  /** Two normal states come first in the filtered list in the same order as
      in the declared list. */
  lemma {:induction false} NormalStatesKeepOrder(states: seq<string>, x: string, y: string)
    requires x in NormalStates(states) && y in NormalStates(states)
    ensures IndexOf(NormalStates(states), x) < IndexOf(NormalStates(states), y) <==>
              IndexOf(states, x) < IndexOf(states, y)
  {
    var h, t := states[0], states[1..];
    assert states == [h] + t;
    if x != h && y != h {
      assert x in NormalStates(t) && y in NormalStates(t);
      NormalStatesKeepOrder(t, x, y);
    }
  }

  /** `allSymbols`: the blank first, then the declared symbols. */
  function Alphabet(symbols: seq<string>): seq<string>
  {
    [BlankSymbol] + symbols
  }

  /** The iteration order of `new Set(s)`: each element once, at its first
      occurrence. */
  function Dedup(s: seq<string>): (d: seq<string>)
    ensures forall x :: x in d <==> x in s
    ensures forall i, j :: 0 <= i < j < |d| ==> d[i] != d[j]
    ensures s != [] ==> d != [] && d[0] == s[0]
  {
    if s == [] then []
    else
      var d := Dedup(s[..|s| - 1]);
      if s[|s| - 1] in d then d else d + [s[|s| - 1]]
  }

  /** The index of the first occurrence of `x` in `s`. */
  function IndexOf(s: seq<string>, x: string): (k: nat)
    requires x in s
    ensures k < |s| && s[k] == x && forall j :: 0 <= j < k ==> s[j] != x
  {
    if s[0] == x then 0 else 1 + IndexOf(s[1..], x)
  }

  /** The deduplicated list keeps the order of first occurrences. */
  lemma {:induction false} DedupKeepsFirstOccurrenceOrder(s: seq<string>)
    ensures forall i, j :: 0 <= i < j < |Dedup(s)| ==> IndexOf(s, Dedup(s)[i]) < IndexOf(s, Dedup(s)[j])
  {
    if s != [] {
      var init, last := s[..|s| - 1], s[|s| - 1];
      DedupKeepsFirstOccurrenceOrder(init);
      assert s == init + [last];
      forall x | x in init ensures IndexOf(s, x) == IndexOf(init, x) {
        var k := IndexOf(init, x);
        assert s[k] == x;
      }
      if last !in init {
        assert IndexOf(s, last) == |init|;
      }
    }
  }

  /** The states the validator visits, in order. */
  function RequiredStates(states: seq<string>): seq<string>
  {
    Dedup(NormalStates(states))
  }

  /** The validator visits the normal states in the order they were declared,
      each once. */
  lemma RequiredStatesFollowDeclaration(states: seq<string>)
    ensures forall i, j :: 0 <= i < j < |RequiredStates(states)| ==>
              IndexOf(states, RequiredStates(states)[i]) < IndexOf(states, RequiredStates(states)[j])
  {
    var normal := NormalStates(states);
    var req := RequiredStates(states);
    DedupKeepsFirstOccurrenceOrder(normal);
    forall i, j | 0 <= i < j < |req|
      ensures IndexOf(states, req[i]) < IndexOf(states, req[j])
    {
      NormalStatesKeepOrder(states, req[i], req[j]);
    }
  }

  /** The symbols the validator visits, in order: the blank first. */
  function RequiredSymbols(symbols: seq<string>): (syms: seq<string>)
    ensures syms != [] && syms[0] == BlankSymbol
  {
    Dedup(Alphabet(symbols))
  }

  /** The validator visits the blank, then the declared symbols in declaration
      order, each once. */
  lemma RequiredSymbolsFollowDeclaration(symbols: seq<string>)
    ensures forall i, j :: 0 <= i < j < |RequiredSymbols(symbols)| ==>
              IndexOf(Alphabet(symbols), RequiredSymbols(symbols)[i]) < IndexOf(Alphabet(symbols), RequiredSymbols(symbols)[j])
  {
    DedupKeepsFirstOccurrenceOrder(Alphabet(symbols));
  }

  /** The start-state effect: a start state that is no longer a normal state is
      replaced by the first normal state, or by "q0" when there is none (or the
      first one is the empty string, which `||` also skips). */
  function StartStateFallback(c: SimulatorState): (r: SimulatorState)
    ensures r == c.(initialState := r.initialState)
    ensures c.initialState in NormalStates(c.states) ==> r == c
    ensures r.initialState in NormalStates(c.states) || r.initialState == FallbackStart
    ensures c.initialState !in NormalStates(c.states) ==>
              r.initialState == (if NormalStates(c.states) != [] && NormalStates(c.states)[0] != ""
                                 then NormalStates(c.states)[0] else FallbackStart)
  {
    var normal := NormalStates(c.states);
    if c.initialState in normal then c
    else c.(initialState := if normal != [] && normal[0] != "" then normal[0] else FallbackStart)
  }

  /** Re-running the effect on its own result changes nothing. */
  lemma StartStateFallbackSettles(c: SimulatorState)
    ensures StartStateFallback(StartStateFallback(c)) == StartStateFallback(c)
  {
  }

  // ---------------------------------------------------------------------------
  // Editing the table

  /** The rule stored at a key after an edit: supplied fields win, the others
      keep the old rule's values, or "", "" and "R" when the key is new. */
  function MergeRule(existing: Option<Transition>, data: PartialTransition): (t: Transition)
    ensures t.write == (if data.write.Some? then data.write.value else if existing.Some? then existing.value.write else "")
    ensures t.nextState == (if data.nextState.Some? then data.nextState.value else if existing.Some? then existing.value.nextState else "")
    ensures t.direction == (if data.direction.Some? then data.direction.value else if existing.Some? then existing.value.direction else "R")
    ensures data.write.Some? && data.nextState.Some? && data.direction.Some? ==>
              t == Transition(data.nextState.value, data.write.value, data.direction.value)
    ensures existing.Some? && data == PartialTransition(None, None, None) ==> t == existing.value
    ensures existing.None? && data == PartialTransition(None, None, None) ==> t == Transition("", "", "R")
  {
    var base := if existing.Some? then existing.value else Transition("", "", "R");
    Transition(
      if data.nextState.Some? then data.nextState.value else base.nextState,
      if data.write.Some? then data.write.value else base.write,
      if data.direction.Some? then data.direction.value else base.direction)
  }

  /** `updateTable`: merges one partial rule into the table at (state, symbol),
      clears the validation message and sets the run back to IDLE. */
  function UpdateTable(c: SimulatorState, state: string, symbol: string, data: PartialTransition): (r: SimulatorState)
    ensures Lookup(r.table, state, symbol).Some?
    ensures var rule := Lookup(r.table, state, symbol).value;
            var prior := Lookup(c.table, state, symbol);
            && rule.write == (if data.write.Some? then data.write.value else if prior.Some? then prior.value.write else "")
            && rule.nextState == (if data.nextState.Some? then data.nextState.value else if prior.Some? then prior.value.nextState else "")
            && rule.direction == (if data.direction.Some? then data.direction.value else if prior.Some? then prior.value.direction else "R")
    ensures forall s, y :: (s != state || y != symbol) ==> Lookup(r.table, s, y) == Lookup(c.table, s, y)
    ensures r.table.Keys == c.table.Keys + {state}
    ensures r.validationError == None && r.sim == c.sim.(status := Idle)
    ensures r.states == c.states && r.symbols == c.symbols && r.initialState == c.initialState
  {
    var row := if state in c.table then c.table[state] else map[];
    var rule := MergeRule(Lookup(c.table, state, symbol), data);
    c.(table := c.table[state := row[symbol := rule]],
       validationError := None,
       sim := c.sim.(status := Idle))
  }

  /** Supplying every field of an existing rule replaces it outright, and
      supplying none leaves it as it was. */
  lemma UpdateTableFieldwise(c: SimulatorState, state: string, symbol: string, t: Transition)
    requires Lookup(c.table, state, symbol).Some?
    ensures Lookup(UpdateTable(c, state, symbol, PartialTransition(Some(t.write), Some(t.nextState), Some(t.direction))).table, state, symbol) == Some(t)
    ensures UpdateTable(c, state, symbol, PartialTransition(None, None, None)).table == c.table
  {
    var r := UpdateTable(c, state, symbol, PartialTransition(None, None, None)).table;
    assert r.Keys == c.table.Keys;
    forall s | s in r ensures r[s] == c.table[s] {
      if s == state {
        assert r[s].Keys == c.table[s].Keys;
        forall y | y in r[s] ensures r[s][y] == c.table[s][y] {
          assert Lookup(r, s, y) == Lookup(c.table, s, y);
        }
      }
    }
  }

  // ---------------------------------------------------------------------------
  // Validation

  /** Why a (state, symbol) pair fails validation, in the order the checks run. */
  datatype ValidationFailure =
    | MissingTransition(state: string, symbol: string)
    | MissingData(state: string, symbol: string)
    | InvalidNextState(nextState: string, state: string, symbol: string)
    | InvalidDirection(direction: string, state: string, symbol: string)

  predicate EndsWith(s: string, suffix: string)
  {
    |suffix| <= |s| && s[|s| - |suffix|..] == suffix
  }

  /** The message shown for a failure. */
  function Message(f: ValidationFailure): string
  {
    match f
    case MissingTransition(s, y) => "Missing transition for state " + s + ", Symbol: " + y
    case MissingData(s, y) => "Missing transition data for State: " + s + ", Symbol: " + y
    case InvalidNextState(n, s, y) => "Invalid next state " + n + " for State: " + s + ", Symbol: " + y
    case InvalidDirection(d, s, y) => "Invalid direction " + d + " for State: " + s + ", Symbol: " + y
  }

  /** Every message ends by naming the offending pair. */
  lemma MessageNamesPair(f: ValidationFailure)
    ensures EndsWith(Message(f), f.state + ", Symbol: " + f.symbol)
  {
    match f
    case MissingTransition(s, y) => EndsWithPair("Missing transition for state ", s, y);
    case MissingData(s, y) => EndsWithPair("Missing transition data for State: ", s, y);
    case InvalidNextState(n, s, y) => EndsWithPair("Invalid next state " + n + " for State: ", s, y);
    case InvalidDirection(d, s, y) => EndsWithPair("Invalid direction " + d + " for State: ", s, y);
  }

  lemma EndsWithPair(lead: string, state: string, symbol: string)
    ensures EndsWith(lead + state + ", Symbol: " + symbol, state + ", Symbol: " + symbol)
  {
    var pair := state + ", Symbol: " + symbol;
    assert lead + state + ", Symbol: " + symbol == lead + pair;
    assert (lead + pair)[|lead + pair| - |pair|..] == pair;
  }

  /** A well-formed rule at (state, symbol): present, with non-empty fields, a
      declared next state and a direction among L, R, N. */
  predicate RuleOk(table: TransitionTable, states: seq<string>, state: string, symbol: string)
  {
    && state in table && symbol in table[state]
    && table[state][symbol].write != ""
    && table[state][symbol].nextState != ""
    && table[state][symbol].direction != ""
    && table[state][symbol].nextState in states
    && table[state][symbol].direction in ValidDirections
  }

  /** A rule with an empty write, next state or direction. */
  predicate HasEmptyField(t: Transition)
  {
    t.write == "" || t.nextState == "" || t.direction == ""
  }

  /** The four checks on one pair, first failing one reported. */
  function CheckPair(table: TransitionTable, states: seq<string>, state: string, symbol: string): (r: Option<ValidationFailure>)
    ensures r == None <==> RuleOk(table, states, state, symbol)
    ensures r.Some? ==> r.value.state == state && r.value.symbol == symbol
    ensures r.Some? && r.value.MissingTransition? <==> Lookup(table, state, symbol).None?
    ensures r.Some? && r.value.MissingData? <==>
              Lookup(table, state, symbol).Some? && HasEmptyField(Lookup(table, state, symbol).value)
    ensures r.Some? && r.value.InvalidNextState? <==>
              Lookup(table, state, symbol).Some? && !HasEmptyField(Lookup(table, state, symbol).value)
              && Lookup(table, state, symbol).value.nextState !in states
    ensures r.Some? && r.value.InvalidNextState? ==> r.value.nextState == Lookup(table, state, symbol).value.nextState
    ensures r.Some? && r.value.InvalidDirection? <==>
              Lookup(table, state, symbol).Some? && !HasEmptyField(Lookup(table, state, symbol).value)
              && Lookup(table, state, symbol).value.nextState in states
              && Lookup(table, state, symbol).value.direction !in ValidDirections
    ensures r.Some? && r.value.InvalidDirection? ==> r.value.direction == Lookup(table, state, symbol).value.direction
  {
    match Lookup(table, state, symbol)
    case None => Some(MissingTransition(state, symbol))
    case Some(t) =>
      if t.write == "" || t.nextState == "" || t.direction == "" then Some(MissingData(state, symbol))
      else if t.nextState !in states then Some(InvalidNextState(t.nextState, state, symbol))
      else if t.direction !in ValidDirections then Some(InvalidDirection(t.direction, state, symbol))
      else None
  }

  /** The first failure along one state's row of symbols, scanning left to right. */
  function RowFailure(table: TransitionTable, states: seq<string>, state: string, syms: seq<string>): (r: Option<ValidationFailure>)
    ensures r.Some? ==> r.value.state == state && r.value.symbol in syms
  {
    if syms == [] then None
    else
      var before := RowFailure(table, states, state, syms[..|syms| - 1]);
      if before.Some? then before else CheckPair(table, states, state, syms[|syms| - 1])
  }

  /** The first failure over the grid `sts` x `syms`, row by row. */
  function GridFailure(table: TransitionTable, states: seq<string>, sts: seq<string>, syms: seq<string>): (r: Option<ValidationFailure>)
    ensures r.Some? ==> r.value.state in sts && r.value.symbol in syms
  {
    if sts == [] then None
    else
      var before := GridFailure(table, states, sts[..|sts| - 1], syms);
      if before.Some? then before else RowFailure(table, states, sts[|sts| - 1], syms)
  }

  /** The result of validating the component's table. */
  function FirstFailure(c: SimulatorState): (r: Option<ValidationFailure>)
    ensures r.Some? ==> r.value.state in NormalStates(c.states) && r.value.symbol in Alphabet(c.symbols)
  {
    GridFailure(c.table, c.states, RequiredStates(c.states), RequiredSymbols(c.symbols))
  }

  lemma {:induction false} RowFailureNoneIff(table: TransitionTable, states: seq<string>, state: string, syms: seq<string>)
    ensures RowFailure(table, states, state, syms) == None <==>
              forall j :: 0 <= j < |syms| ==> RuleOk(table, states, state, syms[j])
  {
    if syms != [] {
      var init := syms[..|syms| - 1];
      RowFailureNoneIff(table, states, state, init);
      assert forall j :: 0 <= j < |init| ==> init[j] == syms[j];
    }
  }

  lemma {:induction false} GridFailureNoneIff(table: TransitionTable, states: seq<string>, sts: seq<string>, syms: seq<string>)
    ensures GridFailure(table, states, sts, syms) == None <==>
              forall i, j :: 0 <= i < |sts| && 0 <= j < |syms| ==> RuleOk(table, states, sts[i], syms[j])
  {
    if sts != [] {
      var init := sts[..|sts| - 1];
      GridFailureNoneIff(table, states, init, syms);
      RowFailureNoneIff(table, states, sts[|sts| - 1], syms);
      assert forall i :: 0 <= i < |init| ==> init[i] == sts[i];
    }
  }

  /** A reported failure belongs to some pair, and every pair before it in row
      order passes. */
  lemma {:induction false} RowFailureIsFirst(table: TransitionTable, states: seq<string>, state: string, syms: seq<string>)
    requires RowFailure(table, states, state, syms).Some?
    ensures exists j :: 0 <= j < |syms| && CheckPair(table, states, state, syms[j]) == RowFailure(table, states, state, syms)
              && forall j' :: 0 <= j' < j ==> RuleOk(table, states, state, syms[j'])
  {
    var init := syms[..|syms| - 1];
    assert forall j :: 0 <= j < |init| ==> init[j] == syms[j];
    if RowFailure(table, states, state, init).Some? {
      RowFailureIsFirst(table, states, state, init);
    } else {
      RowFailureNoneIff(table, states, state, init);
      var j := |syms| - 1;
      assert CheckPair(table, states, state, syms[j]) == RowFailure(table, states, state, syms);
    }
  }

  lemma {:induction false} GridFailureIsFirst(table: TransitionTable, states: seq<string>, sts: seq<string>, syms: seq<string>)
    requires GridFailure(table, states, sts, syms).Some?
    ensures exists i, j :: 0 <= i < |sts| && 0 <= j < |syms|
              && CheckPair(table, states, sts[i], syms[j]) == GridFailure(table, states, sts, syms)
              && (forall i', j' :: 0 <= i' < i && 0 <= j' < |syms| ==> RuleOk(table, states, sts[i'], syms[j']))
              && (forall j' :: 0 <= j' < j ==> RuleOk(table, states, sts[i], syms[j']))
  {
    var init := sts[..|sts| - 1];
    assert forall i :: 0 <= i < |init| ==> init[i] == sts[i];
    if GridFailure(table, states, init, syms).Some? {
      GridFailureIsFirst(table, states, init, syms);
    } else {
      GridFailureNoneIff(table, states, init, syms);
      RowFailureIsFirst(table, states, sts[|sts| - 1], syms);
    }
  }

  /** Conversely, the first failing pair in row order is the one reported. */
  lemma {:induction false} GridFailureAt(table: TransitionTable, states: seq<string>, sts: seq<string>, syms: seq<string>, i: nat, j: nat)
    requires i < |sts| && j < |syms|
    requires !RuleOk(table, states, sts[i], syms[j])
    requires forall i', j' :: 0 <= i' < i && 0 <= j' < |syms| ==> RuleOk(table, states, sts[i'], syms[j'])
    requires forall j' :: 0 <= j' < j ==> RuleOk(table, states, sts[i], syms[j'])
    ensures GridFailure(table, states, sts, syms) == CheckPair(table, states, sts[i], syms[j])
  {
    var init := sts[..|sts| - 1];
    assert forall k :: 0 <= k < |init| ==> init[k] == sts[k];
    if i < |sts| - 1 {
      GridFailureAt(table, states, init, syms, i, j);
    } else {
      GridFailureNoneIff(table, states, init, syms);
      RowFailureAt(table, states, sts[i], syms, j);
    }
  }

  lemma {:induction false} RowFailureAt(table: TransitionTable, states: seq<string>, state: string, syms: seq<string>, j: nat)
    requires j < |syms|
    requires !RuleOk(table, states, state, syms[j])
    requires forall j' :: 0 <= j' < j ==> RuleOk(table, states, state, syms[j'])
    ensures RowFailure(table, states, state, syms) == CheckPair(table, states, state, syms[j])
  {
    var init := syms[..|syms| - 1];
    assert forall k :: 0 <= k < |init| ==> init[k] == syms[k];
    if j < |syms| - 1 {
      RowFailureAt(table, states, state, init, j);
    } else {
      RowFailureNoneIff(table, states, state, init);
    }
  }

  /** A failure found on a prefix of the rows (or of a row) is the failure of
      the whole grid (or row). */
  lemma {:induction false} RowFailurePrefix(table: TransitionTable, states: seq<string>, state: string, syms: seq<string>, k: nat)
    requires k <= |syms| && RowFailure(table, states, state, syms[..k]).Some?
    ensures RowFailure(table, states, state, syms) == RowFailure(table, states, state, syms[..k])
  {
    if k < |syms| {
      assert syms[..|syms| - 1][..k] == syms[..k];
      RowFailurePrefix(table, states, state, syms[..|syms| - 1], k);
    } else {
      assert syms[..k] == syms;
    }
  }

  lemma {:induction false} GridFailurePrefix(table: TransitionTable, states: seq<string>, sts: seq<string>, syms: seq<string>, k: nat)
    requires k <= |sts| && GridFailure(table, states, sts[..k], syms).Some?
    ensures GridFailure(table, states, sts, syms) == GridFailure(table, states, sts[..k], syms)
  {
    if k < |sts| {
      assert sts[..|sts| - 1][..k] == sts[..k];
      GridFailurePrefix(table, states, sts[..|sts| - 1], syms, k);
    } else {
      assert sts[..k] == sts;
    }
  }

  /** The validator's inner step: a passing pair extends a passing prefix of
      the row. */
  lemma PassingPairExtendsRow(table: TransitionTable, states: seq<string>, state: string, syms: seq<string>, j: nat)
    requires j < |syms|
    requires RowFailure(table, states, state, syms[..j]) == None
    requires RuleOk(table, states, state, syms[j])
    ensures RowFailure(table, states, state, syms[..j + 1]) == None
  {
    assert syms[..j + 1][..j] == syms[..j] && syms[..j + 1][j] == syms[j];
  }

  /** The validator's outer step: a passing row extends a passing prefix of
      the rows. */
  lemma PassingRowExtendsGrid(table: TransitionTable, states: seq<string>, sts: seq<string>, syms: seq<string>, i: nat)
    requires i < |sts|
    requires GridFailure(table, states, sts[..i], syms) == None
    requires RowFailure(table, states, sts[i], syms) == None
    ensures GridFailure(table, states, sts[..i + 1], syms) == None
  {
    assert sts[..i + 1][..i] == sts[..i] && sts[..i + 1][i] == sts[i];
  }

  /** The validator's early exit: when every row before `i` and every pair of
      row `i` before `j` pass and the pair (i, j) fails, that failure is the
      grid's. */
  lemma FirstFailingPairIsReported(table: TransitionTable, states: seq<string>, sts: seq<string>, syms: seq<string>,
                                   i: nat, j: nat, f: ValidationFailure)
    requires i < |sts| && j < |syms|
    requires GridFailure(table, states, sts[..i], syms) == None
    requires RowFailure(table, states, sts[i], syms[..j]) == None
    requires CheckPair(table, states, sts[i], syms[j]) == Some(f)
    ensures GridFailure(table, states, sts, syms) == Some(f)
  {
    assert syms[..j + 1][..j] == syms[..j];
    assert RowFailure(table, states, sts[i], syms[..j + 1]) == Some(f);
    RowFailurePrefix(table, states, sts[i], syms, j + 1);
    assert sts[..i + 1][..i] == sts[..i] && sts[..i + 1][i] == sts[i];
    assert GridFailure(table, states, sts[..i + 1], syms) == Some(f);
    GridFailurePrefix(table, states, sts, syms, i + 1);
  }

  /** The table validates exactly when every normal state has a well-formed
      rule for the blank and for every declared symbol. */
  lemma ValidIffTotal(c: SimulatorState)
    ensures FirstFailure(c) == None <==>
              forall st, sym :: st in NormalStates(c.states) && sym in Alphabet(c.symbols) ==>
                RuleOk(c.table, c.states, st, sym)
  {
    var sts, syms := RequiredStates(c.states), RequiredSymbols(c.symbols);
    GridFailureNoneIff(c.table, c.states, sts, syms);
    if FirstFailure(c) == None {
      forall st, sym | st in NormalStates(c.states) && sym in Alphabet(c.symbols)
        ensures RuleOk(c.table, c.states, st, sym)
      {
        assert st in sts && sym in syms;
        var i :| 0 <= i < |sts| && sts[i] == st;
        var j :| 0 <= j < |syms| && syms[j] == sym;
      }
    }
  }

  /** Over the declared lists: when a pair fails and every pair before it (an
      earlier declared normal state, or the same state and an earlier symbol
      of the alphabet) passes, that pair's failure is the one reported. */
  lemma FirstFailureFollowsDeclaration(c: SimulatorState, st: string, sym: string)
    requires st in NormalStates(c.states) && sym in Alphabet(c.symbols)
    requires !RuleOk(c.table, c.states, st, sym)
    requires forall st', sym' ::
               st' in NormalStates(c.states) && sym' in Alphabet(c.symbols) &&
               (IndexOf(c.states, st') < IndexOf(c.states, st) ||
                (st' == st && IndexOf(Alphabet(c.symbols), sym') < IndexOf(Alphabet(c.symbols), sym)))
               ==> RuleOk(c.table, c.states, st', sym')
    ensures FirstFailure(c) == CheckPair(c.table, c.states, st, sym)
  {
    var sts, syms := RequiredStates(c.states), RequiredSymbols(c.symbols);
    var i :| 0 <= i < |sts| && sts[i] == st;
    var j :| 0 <= j < |syms| && syms[j] == sym;
    RequiredStatesFollowDeclaration(c.states);
    RequiredSymbolsFollowDeclaration(c.symbols);
    forall i', j' | 0 <= i' < i && 0 <= j' < |syms|
      ensures RuleOk(c.table, c.states, sts[i'], syms[j'])
    {
      assert sts[i'] in NormalStates(c.states) && syms[j'] in Alphabet(c.symbols);
    }
    forall j' | 0 <= j' < j
      ensures RuleOk(c.table, c.states, sts[i], syms[j'])
    {
      assert syms[j'] in Alphabet(c.symbols);
    }
    GridFailureAt(c.table, c.states, sts, syms, i, j);
  }

  /** A direction "S" (STAY, as the editor offers it) on any required pair makes
      the table invalid. */
  lemma StayDirectionIsRejected(c: SimulatorState, st: string, sym: string)
    requires st in NormalStates(c.states) && sym in Alphabet(c.symbols)
    requires Lookup(c.table, st, sym).Some? && Lookup(c.table, st, sym).value.direction == "S"
    ensures FirstFailure(c).Some?
  {
    ValidIffTotal(c);
    assert !RuleOk(c.table, c.states, st, sym);
  }

  /** The component after `validateTable`: status VALIDATED and no message when
      the table is complete, otherwise ERROR and the first failure's message. */
  function AfterValidation(c: SimulatorState): (r: SimulatorState)
    ensures r.table == c.table && r.states == c.states && r.symbols == c.symbols
    ensures r.initialState == c.initialState
    ensures r.sim == c.sim.(status := r.sim.status)
    ensures r.sim.status == Validated <==> FirstFailure(c) == None
    ensures r.sim.status == Error <==> FirstFailure(c).Some?
    ensures r.validationError == None <==> FirstFailure(c) == None
    ensures FirstFailure(c).Some? ==> r.validationError == Some(Message(FirstFailure(c).value))
  {
    var f := FirstFailure(c);
    c.(validationError := if f == None then None else Some(Message(f.value)),
       sim := c.sim.(status := if f == None then Validated else Error))
  }

  /** Validating again, with nothing edited in between, gives the same result. */
  lemma ValidationIsIdempotent(c: SimulatorState)
    ensures FirstFailure(AfterValidation(c)) == FirstFailure(c)
    ensures AfterValidation(AfterValidation(c)) == AfterValidation(c)
  {
  }

  /** `validateTable`: visits the required states in order and, for each, the
      required symbols in order, stopping at the first failing check. */
  method ValidateTable(c: SimulatorState) returns (isValid: bool, next: SimulatorState)
    ensures isValid <==> FirstFailure(c) == None
    ensures next == AfterValidation(c)
  {
    var requiredStates := RequiredStates(c.states);
    var requiredSymbols := RequiredSymbols(c.symbols);
    isValid := true;
    var errorMsg := "Transition Table is complete";
    ghost var failure: ValidationFailure := MissingTransition("", "");
    var i := 0;
    while i < |requiredStates|
      invariant 0 <= i <= |requiredStates|
      invariant isValid
      invariant GridFailure(c.table, c.states, requiredStates[..i], requiredSymbols) == None
    {
      var state := requiredStates[i];
      var j := 0;
      while j < |requiredSymbols|
        invariant 0 <= j <= |requiredSymbols|
        invariant isValid
        invariant RowFailure(c.table, c.states, state, requiredSymbols[..j]) == None
      {
        var symbol := requiredSymbols[j];
        var transition := Lookup(c.table, state, symbol);
        if transition.None? {
          isValid := false;
          errorMsg := "Missing transition for state " + state + ", Symbol: " + symbol;
          failure := MissingTransition(state, symbol);
          assert CheckPair(c.table, c.states, state, symbol) == Some(failure) && errorMsg == Message(failure);
          break;
        }
        var t := transition.value;
        if t.write == "" || t.nextState == "" || t.direction == "" {
          isValid := false;
          errorMsg := "Missing transition data for State: " + state + ", Symbol: " + symbol;
          failure := MissingData(state, symbol);
          assert CheckPair(c.table, c.states, state, symbol) == Some(failure) && errorMsg == Message(failure);
          break;
        }
        if t.nextState !in c.states {
          isValid := false;
          errorMsg := "Invalid next state " + t.nextState + " for State: " + state + ", Symbol: " + symbol;
          failure := InvalidNextState(t.nextState, state, symbol);
          assert CheckPair(c.table, c.states, state, symbol) == Some(failure) && errorMsg == Message(failure);
          break;
        }
        if t.direction !in ValidDirections {
          isValid := false;
          errorMsg := "Invalid direction " + t.direction + " for State: " + state + ", Symbol: " + symbol;
          failure := InvalidDirection(t.direction, state, symbol);
          assert CheckPair(c.table, c.states, state, symbol) == Some(failure) && errorMsg == Message(failure);
          break;
        }
        PassingPairExtendsRow(c.table, c.states, state, requiredSymbols, j);
        j := j + 1;
      }
      if !isValid {
        FirstFailingPairIsReported(c.table, c.states, requiredStates, requiredSymbols, i, j, failure);
        break;
      }
      assert requiredSymbols[..j] == requiredSymbols;
      PassingRowExtendsGrid(c.table, c.states, requiredStates, requiredSymbols, i);
      i := i + 1;
    }
    if isValid {
      assert requiredStates[..i] == requiredStates;
    }
    next := c.(validationError := if isValid then None else Some(errorMsg),
               sim := c.sim.(status := if isValid then Validated else Error));
  }

  // ---------------------------------------------------------------------------
  // Preparing the tape

  /** The characters JavaScript's `trim` strips: white space and line terminators. */
  predicate IsWhitespace(ch: char)
  {
    var n := ch as int;
    || 9 <= n <= 13 || n == 0x20 || n == 0xA0 || n == 0x1680
    || 0x2000 <= n <= 0x200A || n == 0x2028 || n == 0x2029
    || n == 0x202F || n == 0x205F || n == 0x3000 || n == 0xFEFF
  }

  /** Drops leading white space. */
  function TrimStart(s: string): (r: string)
    ensures |r| <= |s| && r == s[|s| - |r|..]
    ensures forall k :: 0 <= k < |s| - |r| ==> IsWhitespace(s[k])
    ensures r != [] ==> !IsWhitespace(r[0])
  {
    if s != [] && IsWhitespace(s[0]) then TrimStart(s[1..]) else s
  }

  /** Drops trailing white space. */
  function TrimEnd(s: string): (r: string)
    ensures |r| <= |s| && r == s[..|r|]
    ensures forall k :: |r| <= k < |s| ==> IsWhitespace(s[k])
    ensures r != [] ==> !IsWhitespace(r[|r| - 1])
  {
    if s != [] && IsWhitespace(s[|s| - 1]) then TrimEnd(s[..|s| - 1]) else s
  }

  /** `r` is `s` with the `i` leading and the remaining trailing white-space
      characters cut off. */
  predicate IsTrimOf(s: string, r: string, i: nat)
  {
    && i + |r| <= |s| && r == s[i..i + |r|]
    && (forall k :: 0 <= k < i ==> IsWhitespace(s[k]))
    && (forall k :: i + |r| <= k < |s| ==> IsWhitespace(s[k]))
    && (r != [] ==> !IsWhitespace(r[0]) && !IsWhitespace(r[|r| - 1]))
  }

  /** `input.trim()`: the input without its leading and trailing white space. */
  function Trim(s: string): (r: string)
    ensures exists i: nat :: IsTrimOf(s, r, i)
  {
    var front := TrimStart(s);
    var r := TrimEnd(front);
    assert IsTrimOf(s, r, |s| - |front|);
    r
  }

  /** Trimming twice is trimming once. */
  lemma {:induction false} TrimIsIdempotent(s: string)
    ensures Trim(Trim(s)) == Trim(s)
  {
    var r := Trim(s);
    if r != [] {
      assert TrimStart(r) == r;
      assert TrimEnd(r) == r;
    }
  }

  /** The tape `prepareTape` lays out: a blank, the trimmed input, three blanks. */
  function InitialTape(input: string): (tape: seq<string>)
    ensures |tape| == |Trim(input)| + 4
    ensures tape[0] == BlankSymbol
    ensures forall k :: |tape| - 3 <= k < |tape| ==> tape[k] == BlankSymbol
    ensures forall k :: 0 <= k < |Trim(input)| ==> tape[k + 1] == [Trim(input)[k]]
  {
    var t := Trim(input);
    var body := Chars(t);
    PaddedCells(body);
    [BlankSymbol] + body + [BlankSymbol, BlankSymbol, BlankSymbol]
  }

  /** The cells of a sequence padded with one blank in front and three behind. */
  lemma PaddedCells(body: seq<string>)
    ensures var tape := [BlankSymbol] + body + [BlankSymbol, BlankSymbol, BlankSymbol];
      && |tape| == |body| + 4 && tape[0] == BlankSymbol
      && (forall k :: |tape| - 3 <= k < |tape| ==> tape[k] == BlankSymbol)
      && (forall k :: 0 <= k < |body| ==> tape[k + 1] == body[k])
  {
  }

  /** `prepareTape`: a fresh tape for the input with the head on its first
      character, the start state, status IDLE, and the untrimmed input kept for
      later resets. */
  function PrepareTape(c: SimulatorState, input: string): (r: SimulatorState)
    ensures WellFormed(r.sim) && r.sim.headPosition == 1 < |r.sim.currentTape|
    ensures r.sim.currentTape == InitialTape(input)
    ensures r.sim.currentState == c.initialState && r.sim.status == Idle
    ensures r.sim.initialInput == input && r.sim.speed == c.sim.speed
    ensures r == c.(sim := r.sim)
    ensures r.sim == c.sim.(currentTape := InitialTape(input), headPosition := 1,
                            currentState := c.initialState, status := Idle, initialInput := input)
  {
    c.(sim := c.sim.(currentTape := InitialTape(input), headPosition := 1,
                     currentState := c.initialState, status := Idle, initialInput := input))
  }

  /** On the two-way-infinite tape the trimmed input sits at cells 1 to |t| and
      every other cell is blank. */
  lemma PreparedTapeView(input: string)
    ensures var tape, t := InitialTape(input), Trim(input);
      && (forall i :: (i < 1 || i > |t|) ==> Cell(tape, i) == BlankSymbol)
      && (forall k :: 0 <= k < |t| ==> Cell(tape, k + 1) == [t[k]])
  {
    var t := Trim(input);
    var body := Chars(t);
    var tape := [BlankSymbol] + body + [BlankSymbol, BlankSymbol, BlankSymbol];
    assert tape == InitialTape(input);
    forall i | i < 1 || i > |t| ensures Cell(tape, i) == BlankSymbol {
      if 0 <= i < |tape| {
        assert i == 0 || |t| < i;
      }
    }
    forall k | 0 <= k < |t| ensures Cell(tape, k + 1) == [t[k]] {
      assert tape[k + 1] == body[k];
    }
  }

  /** After preparing, the head reads the first character of the trimmed input,
      or a blank when the trimmed input is empty. */
  lemma PreparedHeadReadsFirstCharacter(c: SimulatorState, input: string)
    ensures var sim, t := PrepareTape(c, input).sim, Trim(input);
      ReadCell(sim.currentTape, sim.headPosition) == (if t == [] then BlankSymbol else [t[0]])
  {
  }

  // ---------------------------------------------------------------------------
  // Stepping

  /** `currentTape[head] || BLANK_SYMBOL`: a missing or empty cell reads as blank. */
  function ReadCell(tape: seq<string>, head: nat): (symbol: string)
    ensures symbol != ""
    ensures symbol == (if Cell(tape, head) == "" then BlankSymbol else Cell(tape, head))
  {
    if head < |tape| && tape[head] != "" then tape[head] else BlankSymbol
  }

  /** The head move: R is +1, L is -1, anything else (the editor's "S", the
      validator's "N") stays. */
  function Delta(direction: Move): (d: int)
    ensures -1 <= d <= 1
    ensures d == 0 <==> direction != "R" && direction != "L"
    ensures direction == "R" ==> d == 1
    ensures direction == "L" ==> d == -1
  {
    if direction == "R" then 1 else if direction == "L" then -1 else 0
  }

  /** The status after a rule fires, decided by its next state alone. */
  function StatusAfter(nextState: string): (s: Status)
    ensures s == Halt <==> nextState == Accepted
    ensures s == Reject <==> nextState == Rejected
    ensures s == Running <==> nextState != Accepted && nextState != Rejected
  {
    if nextState == Accepted then Halt else if nextState == Rejected then Reject else Running
  }

  function NoRuleMessage(state: string, symbol: string): string
  {
    "No transition defined for state " + state + " and symbol " + symbol
  }

  /** What one step does to a run. */
  function Step(prev: Simulation, table: TransitionTable): (next: Simulation)
    requires WellFormed(prev)
    ensures WellFormed(next)
    ensures next.speed == prev.speed && next.initialInput == prev.initialInput
    ensures prev.status == Error ==> next == prev
  {
    if prev.status == Error then prev
    else
      var symbol := ReadCell(prev.currentTape, prev.headPosition);
      match Lookup(table, prev.currentState, symbol)
      case None =>
        prev.(status := Reject, noRuleNote := Some(NoRuleMessage(prev.currentState, symbol)))
      case Some(t) =>
        var p := WriteAndMove(prev.currentTape, prev.headPosition, t.write, Delta(t.direction));
        prev.(currentTape := p.tape, headPosition := p.head,
              currentState := t.nextState, status := StatusAfter(t.nextState))
  }

  /** With no rule for the current state and the symbol under the head, a step
      only reports REJECT: tape, head and state stay as they were. */
  lemma StepWithoutRule(prev: Simulation, table: TransitionTable)
    requires WellFormed(prev) && prev.status != Error
    requires Lookup(table, prev.currentState, ReadCell(prev.currentTape, prev.headPosition)).None?
    ensures var next := Step(prev, table);
      && next.status == Reject && next.noRuleNote.Some?
      && next.currentTape == prev.currentTape && next.headPosition == prev.headPosition
      && next.currentState == prev.currentState
  {
  }

  /** With a rule, a step takes the rule's next state, whose name alone
      decides the status. */
  lemma StepWithRuleStatus(prev: Simulation, table: TransitionTable, t: Transition)
    requires WellFormed(prev) && prev.status != Error
    requires Lookup(table, prev.currentState, ReadCell(prev.currentTape, prev.headPosition)) == Some(t)
    ensures Step(prev, table).currentState == t.nextState
    ensures Step(prev, table).status == Halt <==> t.nextState == Accepted
    ensures Step(prev, table).status == Reject <==> t.nextState == Rejected
    ensures Step(prev, table).status == Running <==> t.nextState != Accepted && t.nextState != Rejected
  {
  }

  /** With a rule, a step writes its symbol under the head and moves the head
      by the rule's direction on the two-way-infinite tape; the tape grows by at
      most one blank (two from a head past the end) and the head stays on it. */
  lemma StepWithRuleTape(prev: Simulation, table: TransitionTable, t: Transition)
    requires WellFormed(prev) && prev.status != Error
    requires Lookup(table, prev.currentState, ReadCell(prev.currentTape, prev.headPosition)) == Some(t)
    ensures var next, h, d := Step(prev, table), prev.headPosition, Delta(t.direction);
      && next.headPosition < |next.currentTape|
      && |prev.currentTape| <= |next.currentTape| <= |prev.currentTape| + (if h < |prev.currentTape| then 1 else 2)
      && next.headPosition == h + d + Offset(h, d)
      && Cell(next.currentTape, h + Offset(h, d)) == t.write
      && (forall i :: i != h ==> Cell(next.currentTape, i + Offset(h, d)) == Cell(prev.currentTape, i))
  {
    var h, d := prev.headPosition, Delta(t.direction);
    var p := WriteAndMove(prev.currentTape, h, t.write, d);
    var next := Step(prev, table);
    assert next.currentTape == p.tape && next.headPosition == p.head;
    WriteAndMoveView(prev.currentTape, h, t.write, d);
  }

  /** `stepSimulation`: copies the tape, writes, moves the head and grows the
      copy at whichever end the head left, then returns the new run. */
  method StepSimulation(prev: Simulation, table: TransitionTable) returns (next: Simulation)
    requires WellFormed(prev)
    ensures next == Step(prev, table)
  {
    if prev.status == Error {
      return prev;
    }
    var currentSymbol := ReadCell(prev.currentTape, prev.headPosition);
    var transition := Lookup(table, prev.currentState, currentSymbol);
    if transition.None? {
      return prev.(status := Reject, noRuleNote := Some(NoRuleMessage(prev.currentState, currentSymbol)));
    }
    var t := transition.value;
    var newTape := prev.currentTape;
    if prev.headPosition < |newTape| {
      newTape := newTape[prev.headPosition := t.write];
    } else {
      newTape := newTape + [t.write];
    }
    var newHeadPos: int := prev.headPosition;
    if t.direction == "R" {
      newHeadPos := newHeadPos + 1;
    } else if t.direction == "L" {
      newHeadPos := newHeadPos - 1;
    }
    if newHeadPos < 0 {
      newTape := [BlankSymbol] + newTape;
      newHeadPos := 0;
    } else if newHeadPos >= |newTape| {
      newTape := newTape + [BlankSymbol];
    }
    var newStatus := Running;
    if t.nextState == Accepted {
      newStatus := Halt;
    } else if t.nextState == Rejected {
      newStatus := Reject;
    }
    next := prev.(currentTape := newTape, headPosition := newHeadPos,
                  currentState := t.nextState, status := newStatus);
  }

  // ---------------------------------------------------------------------------
  // Controls

  /** The Step button is enabled only in VALIDATED, IDLE and RUNNING. */
  predicate StepEnabled(status: Status)
  {
    status == Validated || status == Idle || status == Running
  }

  /** Pressing Step: one step when the button is enabled, nothing otherwise.
      HALT, REJECT and ERROR are final only through this guard. */
  function PressStep(c: SimulatorState): (r: SimulatorState)
    requires WellFormed(c.sim)
    ensures WellFormed(r.sim)
    ensures r == c.(sim := r.sim)
    ensures c.sim.status in {Halt, Reject, Error} ==> r == c
    ensures StepEnabled(c.sim.status) ==> r.sim == Step(c.sim, c.table)
  {
    if StepEnabled(c.sim.status) then c.(sim := Step(c.sim, c.table)) else c
  }

  /** The step itself guards only ERROR: a run halted in "halt" for which the
      table has no rule at the symbol under the head is turned into REJECT by
      one more step. */
  lemma StepAfterHaltIsNotFinal(prev: Simulation, table: TransitionTable)
    requires WellFormed(prev) && prev.status == Halt
    requires Lookup(table, prev.currentState, ReadCell(prev.currentTape, prev.headPosition)).None?
    ensures Step(prev, table).status == Reject
  {
    StepWithoutRule(prev, table);
  }

  /** `handleReset`: the last input is laid out again, in the start state, IDLE. */
  function HandleReset(c: SimulatorState): (r: SimulatorState)
    ensures r == PrepareTape(c, c.sim.initialInput)
    ensures r.sim.status == Idle && r.sim.headPosition == 1
    ensures r.sim.currentState == c.initialState && r.sim.initialInput == c.sim.initialInput
  {
    var prepared := PrepareTape(c, c.sim.initialInput);
    prepared.(sim := prepared.sim.(status := Idle, currentState := c.initialState))
  }

  /** Resetting twice is resetting once. */
  lemma ResetIsIdempotent(c: SimulatorState)
    ensures HandleReset(HandleReset(c)) == HandleReset(c)
  {
  }

  /** `handleRun`: validates; on success lays out the last input and starts
      RUNNING in the start state, on failure leaves the run in ERROR with the
      first failure's message and the tape untouched. */
  method HandleRun(c: SimulatorState) returns (r: SimulatorState)
    ensures r.table == c.table && r.states == c.states && r.symbols == c.symbols
    ensures r.initialState == c.initialState
    ensures FirstFailure(c) == None ==>
      r.sim == c.sim.(currentTape := InitialTape(c.sim.initialInput), headPosition := 1,
                      currentState := c.initialState, status := Running)
    ensures FirstFailure(c) == None ==>
      && r.sim.status == Running && r.validationError == None
      && r.sim.currentState == c.initialState && r.sim.headPosition == 1
      && r.sim.currentTape == InitialTape(c.sim.initialInput)
      && r.sim.initialInput == c.sim.initialInput
    ensures FirstFailure(c).Some? ==>
      && r.sim.status == Error && r.validationError == Some(Message(FirstFailure(c).value))
      && r.sim == c.sim.(status := Error)
  {
    var isValid, validated := ValidateTable(c);
    r := validated;
    if isValid {
      r := PrepareTape(r, r.sim.initialInput);
      r := r.(sim := r.sim.(status := Running, currentState := r.initialState));
    }
  }
}
