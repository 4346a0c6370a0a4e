/** The standalone machine of lib/machine.tsx: a class whose `step` updates its
    tape, head and state in place. Unlike the simulator page it has no stay
    move, throws when no rule applies, and does not pad the input. */
module Machine {
  import opened Wrappers
  import opened Types
  import opened Tape
  import SimulatorPage

  /** The machine's mutable fields, as one value. */
  datatype Snapshot = Snapshot(tape: seq<string>, head: nat, state: string)

  /** `tape[head] ?? "_"`: only a cell past the end reads as blank, so the
      class reads exactly the two-way-infinite tape's cell, "" included. */
  function Read(tape: seq<string>, head: nat): (symbol: string)
    ensures symbol == Cell(tape, head)
  {
    if head < |tape| then tape[head] else Blank
  }

  /** The head move: R is +1 and every other direction is -1. */
  function Delta(direction: Move): (d: int)
    ensures d == 1 || d == -1
    ensures d == 1 <==> direction == "R"
  {
    if direction == "R" then 1 else -1
  }

  function NoRuleError(state: string, symbol: string): string
  {
    "No transition for state \"" + state + "\" reading \"" + symbol + "\"."
  }

  /** What `step` does to the fields: the new fields, or the error it throws. */
  function Next(transitions: TransitionTable, s: Snapshot): (r: Result<Snapshot, string>)
    requires s.head <= |s.tape|
    ensures r.Failure? <==> Lookup(transitions, s.state, Read(s.tape, s.head)).None?
    ensures r.Failure? ==> r.error == NoRuleError(s.state, Read(s.tape, s.head))
  {
    match Lookup(transitions, s.state, Read(s.tape, s.head))
    case None => Failure(NoRuleError(s.state, Read(s.tape, s.head)))
    case Some(rule) =>
      var p := WriteAndMove(s.tape, s.head, rule.write, Delta(rule.direction));
      Success(Snapshot(p.tape, p.head, rule.nextState))
  }

  /** A successful step writes the rule's symbol, always moves the head one
      cell (never stays) on the two-way-infinite tape, keeps the head on a tape
      that grew by at most one blank (two from a head past the end), and takes
      the rule's next state. */
  lemma NextMovesOneCell(transitions: TransitionTable, s: Snapshot, rule: Transition)
    requires s.head <= |s.tape|
    requires Lookup(transitions, s.state, Read(s.tape, s.head)) == Some(rule)
    ensures Next(transitions, s).Success?
    ensures var n, k := Next(transitions, s).value, Offset(s.head, Delta(rule.direction));
      && n.state == rule.nextState
      && n.head < |n.tape|
      && |s.tape| <= |n.tape| <= |s.tape| + (if s.head < |s.tape| then 1 else 2)
      && n.head - k == s.head + Delta(rule.direction) != s.head
      && Cell(n.tape, s.head + k) == rule.write
      && (forall i :: i != s.head ==> Cell(n.tape, i + k) == Cell(s.tape, i))
  {
    var d := Delta(rule.direction);
    var p := WriteAndMove(s.tape, s.head, rule.write, d);
    var n := Next(transitions, s).value;
    assert n == Snapshot(p.tape, p.head, rule.nextState);
    WriteAndMoveView(s.tape, s.head, rule.write, d);
  }

  /** The two engines read the same symbol except on a cell holding "": the
      class reads "" there and the page reads the blank. */
  lemma ReadsDifferOnlyOnEmptyCells(tape: seq<string>, head: nat)
    ensures SimulatorPage.ReadCell(tape, head) == (if Read(tape, head) == "" then Blank else Read(tape, head))
    ensures Read([""], 0) == "" && SimulatorPage.ReadCell([""], 0) == Blank
  {
  }

  /** A successful step halts the machine exactly when the applied rule leads
      to the accept or the reject state; with the page's names for those two
      states, that is exactly when the page's step leaves RUNNING. */
  lemma HaltingAgreesWithPage(config: MachineConfig, s: Snapshot, rule: Transition)
    requires s.head <= |s.tape|
    requires Lookup(config.transitions, s.state, Read(s.tape, s.head)) == Some(rule)
    ensures Next(config.transitions, s).Success?
    ensures var n := Next(config.transitions, s).value;
      n.state == config.acceptState || n.state == config.rejectState <==>
        rule.nextState == config.acceptState || rule.nextState == config.rejectState
    ensures config.acceptState == SimulatorPage.Accepted && config.rejectState == SimulatorPage.Rejected ==>
      var n := Next(config.transitions, s).value;
      (n.state == config.acceptState || n.state == config.rejectState <==>
        SimulatorPage.StatusAfter(rule.nextState) != SimulatorPage.Running)
  {
    NextMovesOneCell(config.transitions, s, rule);
  }

  class TuringMachine {
    var tape: seq<string>
    var head: int
    var currentState: string
    const config: MachineConfig

    ghost predicate Valid()
      reads this
    {
      0 <= head <= |tape|
    }

    function Fields(): (s: Snapshot)
      reads this
      requires Valid()
    {
      Snapshot(tape, head, currentState)
    }

    /** The input's characters, unpadded, with the head on the first one. */
    constructor (config: MachineConfig, input: string)
      ensures Valid()
      ensures tape == Chars(input) && head == 0 && currentState == config.startState
      ensures this.config == config
    {
      this.tape := Chars(input);
      this.head := 0;
      this.currentState := config.startState;
      this.config := config;
    }

    /** `step`: on a missing rule the thrown error, with nothing changed;
        otherwise true and the fields `Next` gives. */
    method Step() returns (r: Result<bool, string>)
      requires Valid()
      modifies this
      ensures Valid()
      ensures match Next(config.transitions, old(Fields()))
        case Success(s) => r == Success(true) && Fields() == s
        case Failure(e) => r == Failure(e) && Fields() == old(Fields())
      ensures r.Success? ==>
        && Lookup(config.transitions, old(currentState), Read(old(tape), old(head))).Some?
        && (Halted() <==>
              var rule := Lookup(config.transitions, old(currentState), Read(old(tape), old(head))).value;
              rule.nextState == config.acceptState || rule.nextState == config.rejectState)
    {
      var symbol := if head < |tape| then tape[head] else Blank;
      var rule := Lookup(config.transitions, currentState, symbol);
      if rule.None? {
        return Failure(NoRuleError(currentState, symbol));
      }
      var t := rule.value;
      if head < |tape| {
        tape := tape[head := t.write];
      } else {
        tape := tape + [t.write];
      }
      head := head + (if t.direction == "R" then 1 else -1);
      if head < 0 {
        tape := [Blank] + tape;
        head := 0;
      } else if head >= |tape| {
        tape := tape + [Blank];
      }
      currentState := t.nextState;
      r := Success(true);
    }

    /** `halted`: the machine is in its accept or its reject state. */
    function Halted(): (b: bool)
      reads this
      ensures b <==> currentState == config.acceptState || currentState == config.rejectState
    {
      currentState == config.acceptState || currentState == config.rejectState
    }
  }

  /** The driver's configuration: replace every 1 by X, halt on the blank. */
  function DemoConfig(): MachineConfig
  {
    MachineConfig(
      ["q0", "halt"], ["0", "1"], ["1", "X", Blank],
      map["q0" := map["1" := Transition("q0", "X", "R"), Blank := Transition("halt", Blank, "R")],
          "halt" := map[], "reject" := map[]],
      "q0", "halt", "reject")
  }

  /** The fields after `n` steps of the driver on "1111". */
  function DemoTrace(n: nat): Snapshot
    requires n <= 5
  {
    match n
    case 0 => Snapshot(["1", "1", "1", "1"], 0, "q0")
    case 1 => Snapshot(["X", "1", "1", "1"], 1, "q0")
    case 2 => Snapshot(["X", "X", "1", "1"], 2, "q0")
    case 3 => Snapshot(["X", "X", "X", "1"], 3, "q0")
    case 4 => Snapshot(["X", "X", "X", "X", Blank], 4, "q0")
    case 5 => Snapshot(["X", "X", "X", "X", Blank, Blank], 5, "halt")
  }

  lemma {:induction false} DemoTraceSteps(n: nat)
    requires n < 5
    ensures Next(DemoConfig().transitions, DemoTrace(n)) == Success(DemoTrace(n + 1))
  {
    var s := DemoTrace(n);
    var t := DemoConfig().transitions;
    var rule := if n < 4 then Transition("q0", "X", "R") else Transition("halt", Blank, "R");
    assert Read(s.tape, s.head) == (if n < 4 then "1" else Blank);
    assert Lookup(t, s.state, Read(s.tape, s.head)) == Some(rule);
    var p := WriteAndMove(s.tape, s.head, rule.write, Delta(rule.direction));
    assert Next(t, s) == Success(Snapshot(p.tape, p.head, rule.nextState));
    match n
    case 0 => assert p.tape == DemoTrace(1).tape;
    case 1 => assert p.tape == DemoTrace(2).tape;
    case 2 => assert p.tape == DemoTrace(3).tape;
    case 3 => assert p.tape == DemoTrace(4).tape;
    case 4 => assert p.tape == DemoTrace(5).tape;
  }

  /** The driver: run the demo machine on "1111" until it halts. It stops after
      five steps with tape XXXX__, the head on the last cell, in "halt". */
  method DemoRun() returns (steps: nat, tape: seq<string>, head: int, state: string)
    ensures steps == 5 && tape == ["X", "X", "X", "X", Blank, Blank]
    ensures head == 5 && state == "halt"
  {
    var tm := new TuringMachine(DemoConfig(), "1111");
    steps := 0;
    assert tm.Fields() == DemoTrace(0);
    while !tm.Halted()
      invariant steps <= 5 && tm.Valid() && tm.config == DemoConfig()
      invariant tm.Fields() == DemoTrace(steps)
      decreases 5 - steps
    {
      DemoTraceSteps(steps);
      var _ := tm.Step();
      steps := steps + 1;
    }
    tape, head, state := tm.tape, tm.head, tm.currentState;
  }
}
