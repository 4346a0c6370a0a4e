/** The tape both engines use: a finite sequence of cells that stands for a
    two-way-infinite tape of blanks. A step writes at the head, moves the head
    and grows the sequence by one blank cell when the head leaves it. */
module Tape {

  /** The blank symbol (`BLANK_SYMBOL` of the simulator page, the literal "_"
      of the machine class). */
  const Blank: string := "_"

  /** One cell per character, as `s.split("")` and `[...s]` build them. */
  function Chars(s: string): (cells: seq<string>)
    ensures |cells| == |s|
    ensures forall i :: 0 <= i < |s| ==> cells[i] == [s[i]]
  {
    seq(|s|, i requires 0 <= i < |s| => [s[i]])
  }

  /** The two-way-infinite tape the sequence stands for: blank outside it. */
  function Cell(tape: seq<string>, i: int): string
  {
    if 0 <= i < |tape| then tape[i] else Blank
  }

  /** Writes `sym` at `head`. A head one past the end extends the sequence by
      that cell, as an assignment to index `length` of a JavaScript array does. */
  function WriteAt(tape: seq<string>, head: nat, sym: string): (written: seq<string>)
    requires head <= |tape|
    ensures |written| == if head < |tape| then |tape| else |tape| + 1
    ensures written[head] == sym
  {
    if head < |tape| then tape[head := sym] else tape + [sym]
  }

  /** Writing changes the two-way-infinite tape at the head and nowhere else. */
  lemma WriteAtView(tape: seq<string>, head: nat, sym: string)
    requires head <= |tape|
    ensures Cell(WriteAt(tape, head, sym), head) == sym
    ensures forall i :: i != head ==> Cell(WriteAt(tape, head, sym), i) == Cell(tape, i)
  {
  }

  datatype Placement = Placement(tape: seq<string>, head: nat)

  /** How far the old cells move right when the head is moved by `delta`:
      one cell when the head falls off the left end, otherwise none. */
  function Offset(head: nat, delta: int): nat
  {
    if head + delta < 0 then 1 else 0
  }

  /** Moves the head by `delta`. Falling off the left end prepends one blank and
      pins the head to 0; reaching the right end appends one blank. */
  function MoveAndGrow(tape: seq<string>, head: nat, delta: int): (p: Placement)
    requires head < |tape| && -1 <= delta <= 1
    ensures 0 <= p.head < |p.tape|
    ensures |p.tape| == if head + delta < 0 || head + delta == |tape| then |tape| + 1 else |tape|
    ensures p.head == head + delta + Offset(head, delta)
  {
    var h := head + delta;
    if h < 0 then Placement([Blank] + tape, 0)
    else if h >= |tape| then Placement(tape + [Blank], h)
    else Placement(tape, h)
  }

  /** Moving and growing leaves the two-way-infinite tape as it was: every cell
      keeps its symbol, renumbered by the offset. */
  lemma MoveAndGrowView(tape: seq<string>, head: nat, delta: int)
    requires head < |tape| && -1 <= delta <= 1
    ensures forall i :: Cell(MoveAndGrow(tape, head, delta).tape, i + Offset(head, delta)) == Cell(tape, i)
  {
  }

  /** One step's effect on the tape: write `sym` at the head, then move by `delta`. */
  function WriteAndMove(tape: seq<string>, head: nat, sym: string, delta: int): (p: Placement)
    requires head <= |tape| && -1 <= delta <= 1
    ensures 0 <= p.head < |p.tape|
    ensures |tape| <= |p.tape| <= |tape| + (if head < |tape| then 1 else 2)
    ensures p.head == head + delta + Offset(head, delta)
  {
    MoveAndGrow(WriteAt(tape, head, sym), head, delta)
  }

  /** On the two-way-infinite tape a step puts `sym` where the head was, leaves
      every other cell as it was (renumbered by the offset) and moves the head
      by exactly `delta`. */
  lemma {:induction false} WriteAndMoveView(tape: seq<string>, head: nat, sym: string, delta: int)
    requires head <= |tape| && -1 <= delta <= 1
    ensures var p, k := WriteAndMove(tape, head, sym, delta), Offset(head, delta);
      && p.head - k == head + delta
      && Cell(p.tape, head + k) == sym
      && forall i :: i != head ==> Cell(p.tape, i + k) == Cell(tape, i)
  {
    var written := WriteAt(tape, head, sym);
    WriteAtView(tape, head, sym);
    MoveAndGrowView(written, head, delta);
  }

  /** The tape never shrinks, and while the head is on it a step adds at most
      one cell, always a blank at one of the two ends. */
  lemma {:induction false} GrowthIsOneBlankAtAnEnd(tape: seq<string>, head: nat, sym: string, delta: int)
    requires head < |tape| && -1 <= delta <= 1
    ensures var p := WriteAndMove(tape, head, sym, delta);
      || (|p.tape| == |tape| && p.tape == WriteAt(tape, head, sym))
      || (|p.tape| == |tape| + 1 && p.tape[0] == Blank && p.tape[1..] == WriteAt(tape, head, sym))
      || (|p.tape| == |tape| + 1 && p.tape[|tape|] == Blank && p.tape[..|tape|] == WriteAt(tape, head, sym))
  {
    var written := WriteAt(tape, head, sym);
    var h := head + delta;
    if h < 0 {
      assert ([Blank] + written)[1..] == written;
    } else if h >= |written| {
      assert (written + [Blank])[..|tape|] == written;
    }
  }
}
