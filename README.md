# Turing-machine simulator engine in Dafny

This project models the execution engine of a single-tape Turing-machine
simulator. The engine exists in two versions, and both are modelled:

- **The simulator page** (`app/simulator/page.tsx`, module `SimulatorPage` in
  `simulator.dfy`). It holds a nested transition table `state -> symbol -> rule`
  that is edited one field at a time. A validator checks that every normal
  state has a well-formed rule for the blank and for every declared symbol.
  Tape preparation lays out `_ input ___`. A single step reads, writes, moves
  and grows the tape by one blank at an end, then sets the status. The Run,
  Reset and Step controls chain these together. The component's React state is
  one record, `SimulatorState`, that every operation takes and returns.
- **The `TuringMachine` class** (`lib/machine.tsx`, module `Machine` in
  `machine.dfy`). It is a Dafny class whose `Step` method updates the fields
  `tape`, `head` and `currentState` in place. It has no stay move, it throws
  when no rule applies (modelled as a `Failure` result that changes nothing),
  and it does not pad its input. The driver script `lib/examples.tsx` runs it
  on "1111" until it halts, and `DemoRun` proves that run's outcome.

Both engines share the tape logic in `tape.dfy` (module `Tape`). The tape is
a finite sequence standing for a two-way-infinite tape of blanks (`Cell`). A
step writes at the head, moves the head by -1, 0 or +1, and grows the
sequence by one blank when the head leaves it. The lemmas show that, on the
infinite tape, a step changes only the cell under the head and moves the head
by exactly the requested amount. The old cells are only renumbered when a
blank is prepended. `types.dfy` holds the declarations of `lib/types.tsx`, and
`wrappers.dfy` holds `Option` and `Result`.

Directions are plain strings (`Move = string`). The editor offers "L", "R" and
"S". The validator accepts only "L", "R" and "N". The page's step treats
anything but "R" and "L" as stay. The class treats anything but "R" as left.

Points where the code behaves differently from what one might expect, all
modelled as the code does them:

- The page's step function guards only ERROR. A run in HALT is turned into
  REJECT by one more step, because "halt" has no rules
  (`StepAfterHaltIsNotFinal`). HALT, REJECT and ERROR are final only because
  the Step button is disabled in those statuses (`PressStep`).
- The page starts with an empty tape and head 0. A step from there first
  writes one past the end, giving a one-cell tape. With "R" it then appends a
  blank, and with "L" it prepends one (head 0), so the tape grows by two cells
  in that step. With any other direction the head stays and the tape grows by
  one. Every step from a head on the tape grows it by at most one
  (`StepWithRuleTape`).
- A "S" (STAY) direction chosen in the editor fails validation
  (`StayDirectionIsRejected`).
- An unmapped transition is a soft REJECT on the page but a thrown error in
  the class.

## Model

| member | source | states |
|---|---|---|
| `Tape.WriteAt` | app/simulator/page.tsx:189-190 | writing at the head keeps the length, or adds exactly one cell when the head is one past the end, and puts the symbol at the head |
| `Tape.WriteAtView` | lib/machine.tsx:26 | on the two-way-infinite tape, a write changes the cell under the head and no other cell |
| `Tape.MoveAndGrow` | app/simulator/page.tsx:192-204 | after the move the head is on the tape; the tape grew by one cell exactly when the head fell off the left end or reached the right end; the head moved by delta plus the offset of a prepended cell |
| `Tape.MoveAndGrowView` | app/simulator/page.tsx:199-204 | prepending or appending a blank leaves every cell of the infinite tape unchanged, only renumbered by the offset |
| `Tape.WriteAndMove` | lib/machine.tsx:26-34 | one step keeps the head on the tape and never shrinks it; the tape grows by at most one cell, or two when the head started one past the end |
| `Tape.WriteAndMoveView` | lib/machine.tsx:26-34 | on the infinite tape, a step puts the written symbol where the head was, keeps every other cell, and moves the head by exactly delta |
| `Tape.GrowthIsOneBlankAtAnEnd` | lib/machine.tsx:29-34 | with the head on the tape, the new tape is the written tape, or it with one blank in front, or it with one blank at the end |
| `SimulatorPage.Initial` | app/simulator/page.tsx:33-58 | the first render has an empty tape with head 0 (well-formed), status IDLE, an empty table, and a start state that is a normal state |
| `SimulatorPage.NormalStates` | app/simulator/page.tsx:39-42 | the normal states are exactly the declared states other than "halt" and "reject"; there are none only when every declared state is terminal; a single declared state is kept exactly when it is not terminal |
| `SimulatorPage.NormalStatesOfConcat` | app/simulator/page.tsx:39-42 | filtering two lists joined is joining the two filtered lists, so the filter keeps the declared order |
| `SimulatorPage.NormalStatesKeepOrder` | app/simulator/page.tsx:39-42 | two normal states occur first in the filtered list in the same order as in the declared list |
| `SimulatorPage.Dedup` | app/simulator/page.tsx:94-95 | iterating a `Set` visits each element of the list exactly once, and the first element comes first |
| `SimulatorPage.DedupKeepsFirstOccurrenceOrder` | app/simulator/page.tsx:94-101 | the validator visits states and symbols in the order of their first declaration |
| `SimulatorPage.RequiredStatesFollowDeclaration` | app/simulator/page.tsx:94-101 | the validator visits the normal states in the order of their first declaration, each once |
| `SimulatorPage.RequiredSymbols` | app/simulator/page.tsx:43-46 | the validator's symbols start with the blank |
| `SimulatorPage.RequiredSymbolsFollowDeclaration` | app/simulator/page.tsx:95-101 | the validator visits the blank and then the declared symbols in the order of their first occurrence, each once |
| `SimulatorPage.StartStateFallback` | app/simulator/page.tsx:60-64 | only the start state changes; a normal start state is kept; a start state that is not normal becomes the first normal state, or "q0" when there is no normal state or the first one is empty |
| `SimulatorPage.StartStateFallbackSettles` | app/simulator/page.tsx:60-64 | running the effect again on its own result changes nothing |
| `Types.Lookup` | app/simulator/page.tsx:102 | a rule is found exactly when the state has a row and the row has the symbol, and it is the rule stored there |
| `Types.LookupAfterStore` | app/simulator/page.tsx:70-81 | storing a rule in a state's row (a fresh row for a new state) makes it the rule found at that key and leaves every other key's rule as it was |
| `SimulatorPage.MergeRule` | app/simulator/page.tsx:74-79 | each field is the supplied one, else the existing rule's, else "" (write, next state) or "R" (direction); so supplying all three gives exactly those, and supplying none keeps an existing rule |
| `SimulatorPage.UpdateTable` | app/simulator/page.tsx:68-86 | the merged rule exists at (state, symbol); supplied fields override; unsupplied fields keep old values or default to "", "" and "R"; every other key looks up as before; the message is cleared and the status is IDLE |
| `SimulatorPage.UpdateTableFieldwise` | app/simulator/page.tsx:74-79 | supplying all three fields replaces the rule; supplying none leaves the table exactly as it was |
| `SimulatorPage.CheckPair` | app/simulator/page.tsx:102-128 | a pair passes exactly when its rule exists, has non-empty fields, a declared next state and a direction in L, R, N; a failure names that pair; the failure is "missing transition" exactly when there is no rule, "missing data" exactly when the rule has an empty field, "invalid next state" exactly when the fields are filled and the next state is undeclared, and "invalid direction" exactly when, in addition, the next state is declared and the direction is not L, R or N; the last two carry the offending value |
| `SimulatorPage.MessageNamesPair` | app/simulator/page.tsx:104-127 | every failure message ends with the offending state, ", Symbol: " and the offending symbol |
| `SimulatorPage.RowFailure` | app/simulator/page.tsx:101-129 | a failure reported for a row belongs to that row's state and to one of its symbols |
| `SimulatorPage.GridFailure` | app/simulator/page.tsx:100-134 | a failure reported for the grid belongs to one of its states and one of its symbols |
| `SimulatorPage.FirstFailure` | app/simulator/page.tsx:92-134 | a failure the validator reports is for a normal state and a symbol of the alphabet (blank included) |
| `SimulatorPage.RowFailureNoneIff` | app/simulator/page.tsx:101-129 | a row reports no failure if and only if every symbol of it has a well-formed rule |
| `SimulatorPage.GridFailureNoneIff` | app/simulator/page.tsx:100-134 | the grid reports no failure if and only if every (state, symbol) pair has a well-formed rule |
| `SimulatorPage.RowFailureIsFirst` | app/simulator/page.tsx:101-108 | a row's reported failure is that of one of its symbols, and all symbols before it pass |
| `SimulatorPage.GridFailureIsFirst` | app/simulator/page.tsx:100-134 | a reported failure is that of some pair; every earlier row and every earlier symbol of its row pass |
| `SimulatorPage.RowFailureAt` | app/simulator/page.tsx:101-129 | the first failing symbol of a row is the one reported |
| `SimulatorPage.GridFailureAt` | app/simulator/page.tsx:100-134 | the first failing pair in state-then-symbol order is the one reported |
| `SimulatorPage.PassingPairExtendsRow` | app/simulator/page.tsx:101-129 | a well-formed rule at the next symbol extends a passing prefix of a row to a longer passing prefix |
| `SimulatorPage.PassingRowExtendsGrid` | app/simulator/page.tsx:100-134 | a passing row extends a passing prefix of the states to a longer passing prefix |
| `SimulatorPage.FirstFailingPairIsReported` | app/simulator/page.tsx:104-133 | breaking out of both loops at the first failing pair reports that pair's failure for the whole grid |
| `SimulatorPage.FirstFailureFollowsDeclaration` | app/simulator/page.tsx:92-134 | over the declared lists: a failing pair all of whose predecessors (earlier declared normal states, then earlier alphabet symbols of the same state) pass is the failure reported |
| `SimulatorPage.ValidIffTotal` | app/simulator/page.tsx:92-134 | the table validates if and only if every normal state has a well-formed rule for the blank and every declared symbol |
| `SimulatorPage.StayDirectionIsRejected` | app/simulator/page.tsx:124 | a rule with the editor's "S" direction on a required pair makes validation fail |
| `SimulatorPage.AfterValidation` | app/simulator/page.tsx:135-140 | validation changes only the message and the status: VALIDATED with no message if and only if there is no failure, else ERROR with the first failure's message |
| `SimulatorPage.ValidationIsIdempotent` | app/simulator/page.tsx:92-141 | validating an unchanged table again gives the same failure and the same component |
| `SimulatorPage.ValidateTable` | app/simulator/page.tsx:92-141 | the nested loops with early exits return true exactly when there is no failure, and produce the component of `AfterValidation` |
| `SimulatorPage.Trim` | app/simulator/page.tsx:146 | the trimmed input is a contiguous slice of the input; only white space is cut on either side; it neither starts nor ends with white space |
| `SimulatorPage.TrimIsIdempotent` | app/simulator/page.tsx:146 | trimming twice is trimming once |
| `SimulatorPage.InitialTape` | app/simulator/page.tsx:148-154 | the prepared tape has length of the trimmed input plus 4, starts with a blank, ends with three blanks, and holds the input's characters from cell 1 |
| `SimulatorPage.PrepareTape` | app/simulator/page.tsx:144-163 | only the run changes: the new tape, head 1 on it, the start state, status IDLE, and the untrimmed input kept; speed and note are kept |
| `SimulatorPage.PreparedTapeView` | app/simulator/page.tsx:146-154 | on the infinite tape the trimmed input sits at cells 1 to its length and every other cell is blank |
| `SimulatorPage.PreparedHeadReadsFirstCharacter` | app/simulator/page.tsx:159 | after preparing, the head reads the first input character, or a blank for an empty input |
| `SimulatorPage.ReadCell` | app/simulator/page.tsx:172 | the page reads the infinite tape's cell, except that an empty-string cell reads as the blank; it never reads "" |
| `SimulatorPage.Delta` | app/simulator/page.tsx:192-197 | the move is +1 for "R", -1 for "L", and 0 exactly for every other direction |
| `SimulatorPage.StatusAfter` | app/simulator/page.tsx:206-211 | the status is HALT exactly for "halt", REJECT exactly for "reject", RUNNING otherwise |
| `SimulatorPage.Step` | app/simulator/page.tsx:166-221 | a step keeps the run well-formed, keeps speed and input, and returns an ERROR run unchanged |
| `SimulatorPage.StepWithoutRule` | app/simulator/page.tsx:168-185 | with no rule for the state and symbol read, the status becomes REJECT with a note, and tape, head and state are unchanged |
| `SimulatorPage.StepWithRuleStatus` | app/simulator/page.tsx:206-218 | with a rule, the new state is the rule's next state, and the status is HALT, REJECT or RUNNING as that name alone says |
| `SimulatorPage.StepWithRuleTape` | app/simulator/page.tsx:187-204 | with a rule, the head stays on the tape and the tape grows by at most one cell (two from the initial empty tape); on the infinite tape the written symbol replaces the one under the head, all other cells are kept, and the head moves by the rule's delta |
| `SimulatorPage.StepSimulation` | app/simulator/page.tsx:166-221 | the step over a copied tape (assign, unshift, push) produces exactly the run `Step` specifies |
| `SimulatorPage.PressStep` | app/simulator/page.tsx:386-390 | pressing Step keeps the run well-formed and changes only the run; in VALIDATED, IDLE or RUNNING the run becomes `Step`'s result; in HALT, REJECT or ERROR it changes nothing |
| `SimulatorPage.StepAfterHaltIsNotFinal` | app/simulator/page.tsx:166-185 | the step function itself turns every HALT run with no rule for its state and the symbol under the head into REJECT |
| `SimulatorPage.HandleReset` | app/simulator/page.tsx:247-254 | reset is preparation with the last input: head 1, the start state, status IDLE |
| `SimulatorPage.ResetIsIdempotent` | app/simulator/page.tsx:247-254 | resetting twice is resetting once |
| `SimulatorPage.HandleRun` | app/simulator/page.tsx:236-245 | the table, declarations and start state never change; a complete table gives the old run with the freshly prepared last input, head 1, the start state and RUNNING, every other run field (speed, input, note) kept, and no message; an incomplete one leaves the run unchanged but for ERROR, with the first failure's message |
| `Machine.Read` | lib/machine.tsx:17 | the class reads exactly the infinite tape's cell, an empty-string cell included |
| `Machine.ReadsDifferOnlyOnEmptyCells` | lib/machine.tsx:17 | the two engines read the same symbol except on a cell holding "", which the class reads as "" and the page as the blank |
| `Machine.Delta` | lib/machine.tsx:27 | the class always moves: +1 exactly for "R", -1 for every other direction |
| `Machine.Next` | lib/machine.tsx:16-38 | a step fails exactly when no rule exists for the state and the symbol read, and the error names them |
| `Machine.NextMovesOneCell` | lib/machine.tsx:26-36 | a successful step takes the rule's next state; the head stays on a tape that grew by at most one cell (two from a head past the end); on the infinite tape the head moves exactly one cell, never stays, and only the cell it left changes, to the written symbol |
| `Machine.HaltingAgreesWithPage` | lib/machine.tsx:36-45 | after a step with a rule, the machine is in its accept or reject state exactly when the rule leads there; with "halt" and "reject" as those states, exactly when the page's step would leave RUNNING |
| `Machine.TuringMachine.constructor` | lib/machine.tsx:9-14 | the tape is the input's characters with no padding, the head is 0, and the state is the start state |
| `Machine.TuringMachine.Step` | lib/machine.tsx:16-39 | on a missing rule it returns the error and changes no field; otherwise it returns true, the fields become `Next`'s result, and the machine is halted afterwards exactly when the applied rule's next state is the accept or the reject state |
| `Machine.TuringMachine.Halted` | lib/machine.tsx:41-46 | halted exactly when the current state is the accept or the reject state; `Step` ties this to the rule just applied, and `DemoRun` stops on it after five steps |
| `Machine.DemoTraceSteps` | lib/examples.tsx:4-19 | each of the first five steps of the demo machine on "1111" leads to the next traced configuration |
| `Machine.DemoRun` | lib/examples.tsx:21-26 | running the demo until halted takes 5 steps and ends with tape XXXX__, head 5, in "halt" |

## Left out

- Rendering, styling and `getStatusClass` (app/simulator/page.tsx:257-651) are presentation only.
- The timed auto-run effect (app/simulator/page.tsx:223-234) only calls the step again and again on a timer. Timers are outside the model, and single steps are modelled.
- The React hooks are not modelled. The component state is one explicit record, and each setter is a record update applied in order.
- The editor's input handlers are not modelled: renaming, adding and removing states or symbols, upper-casing, and the five-symbol limit. They are UI event glue. Their effect on validation is covered because the declared lists may hold anything, duplicates and "_" included.
- JavaScript property lookup through the object prototype is not modelled. For example, a state named "constructor" finds an inherited property. The table is a plain map.
- Strings are sequences of Unicode scalar values, so UTF-16 code-unit splitting is not modelled. `trim` strips the ECMAScript white-space and line-terminator characters.
- The `console.log` calls of the driver and of `getStatusClass` are left out, because they are output only.
- The configuration fields `states`, `alphabet` and `tapeAlphabet` are carried but never read, because the class never reads them.
- SimulatorPage.Step: requires the head to be on the tape or one past its end. Every reachable run satisfies this (`Initial`, `PrepareTape` and `Step` establish or keep it). Writes beyond that point, which would leave holes in a JavaScript array, are not modelled.
- SimulatorPage.StepSimulation: has the same precondition as `Step`, for the same reason.
