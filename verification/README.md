# Verification of libsd and of the data structures under its XML front end

libsd compiles system-dynamics equations, schedules them by dependency and integrates them with Euler steps. This
project models, in Dafny, the parts of it that carry invariants, and the structures of the vendored expat that its XML
reader relies on, and proves what they keep over whole runs.

- **Equations** (`Grammar`, `Lexer`, `Parser`, `Equation`, `Holes`, `Dependencies`, `Values`): the lexer with one token of
  look-ahead, the eight-level recursive-descent parser and its grammar, the dependency walker and the evaluator.
- **The simulator** (`Model`, `Scheduler`, `Calc`, `Run`, `Simulator`, `Table`, `Pulse`): scheduling, one pass of
  evaluation, the stock integrator and the run over a flat slab that keeps every `save_every`-th step.
- **What a run means** (`Euler`, `Conservation`, `Limits`): the plain Euler recurrence that the slab must show, closed
  systems, pulses, and models on which a run does something else.
- **Names and offsets** (`Layout`): module trees, slab offsets, qualified names and `resolve`.
- **Hash tables** (`Probe`, `OpenTable`, `HashTable`, `ExpatTable`): open addressing in general, then libsd's linear
  table and expat's double-hashed one.
- **Strings, namespaces, content models** (`StringPool`, `Lists`, `Bindings`, `ContentModel`, `Scaffold`,
  `ContentCopy`, `ElementDecl`): expat's string pool, the namespace binding stacks, and the path of an element
  declaration from its tokens through the scaffold to the flattened copy.

`double` is modelled as `real`; division by zero, remainder, powers, `atof` and `canonicalize` are arbitrary total
functions. A hash is an arbitrary function of the key. The outcome of an allocation is a parameter of the operation
that makes it. Pointers into a block are offsets; a linked list that is only pushed and popped at its head is a
sequence, and the invariants say that no element is on two lists, which is what the shared link field needs. Cells of
the scaffold read as an arbitrary constant until their fields are set.

Where the code and what one would expect of it differ, the model follows the code, and the condition is stated:

- The walk that collects dependencies reads through a null pointer where the parser has left a node out, as in
  `if 1 then 2`. `HolesAreSpelled` says for which texts it does; `New` reports it as an outcome of its own.
- `^` is in the first row of `BINARY` and binds loosest, `|` tightest; what follows an expression is ignored; a unary
  operator may lack its operand at the end of the text.
- A literal constant with a graphical function is looked up in `calc` but not in `calc_stocks`. `RefinementIsExact`
  gives the exact condition under which this does not show, and `RefinementCanFail` a model on which it does.
- When the save interval does not divide the last step, a whole run writes past the slab. `StaysInSlab` says exactly
  which runs do not, and `OverrunHappens` gives one that does; a run that does has no state in the model.
- Pulses closer together than a step are lost. `FiredStepsAreExact` gives the exact condition.
- `remove` leaves no tombstone. `RemoveExact` gives the exact condition under which later lookups stay right, and
  `RemoveCanLose` a table on which they do not.
- `resolve` enters the first submodule whose name begins with the wanted part. `ResolveQualName` gives the exact
  condition under which a qualified name leads back to its variable, and `ResolveCanMiss` a tree in which one does not.
- After mixed content `level` stays 1; the states never read it again before setting it.
- A string of length zero that is finished without a terminator has no characters to keep, so it is not recorded among
  the finished strings.

Check the project with `dafny verify dfyconfig.toml`.

## Model

| member | source | states |
|---|---|---|
| Euler.RefinementIsExact | sim.c:591-725 | a whole run from a reset context stays in its slab if and only if the plan fits, and then saves, in row j, the reference Euler state of step j*save_every, for time, constants, stocks, flows and auxiliaries, if and only if no literal constant is changed by a graphical function of its own (or the run has one step) |
| Euler.RunSavesSolution | sim.c:629-721 | the forward half, for any whole run that stays in its slab: the one-pass, in-place, subsampled run equals the Euler recurrence |
| Euler.RunTracks | sim.c:691-725 | wherever a run that stays in its slab stops, the rows saved so far are those of the Euler solution and the current row has its time, stocks and constants |
| Euler.SolutionIsUnique | sim.c:629-689 | a scheduled model has only one Euler solution of each length, so the reference is well defined |
| Euler.SavedSteps | sim.c:712-719 | every row below the current one belongs to an earlier step, and at a multiple of the interval the current row is the one of that step |
| Simulator.TakesStepsUpToStop | sim.c:600 | a run has step k if and only if the time of step k is no later than the stop time |
| Simulator.IntervalIsNearest | sim.c:602-603 | the save interval is the one whole number of steps, at least one, within half a step of the save step |
| Simulator.RowsAreMultiples | sim.c:604-606 | the slab has a row for each multiple of the interval that is the number of a step, and no other |
| Limits.RefinementCanFail | sim.c:629-689 | a model of one constant, raised by its own table, whose whole run saves something else than the Euler solution |
| Limits.OverrunHappens | sim.c:691-725 | four steps of which every second is saved: a whole run writes past the slab, a run to time 2 does not |
| Run.StaysInSlab | sim.c:691-725 | a run stays in the slab if and only if each step it takes has its next row there, or is the last one of a model that stores nothing |
| Run.RunStopsAt | sim.c:691-725 | a run stops at the first step later than its end, or at the last step, and the current row has the time of that step |
| Run.FitsTurnByTurn | sim.c:600-614 | every step has its next row in the slab if and only if the save interval divides the last step, or, with nothing stored, the step before it |
| Run.FitsStaysInSlab | sim.c:691-725 | such a plan is never run outside its slab, to whatever end and from whatever contents |
| Calc.PassIsTheSolution | sim.c:629-651 | after one pass over an ordered list every slot equals its own equation on the final row, and no other row extends the given slots that way |
| Calc.TablesApply | sim.c:646-648 | on a solved row a variable with a table has the height of a knot that its equation meets, and stays within the bounds of the heights; without one it has the value of its equation |
| Calc.PassIsIdempotent | sim.c:629-651 | running the pass again changes nothing |
| Calc.EquationReadsDeps | sim.c:183-218 | so an equation, with its table, depends only on the time and on the collected direct dependencies |
| Calc.StockPassValues | sim.c:653-689 | the stock pass writes every stored variable from the current row and nothing else |
| Equation.EvalReadsDeps | sim.c:788-895 | evaluation reads no slot outside the direct dependencies, in both branches of an `if`: the walk misses nothing |
| Dependencies.DepsAreMentioned | sim.c:183-236 | and collects nothing else: a variable is a direct dependency if and only if the equation mentions its name, otherwise than as that of a function |
| Dependencies.DepsInReadingOrder | parse.c:828-906 | the dependencies are the slots of the names among the symbols of the equation, in reading order, without those of functions |
| Dependencies.ParsedDeps | parse.c:75-110 | so a parsed equation depends on what was read of it, in that order |
| Values.Leaves | sim.c:788-800 | a number, a name and parentheses have the values they should; a name is that of the first variable that has it |
| Values.Arithmetic | sim.c:840-895 | a sum less one of its terms is the other, a difference plus what was taken away is what there was, a quotient times a divisor other than zero is the dividend; products and powers |
| Values.Signs | sim.c:826-838 | a minus cancels its operand, a plus leaves it |
| Values.Comparisons | sim.c:840-895 | each comparison is one exactly when its relation holds, and zero otherwise |
| Values.Logic | sim.c:826-895 | `not` is one exactly of zero; `and` and `or` take one, and only one, for true |
| Values.Branches | sim.c:818-825 | an `if` has the value of its first branch exactly when its condition is not zero, and that of the second otherwise |
| Values.Extremes | sim.c:1013-1033 | `min` and `max` are one of their two arguments and bound both |
| Values.Pulses | sim.c:985-1011 | what a pulse moves in one step is its first argument if an instant, given by the others, lies in the half-open step, and nothing otherwise |
| Values.CallsKnown | sim.c:64-69 | a call has a value when its function is one of the three and its arguments, six at most, have values |
| Values.DifferencesGoLeft | parse.c:444-510 | `a - b - c` is parsed, and is a less b less c |
| Values.SumsBeforeProducts | parse.c:51-61 | `a * b + c` is parsed, and is a times the sum of b and c |
| Values.ProductsBeforePowers | parse.c:51-61 | `a ^ b * c` is parsed, and is a to the power of the product of b and c |
| Values.ResolveFinds | sim.c:375-406 | in a flat model a name without dots is that of the first variable that has it, and a leading dot is ignored |
| Equation.AVarWalker.Visit | parse.c:828-906 | a visit gets through exactly the trees without missing children and appends their dependencies, as characterised by the rows on them, in order; on every other tree it reads the type of a missing node |
| Equation.AVarWalker.NodeWalk | parse.c:908-924 | only a missing root is refused; a null pointer is read exactly when a node below the root is missing |
| Holes.HolesAreSpelled | parse.c:512-617 | a parsed equation has a missing node if and only if what was read of it ends in a unary operator or has more `if`s than `else`s, so the walk gets through exactly the others |
| Holes.HolesHappen | parse.c:512-617 | `if 1 then 2` and `-` are parsed without an error to trees with a missing node |
| Equation.LinkedIsComplete | parse.c:828-906 | every equation the simulator can evaluate is one the walk gets through |
| Scheduler.Module.SortRunlists | sim.c:554-589 | the sort reports a circularity if and only if the dependency graph has a cycle; otherwise each variable but time is listed once, after all its dependencies, and flows and stocks split the list |
| Scheduler.Module.AddToRunlists | sim.c:507-552 | one depth-first visit keeps the lists closed under dependencies and fails only on a real cycle |
| Scheduler.ClosedIsAcyclic | sim.c:554-589 | a list in which every variable follows its dependencies leaves no room for a cycle |
| Scheduler.PartIsOrdered | sim.c:532-546 | flows and stocks keep the order of the initials |
| Scheduler.RunListsSplit | sim.c:532-546 | flows and stocks are complementary: each listed variable is on exactly one of them |
| Scheduler.PartsAddUp | sim.c:532-546 | the two lists together are as long as the initials |
| Run.PausingIsInvisible | sim.c:691-725 | running to t1 and then to t2 leaves the same slab and counters as running to t2, or the same overrun, also after the break on the last step |
| Run.SettleIsIdempotent | sim.c:703-708 | evaluating the last step again finds everything settled |
| Run.CeilDivNext | sim.c:712-719 | the saved-row counter is the step divided by the interval, rounded up, at every step |
| Simulator.Sim.DoReset | sim.c:591-625 | the flat slab after a reset is the abstract reset state, every access in bounds |
| Simulator.Sim.Calc | sim.c:629-651 | the in-place pass over a row of the slab changes that row only, to the pass of the row |
| Simulator.Sim.CalcStocks | sim.c:653-689 | the stock loop reads the current row and rewrites only the next one, and writes nothing when nothing is stored |
| Simulator.Sim.DoRunTo | sim.c:691-725 | the loop over the slab with its pointers is the abstract run, wherever that stays in the slab |
| Simulator.Sim.DoRunToEnd | sim.c:726-732 | the whole run of a plan that fits ends at the last step up to the stop time, and the slab is then the saved Euler solution, under exactly the condition above |
| Simulator.Compile | sim.c:408-435 | a null pointer is read if and only if some equation has a missing node below its root; otherwise the model compiles if and only if every variable has an equation and every flow name resolves, and the dependencies are those of the equations |
| Simulator.Init | sim.c:240-290 | the same for one variable |
| Simulator.New | sim.c:437-484 | creation reads a null pointer exactly on a missing node, fails with the unspecified error exactly when no node is missing but some variable does not compile, with the circular error exactly when some equations mention each other in a circle, and otherwise returns a reset context |
| Simulator.CyclesAreMentioned | sim.c:507-552 | the cycles of the graph that is sorted are the circles of equations that mention one another |
| Simulator.StepsEndByStop | sim.c:597-600 | every step of a run starts by the stop time, so the run to stop+1 is a whole run |
| Simulator.EveryStepSavedFits | sim.c:602-607 | a save step below one and a half steps saves every step, and then the slab always suffices |
| Conservation.ClosedSystemConserves | sim.c:653-689 | when every flow occurs equally often as an inflow and as an outflow, the sum of all stocks is the same at every step |
| Conservation.RunConserves | sim.c:691-725 | any stretch of any run of such a model, from any slab and whatever its constants: rows saved before stay, and every row from the one where the run takes up to the one where it stops has the total it took up with |
| Conservation.SavedRowsConserve | sim.c:691-725 | so, wherever a run from a reset context stops, every saved row and the current one have the initial total |
| Conservation.SumAtIgnoresOrder | sim.c:667-674 | the net of some flows does not depend on their order |
| Conservation.PulseStockConserves | sim.c:985-1011 | a stock fed only by a pulse, whose arguments are expressions over numbers and literal constants, has risen at step k by one magnitude for each pulse instant at or before the time of step k-1 |
| Conservation.RunShowsPulses | sim.c:691-725 | and a run shows that on every row it has saved and on the current one, wherever it stops |
| Pulse.RtPulse | sim.c:985-1011 | the loop ends and returns the rate exactly on the steps that deliver a pulse |
| Pulse.FiresIffInstant | sim.c:1000-1010 | a step fires if and only if some pulse instant lies in the half-open step that ends at it |
| Pulse.OneInstantPerStep | sim.c:985-1011 | with instants at least a step apart, a step fires once for the one instant that became due |
| Pulse.FiredStepsAreExact | sim.c:985-1011 | the firing steps of every run count the pulse instants if and only if the interval is zero or less, or at least a step |
| Pulse.CloseInstantsAreLost | sim.c:985-1011 | closer instants are lost: a concrete run length at which fewer steps have fired |
| Table.LookupAt | util.c:168-208 | the search loop returns the table value on any table, sorted or not, without an access out of range |
| Table.BisectIsFirst | util.c:185-196 | on increasing knots the search finds the first knot at or beyond the index |
| Table.HitsKnots | util.c:197-200 | every knot is hit |
| Table.Interpolates | util.c:201-205 | between two knots the value is on the line through them |
| Table.InProportion | util.c:201-205 | between two knots the value rises in proportion to the distance from the first one |
| Table.EmptyTable | util.c:171-173 | a table without knots is zero |
| Table.Clamps | util.c:178-183 | outside the knots the value is that of the nearest end |
| Table.Bounded | util.c:168-208 | the value stays within the bounds of the heights |
| Table.Monotone | util.c:168-208 | non-decreasing heights give a non-decreasing function, across segments |
| Table.MonotoneDown | util.c:168-208 | non-increasing heights give a non-increasing function |
| Table.LookupNegates | util.c:168-208 | a table upside down gives every value upside down |
| Grammar.ParseIsTheGrammar | parse.c:444-658 | the parser yields a tree and a rest if and only if the tree is grammatical, spells exactly what was consumed, and the rest may follow it |
| Grammar.ParseFailsExactly | parse.c:75-110 | it fails exactly when no prefix of the tokens is such a tree |
| Grammar.Unambiguous | parse.c:444-658 | no two grammatical trees are spelled alike |
| Grammar.HigherRowBindsTighter | parse.c:51-61 | of two operators the one in the higher row binds tighter, and a row associates to the left |
| Grammar.SampleSentence | parse.c:512-658 | one sentence with every construct but operators, and its tree |
| Grammar.OneRow | parse.c:51-61 | no operator is in two rows |
| Grammar.OperatorRows | parse.c:51-61 | which operator is in which row, for all runes |
| Grammar.UnaryOperators | parse.c:544-560 | the runes that may stand before an operand are +, - and !, and no other |
| Parser.Parser.Expr | parse.c:444-510 | the loop over a row and the recursion over the levels compute the grammar function, and terminate |
| Parser.Parser.Fact | parse.c:512-617 | parentheses, unary operators, numbers, `if` and names, as the grammar function says |
| Parser.Parser.CallPart | parse.c:619-658 | the argument loop of a call |
| Parser.AvarEqnParse | parse.c:75-110 | a text parses exactly when some prefix of its tokens is a tree of the grammar, and then to that tree; the rest is ignored |
| Lexer.PiecesPartition | parse.c:186-313 | lexemes and the blanks and comments between them partition the text in order |
| Lexer.PiecesAreBlank | parse.c:292-313 | what is before a lexeme is spaces and whole comments, as many as there are: no lexeme begins with a space or a comment |
| Lexer.SkipIsLongest | parse.c:292-313 | skipping goes on exactly as long as there are spaces and comments |
| Lexer.Lexer.NextTok | parse.c:186-275 | each call returns the next token of the text, as split by the rows above, and leaves the rest |
| Lexer.Lexer.Peek | parse.c:162-184 | looking ahead changes nothing that is still to come |
| Lexer.Interleave | parse.c:162-275 | any interleaving of the two calls delivers the same tokens as the consuming one alone |
| Lexer.Lexer.LexNumber | parse.c:327-376 | the number loop delivers the longest number that begins where it starts |
| Lexer.NumberIsLongest | parse.c:327-376 | a lexeme is the longest number there is: a digit or dot, digits with at most one dot, and perhaps `e` and digits with at most one dot |
| Lexer.Lexer.LexIdent | parse.c:378-442 | the identifier loop, quoted or not, reads the longest identifier that begins where it starts and delivers what it stands for |
| Lexer.IdentIsLongest | parse.c:378-442 | a lexeme is the longest identifier there is: a word, or a quote, any rune, and words and blanks up to a closing quote or the first other rune |
| Lexer.OperatorEnds | parse.c:226-257 | an operator has two runes exactly when it is ==, <=, <> or >= |
| Lexer.LexemesMean | parse.c:258-442 | the words not, and, or and mod and the two-rune operators stand for one rune each; if, then and else are reserved; every other lexeme stands for itself |
| Lexer.LowerLetters | parse.c:112-130 | capital letters are read as the small ones of the same place, everything else as it is |
| Layout.AssignOffsets | sim.c:486-505 | the offsets of the simulated variables of a module tree are consecutive, in order, from the given one |
| Layout.OffsetsFollowPaths | sim.c:486-505 | of two simulated variables the one that is written first in the tree has the smaller offset |
| Layout.LeafHasPath | sim.c:486-505 | each variable that gets an offset is a simulated variable of the tree, at the end of a path |
| Layout.GetVarnames | sim.c:924-943 | the names are the qualified names of the first max variables, in that order |
| Layout.NamesFollowOffsets | sim.c:924-943 | so the name at a position is that of the variable at that offset |
| Layout.AVarQualName | sim.c:111-147 | the cached name is the right one, whatever was cached before |
| Layout.ResolveQualName | sim.c:375-406 | resolving the qualified name of a variable finds the variable if and only if no earlier submodule on the way has a name that begins with the one to be entered |
| Layout.ResolveExact | sim.c:375-406 | the same for the dotted name of any path through the tree |
| Layout.LeadingDot | sim.c:375-406 | a leading dot is ignored |
| Layout.ResolveFindsName | sim.c:375-406 | whatever is found has a name that the wanted one ends in |
| Layout.ResolveCanMiss | sim.c:375-406 | a submodule `ab` before the submodule `a` hides `a.x` |
| Layout.FlatResolve | sim.c:375-406 | without submodules it is the first-name search by which the equations of the simulator find their slots |
| HashTable.HashTable.Insert | hash_table.c:217-237 | an insertion updates the finite map; the table doubles exactly when the key is new and the load passes three fifths, once, and the doubling never nests a second one |
| HashTable.HashTable.Lookup | hash_table.c:239-257 | a lookup is the lookup of the finite map |
| HashTable.HashTable.Index | hash_table.c:56-77 | probing always finds a slot, so the failure value is never returned |
| HashTable.WrapIsHarmless | hash_table.c:63-66 | the wrap-around of the 64-bit sum does not change the slot |
| HashTable.HashTable.DoubleTable | hash_table.c:186-215 | doubling keeps the map |
| HashTable.HashTable.Remove | hash_table.c:259-282 | removing frees the slot of the key; the table still agrees with the map if and only if no other entry has a probe that crosses that slot |
| OpenTable.RemoveExact | hash_table.c:259-282 | the exact condition, for any probing scheme |
| HashTable.NextFreeIsSafe | hash_table.c:259-282 | it is enough that the next slot, cyclically, is free |
| HashTable.PushedOutIsUnsafe | hash_table.c:259-282 | it fails whenever the next slot holds a key that was pushed out of the freed one |
| HashTable.RemoveCanLose | hash_table.c:259-282 | a concrete table that loses an entry |
| OpenTable.IterationIsTheMap | hash_table.c:299-342 | a whole iteration meets each entry of the map once, and nothing else |
| HashTable.TableIter.Next | hash_table.c:313-342 | each call gives the next used entry, or ends the iteration when the sizes have changed |
| Probe.VisitsEverySlot | expat/lib/xmlparse.c:117-128 | an odd step over a power-of-two table visits every slot within one round |
| OpenTable.ProbeStops | expat/lib/xmlparse.c:5990-6001 | with fewer entries than slots every probe stops |
| OpenTable.StoreUpdates | expat/lib/xmlparse.c:6038-6045 | storing an entry where its probe stops updates the map and loses no other entry |
| ExpatTable.StepIsOdd | expat/lib/xmlparse.c:117-128 | the probe step is odd and less than a quarter of the table |
| ExpatTable.StepBits | expat/lib/xmlparse.c:117-128 | bit by bit: the step is odd, and its other bits are those of the hash that the slot does not show, up to a quarter of the table and to a byte |
| ExpatTable.StepBackIsNext | expat/lib/xmlparse.c:5995-5997 | stepping back by the probe step is the next slot of an odd-stride probe |
| ExpatTable.ProbeLoop | expat/lib/xmlparse.c:5990-5998 | the probing loop ends where the probe sequence stops |
| ExpatTable.Rehash | expat/lib/xmlparse.c:6003-6031 | growth moves every entry to the bigger table and loses none |
| ExpatTable.HashTable.Lookup | expat/lib/xmlparse.c:5969-6046 | a stored name always gives its entry; a new one is added exactly when asked for and the allocations succeed; a failure loses nothing; the table has 64 slots at first, doubles exactly when it is half full, and is never more than that |
| ExpatTable.HashTable.Clear | expat/lib/xmlparse.c:6048-6057 | clearing empties the table at its size |
| StringPool.Pool.Grow | expat/lib/xmlparse.c:6209-6271 | success leaves room for one more character, keeps the open string and every finished one in place; failure changes nothing and needs a failed allocation |
| StringPool.Pool.Reallocate | expat/lib/xmlparse.c:6235-6251 | a reallocated block holds no finished string |
| StringPool.Pool.MoveToFree | expat/lib/xmlparse.c:6222-6233 | the open string moves to a bigger free block, the finished strings stay |
| StringPool.Pool.AppendChar | expat/lib/xmlparse.c:454-457 | the open string gets one character more, or stays |
| StringPool.Pool.Chop | expat/lib/xmlparse.c:450 | the open string loses its last character |
| StringPool.Pool.LastChar | expat/lib/xmlparse.c:451 | the last character of the open string, without an access out of range |
| StringPool.Pool.Append | expat/lib/xmlparse.c:6144-6158 | the open string goes on with the text, or with the part before a failed allocation |
| StringPool.Pool.CopyString | expat/lib/xmlparse.c:6160-6170 | the open string and the copied one with its terminator are finished together, at the place that is returned |
| StringPool.Pool.CopyStringN | expat/lib/xmlparse.c:6172-6184 | the same without a terminator |
| StringPool.Pool.AppendString | expat/lib/xmlparse.c:6186-6195 | appending up to a failed allocation |
| StringPool.Pool.StoreString | expat/lib/xmlparse.c:6197-6207 | the text and its terminator, left open |
| StringPool.Pool.Finish | expat/lib/xmlparse.c:453 | the open string stays where it is for good |
| StringPool.Run | expat/lib/xmlparse.c:6096-6271 | over any run of appends, finishes, discards and grows every finished string keeps its place and contents, the finished texts are those the operations spell, and the open string is what was appended since the last finish or discard |
| StringPool.RunOn | expat/lib/xmlparse.c:447-457 | what a run spells goes on where it stopped |
| StringPool.Pool.Clear | expat/lib/xmlparse.c:6107-6125 | every block becomes free, none is lost |
| Bindings.Scopes.AddBinding | expat/lib/xmlparse.c:3046-3161 | a declaration is refused exactly when the namespace constraints forbid it; otherwise, memory allowing, it becomes the innermost one of its prefix, and nothing changes in scope on an error |
| Bindings.Scopes.AddPrefix | expat/lib/xmlparse.c:5411-5424 | a prefix that is new to the table is not bound |
| Bindings.Check | expat/lib/xmlparse.c:3079-3120 | which error which illegal declaration gets |
| Bindings.Compare | expat/lib/xmlparse.c:3101-3112 | the one-pass comparison with the two reserved names decides both equalities |
| Bindings.Scopes.CloseElement | expat/lib/xmlparse.c:2536-2544 | an end tag moves the bindings of its element to the free list, one by one, and leaves those of the elements around it in scope |
| Bindings.Scopes.Unbind | expat/lib/xmlparse.c:2481-2489 | each round puts back the binding that was hidden and the newest one on the free list |
| Bindings.Scopes.Content | expat/lib/xmlparse.c:2481-2544 | after any run of tags the declarations in scope are those of the open elements; a well-nested run leaves every prefix bound to the very binding from before |
| Bindings.NestedRunRestores | expat/lib/xmlparse.c:2536-2544 | a run that ends every element it starts leaves the declarations around it in scope |
| Bindings.Scopes.BoundAsDeclared | expat/lib/xmlparse.c:3145-3155 | at every point a prefix is bound to the name of its innermost declaration, and to nothing when there is none or it is the empty name |
| Bindings.MeaningOfFlat | expat/lib/xmlparse.c:3145-3155 | looking through the elements is looking through the stack of declarations |
| Bindings.Scopes.Recycle | expat/lib/xmlparse.c:3124-3135 | a free binding is reused with a buffer that is long enough |
| ContentModel.AcceptsTheGrammar | expat/lib/xmlrole.c:1002-1212 | the element states with the connector checks accept exactly the content specifications of sections 3.2.1 and 3.2.2 of XML 1.0, each with the content it spells |
| ContentModel.SampleContent | expat/lib/xmlrole.c:1002-1212 | one declaration with both separators and all quantifiers, and its tree |
| ContentModel.RunSpells | expat/lib/xmlrole.c:1002-1212 | at every point the tokens read are those that the open groups spell |
| ContentModel.RunParticle | expat/lib/xmlrole.c:1136-1212 | a particle is read where one is expected, whatever follows |
| ElementDecl.PrologState.NextRole | expat/lib/xmlrole.c:1002-1288 | each state gives the role of the token and moves to the state of the declaration so far; level counts the open groups, but stays 1 after mixed content |
| ElementDecl.PrologState.Element7State | expat/lib/xmlrole.c:1166-1212 | after a particle: separators and the four ways to close |
| ElementDecl.Builder.NextScaffoldPart | expat/lib/xmlparse.c:6273-6319 | a new cell is linked to its parent and to the sibling before it; growth keeps the cells |
| ElementDecl.Builder.OpenGroupPart | expat/lib/xmlparse.c:4422-4454 | a group opens at the next level with no connector and an empty sequence cell |
| ElementDecl.Builder.ChoicePart | expat/lib/xmlparse.c:4462-4475 | a choice is refused exactly in a group that has shown a comma |
| ElementDecl.Builder.SequencePart | expat/lib/xmlparse.c:4455-4461 | a sequence is refused exactly in a group that has shown a bar |
| ElementDecl.Builder.AddElement | expat/lib/xmlparse.c:4602-4637 | a name becomes the last child of the innermost group and is counted with its terminator |
| ElementDecl.Builder.CloseInner | expat/lib/xmlparse.c:4639-4657 | a closed group is the last child of the group around it |
| ElementDecl.Declaration.Token | expat/lib/xmlparse.c:4422-4668 | one token keeps states, level, connectors, scaffold, indices and counts in step with the declaration, and is refused exactly when the grammar refuses it |
| ElementDecl.Declaration.Parse | expat/lib/xmlparse.c:4559-4668 | a declaration that ends hands over a block that says what its tokens spell, with each node and each character read exactly once; a syntax error means the tokens begin no legal declaration |
| Scaffold.OpenLinks | expat/lib/xmlparse.c:6305-6318 | the links written for a new cell are those of the layout of the open groups |
| Scaffold.ChildJoins | expat/lib/xmlparse.c:6305-6318 | the cells of a particle at the end become those of a child |
| Scaffold.GroupCloses | expat/lib/xmlparse.c:4654-4655 | setting the quantifier of the innermost cell closes its group |
| ContentCopy.BuildNode | expat/lib/xmlparse.c:6321-6357 | the node, the block of its children and what is below them, each written once, and the names in order |
| ContentCopy.BuildModel | expat/lib/xmlparse.c:6359-6378 | the copy uses exactly scaffCount nodes and contentStringLen characters and reads back as the particle tree, each node and each character once |
| ContentCopy.LayoutReads | expat/lib/xmlparse.c:6321-6357 | a block laid out like that reads back as the particle, with each child list and each name where its own stretch begins |
| ContentCopy.PlacesOnce | expat/lib/xmlparse.c:6321-6357 | the nodes read for a particle are its own one and those of its stretch, each once, so no two particles share a node and none is left over |
| ContentCopy.SpansInOrder | expat/lib/xmlparse.c:6321-6357 | the characters read are those of its stretch, front to back, so no two names share one |

## Left out

- Modules and references in the simulator: the run refinement is for flat models whose identifiers all resolve, since dependencies through references are not followed across modules; offsets, names and `resolve` are modelled over whole trees.
- Simulator.Sim.DoRunTo: stated for runs that stay in the slab, because what the code does after a write past it is not defined.
- Simulator.New: assumes that names and functions in complete equations are known, because the code prints a message and goes on with a null pointer when they are not; that no second variable is called `time` and has no equation; and that the specification converts to non-negative counts.
- A run of zero steps, whose first row is nevertheless written: covered by the run lemmas, not by the refinement.
- HashTable.HashTable.Insert: assumes that a table about to double has fewer than 2^58 slots, because the loop bound is computed in 64 bits.
- HashTable.HashTable.Remove: the callbacks that release keys and values, and reference counts.
- Lexer.Lexer.NextTok: ASCII only, with the spaces that libutf knows there; not malformed UTF-8, Unicode classes or line counters.
- Parser error messages and the truncation of calls to six arguments beyond what evaluation needs.
- IEEE rounding, infinities, NaN and integer overflow of counters.
- `slice_append` growth, reference counts, `free`, and the XML reader, writer and builders of libsd.
- ExpatTable.HashTable.Lookup: the salted hash itself, the width of `size_t`, and the freeing of the old table.
- StringPool.Pool.Append: for an encoding that converts character by character; conversions that stop before a block is full are not modelled, nor the overflow of block sizes.
- Bindings.Scopes.Content: tag names, attributes other than declarations, the namespace handlers, and the reuse of the buffer of a name for expanded element names.
- ElementDecl.Declaration.Parse: parameter-entity references inside a declaration, and declarations read while no handler is set; the end of the declaration (`>`).
- The rest of expat: tokenizer, encodings, entities, handlers, and its ports.
- compat/ and siphash.c: locks, memory mapping and bit mixing.
