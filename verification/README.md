# BBQ: a verified model

BBQ describes binary formats: a grammar of structs, unions, arrays, bitfields and intervals is
checked by a front end, lowered to a graph of continuations, and run over a byte string by a
small CEK machine with backtracking. Its C runtime supplies the containers, all of which
allocate through an allocator that may refuse any request. This project models four parts of
it and proves what they promise.

* **The parsing machine and the lowering that feeds it.** `Machine` is the transition function
  and `CekMachine.Cek` the object whose methods realise it; `Compile` and `Lowering` are the
  lowering, as functions and as the loops that build the chains. `Denote` gives grammars a
  meaning of their own, in the style of parsing expression grammars, and the main theorems say
  that machine and meaning agree on every grammar of the fragment and every input: acceptance
  with the same position, bindings, endianness, windows and captures, rejection, and never
  ending. Every state of every run is safe: the live windows form a chain inside the input. The
  fragment excludes a grammar only for a `where` whose static jump goes astray (see Findings),
  an unresolved rule name, an empty bitfield, or `resync` with `count(n)` or `until`.
* **Static analyses and wire decoding.** The termination check and what it buys, the rule sort,
  the LEB128 loops against the grammars of section 5.2.2 of the WebAssembly Core
  Specification, and bitfields that tile their container.
* **The containers of `crt/`.** A lazily expanded 16-way trie, an open-addressed map, a chained
  dictionary over the trie, a page arena, a vector and a buffer, each a class against a finite
  map or sequence and a ledger of live blocks. A refused request leaves the contents as they
  were, nothing is refused without a cause, and every block goes back at the size it was taken
  at.
* **The owning-path fold of the renderer**, as a transformation of an op list that keeps every
  run and gives each op it keeps the path of the scopes open around it.

## How to read it

The C and C++ objects that update fields are classes with those fields; their loops are loops.
Pointers are modelled by addresses and paths. Expressions, types and grammars are datatypes,
and the recursive descents over them are functions. In the machine `frames[0]` is the top of
the frame list, `k` is the control stack with its top last, and a compiled kont is a label into
one code sequence. A denotation has a `fuel`, spent on rule calls and on loop iterations; the
theorems quantify over it, so no result depends on a bound.

Some functions are shared by the two sides of an equivalence: the scalar operators and the wire
reads by machine and denotation, path and slot names by the fold's loops and their
specification. Each is fixed by laws of its own: `Operators`, `WireLaws` and `PathPlaces`.

`Refine.RunType` is the simulation for one type at any nesting. It carries more than the top
theorems state: a failed attempt leaves position, bindings, endianness, window depth and
captures as they were, and the frame stack on success is the one at entry.

## Findings

Two properties the code does not have, with inputs and with the condition under which it has
them.

* **A failed `where` is not always a failure.** A false check jumps to a handler fixed at
  compile time (`backends/cek/Machine.cpp:996-1002`), and the handler acts on the innermost
  savepoint without dropping the frames above it (`backends/cek/Machine.cpp:1602-1606`). The
  comment there says that this ends where the dynamic walk would. `WhereJump.MachineHaltsEarly`
  and `WhereJump.DenotationReads` give a grammar the language can express, and one byte of
  input, on which the machine accepts without reading the second field of its main rule.
  `WhereScope.JumpAgreesIff` says for every handler the lowering can choose, and across rule
  calls, exactly when the two routes end alike. `WhereScope.StandingDecides` says how much of
  that a grammar decides: a check stands soundly directly under its target's savepoint, in
  plain elements inside an optional body, or, whatever elements and last arms surround it,
  where its rule offers nothing to jump to and every call of the rule stands soundly. There
  the routes agree in every state; anywhere else they do not, unless a savepoint stands at the
  end of its window. The fragment of the machine theorems (`World.Fragment`) asks of every
  check that it stand soundly, and nothing more.
* **The termination check clears types that need not consume**
  (`frontend/Sema.cpp:956-1019`), in two ways. It takes a union without variants, which is
  lowered to nothing (`backends/cek/bbq_compile.h:894-952`), for one that reads:
  `Endless.EmptyUnionSpins` shows the machine running for ever on `array(eof) of union {}`
  exactly when the input is not empty. And it does not look at intervals:
  `Endless.RewindSpins` shows it running for ever on
  `array(eof) of struct { x: bool @[a, b] }` exactly when the window fits the input and bytes
  are left after it. With empty unions counted as reading nothing the check is sound wherever
  no [start, end] interval can be reached (`Progress.Consumes`); that stricter check refuses
  whatever the code's check refuses, and is the same check where no empty union can be reached
  (`Progress.Checks`). It is exact where the outcome of a parse without input left turns on
  names that can be bound freely (`Exact.Simple`: rules that do not recurse, structs, unions,
  optionals, switches on a name, arrays with separators, widths and counts that are literals or
  names): such a type consumes on every success if and only if it clears it
  (`Exact.ConsumesIff`), and a separated element does if and only if the array passes
  (`Exact.RepeatsIff`).

Two comments that the code does not bear out: an optional rule reference is said to be guarded
(`frontend/Sema.cpp:340-343`) while the code treats it as unguarded, and the trie's keys, said
to be 32-bit in the map's header comment, are 64-bit. The model follows the code.

## Model

| member | source | states |
|---|---|---|
| Theorems.AcceptsIff | backends/cek/Machine.cpp:185-230 | for every grammar of the fragment and every input, the compiled program halts in a state with K and frames empty and a given core exactly when the grammar's meaning is success with that core |
| Theorems.RejectsIff | backends/cek/Machine.cpp:158-183 | the run fails exactly when the meaning is failure |
| Theorems.NeverEndsIff | backends/cek/Machine.cpp:200-230 | the machine runs for ever exactly when no amount of fuel gives the meaning an answer |
| Theorems.EveryStateSafe | backends/cek/Machine.h:118-129 | in every reachable state the live windows are a chain, each inside the one below and inside the input, and the cursor is in the innermost one except after a failure or between a seek and the evaluation of an interval's end |
| ExprProof.RunExpr | backends/cek/bbq_compile.h:1355-1611 | from K plus a compiled expression the run reaches K with the evaluator's value, or fail() exactly when evaluation errs, in at most three steps per node, changing nothing but the accumulator and fresh cells |
| ExprProof.RunBin | backends/cek/Machine.cpp:341-412 | right operand before left, each activation with a cell of its own |
| ExprProof.RunLogic | backends/cek/Machine.cpp:652-700 | the second operand of `and` and `or` runs only when the first does not decide, and the result is a boolean |
| ExprProof.RunCall | backends/cek/Machine.cpp:724-756 | arguments run left to right into cells of their own, whatever cells the arguments use |
| Operators.Division | backends/cek/Machine.cpp:420-453 | quotient and remainder rebuild the dividend, the remainder is smaller than the divisor and has the dividend's sign, and a zero divisor errs |
| Operators.Sums | backends/cek/Machine.cpp:388-418 | addition counts on by ones; subtraction and negation undo it |
| Operators.Products | backends/cek/Machine.cpp:388-418 | multiplication distributes over one more, from zero |
| Operators.Bits | backends/cek/Machine.cpp:455-479 | and, or, xor and complement work on each bit by itself, on words at every bit |
| Operators.Shifts | backends/cek/Machine.cpp:455-479 | a left shift puts zeros below and is undone by division, a right shift is the floor; a negative distance errs |
| Operators.Comparisons | backends/cek/Machine.cpp:487-602 | integers compare by the sign of their difference, so exactly one of less, equal and greater holds |
| Operators.Strings | backends/cek/Machine.cpp:487-602 | strings compare by their first differing character, or by length where there is none: a total order that agrees with equality |
| Operators.Operands | backends/cek/Machine.cpp:487-602 | which operands each operator takes, and that equality holds between equal scalars of one kind only |
| Operators.Truths | backends/cek/Machine.cpp:631-720 | what counts as true is the same for `not`, `and`, `or`, the ternary and `where`: a boolean itself, an integer when nonzero, nothing else |
| Operators.Bounds | backends/cek/Machine.cpp:763-835 | min and max are bounds of both arguments and one of them, clamp is the value where the bounds hold it, abs the value or its negation and not negative |
| Operators.Calls | backends/cek/Machine.cpp:885-895 | a call has a value only for a builtin, on integers, with the arguments it takes |
| Operators.Newest | backends/cek/Machine.cpp:257-269 | a name has the value of its newest binding, and errs without one |
| Operators.ContextIs | backends/cek/Machine.cpp:271-331 | the cursor, the start of the innermost scope left open, the end of the innermost window, what is left of it, the element's index, and the bytes since the scope's start |
| Operators.Peek | backends/cek/Machine.cpp:837-865 | the byte at the cursor, where the window has one |
| Operators.ComputeBinds | backends/cek/Machine.cpp:1010-1032 | a computed field is bound to its value and reads nothing |
| Operators.RunWidth | backends/cek/Machine.cpp:1049-1077 | a run takes exactly the width it states, or all that its window has left |
| Refine.RunType | backends/cek/bbq_compile.h:786-952 | from a spine state the code of any type of the fragment runs to the outcome of its meaning: on success with its core and the frames at entry, on failure at fail() from those frames |
| Refine.RunArms | backends/cek/bbq_compile.h:916-952 | ordered choice: the first arm that succeeds, every arm from the same saved state; none left, the failure goes on without the savepoint |
| Refine.RunRule | backends/cek/Machine.cpp:1531-1567 | a rule call runs its body under a return frame, with its bindings confined to it, also when it is aborted |
| ArraySteps.RunResync | backends/cek/Machine.cpp:1382-1429 | after a failed element the loop goes on one byte further from the element's start, ends at the end of the window, or fails when a counted loop is short |
| CekMachine.Cek.FailWith | backends/cek/Machine.cpp:158-183 | the frame walk of fail() ends at the innermost savepoint with a target, or in a failed parse |
| CekMachine.Cek.ExecuteFrom | backends/cek/Machine.cpp:185-230 | the trampoline ends in the state that many transition steps lead to, and reports failure exactly when the parse failed |
| CekMachine.ParseRule | backends/cek/Machine.cpp:185-230 | compiling a grammar and running the machine object decides the grammar's meaning, with the same final state |
| CekMachine.Cek.ReadPrimitive | backends/cek/Machine.cpp:1918-2003 | every primitive reads what the wire format says, varints through the decoding loops |
| WireLaws.IntegerBytes | backends/cek/Machine.cpp:67-124 | byte i of an integer is its digit of weight 256^i when little-endian, 256^(w-1-i) when big-endian, and as the parse stands when native; it fails exactly when the window is too short |
| WireLaws.IntegerRange | backends/cek/Machine.cpp:67-124 | signed and 64-bit integers lie in the two's-complement range of their width, others from zero up |
| WireLaws.BooleanByte | backends/cek/Machine.cpp:67-124 | a boolean is one byte, false when it is zero |
| WireLaws.VarintBytes | backends/cek/Machine.cpp:1918-1995 | a varint takes the bytes of its encoding; an unsigned 64-bit one comes back as the signed integer of the same bits |
| WireLaws.MemberBits | backends/cek/Machine.cpp:1433-1486 | a bitfield member is its own bits of the container, counted from the top when that is big-endian and from the bottom when it is little-endian, behind the widths declared before it |
| WireLaws.FirstDeclared | backends/cek/Machine.cpp:1433-1450 | so the first declared member is the top bits of a big-endian container, and the bottom bits of a little-endian one |
| Lowering.LowerGrammar | backends/cek/bbq_compile.h:150-196 | the loop over the rules and the patching of calls yields the compiled grammar: every rule's code is in it, and every call goes to the body of the rule its name resolves to |
| Lowering.LowerChoice | backends/cek/bbq_compile.h:916-952 | the right-to-left chain gives each arm the link that dispatches to its successor, and the last arm the enclosing scope |
| Lowering.LowerFields | backends/cek/bbq_compile.h:1149-1201 | the right-to-left chain of fields, closed after the last when one is `@rest` |
| Lowering.LowerBitfield | backends/cek/bbq_compile.h:558-592 | each member reads behind the widths declared before it, whatever the order of construction |
| WhereScope.BacktrackTargetIs | backends/cek/bbq_compile.h:1070-1100 | the static target is the innermost non-last arm, optional body or resynced array around the check; a last arm leaves no trace |
| WhereScope.JumpAgreesIff | backends/cek/Machine.cpp:996-1002 | the static jump of a false check and fail() end in the same resumption, or both in none, exactly when the scopes agree: never past a plain element into an alternative, always into an optional body, into a resync handler only at the end of the window, and through calls as the caller's scopes do |
| WhereScope.StandingDecides | backends/cek/bbq_compile.h:1070-1100 | in a sound standing, read off the grammar, the two routes agree in every state; in any other they do not, unless a savepoint stands at the end of its window |
| WhereScope.JumpReaches | backends/cek/Machine.cpp:1553-1606 | the machine, jumping, reaches the resumption that JumpAgreesIff speaks of |
| WhereScope.FailReaches | backends/cek/Machine.cpp:158-183 | the machine, failing, reaches the other |
| WhereJump.MachineHaltsEarly | backends/cek/Machine.cpp:1602-1606 | on a concrete grammar and the input of one zero byte the machine accepts with the byte unread and three frames left |
| WhereJump.DenotationReads | backends/cek/bbq_compile.h:894-952 | the meaning of that grammar on that input reads the byte |
| WhereJump.ScopesDisagree | backends/cek/bbq_compile.h:933-942 | the check of that grammar stands in scopes that do not agree |
| Confine.TypeAfter | backends/cek/Machine.cpp:1775-1862 | a type that succeeds leaves the windows it found and a cursor inside them, and without seeks a cursor not moved back |
| Loops.RestExact | backends/cek/bbq_compile.h:1149-1201 | a struct with an `@rest` field ends exactly max(0, value) bytes after that field, with the windows it found |
| Loops.FixedCountExact | backends/cek/Machine.cpp:1252-1313 | a counted array that completes has exactly max(0, n) elements, with or without resync |
| Loops.LoopEnds | backends/cek/Machine.cpp:1281-1429 | given elements that have an answer, a counted, `eof` or `until` loop has one, the latter two under the stricter check: element attempts are bounded by elements still due plus bytes still unread |
| Progress.Consumes | frontend/Sema.cpp:956-1019 | with unions without variants counted as reading nothing, a type that may_read_nothing clears moves the cursor forward on every success, wherever no [start, end] interval can be reached |
| Progress.UnboundedCount | frontend/Sema.cpp:251-268 | an `eof` or `until` array whose element or separator the stricter check clears completes at most one element more than the bytes left in its window |
| Exact.ConsumesIff | frontend/Sema.cpp:956-1019 | a type whose outcome without input turns on free names alone, switches, calls and counts included, consumes on every success, on all inputs, if and only if the stricter check clears it |
| Exact.RepeatsIff | frontend/Sema.cpp:251-268 | every repeat of such an element behind its separator consumes, on all inputs, if and only if the array passes the check |
| Progress.Checks | frontend/Sema.cpp:956-1019 | the stricter check refuses all that the code's check refuses, and the two agree where no union without variants can be reached |
| Endless.EmptyUnionSpins | backends/cek/bbq_compile.h:916-952 | an accepted `eof` array of an empty union keeps the machine running for ever exactly when the input is not empty |
| Endless.RewindSpins | frontend/Sema.cpp:956-1019 | an accepted `eof` array whose element seeks to a fixed window keeps it running for ever exactly when the window fits the input and bytes are left after it |
| RuleSort.TopologicalSort | frontend/Sema.cpp:478-522 | succeeds exactly when the dependency graph is acyclic, and then lists every rule once, after everything it depends on; otherwise it reports exactly the rules from which a cycle can be reached |
| LebLoops.DecodeUleb128 | backends/cek/Machine.cpp:1650-1668 | accepts exactly the uN encodings, with their values and lengths, for every N up to 64 |
| LebLoops.DecodeSleb128 | backends/cek/Machine.cpp:1670-1697 | accepts exactly the sN encodings, with their values and lengths, for every N up to 64 |
| LebSpec.SignedRange | backends/cek/Machine.cpp:1670-1697 | signed values lie in the N-bit range and take at most ceil(N/7) bytes |
| LebSpec.UnsignedRange | backends/cek/Machine.cpp:1650-1668 | unsigned values likewise |
| LebSpec.SignedLocal | backends/cek/Machine.cpp:1670-1697 | the result depends on the bytes consumed and on nothing after them |
| LebSpec.UnsignedLocal | backends/cek/Machine.cpp:1650-1668 | unsigned results likewise |
| LebSpec.SignedPadded | backends/cek/Machine.cpp:1670-1697 | a non-minimal signed form within the width is accepted and means the same |
| LebSpec.UnsignedPadded | backends/cek/Machine.cpp:1650-1668 | a non-minimal unsigned form likewise |
| Tiling.CheckBitfield | frontend/Sema.cpp:388-408 | the check accepts exactly positive widths under distinct names that add up to the container |
| Tiling.BitfieldTiles | backends/cek/Machine.cpp:1433-1495 | the values an accepted bitfield binds, weighted by their places, add up to the container's unsigned value in both bit orders, and the container lies inside the input |
| Tiling.PackThenExtract | backends/cek/Machine.cpp:1433-1486 | extracting from a container packed in either bit order gives every member back |
| Tiling.MemberReading | backends/cek/Machine.cpp:1455-1486 | a signed member is the two's-complement reading of its own bits, any other the unsigned one |
| TrieOps.InsertedIs | crt/bbq_htree.c:101-169 | an insertion changes the answer for one key and no other, keeps the trie well formed and counts one key more when it is new |
| TrieOps.DeletedIs | crt/bbq_htree.c:195-240 | a deletion likewise, collapsing nodes left with one key |
| TrieOps.Canonical | crt/bbq_htree.c:97-132 | well-formed tries with equal contents have the same structure, whatever operations built them |
| TrieOps.Shallowest | crt/bbq_htree.c:97-132 | each leaf sits at the first level, at most sixteen, at which its key differs from every other |
| TrieOps.InsertThenDelete | crt/bbq_htree.c:195-240 | inserting a new key and deleting it gives the very same tree back |
| HTreeClass.HTree.Insert | crt/bbq_htree.c:134-169 | the map gets the entry, or a refusal leaves tree, count, generation and live blocks exactly as they were; it is refused exactly when an allocation is denied |
| HTreeClass.HTree.SplitLeaf | crt/bbq_htree.c:101-132 | a chain of nodes down to where two keys part is built whole or given back whole |
| HTreeClass.HTree.Delete | crt/bbq_htree.c:195-240 | the map loses the key, the value comes back, and the blocks no longer needed go back |
| HTreeClass.HTree.Search | crt/bbq_htree.c:173-192 | the nibble walk answers as the map |
| HTreeClass.HTree.EntryCount | crt/bbq_htree.c:92-93 | the stored count is the size of the map |
| HTreeClass.HTree.Clear | crt/bbq_htree.c:84-89 | empties the map and gives back every block |
| TrieIter.ItemsAre | crt/bbq_htree.c:244-285 | the walk's order lists every entry exactly once, in strictly ascending unsigned key order |
| TrieIter.Iter.Next | crt/bbq_htree.c:255-285 | yields the next item of that list, nothing at its end or after a mutation, on seventeen stack slots |
| TrieIter.Clone | crt/bbq_htree.c:287-294 | puts the entries in order until an allocation is denied, and only then stops short; into an empty tree a complete clone has the same map and the same structure |
| HMapClass.HMap.Slot | crt/bbq_hmap.c:106-115 | the probe ends within the table, at the key's slot or at a free one, for any mix function |
| HMapClass.HMap.Put | crt/bbq_hmap.c:142-159 | the map gets the entry, or a refused growth stores nothing; it is refused exactly when a table at three quarters must grow and an allocation is denied or no size says how large; the table stays below three quarters full |
| HMapClass.HMap.Grow | crt/bbq_hmap.c:117-140 | a grown table has twice the slots and holds the same map; a refusal at any of three allocations changes nothing |
| HMapClass.HMap.Get | crt/bbq_hmap.c:161-170 | lookup answers as the map |
| HMapClass.RoundPow2 | crt/bbq_hmap.c:31-40 | the least power of two not below n, or 0 when 64 bits hold none |
| HMapClass.HMap.Free | crt/bbq_hmap.c:92-104 | gives back exactly the blocks held |
| DictClass.Dict.Put | crt/bbq_dict.c:157-184 | the map gets the entry for any hash function, or a refusal changes no entry, no chain, no generation and no live block; a key already in is never refused, a new one exactly when it is too long for a block or an allocation is denied |
| DictClass.Dict.Get | crt/bbq_dict.c:186-193 | lookup answers as the map |
| DictClass.Dict.Delete | crt/bbq_dict.c:195-219 | the map loses the key and the value comes back; it is never refused |
| DictClass.Unlinks | crt/bbq_dict.c:195-219 | past a predecessor, at a head with a successor, or alone in its chain: every other entry stays reachable under its own hash |
| DictClass.Dict.Clear | crt/bbq_dict.c:126-135 | empties the map and gives back every node and every block of the index |
| DictWalk.DictIter.Next | crt/bbq_dict.c:240-252 | yields the next entry of the iteration, nothing at its end or once the dictionary has changed |
| DictWalk.EveryEntryOnce | crt/bbq_dict.c:233-252 | an iteration of an unchanged dictionary meets every key exactly once, with its value |
| ArenaClass.Arena.Alloc | crt/bbq_arena.c:101-139 | a block is apart from all blocks handed out since the last reset, aligned, inside its page and large enough; a page is taken only when none has room; a refusal leaves earlier blocks intact and sticks, and comes exactly from no bytes, an earlier refusal, a size that cannot be aligned, a denied allocation, or a full page table that cannot be doubled |
| ArenaClass.Arena.GrowPageTable | crt/bbq_arena.c:59-99 | three new tables are published together or not at all |
| ArenaClass.Arena.Reset | crt/bbq_arena.c:141-146 | every page is kept, none is spent, and the refusal is forgotten |
| ArenaClass.Arena.Free | crt/bbq_arena.c:148-165 | gives back exactly the blocks held |
| BufClass.Buf.Append | crt/bbq_buf.c:53-61 | all of the bytes are appended or none, and a refusal sticks; it comes exactly from an earlier one, a length past the largest size, or a denied allocation |
| BufClass.Buf.Reserve | crt/bbq_buf.c:29-51 | doubling reaches the size asked for without wrapping, or falls back to it |
| VecClass.Vec.Push | crt/bbq_vec.c:85-130 | the element is appended, or nothing is stored and the vector is poisoned for good with its elements readable: exactly when it was, or is full and an allocation is denied, its capacity is at the ceiling, or the next has no size |
| VecClass.Vec.Free | crt/bbq_vec.c:132-139 | a poisoned vector's block goes back at its real size, and the sentinel never |
| Alloc.Budget.BudgetAlloc | crt/bbq_alloc.c:55-64 | charged exactly when granted, never above the ceiling; refused exactly when the ceiling would be passed or the allocator underneath refuses, and then counted |
| Alloc.Budget.BudgetResize | crt/bbq_alloc.c:66-80 | a refused resize leaves the old block live and charged; refused for the same two causes only |
| Alloc.Budget.BudgetRelease | crt/bbq_alloc.c:82-86 | takes a live block at the size it was taken at, and the bytes in use fall by it |
| Alloc.BalancedIs | crt/bbq_alloc.c:50-86 | what every container operation keeps means exactly: its old blocks are replaced by its new ones, and no other block is touched |
| Alloc.BalancedTotals | crt/bbq_alloc.c:50-86 | the bytes in use move by exactly what the container's own bytes do |
| Alloc.ArrayBytes | crt/bbq_alloc.c:42-48 | the product when it is representable, and 0 otherwise |
| PathFold.RunsFold | backends/render/RenderEmit.cpp:223-405 | a run of the op list that ends at a kept op folds to a run of the folded list through the same kept ops, by the same branches |
| PathFold.RunsUnfold | backends/render/RenderEmit.cpp:223-405 | every run of the folded list is such a fold |
| PathFold.ResolveEscapes | backends/render/RenderEmit.cpp:223-405 | the successor map ends outside the boundary ops for every op if and only if they have no cycle among themselves, which the fold takes for granted |
| PathFold.NoSuccessorDropped | backends/render/RenderEmit.cpp:223-405 | no successor of a folded op names a dropped one |
| PathFold.PrefixReturns | backends/render/RenderEmit.cpp:223-405 | after a scope's end the prefixes are those before its begin |
| PathFold.ArraysReturn | backends/render/RenderEmit.cpp:223-405 | a balanced stretch leaves the open arrays and the loop level as they were |
| PathFold.RefusedIff | backends/render/RenderEmit.cpp:223-405 | the walk refuses a list exactly when some scope or array ends that was not begun |
| PathFold.FoldOwningPaths | backends/render/RenderEmit.cpp:223-405 | the three passes yield the folded op list, entry included, exactly when no end is unmatched |
| PathPlaces.KeptPath | backends/render/RenderEmit.cpp:288-392 | from the op list alone: the names of each kept op stand under the segments of the scopes still open around it, outermost first; an array's begin gets its own path, a loop-back that of the innermost open array, a call the path itself, a switch's arm its union slot, an optional's read its value; references stand under the innermost open struct |
| PathPlaces.OnlyKept | backends/render/RenderEmit.cpp:288-392 | and nothing that only begins or ends a scope is kept |
| PathPlaces.PathIs | backends/render/RenderEmit.cpp:288-392 | the walk's two prefixes are those paths before every op |
| PathPlaces.ArmsAre | backends/render/RenderEmit.cpp:248-287 | a read takes its slot from the last switch that selects it, its reading default before its cases |
| PathPlaces.DecimalIs | backends/render/RenderEmit.cpp:279-279 | a case's ordinal is spelled in decimal |
| PathFold.ListRuns | backends/render/RenderEmit.cpp:223-405 | the runs of the produced list are those of the folded graph |

## Left out

- Floating point: float literals and float primitives; the arithmetic of the evaluator is on mathematical integers, shared with the machine, so int64 overflow and out-of-range shifts are not modelled.
- External parsers and user code blocks: calls whose consumed count the machine does not check.
- Path navigation (`find_field`, `find_child`, indexing) and the string builtins that need it; the document builder is an append-only log that backtracking truncates.
- Unary `abs`: the lowering has no case for it.
- `where` in a standing that is not sound: no machine theorem covers such a grammar, and WhereScope.JumpAgreesIff says when the machine still follows the denotation there. Outside the fragment it is not a theorem that every check reached in a run stands in the frames WhereScope.Stack describes.
- `count(n)` arrays combined with resync: the count check expects the loop frame on top and finds the savepoint.
- Several `@rest` fields in one struct, integers of no width and empty bitfields: excluded from the confinement, progress and exactness results, not from the machine theorems (but for empty bitfields).
- Endianness at the end of an array: it is not restored, and nothing is claimed.
- Exact.ConsumesIff: does not cover types with windows, constraints on structs, arrays or runs, recursive calls, or expressions that compute, because what such a type does without input left depends on values that need not exist; nor a counted array of two or more whose separator must read, because the check looks at the element alone and refuses an array that always consumes.
- Termination of whole parses: recursion through counted arrays is not ruled out by the front end; the loop bounds are proved instead.
- Progress.Consumes: does not cover types that reach a [start, end] interval, because such a type may or may not move forward, depending on the values of its expressions.
- Tiling.MemberReading: does not model the overflow of the source's mask for a 63-bit entry, because arithmetic is on mathematical integers; a 64-bit entry is bound as the container's own raw value.
- Error messages and the recorded error position, beyond that the position never influences a parse.
- Which of a field's and its body's interval applies is taken as resolved before lowering.
- Machine.State: pointer identity is modelled by labels, paths and addresses; aliasing between structures is not.
- The libc allocator (a null handle) is a budget whose ceiling is never reached; the fault-injecting allocator is one of the refusals that any request may meet.
- Creation and destruction of heap-allocated container handles, the vector's set-length and top operations, and the convenience wrappers for NUL-terminated keys.
- SipHash, the map's mixing function and the seed source: both tables are proved for any function. Wrap-around of the 32-bit generation counters is not modelled.
- PathFold.FoldOwningPaths: does not model the shape of the expressions an op carries, because the fold rewrites only the names they read from their own scope: an op lists those names. The other keys of an op, which the fold copies, are left out.
- The front end's other checks (types, value ranges, directives), the parsers generated from the grammars, the template rendering, the command-line drivers, the other generators and the Python binding.
