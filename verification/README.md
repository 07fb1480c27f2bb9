# Matyacc and some of its neighbours, verified

The main part is a model of **matyacc**, the Berkeley Yacc LALR(1) parser generator, as one
pipeline: the symbols and rules of a grammar are packed into flat arrays, the LR(0) automaton is
built, the LALR(1) lookaheads are computed by the method of DeRemer and Pennello, the parser's
rows are made and their conflicts resolved, the rows are packed into one table with a check
column, and the parser in the emitted text reads that table back.  Every stage is a method over
arrays, bit matrices or objects, as in the C, proved against what it is for, and the stages are
put together into theorems about the generated parser:

* it never leaves its tables or its stack and accepts only sentences of the grammar, whatever
  conflicts were resolved and however (`Yacc.ParserIsSound`);
* if no action was suppressed, it accepts all of them (`Yacc.ParserIsComplete`), each in as many
  turns as its derivation has tokens and rules (`Completeness.SentenceIsAccepted`);
* no action was suppressed and the final state has no reduction on the end marker exactly when
  the grammar is LALR(1) (`Completeness.UnsuppressedIsLalr1`); the grammar then is unambiguous
  (`Yacc.GrammarIsUnambiguous`) and, if every variable derives something, the parser stops on
  every input (`Yacc.ParserDecides`).

The second half of that condition is one that the program does not look at: the accept action is
not among the actions whose conflicts it counts.  For the grammar `S : S | 'x'` it reports no
conflict, although the grammar is ambiguous (`Undetected.ConflictGoesUndetected`), and the parser
never stops on `x x` (`Undetected.NeverStops`).

Precedences do what they are for, whatever else conflicts in the grammar: of two operators in
rules `e : e op e` the parser always applies the one first that binds tighter, and of equal ones
the left or the right one (`Yacc.OperatorsGroup`, `Grouping.OneOperator`).  `%nonassoc` does only
half of this: the row of the state after `e op e` loses both actions, but the rule may be all that
is left of the row, and then it is the state's default and is applied before the second operator
after all (`Grouping.TiedOperands`); `x < x < x` is accepted (`Nonassociative.ChainIsAccepted`).

The theorems hold from the rules as they were read, over their own symbols and the numbers that
the input calls for, not only from the packed arrays (`Yacc.RecognisesSource`); and the lookaheads, which the program computes by relations between
gotos, are exactly those that the LR(1) closure of the items calls for
(`Propagation.LookaheadsAreLeast`).

What a grammar derives is defined by derivation forests (`Cfg.dfy`), and `DerivesIsRewriting`
shows that this is the usual rewriting of one variable at a time.

The smaller parts are the MD5 streaming of md5sum, Lua's references with the free list inside the
table, matpic's in-place evaluation of constant expressions, matpic's Intel HEX writer and reader,
and scopeimg's line rasteriser.

## How the files go together

| files | part |
|---|---|
| `Reach`, `Cfg` | reachability; context-free grammars, derivations |
| `Bits`, `Warshall` | bit matrices in words; transitive closure in place |
| `Grammar`, `Reader`, `Language` | the packed arrays; how they are made from the input's symbols and rules; what the input means by itself |
| `Items`, `RuleTables`, `Closure` | LR(0) items, rules by variable, nullable symbols, item closure |
| `Automata`, `LR0`, `Paths` | what the LR(0) automaton is; how it is built; walking it |
| `Gotos`, `Lookaheads`, `Digraph`, `Transpose`, `Lalr` | numbered gotos; what the lookaheads are; how they are computed |
| `Propagation` | the lookaheads by another definition |
| `Mkpar`, `Conflicts` | rows, conflicts, default reductions, the final state; who wins a conflict |
| `Packing`, `Vectors`, `Output` | sparse vectors, the packed table, the parser's tables |
| `Skeleton`, `Soundness`, `Completeness`, `Termination`, `Yacc` | the parser, what it accepts, that it stops, the whole pipeline |
| `Trace`, `Grouping` | by which actions a derivation was built; how operators group |
| `Undetected`, `Nonassociative` | the conflict that is not detected; the chain that is not refused |
| `Md5`, `References`, `Calc`, `Operators`, `Ihex`, `Records`, `Raster` | the smaller parts |

Specifications are mathematical functions and predicates on sequences, sets and relations; the
methods carry out what the C does on arrays and fields and are proved to meet them.  A loop of
the C that is long is cut into methods for its body or its phases; each says in its comment which
part it is.

## How the C is rendered

* `short`, `int` and `unsigned` counts are mathematical integers, and the program's own limits
  (MAXSHORT states and gotos, MAXTABLE cells) are the result `fatal`, with the exact condition
  where there is one.  Words of bit matrices are 32-bit vectors, MD5's counters are taken modulo 2
  to the 32, and `sll` arithmetic wraps at 64 bits.
* NULL-terminated and linked lists (shifts, reductions, derives, lookback, actions) are sequences.
  The shifts of a state are an entry for each state, empty where the C has no record.  Buckets are
  numbered in the order of the symbol table, and their fields index and value are arrays.
* The hash chains of `get_state` are arrays of state numbers, table and link, as in the C.
* `closure` tests the bits of its rule set one at a time where the C first skips words that are 0.
* The scan for `lowzero` in `pack_vector` takes cells past the end of the table for free; the C
  reads past the end there when the table is exactly full.
* The parser's loop is cut off after a given number of turns (`Parse`, `Run`), and the theorems are
  for every number of turns; `YyParse` is the loop itself, for the grammars for which it ends.
  yylex is the input sequence, with 0 after its end.
* Token numbers are up to MAXSHORT, since they are shorts.  That they are distinct is a
  requirement of the table packing; `Reader.ValuesAreTokenValues` says when the numbering has it,
  and `Yacc.GenerateFrom` asks for it.
* In `calc` a zero divisor takes the error exit; the shift counts that C leaves undefined, and the
  one division that overflows, end the evaluation as Unspecified.  The bitwise operators are
  written out over the bits of two's complement.
* `ihex_read` stops at the end of its text; the C skips past the terminating NUL when a bad line
  is the last one and has no newline.

## Model

| member | source | states |
|---|---|---|
| Cfgs.DerivesIsRewriting | matyacc/skeleton.c:209-257 | derivation forests, which the parser's reductions build bottom-up, derive the same token strings as rewriting one variable at a time (definition of "derivable from the goal" used below) |
| Cfgs.Forest.FoldMeans | matyacc/skeleton.c:330-377 | replacing a rule's right side at any position by its variable keeps a derivation a derivation of the same tokens, by one rule more |
| Grammars.Grammar.ItemContent | matyacc/reader.c:1844-1892 | an item index is before a symbol of its rule exactly when the entry is not negative, is complete exactly at minus its rule, never stands before $accept, and before $end only in rule 2 |
| Grammars.Grammar.RuleOfUnique | matyacc/reader.c:1866-1888 | each item index lies in the layout of exactly one rule |
| Reader.FillSlots | matyacc/reader.c:1725-1760 | the array v: every symbol in its own slot, tokens first, variables after $accept, both in table order |
| Reader.NumberSymbols | matyacc/reader.c:1762-1771 | the loops give every symbol its number: tokens in order, then the goal, then the other variables in order |
| Reader.IndexRange | matyacc/reader.c:1760-1771 | token numbers are below $accept's and variable numbers above it; error is 1 and the goal is start_symbol + 1 |
| Reader.IndexInjective | matyacc/reader.c:1760-1771 | no two symbols get the same number |
| Reader.Reserve | matyacc/reader.c:1782-1790 | the insertion loop leaves exactly the given values above 256, in order |
| Reader.SkipReserved | matyacc/reader.c:1800-1806 | n moves to the next number that is not reserved, skipping only reserved ones, repeated values included |
| Reader.NumberTokens | matyacc/reader.c:1782-1810 | given values are kept, error gets 256, and each other token the least number from 257 on that the input does not use and no earlier token got |
| Reader.ValuesDiffer | matyacc/reader.c:1782-1810 | the resulting numbers are all different if and only if the values fixed by the input, 0 for the end and 256 for error are |
| Reader.ValuesAreTokenValues | matyacc/reader.c:1782-1822 | the numbers meet what table packing and the parser need if and only if the fixed values differ |
| Reader.PackGrammar | matyacc/reader.c:1844-1892 | ritem, rlhs and rrhs hold $accept's rule and every rule under the new numbers with its end mark; a rule's precedence is that of %prec or of its last token |
| Reader.PackedIsWellFormed | matyacc/reader.c:1844-1892 | what the two functions leave satisfies the layout predicate that every later stage assumes |
| Reader.UnpackedIsRenamed | matyacc/reader.c:1844-1892 | round trip: unpacking the arrays gives exactly the rules that were read, renamed |
| Reader.Pack | matyacc/reader.c:1725-1892 | both functions together: packed grammar, precedences by number, token values |
| Reader.LastTokenCounts | matyacc/reader.c:1872-1885 | without %prec a rule has the precedence and associativity of the token behind which there are only variables |
| Reader.NoTokenCounts | matyacc/reader.c:1872-1885 | and none when it has no token |
| Language.SameSentences | matyacc/reader.c:1760-1892 | renaming changes no sentence: rewriting over the symbols as they were read derives a string of terminals from the goal exactly when the renamed rules derive its renaming |
| Language.NumbersAreRight | matyacc/reader.c:1782-1822 | in terms of the input's symbols alone: a terminal is read by the number the input gives it, error by 256, and every other one by the least number from 257 on that the input does not give and no terminal before it has |
| Language.ReadAsOne | matyacc/reader.c:1782-1822 | so the numbers of the terminals are determined by the input |
| Bits.BitMatrix.Set | matyacc/defs.h:44-47 | SETBIT adds exactly one member to one row's set, whatever the word boundaries |
| Bits.BitMatrix.Test | matyacc/defs.h:46 | BIT is membership in the row's set |
| Bits.BitMatrix.OrRow | matyacc/warshall.c:30-44 | or-ing a row of words is the union of the rows' sets and touches no other row |
| Bits.BitMatrix.CopyRow | matyacc/lalr.c:548-558 | copying a row of words copies its set and touches no other row |
| Bits.MaskBit | matyacc/defs.h:46-47 | the shifted one has its one bit at its own position only |
| Warshall.TransitiveClosure | matyacc/warshall.c:5-52 | after the loops, in place over words, j is in row i exactly when some path of one or more edges of the original relation leads from i to j |
| Warshall.ReflexiveTransitiveClosure | matyacc/warshall.c:54-78 | the same for zero or more steps |
| Warshall.ViaIsReach | matyacc/warshall.c:13-50 | with every vertex let through, what the sweep of the outer loop leaves is reachability in one or more steps, from a vertex back to itself included: why one sweep is enough |
| RuleTables.SetDerives | matyacc/lr0.c:417-441 | derives lists for each variable exactly its rules, ascending |
| RuleTables.SetNullable | matyacc/lr0.c:462-500 | terminates, and marks a symbol exactly when it derives the empty string |
| RuleTables.SaturatedIsComplete | matyacc/lr0.c:473-497 | when a pass marks nothing more, every symbol that derives the empty string is marked |
| Items.ClosureIsLeast | matyacc/closure.c:91-147 | the closure used below is the least set that holds the kernel and all rules of every variable after a dot |
| Items.ClosureItem | matyacc/closure.c:91-147 | an item the closure adds is at the start of its rule, and its variable stands after a dot of the closure |
| Closures.SetEFF | matyacc/closure.c:12-42 | row v holds exactly the variables that v leads to leftmost in any number of steps |
| Closures.SetFirstDerives | matyacc/closure.c:44-89 | row v holds exactly the rules that v leads to leftmost |
| Closures.Closure | matyacc/closure.c:91-147 | for an ascending nucleus the merge gives a strictly ascending list of exactly the closure's items |
| LR0.AllocateItemsets | matyacc/lr0.c:40-75 | the slices for the symbols follow one another, each as long as the symbol occurs in ritem |
| LR0.NewItemsets | matyacc/lr0.c:213-241 | each symbol's slice gets its moved items in order and never runs into another slice; the symbols are listed once |
| LR0.MovedFits | matyacc/lr0.c:40-75 | an ascending list of items moves over a symbol at most as often as the symbol occurs in ritem, so the slices suffice |
| LR0.SortSymbols | matyacc/lr0.c:84-98 | the insertion sort of append_states gives the same symbols, ascending |
| LR0.Collection.GetState | matyacc/lr0.c:140-188 | the state returned has exactly the kernel asked for; a state is added only if none had it, and the hash chains stay complete |
| LR0.AppendStates | matyacc/lr0.c:84-106 | the shifts go to the states of the kernels for the symbols, in symbol order; all new states are among them |
| LR0.SaveReductions | matyacc/lr0.c:376-415 | the reductions are exactly the complete rules of the item set, ascending |
| LR0.GenerateStates | matyacc/lr0.c:118-138 | terminates; unless fatal, the result is the canonical LR(0) collection of at most MAXSHORT states: distinct kernels, all reached, exact shifts and reductions; fatal only if more than MAXSHORT distinct kernels are reached from the first, each by the goto of an earlier one |
| LR0.ManyStatesIs | matyacc/lr0.c:253-255 | the limit is passed exactly when the LR(0) collection, whichever way it is numbered, has more than MAXSHORT states |
| Paths.ShiftKernel | matyacc/lr0.c:213-278 | the kernel of a state shifted to is exactly the moved items of the closure |
| Paths.SpelledReduces | matyacc/lalr.c:304-388 | from a state with a rule at its start, the state at the end of the path that the right side spells reduces by the rule |
| Gotos.SetGotoMap | matyacc/lalr.c:151-210 | the gotos are grouped by variable and ascending by state in each group, each transition listed once; fatal exactly when there are more than MAXSHORT |
| Gotos.MapGoto | matyacc/lalr.c:214-234 | the binary search, with its inclusive upper end, finds the goto's index and never looks at another variable's slot |
| Gotos.GotoUnique | matyacc/lalr.c:214-234 | within a group a state determines the index |
| Lookaheads.Lalr.GotoOf | matyacc/lalr.c:151-234 | every transition over a variable has a number, in its variable's group |
| Lookaheads.Lalr.FirstGoto | matyacc/lalr.c:250-262 | goto 0 is the one of state 0 over the goal, so that seeding row 0 with $end is right |
| Lookaheads.Lalr.FollowSolves | matyacc/lalr.c:458-489 | the Follow sets contain the Read sets and are closed under includes |
| Lookaheads.Lalr.FollowIsLeast | matyacc/lalr.c:458-489 | every family of sets that holds the direct reads and is closed under reads and includes holds all Follow sets |
| Digraphs.Digraph.Run | matyacc/lalr.c:491-511 | digraph: each row becomes the union of the original rows of everything reached through the relation; the vertex stack stays within its array |
| Digraphs.Digraph.Traverse | matyacc/lalr.c:513-561 | one call leaves every finished vertex with its final row, the stack unchanged or extended by the vertex's component |
| Digraphs.Digraph.PopComponent | matyacc/lalr.c:545-558 | the vertices above the root of a component get the root's row and the infinite index |
| Digraphs.ComponentReaches | matyacc/lalr.c:545-558 | everything popped with a root reaches the root, so that one row serves the whole component |
| Transposing.Transpose | matyacc/lalr.c:412-456 | j occurs in list i as often as i occurred in list j, in lists of exactly the counted lengths |
| LalrBuilder.InitializeLA | matyacc/lalr.c:120-149 | the LA rows are numbered by state, each state's rules in order |
| LalrBuilder.InitializeF | matyacc/lalr.c:236-302 | after digraph over reads, row i is exactly the Read set of goto i |
| LalrBuilder.AddLookbackEdge | matyacc/lalr.c:390-410 | the row for the rule in the state is found, so the assertion there cannot fail, and the goto goes on its list |
| LalrBuilder.BuildRelations | matyacc/lalr.c:304-388 | the edges are exactly the includes relation, transposed, and the lookback lists exactly the gotos whose rule leads to the state |
| LalrBuilder.ComputeFollows | matyacc/lalr.c:458-460 | row i becomes exactly the Follow set of goto i |
| LalrBuilder.ComputeLookaheads | matyacc/lalr.c:462-489 | each LA row is exactly the union of the Follow sets over its lookback |
| LalrBuilder.BuildLookaheads | matyacc/lalr.c:50-64 | lookahead exactness for the whole of lalr(): every LA row is the LALR(1) lookahead set of its state and rule |
| Propagation.LookaheadsAreLeast | matyacc/lalr.c:50-64 | the lookaheads by reads, includes and lookback are exactly those in every family of item lookaheads that is closed under generation from FIRST, propagation to added items and moving the dot, states with one kernel merged: LALR(1) by its textbook definition |
| Mkpar.GetShifts | matyacc/mkpar.c:58-85 | the shifts over tokens, all of them and in order, with the tokens' precedences |
| Mkpar.AddReduce | matyacc/mkpar.c:106-140 | inserts exactly one action and keeps the row ordered: by symbol, shift first, then by rule |
| Mkpar.AddReductions | matyacc/mkpar.c:87-104 | the row gets exactly the reductions on the tokens of the state's LA rows |
| Mkpar.ParseActions | matyacc/mkpar.c:50-56 | the row holds a shift exactly for each transition over a token and a reduction exactly on the rule's lookaheads |
| Mkpar.RemoveConflictsRow | matyacc/mkpar.c:186-236 | each action is suppressed as its group's verdict says, which the rows on Conflicts spell out, and the two counts are the actions lost to shifts or to accepting and to reductions |
| Conflicts.ShiftStays | matyacc/mkpar.c:205-222 | a shift stays exactly when against every reduction on its token one has no precedence, or the shift the higher one, or both the same and the token is RIGHT; otherwise it is removed by precedence |
| Conflicts.ReductionStays | matyacc/mkpar.c:205-226 | beside a shift a reduction stays exactly when both have precedence, it has the higher one or the same and the token is LEFT, and no lower rule does so too; it is removed by precedence when both have one and no rule up to it takes the token, and has lost a conflict otherwise |
| Conflicts.OneAgainstOne | matyacc/mkpar.c:205-222 | a shift against one reduction: the table of all cases |
| Conflicts.FirstStays | matyacc/mkpar.c:197-229 | where the parser accepts, and on a token without a shift, the first action stays, of reductions the lowest rule, and every other one has lost a conflict |
| Conflicts.CountedAs | matyacc/mkpar.c:200-229 | an action that has lost is counted as lost to a shift where the parser accepts or there is a shift that no lower rule has taken the token from, and otherwise as lost to a reduction |
| Conflicts.TotalsAre | matyacc/mkpar.c:189-234 | SRtotal and RRtotal together are all actions that have lost a conflict |
| Mkpar.ResolvedAtMostOne | matyacc/mkpar.c:186-236 | afterwards no token has two unsuppressed actions |
| Mkpar.LowestRuleStays | matyacc/mkpar.c:224-229 | in a group without a shift exactly the lowest rule stays |
| Mkpar.NothingSuppressed | matyacc/mkpar.c:186-236 | nothing is suppressed exactly when every token had one action to begin with |
| Mkpar.SameActions | matyacc/mkpar.c:186-236 | resolution drops, adds and reorders nothing |
| Mkpar.SoleReduction | matyacc/mkpar.c:269-290 | gives the rule when it is all that is unsuppressed, on more than the error token, and 0 exactly when there is none such |
| Mkpar.FindFinalState | matyacc/mkpar.c:142-155 | the state that state 0 shifts to over the goal |
| Mkpar.MakeParser | matyacc/mkpar.c:35-48 | all rows exact and resolved, defaults right, final state right; SRtotal and RRtotal count the actions lost over all states |
| Vectors.TokenActions | matyacc/output.c:195-264 | a state's two vectors hold exactly its unsuppressed shifts and its unsuppressed reductions other than the default, by token number, in token order and with the width of their spread |
| Vectors.Collect | matyacc/output.c:226-260 | the vector holds the non-zero cells in the order of their tokens, as many as were counted for its allocation; its width is the distance of the largest from the smallest token number in it, plus one |
| Vectors.DefaultGoto | matyacc/output.c:266-295 | the least of the most frequent targets of the variable's gotos, 0 if it has none |
| Vectors.SaveColumn | matyacc/output.c:297-332 | the column holds exactly the gotos with other targets, ascending |
| Packing.SortActions | matyacc/output.c:361-390 | the non-empty vectors, each once, by width, then tally, then number |
| Packing.MatchingVector | matyacc/output.c:408-440 | finds an earlier vector with the same entries exactly if there is one, for a row vector, though it looks only at neighbours; never for a column |
| Packing.Packer.StartOffset | matyacc/output.c:459-462 | the search starts where no earlier offset can fit |
| Packing.Packer.PackVector | matyacc/output.c:442-509 | first fit: the offset is the least that is not 0, not used, and puts all entries on free cells; nothing else is overwritten; fatal only if every fit passes the limit |
| Packing.PackTable | matyacc/output.c:511-551 | for every vector and key the base, table and check columns give exactly the vector's entry, and the bases are the first-fit ones; fatal only if, beside the vectors placed before it by first fit in the order of the sort, every fit of some vector passes the limit |
| Packing.BasesUnique | matyacc/output.c:361-551 | the order and the first-fit rule determine the bases: two packings of the same vectors that obey them are equal |
| Packing.LookupIsEntry | matyacc/output.c:511-551 | distinct vectors never share a base, so a key without an entry never hits a cell of another vector |
| Output.MakeVectors | matyacc/output.c:195-359 | all rows and columns in their places |
| Output.OutputTables | matyacc/output.c:1177-1248 | the tables answer for every state and token number exactly the unsuppressed action, and for every goto its target, by column or default |
| Output.OutputRuleData | matyacc/output.c:140-173 | lhs and len by the emitted rule numbers |
| Output.ColumnTarget | matyacc/output.c:266-332 | what a column does not hold is the default: the lookup gives the goto's target in both cases |
| Skeleton.Parse | matyacc/skeleton.c:190-257 | the loop does what Step says, for every input and number of turns |
| Soundness.ReduceIs | matyacc/skeleton.c:324-396 | with a rule's right side on top of a path and the state below it having a goto over the rule's variable, what is popped is that right side and what is pushed is that goto; over the goal on the bottom state the next token decides about accepting |
| Skeleton.RunOn | matyacc/skeleton.c:216-257 | runs compose |
| Soundness.ShiftFound | matyacc/skeleton.c:232-249 | a hit in the shift row is a transition of the automaton over the token read |
| Soundness.ReduceFound | matyacc/skeleton.c:251-256 | a hit in the reduction row is a reduction of the state by a user's rule |
| Soundness.DefaultFound | matyacc/mkpar.c:269-298 | so is a default reduction |
| Soundness.WalkBack | matyacc/skeleton.c:342-345 | an item of the top state with k symbols before its dot has them on top of the stack, and the state below has the rule at its start |
| Soundness.Reduction | matyacc/skeleton.c:342-377 | a reduction never pops the bottom state, the popped symbols spell the right side, and the state below has a transition over the variable |
| Soundness.StepKeeps | matyacc/skeleton.c:216-396 | one turn keeps the stack a path over a derivation of the tokens consumed, to which the turn adds one token or one rule, stays inside the tables, and accepts only a sentence |
| Soundness.RunsAreSafe | matyacc/skeleton.c:216-396 | stack safety in every reachable configuration: the stack spells the derivation built so far, which yields the tokens read and is as large as turns were taken |
| Soundness.AcceptedIsSentence | matyacc/skeleton.c:350-371 | parser soundness, whatever conflicts were resolved |
| Completeness.FirstRead | matyacc/lalr.c:236-302 | the first token of any derivation that continues a rule after a goto is in the goto's Read set |
| Completeness.NextFollows | matyacc/lalr.c:304-388 | what comes after a variable in a derivation is in the Follow set of the goto over it |
| Completeness.ShiftStep | matyacc/skeleton.c:216-249 | when a token can be shifted, the parser shifts it, no default reduction being in the way |
| Completeness.ReduceStep | matyacc/skeleton.c:216-256 | on a lookahead of a rule the parser reduces by that rule, by default or by the table |
| Completeness.Parses | matyacc/skeleton.c:216-396 | the parser follows any derivation of the rest of a rule to its end, in as many turns as it is large and building just that derivation, or accepts before |
| Completeness.OnlyFinalAccepts | matyacc/mkpar.c:142-155 | the item that accepts on the end marker is in the final state and in no other |
| Completeness.UnsuppressedIsLalr1 | matyacc/mkpar.c:186-236 | nothing is suppressed and the final state has no reduction on the end marker exactly when no state has two LALR(1) actions, accepting included, on a token |
| Completeness.SentenceIsAccepted | matyacc/skeleton.c:216-396 | parser completeness when nothing is suppressed: each sentence is accepted after exactly as many turns as a derivation of it has tokens and rules, and the parser has built that derivation if the final state has no reduction on the end marker |
| Completeness.AcceptsExactlySentences | matyacc/skeleton.c:216-396 | the parser recognises exactly the language |
| Completeness.OneDerivation | matyacc/skeleton.c:216-396 | under the condition of LALR(1) a sentence has exactly one derivation: the grammar is unambiguous |
| Termination.Lead | matyacc/skeleton.c:216-396 | whatever stands on the stack can be completed: some tokens exist on which the parser, from the item it is at, would go on to a sentence |
| Termination.Decides | matyacc/skeleton.c:216-396 | for an LALR(1) grammar in which every variable derives some tokens every run ends, with acceptance of a sentence and a syntax error on anything else |
| Termination.YyParse | matyacc/skeleton.c:216-396 | the loop itself, to its end: true exactly for sentences |
| Undetected.ConflictGoesUndetected | matyacc/mkpar.c:186-206 | an automaton, rows and tables for S : S and S : 'x', written out, have all that is proved of the program's output and nothing suppressed, but the grammar is not LALR(1) |
| Undetected.TwoDerivations | matyacc/mkpar.c:186-206 | the same grammar is ambiguous: one token with two derivations |
| Undetected.NeverStops | matyacc/skeleton.c:350-371 | its parser is still running after any number of turns on x x |
| Yacc.Generate | matyacc/main.c:611-618 | the stages in order, from any packed grammar: tables of its LALR(1) automaton, or one of the fixed limits is really exceeded: by the grammar's LR(0) states, by its gotos, or by first fit of the automaton's vectors |
| Yacc.ParserIsSound | matyacc/skeleton.c:216-396 | what a parser from Generate accepts is in the language, and it never leaves its tables or stack |
| Yacc.ParserIsComplete | matyacc/skeleton.c:216-396 | with nothing suppressed it accepts exactly the language |
| Yacc.EndUnusedIs | matyacc/mkpar.c:200-206 | what the rows show of accepting: the final state's row has no action on the end marker exactly when the final state has no reduction on it |
| Yacc.GrammarIsUnambiguous | matyacc/mkpar.c:186-236 | with nothing suppressed and no action on the end marker in the final state's row, any two derivations of a token string from the goal are equal |
| Yacc.ParserDecides | matyacc/skeleton.c:216-396 | then the parser also ends on every input, if every variable derives something: accepting exactly the sentences, rejecting the rest |
| Trace.RunBuilds | matyacc/skeleton.c:216-396 | of any run: every token of the derivation was shifted by an action that is not suppressed, and every rule applied by default or by one on the token that comes next |
| Grouping.BothActions | matyacc/lalr.c:304-388 | after e op e, from a state where the rule starts, every operator can be shifted and is a lookahead of the rule |
| Grouping.Groups | matyacc/mkpar.c:205-222 | of two operators in a row: when the second does not stand against the first one's rule, no derivation that a run builds has the second applied within the first one's right operand; when it does, and cannot be in a tie, none has the first applied within the second one's left operand |
| Grouping.OneOperator | matyacc/mkpar.c:213-217 | under LEFT the chain e op e op e ... is always built from the left, under RIGHT from the right |
| Grouping.TieLeaves | matyacc/mkpar.c:218-221 | in a tie there is neither a shift nor a reduction left on the token, and the rule is applied before it exactly when it is the state's default |
| Grouping.TiedOperands | matyacc/mkpar.c:218-298 | so operators in a tie are kept from following each other if the rule is no default after its right operand; otherwise only on the right |
| Nonassociative.ChainIsAccepted | matyacc/mkpar.c:269-298 | for E : E '<' E and E : 'x' with %nonassoc '<' the input x < x < x is accepted, as (x < x) < x |
| Yacc.GenerateFrom | matyacc/main.c:611-618 | reader's packing and the stages together: from the symbols and rules read to the tables, for the precedences and token numbers that the input gives |
| Yacc.RecognisesSource | matyacc/main.c:611-618 | end to end, in terms of the input alone: read by the numbers that the input calls for, the parser accepts only strings of terminals that the rules derive from the goal, and with nothing suppressed all of them |
| Yacc.OperatorsGroup | matyacc/main.c:611-618 | end to end: with rules v : v o v the precedences of the operators, or of %prec, as the input gives them decide which of two operators in a row the parser applies first |
| Md5Sum.State.constructor | md5sum/md5.c:312-320 | the initial state stands for the empty message |
| Md5Sum.State.Append | md5sum/md5.c:322-358 | the state stands for the message with the bytes added: full blocks folded in, the rest in the buffer, the length in bits modulo 2 to the 64 |
| Md5Sum.State.Count | md5sum/md5.c:333-337 | the two counter words with the carry by comparison are the length in bits modulo 2 to the 64 |
| Md5Sum.State.Finish | md5sum/md5.c:360-381 | the digest is that of sections 3.1 to 3.5 of RFC 1321 for all that was appended, in the form that the next four rows spell out |
| Md5Sum.BytesOfWord | md5sum/md5.c:371-380 | a word's four bytes are its digits to the base 256, the low-order one first |
| Md5Sum.PaddingIs | md5sum/md5.c:363-377 | behind the message come 0x80, zeros, and in the last eight bytes the length in bits modulo 2 to the 64, low-order byte first |
| Md5Sum.OutputIs | md5sum/md5.c:379-380 | the digest is a, b, c, d, each low-order byte first |
| Md5Sum.InitialBuffer | md5sum/md5.c:312-320 | the initial buffer is the bytes that section 3.3 lists |
| Md5Sum.PaddingIsLeast | md5sum/md5.c:374-375 | the padding is the shortest that leaves 8 bytes in the last block |
| Md5Sum.FoldJoin | md5sum/md5.c:350-353 | folding blocks is independent of where the message is cut |
| Md5Sum.DigestOf | md5sum/md5.c:322-381 | any split into calls gives the same digest |
| References.Registry.Ref | flua/src/lauxlib.c:522-540 | the reference is new among the live ones and holds the value; no live value changes; the last freed slot is reused, or the table grows by one |
| References.Registry.Unref | flua/src/lauxlib.c:543-551 | the reference is no longer live and heads the free list; no live value changes |
| References.BorderIsTop | flua/src/lauxlib.c:536-537 | when the length is asked for there is no hole, so any border is the number of slots |
| References.WalkIsFree | flua/src/lauxlib.c:529-551 | following the links from t[0] visits every free slot once and ends |
| References.TwiceFreed | flua/src/lauxlib.c:543-551 | giving back a reference that is free already, wherever it stands in the free list: the next reference is that one, and the one after as many more as stood before it is the same again; why only live ones may be given back |
| Calculator.TreeIsRight | matpic/misc.c:237-257 | the tree that serves as reference is the only one over the operands and operators in which precedence comes first and equal levels group from the left |
| Calculator.GroupingIsUnique | matpic/misc.c:237-257 | operands and operators determine such a tree |
| Calculator.CalcPass | matpic/misc.c:323-331 | a pass in place leaves the value of every stretch of operators of the levels so far at its first operand, or stops because the whole expression has no value |
| Calculator.Evaluate | matpic/misc.c:430-444 | the ten passes come to their end exactly when the tree has a value, which then is in lval[0]; when it has none because of a zero divisor, and nothing in it is left open by C, the error exit is taken |
| Calculator.StretchNone | matpic/misc.c:268-277 | a zero divisor in a stretch leaves the whole expression without a value, since nothing is short-circuited, and what C leaves open leaves the whole open |
| Operators.Exact | matpic/misc.c:260-269 | the sum, difference and product are the only sll congruent to the exact ones modulo 2 to the 64 |
| Operators.Division | matpic/misc.c:270-279 | a zero divisor is an error, one division overflows, and in all others quotient and remainder are the only ones with lval = q * rval + r, r smaller than rval and on lval's side |
| Operators.Bits | matpic/misc.c:280-288 | and, or and exclusive or bit by bit; the 64 bits determine the result |
| Operators.Shifts | matpic/misc.c:289-294 | a shift by 0 changes nothing, by one more to the left doubles modulo 2 to the 64, to the right halves downward |
| Operators.Logic | matpic/misc.c:295-300 | the truth tables |
| Operators.Comparisons | matpic/misc.c:301-318 | all comparisons go by the sign of the exact difference |
| Operators.Order | matpic/misc.c:430-441 | the operators from the tightest to the loosest |
| Operators.TwoOperators | matpic/misc.c:323-331 | of two operators in a row the first is applied first unless the second is tighter |
| Ihex.Writer.EndLine | matpic/ihex.c:17-33 | one record, with the extension before it when the upper half of the address changes |
| Ihex.Writer.Write | matpic/ihex.c:35-58 | the text is that of the segments in records of 16 bytes, and the end record |
| Ihex.ReadHex | matpic/ihex.c:71-168 | the reader with its warnings, for any text, as Read says; the rows on Records say what that is |
| Records.RecordIsRead | matpic/ihex.c:90-156 | any record with any check byte is read as its address and bytes, as an extension or as the end, with a checksum warning exactly when its bytes do not add up to a multiple of 256 |
| Records.NoHeader | matpic/ihex.c:93-104 | a line without a colon, or without eight digits behind it, is warned of as invalid and reading goes on at the next line |
| Records.NoSuchRecord | matpic/ihex.c:144-146 | so is a record of another type, and an extension of the wrong length |
| Records.TooShort | matpic/ihex.c:107-148 | and a record with fewer digits than its length calls for |
| Records.TooLong | matpic/ihex.c:153-156 | what follows a record on its line is warned of, and the record kept |
| Records.NoEnd | matpic/ihex.c:83-92 | a text in which no end record starts is read to its end, and the last warning says so |
| Records.CaseIsIgnored | matpic/str.c:62-79 | any two texts that differ only in the case of their digits are read alike |
| Records.SampleRead | matpic/ihex.c:149-150 | a wrong checksum, in a text written out |
| Records.RecordsAreFull | matpic/ihex.c:35-58 | all records of a segment but the last have 16 bytes, and follow one another without a gap |
| Ihex.ReadsBack | matpic/ihex.c:60-69 | the two digits that are written for a byte are read back as that byte, and the text after them is left |
| Ihex.DataReadsBack | matpic/ihex.c:103-120 | a data line is read as its address and bytes, its checksum right |
| Ihex.ExtensionReadsBack | matpic/ihex.c:128-140 | an extension line sets the upper half |
| Ihex.HeaderSum | matpic/ihex.c:26-28 | the writer's checksum, formed from the whole address, is the reader's, formed from the record |
| Ihex.RoundTrip | matpic/ihex.c:17-168 | every byte comes back at its address, in order, with no warning, for segments below 2 to the 32 |
| Raster.DrawLine | scopeimg/bitmap.c:70-96 | exactly max(dx, dy) + 1 dots from start to end; each lies one step further along the longer side, past the end on neither, and at most half a step off the line, on a fixed side when it is just half |
| Raster.LineIsOne | scopeimg/bitmap.c:70-96 | the ends determine the line: at just half a step the dot is the one less far along the shorter side |
| Raster.ArrivesAtEnd | scopeimg/bitmap.c:80-94 | both ends are reached together, after max(dx, dy) turns and not before |
| Raster.Turn | scopeimg/bitmap.c:82-93 | one turn steps the longer side always and the other one so that 2 * abs(dx * b - dy * a) stays within max(dx, dy) |

## Left out

- Reading the grammar text, copying actions, %union, %param and %expect handling, temporary files, verbose.c, graph.c, error.c and the rest of main.c: input, output and diagnostics.
- Error recovery of the parser: a syntax error ends the run as Rejected, so nothing is said about yyerrflag, yynerrs and the error token's transitions.
- Semantic values, user actions, YYDEBUG output, the growth of the parser's stack and its limit YYMAXDEPTH.
- Termination.Decides: for grammars that are LALR(1) and in which every variable derives some tokens.  For the others a run is known not to break and to accept only sentences; whether it stops depends on the tables, and `Undetected.NeverStops` is one that does not.
- unused_rules and the warnings about them; verbose output of conflicts.
- Emission of the tables as C text, and the rows of state names and debug strings.
- Skeleton.Parse: gives up after the number of turns that the caller allows, since not every parser stops; `Termination.YyParse` does not give up.
- Vectors.TokenActions: the widths and entries are mathematical integers; a width above 32767 would not fit the C short.
- Packing.PackTable: fatal is promised in one direction; a fit past the limit may still be taken, since the table grows by steps of 200 cells and the last step may go past it.
- Yacc.Generate: starts from the packed arrays with distinct token numbers; the C does not check that the input's numbers differ.  Too many gotos or too large a table is said of an automaton numbered in an order in which it can be reached, not of the one order of the program.
- Grouping.TiedOperands: one direction for whole runs; for the single state `Grouping.TieLeaves` has both, and `Nonassociative.ChainIsAccepted` is an input on which the default does let a second operator through.
- Yacc.GenerateFrom: likewise asks that the tokens' numbers differ and are shorts.
- The edge array of build_relations with its ngotos + 1 cells is a sequence: gotos can be listed more than once over several rules.
- md5_process, its byte order and alignment branches: the block function is a parameter of the MD5 model.
- Md5Sum.State.Append: lengths below 2 to the 31, as the int parameter has them.
- The rest of Lua: lua_rawlen is any border of the table, values are nil, integers or others.
- matpic's parsing of operands and operators in numarg and getval, its preprocessor, labels and opcodes.
- Ihex.ReadHex: line numbers of the warnings, and reading past the end of the text.
- plot, its bounds and colour arithmetic, and the rest of scopeimg: DrawLine gives the dots in order.
- dcpu16, fbstring, matnum, netmsg, matirc2, matmenu, kermit, minfree and the X11, Win32 and audio programs: unfinished, input and output, or calls into foreign code.
