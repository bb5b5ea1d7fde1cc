# SQLite over LMDB: verified models of the core algorithms

SQL text is turned into trees, trees into code for the virtual database engine
(VDBE), and that code reads and writes b-trees, here stored in LMDB. This
project models the parts of that path whose correctness is least visible from
reading one function, and proves what they are for.

* **The expression compiler.** `ExprTree` gives SQL expressions their meaning
  (three-valued logic, NULL in every operator, the implicit order of evaluation
  in CASE and COALESCE). `Vdbe` and `VdbeBlocks` are the opcodes. `CodeGen` is
  the generator of `expr.c` with its register pools, forward labels and one-time
  initialisation of IN lists. `CodeGenShape` and `CodeGenRuns` say what every
  generator keeps of the allocation state and of the machine, and
  `CodeGenCorrect` shows that for every expression, every allocation state and
  every machine the generated code computes the expression's value, or jumps
  exactly when its truth value says so, and disturbs no register in use.
  `Statements` carries this through whole statements: any number of rows, with
  the tables and once-flags surviving from row to row. `Meaning` spells the
  operators out in terms of the engine's comparison and of numbers, down to
  where the generated code jumps. `Truth` compares an expression coded as a
  value with the same expression coded as a jump.
* **Parse-tree operations.** `ExprAnd` (joining conditions, with folding),
  `ExprCompare` (when two trees are the same), `ExprDup` (a tree copied into one
  buffer and read back).
* **Foreign keys.** `ForeignKeys` models the two violation counters and the
  checks around every row insert, delete and update. Over any sequence of
  transactions and of statements outside transactions, the counters equal the
  number of violations in the database plus what halted single-row INSERTs have
  left behind. What a violation is, is stated column by column
  (`ForeignKeys.BadIs`). So no immediate constraint is ever left violated, nothing is ever
  committed that violates any constraint, and a commit is refused exactly when a
  deferred constraint is violated or an INSERT of the transaction has left
  something behind.
* **Data structures.** `Bitvec` (bitmap, hash or tree), `HashTable` (buckets as
  runs of one linked list): every sequence of operations behaves as a set, or as
  a map whose keys ignore the case of ASCII letters.
* **ANALYZE.** `Analyze` is the row loop over an index, `Sampler` the bounded
  sample that it feeds. Together they take a sorted index to counts that are
  exact and to a sample whose every omission is justified: a value that is not
  stored has no more rows than any stored one that may give way.
* **Text, dates, records.** `Pattern` (LIKE and GLOB) with `PatternForm` (how
  patterns are written), `Complete` (is this text a complete statement) with
  `CompleteForm` (complete texts as sequences of statements), `AffinityScan`
  (declared type to affinity), `Dates` (Julian days and calendar dates),
  `IndexKey` (index records split and rejoined for LMDB).

`Arithmetic` and `Collections` hold facts about division and sets, `Basics` and
`Letters` definitions that several modules share.

The models keep the form of the source. Objects that are updated in place are
classes (`Bitvec.Node`, `HashTable.Hash`, `Sampler.Stat3Accum`,
`ForeignKeys.Session`, `Dates.DateTime`), loops are loops, buffers are arrays.
The expression generators, which are recursive in C, are recursive functions
that thread the allocation state.

Four places where the code does not do what one would expect are stated as
such, with the condition under which it does:

* The logic opcodes truncate a number before they test it, the jump opcodes do
  not. `NOT 0.5` is stored as 1, yet `WHERE NOT 0.5` selects nothing
  (`Truth.NotHalf`). For any operand under any number of NOTs whose value is a
  number or NULL, the two codings agree if and only if the value is not strictly
  between -1 and 1, or is zero (`Truth.NegationsAgree`). For a text or blob the
  same lemma says that they agree when the two parsers of numbers agree about
  zero, which the model does not resolve further. Any AND/OR/NOT expression
  without such operands is consistent (`Truth.WholeAgree`).
* A single-row INSERT halted by an immediate foreign key leaves behind what
  earlier deferred keys added to the counter, because no statement transaction
  was opened (`ForeignKeys.LeakExample`). This happens if and only if an earlier
  deferred key is violated by the row (`ForeignKeys.LeakFree`), and it makes the
  commit fail on a database without violations (`ForeignKeys.LeakRefused`).
* From year 0 on, the calendar date computed from a Julian day is wrong for one
  day, 1 March 300 (`Dates.Exception`, `Dates.RoundTrip`).
* Two complete SQL texts need not be complete when joined (`Complete.Swallowed`);
  they are if and only if `Complete.Concatenated` says so.

The comment above OP_IfNot (`vdbe.c:2094-2100`) and its code disagree about
NULL; the model follows the code, which jumps on NULL when P3 is not zero.

## Model

All sources are in `lmdb-backend/src/`.

| member | source | states |
|---|---|---|
| CodeGenCorrect.TargetCorrect | lmdb-backend/src/expr.c:2328-2947 | for every expression, the code that asks for a target register ends at its last instruction with the value of the expression in the register it reports; no register in use changes, and every IN table it built is up to date |
| CodeGenCorrect.TempCorrect | lmdb-backend/src/expr.c:2958-2968 | the same for code into a temporary, which is released again when the value was already in a register |
| CodeGenCorrect.IntoCorrect | lmdb-backend/src/expr.c:2975-2989 | the value ends up in exactly the register that was asked for |
| CodeGenCorrect.BinaryCorrect | lmdb-backend/src/expr.c:2459-2538 | arithmetic, comparison, IS and AND/OR on two operands, the second of which does not disturb the first |
| CodeGenCorrect.CastCorrect | lmdb-backend/src/expr.c:2432-2457 | CAST converts a copy, never the register it was read from |
| CodeGenCorrect.NegateCorrect | lmdb-backend/src/expr.c:2539-2557 | unary minus: a negated literal, or a subtraction from a zero held in its own temporary |
| CodeGenCorrect.ComplementCorrect | lmdb-backend/src/expr.c:2559-2570 | NOT and ~ |
| CodeGenCorrect.IsNullCorrect | lmdb-backend/src/expr.c:2571-2585 | IS NULL and NOT NULL leave 1 or 0, never NULL |
| CodeGenCorrect.CoalesceCorrect | lmdb-backend/src/expr.c:2627-2643 | COALESCE and IFNULL give the first argument that is not NULL; all jumps meet at one label |
| CodeGenCorrect.CallCorrect | lmdb-backend/src/expr.c:2597-2711 | a function is called on the values of its arguments, in order, in consecutive registers |
| CodeGenCorrect.ArgsCorrect | lmdb-backend/src/expr.c:3440-3460 | coding one argument leaves those before it in place |
| CodeGenCorrect.InValueCorrect | lmdb-backend/src/expr.c:2720-2730 | x IN (list) as a value is 1, 0 or NULL as SQL has it |
| CodeGenCorrect.BetweenCorrect | lmdb-backend/src/expr.c:2745-2768 | BETWEEN is the three-valued conjunction of two comparisons with x evaluated once |
| CodeGenCorrect.CaseCorrect | lmdb-backend/src/expr.c:2850-2915 | CASE WHEN gives the first branch whose condition is true, else the ELSE value or NULL |
| CodeGenCorrect.CaseOfCorrect | lmdb-backend/src/expr.c:2870-2885 | CASE x WHEN: x is evaluated once and kept in a register that the tests read |
| CodeGenCorrect.WhensCorrect | lmdb-backend/src/expr.c:2886-2913 | the chain of tests, by induction on its length, with one label per test |
| CodeGenCorrect.InCorrect | lmdb-backend/src/expr.c:1877-1990 | the code for IN falls through when the membership is true, jumps to the first label when it is false and to the second when it is NULL |
| CodeGenCorrect.InLhsCorrect | lmdb-backend/src/expr.c:1906-1990 | the same from the point where the list is in its table; false and NULL may share a label |
| VdbeBlocks.DoNullLhs | lmdb-backend/src/expr.c:1917-1920 | a NULL left side is false over an empty list and NULL otherwise |
| VdbeBlocks.DoMember | lmdb-backend/src/expr.c:1960-1984 | found, not found with a NULL in the list, not found without: three exits, computed through one reused register |
| CodeGenCorrect.RhsCorrect | lmdb-backend/src/expr.c:1678-1805 | the list is evaluated into the table; when it is constant only the first time, and the table is right every time |
| CodeGenCorrect.FillCorrect | lmdb-backend/src/expr.c:1755-1801 | a fresh table holds exactly the values of the list |
| CodeGenCorrect.IfTrueCorrect | lmdb-backend/src/expr.c:3533-3642 | jump-if-true jumps exactly when the condition is true, or NULL and NULL was asked to jump; otherwise it falls through |
| CodeGenCorrect.IfFalseCorrect | lmdb-backend/src/expr.c:3653-3787 | jump-if-false jumps exactly when the condition is false, or NULL and NULL was asked to jump |
| CodeGenCorrect.IfTrueAndCorrect | lmdb-backend/src/expr.c:3545-3554 | AND over a jump-if-false with the NULL bit flipped |
| CodeGenCorrect.IfTrueOrCorrect | lmdb-backend/src/expr.c:3555-3560 | OR as two jumps to one place |
| CodeGenCorrect.IfFalseAndCorrect | lmdb-backend/src/expr.c:3696-3701 | AND as two jumps to one place |
| CodeGenCorrect.IfFalseOrCorrect | lmdb-backend/src/expr.c:3702-3711 | OR over a jump-if-true with the NULL bit flipped |
| CodeGenCorrect.Opposite | lmdb-backend/src/expr.c:3664-3693 | the opposite comparison, jumping if true, is the comparison, jumping if false, NULL included |
| CodeGenCorrect.JumpCompareCorrect | lmdb-backend/src/expr.c:263-282 | a comparison coded as one jump |
| CodeGenCorrect.BetweenJumpCorrect | lmdb-backend/src/expr.c:3475-3517 | BETWEEN as a jump: the tree rewritten around a register that holds x means what the original means |
| CodeGenCorrect.InJumpCorrect | lmdb-backend/src/expr.c:3623-3631 | IN as a jump, in all four combinations of sense and NULL handling |
| CodeGenShape.TargetShape | lmdb-backend/src/expr.c:2328-2947 | every generator only appends code, keeps every register that was in use out of the free pools, and resolves only labels it made itself |
| CodeGenShape.TempShape | lmdb-backend/src/expr.c:2958-2968 | the register of an operand is in use, and to be released only if it was not in use before |
| CodeGenShape.IfTrueShape | lmdb-backend/src/expr.c:3533-3642 | the same discipline for jumps if true |
| CodeGenShape.IfFalseShape | lmdb-backend/src/expr.c:3653-3787 | the same discipline for jumps if false |
| CodeGenShape.TempGrows | lmdb-backend/src/expr.c:4130-4135 | a temporary comes from the pool or is new, is in use afterwards and was not before |
| CodeGenShape.ReleaseGrows | lmdb-backend/src/expr.c:4145-4157 | releasing a register keeps every other register in use |
| CodeGenShape.RangeGrows | lmdb-backend/src/expr.c:4162-4175 | consecutive registers come from the released block or are new, and none was in use |
| CodeGenShape.ReleaseRangeGrows | lmdb-backend/src/expr.c:4176-4182 | a larger block replaces the one kept, and no register becomes both free and in use |
| CodeGenRuns.LabelAddress | lmdb-backend/src/vdbeaux.c:250-257 | a jump to a resolved label goes to the instruction that was next when it was resolved |
| ExprTree.EvalDepends | lmdb-backend/src/expr.c:1173-1204 | an expression that passes the constant test has the same value and truth value in every row |
| Statements.WhereRows | lmdb-backend/src/where.c:4849-4868 | over any sequence of rows, with any code between them, the body is entered exactly for the rows on which the WHERE term is true, although constant lists are evaluated once |
| Statements.ColumnRows | lmdb-backend/src/expr.c:2975-2989 | over any sequence of rows every row leaves its own value of the expression in the target and nothing else in use is changed |
| Statements.NextRow | lmdb-backend/src/expr.c:1663-1679 | a table filled from a constant list is right for the next row too |
| Meaning.CompareMeans | lmdb-backend/src/vdbe.c:1818-1873 | each of the six comparisons of two values that are not NULL is 1 and true exactly when the engine puts them in that order, otherwise 0 and false; with a NULL it is NULL |
| Meaning.BetweenMeans | lmdb-backend/src/expr.c:2745-2768 | BETWEEN is false below the low or above the high bound, true when all three are known and it is neither, and otherwise NULL |
| Meaning.IsMeans | lmdb-backend/src/vdbe.c:1818-1836 | IS takes NULL to be the same as NULL and nothing else; IS NULL tests for it |
| Meaning.NumbersCompare | lmdb-backend/src/vdbe.c:1866-1873 | with an engine that orders integers as numbers, comparing two integers gives what comparing the numbers gives, for all six operators |
| Meaning.NumbersBetween | lmdb-backend/src/expr.c:2745-2768 | with such an engine, BETWEEN on integers is low <= x <= high |
| Meaning.StoredConnectives | lmdb-backend/src/vdbe.c:2006-2055 | AND, OR and NOT of stored values, by whether the operands are zero, other than zero, or NULL |
| Meaning.JumpConnectives | lmdb-backend/src/vdbe.c:2006-2055 | a conjunction is true when both sides are and false when one is; a disjunction and a negation likewise |
| Meaning.NumbersAsConditions | lmdb-backend/src/vdbe.c:2101-2117 | a number is a true condition when it is not zero; as an operand of AND, OR and NOT when it is not between -1 and 1 |
| Meaning.InMeans | lmdb-backend/src/expr.c:1877-1990 | IN is false on an empty list, true when some element that is not NULL compares equal, and otherwise NULL if there is a NULL on either side |
| Meaning.CoalesceMeans | lmdb-backend/src/expr.c:2627-2643 | COALESCE is the value of the first argument that is not NULL, or NULL |
| Meaning.CaseIs | lmdb-backend/src/expr.c:2850-2915 | both forms of CASE give the result of the first arm whose test holds, or that of ELSE |
| Meaning.IfTrueArrives | lmdb-backend/src/expr.c:3533-3642 | where jump-if-true ends up: the destination when the condition is true or is NULL and NULL was asked to jump, else the next instruction |
| Meaning.IfFalseArrives | lmdb-backend/src/expr.c:3653-3787 | where jump-if-false ends up |
| Meaning.CompareJumps | lmdb-backend/src/vdbe.c:1866-1884 | code for a comparison of values that are not NULL jumps if and only if the engine puts them in that order, for all six operators |
| Meaning.CompareSkips | lmdb-backend/src/vdbe.c:1866-1884 | the same for jump-if-false, which goes on exactly then |
| Meaning.CompareStores | lmdb-backend/src/vdbe.c:1866-1880 | a comparison coded into a register leaves 1 there if the engine puts the values in that order, else 0 |
| Meaning.NullJumps | lmdb-backend/src/vdbe.c:1837-1850 | a comparison with a NULL jumps if and only if NULL was asked to jump |
| Meaning.BetweenJumps | lmdb-backend/src/expr.c:3475-3517 | code for BETWEEN jumps if and only if the value is not below the low and not above the high bound |
| Meaning.InJumps | lmdb-backend/src/expr.c:3623-3631 | code for IN jumps if and only if some element of the list compares equal |
| Meaning.WhereCompares | lmdb-backend/src/where.c:4849-4868 | WHERE with a comparison, over any sequence of rows: the body is entered for exactly the rows whose operands are not NULL and in that order |
| Truth.BothReadings | lmdb-backend/src/vdbe.c:2006-2055 | an AND/OR/NOT skeleton has as a value the truth of its operands read as integers, and as a jump that of its operands read as reals |
| Truth.PredicatesAgree | lmdb-backend/src/vdbe.c:2006-2120 | a skeleton over comparisons, IS, IS NULL, BETWEEN and IN has one truth value, however it is coded |
| Truth.NegationsAgree | lmdb-backend/src/vdbe.c:2046-2120 | for any operand, that is any expression but AND, OR and NOT, under any number of NOTs: value and jump agree if and only if the operand's value is not a fraction between -1 and 1; for text and blobs, if and only if their two numbers are both zero or both not |
| Truth.WholeAgree | lmdb-backend/src/vdbe.c:2006-2120 | any tree of AND, OR and NOT over operands without fractions has one truth value, however it is coded |
| Truth.NotHalf | lmdb-backend/src/vdbe.c:2046-2120 | NOT 0.5 is 1 as a value and false as a condition |
| ExprAnd.AndPreserved | lmdb-backend/src/expr.c:529-558 | the joined condition, folded or not, has the value and the truth of the conjunction |
| ExprAnd.IntegerValue | lmdb-backend/src/expr.c:1261-1289 | a tree recognised as an integer evaluates to that integer, which fits 32 bits with its negation |
| ExprAnd.IntegerIs | lmdb-backend/src/expr.c:1261-1289 | an integer is a literal that fits 32 bits under signs and nothing else, and every minus turns its sign |
| ExprAnd.AndFolds | lmdb-backend/src/expr.c:529-558 | the conditions are folded to zero exactly when one of them is a zero under signs that is not from a join; otherwise they are joined, and a missing one does not count |
| ExprCompare.Compare | lmdb-backend/src/expr.c:3805-3839 | 0 if and only if the trees are the same; 1 if and only if they are not but become so below COLLATE at the top; 2 for all others |
| ExprCompare.ListCompare | lmdb-backend/src/expr.c:3853-3865 | 0 if and only if the lists have the same length, sort orders and trees |
| ExprCompare.SameMeaning | lmdb-backend/src/expr.c:3790-3804 | trees that compare equal mean the same under every semantics that looks at what a node means |
| ExprCompare.SameValue | lmdb-backend/src/expr.c:3790-3804 | trees that compare as 0 or 1 have the same value in every row |
| ExprDup.Dup | lmdb-backend/src/expr.c:777-878 | the buffer is exactly as large as computed beforehand, and the tree read back from it is the tree |
| ExprDup.DupInto | lmdb-backend/src/expr.c:796-878 | a subtree is written from the cursor on, its address is reported, the cursor ends where the size says, and nothing outside is touched |
| ExprDup.DupChildren | lmdb-backend/src/expr.c:857-867 | the children go where the cursor is, the structure is made to point at the addresses they report, and these are where the layout puts them |
| ExprDup.PutNode | lmdb-backend/src/expr.c:812-846 | one node, reduced or token-only, with every byte of its structure and its token behind it, padded to eight; its pointers are not set yet |
| ExprDup.ReadBack | lmdb-backend/src/expr.c:732-762 | a stored tree is read back, each node by the layout its flags announce |
| ExprDup.StoredFrame | lmdb-backend/src/expr.c:857-867 | a stored tree depends on its own cells only, so that siblings cannot overwrite each other |
| ExprDup.NodeSizeIs | lmdb-backend/src/expr.c:732-762 | a node takes the token-only structure if it has no operands and no list, else the reduced one, with room for its token and the final zero, up to the next multiple of eight |
| Bitvec.Node.constructor | lmdb-backend/src/bitvec.c:114-122 | the empty set of any 32-bit size |
| Bitvec.Node.Test | lmdb-backend/src/bitvec.c:129-151 | true exactly for the members, for any number, zero and out-of-range included, and for a missing bitvec |
| Bitvec.Node.Set | lmdb-backend/src/bitvec.c:165-228 | adds one member and no other, in whichever of the three forms the node has |
| Bitvec.Node.SetInHash | lmdb-backend/src/bitvec.c:184-227 | an insertion into the hash, or the change to a tree when it is too full |
| Bitvec.Node.Subdivide | lmdb-backend/src/bitvec.c:205-223 | the change to a tree keeps all members and adds the new one |
| Bitvec.Node.Clear | lmdb-backend/src/bitvec.c:236-268 | removes one member and no other |
| Bitvec.Rebuild | lmdb-backend/src/bitvec.c:251-266 | the hash rebuilt without one value still finds every other |
| Bitvec.Probe | lmdb-backend/src/bitvec.c:144-149 | linear probing ends, and finds a value if and only if it is there |
| Bitvec.PutChained | lmdb-backend/src/bitvec.c:197-227 | storing in the first free slot keeps every probe sequence unbroken |
| Bitvec.BinInRange | lmdb-backend/src/bitvec.c:171-179 | every bit number has one of the sub-bitmaps, each smaller than the whole |
| Bitvec.DivisorIs | lmdb-backend/src/bitvec.c:215 | the divisor is the size over the number of sub-bitmaps, rounded up, and never zero; the sum is one of size_t, so no 32-bit size wraps around |
| Bitvec.SpreadAfter | lmdb-backend/src/bitvec.c:171-179 | changing one sub-bitmap at one place changes exactly one member of the whole |
| Bitvec.BitAfter | lmdb-backend/src/bitvec.c:180-183 | setting or clearing a bit of the bitmap changes that bit only |
| Bitvec.Replay | lmdb-backend/src/bitvec.c:321-398 | for every 32-bit size, after any sequence of sets and clears the membership test agrees with the set they describe |
| ForeignKeys.Session.LookupParent | lmdb-backend/src/fkey.c:318-443 | the counter moves by one exactly when the child key has no NULL, no parent row and is not its own parent; or the statement halts; nothing is looked up when there is nothing to resolve |
| ForeignKeys.Session.ScanChildren | lmdb-backend/src/fkey.c:473-585 | the counter moves once for every child row with that key, the row itself excepted when it is being removed |
| ForeignKeys.Session.CheckInsert | lmdb-backend/src/fkey.c:702-857 | both counters go from the number of violations before the insert to that after it, plus what was left behind before, unless the statement halts |
| ForeignKeys.Session.CheckDelete | lmdb-backend/src/fkey.c:702-857 | both counters go from the number of violations before the delete to that after it, plus what was left behind before |
| ForeignKeys.Session.InsertRow | lmdb-backend/src/insert.c:1031-1037 | counters equal to the violations stay so across an insert |
| ForeignKeys.Session.DeleteRow | lmdb-backend/src/delete.c:536-551 | the same across a delete |
| ForeignKeys.Session.UpdateRow | lmdb-backend/src/update.c:489-505 | the same across an update: a delete check and an insert check around the change, or neither if no key column is assigned to |
| ForeignKeys.UpdateSizes | lmdb-backend/src/fkey.c:901-946 | an update that assigns to no child or parent key column keeps the number of violations, even if it moves the row |
| ForeignKeys.Session.Bump | lmdb-backend/src/vdbe.c:5267-5273 | one counter moves, the other does not |
| ForeignKeys.Session.Execute | lmdb-backend/src/vdbeaux.c:2004-2078 | any statement, single-row INSERTs included, takes effect in full or not at all, and keeps the deferred counter at the violations plus what was left behind; the new part of that is given exactly |
| ForeignKeys.Session.ExecuteMulti | lmdb-backend/src/vdbeaux.c:2004-2078 | a statement that writes several rows succeeds exactly when no row operation is refused and no immediate constraint is violated at its end, and otherwise restores the database and the deferred counter |
| ForeignKeys.Session.Commit | lmdb-backend/src/vdbeaux.c:2069-2078 | a commit succeeds exactly when no deferred constraint is violated and nothing was left behind |
| ForeignKeys.Session.Rollback | lmdb-backend/src/main.c:1006-1046 | the committed database again, with a deferred counter of zero, which is exact |
| ForeignKeys.Session.Do | lmdb-backend/src/vdbeaux.c:2165-2219 | BEGIN, COMMIT, ROLLBACK and statements in and out of a transaction do what they should and keep the committed database consistent |
| ForeignKeys.Replay | lmdb-backend/src/vdbe.c:2836-2898 | after any sequence of commands the tables are what the commands should make of them, no immediate constraint is violated, and the committed database violates no constraint at all |
| ForeignKeys.Session.InsertSingle | lmdb-backend/src/fkey.c:425-440 | a single-row insert succeeds exactly when the row is accepted and leaves no immediate constraint violated; when it halts, the database is unchanged and the deferred counter has moved by the leak |
| ForeignKeys.Transaction | lmdb-backend/src/fkey.c:31-79 | any transaction on any consistent connection, single-row INSERTs included: the data is what the successful statements make of it, no immediate constraint is left violated, and it commits exactly when no deferred one is and no INSERT has leaked |
| ForeignKeys.InsertBad | lmdb-backend/src/fkey.c:31-79 | an insert removes the violations of the children it is a parent of, adds its own, and changes no other |
| ForeignKeys.DeleteBad | lmdb-backend/src/fkey.c:31-79 | a delete removes its own violations, adds those of its orphans, and changes no other |
| ForeignKeys.HaltAtFirst | lmdb-backend/src/fkey.c:425-433 | a halt is at the first immediate constraint that the row violates |
| ForeignKeys.HaltsIff | lmdb-backend/src/fkey.c:425-433 | the statement is halted if and only if the row would leave an immediate constraint violated |
| ForeignKeys.LeakFree | lmdb-backend/src/vdbeaux.c:2011-2053 | nothing leaks if and only if no deferred constraint ahead of the halting one is violated by the row |
| ForeignKeys.LeakExample | lmdb-backend/src/fkey.c:425-433 | a table with a deferred key before an immediate one: a halted insert leaves the counter at one in a database without violations |
| ForeignKeys.LeakRefused | lmdb-backend/src/vdbeaux.c:2069-2078 | after a transaction of one leaking insert the commit is refused on an empty database |
| ForeignKeys.BadIs | lmdb-backend/src/fkey.c:318-443 | a violation is a row of the child table without a NULL in the child columns for which no row of the parent table has equal values in the parent columns |
| ForeignKeys.AcceptsIs | lmdb-backend/src/insert.c:1310-1421 | a row is accepted exactly when its rowid is free and no row has the same values without NULLs in the columns of a unique index |
| ForeignKeys.NullInserted | lmdb-backend/src/fkey.c:344-347 | an accepted row with a NULL in some column of every immediate key of its table is inserted |
| ForeignKeys.OrphanRefused | lmdb-backend/src/fkey.c:318-443 | a row without NULLs in an immediate key that names neither a row of the parent table nor itself is refused |
| ForeignKeys.UpdatedIs | lmdb-backend/src/update.c:489-505 | an updated row has the assigned values, its old ones elsewhere and its new rowid; no other row changes |
| ForeignKeys.RolledBack | lmdb-backend/src/main.c:1006-1046 | a transaction of any statements that is rolled back leaves no trace |
| HashTable.StrHash | lmdb-backend/src/hash.c:55-63 | the hash of a key depends on the key with its case folded only |
| HashTable.Hash.constructor | lmdb-backend/src/hash.c:23-29 | the empty map |
| HashTable.Hash.Clear | lmdb-backend/src/hash.c:35-50 | the empty map again |
| HashTable.Hash.InsertElement | lmdb-backend/src/hash.c:69-94 | an element spliced in front of its bucket's run, or of the list, keeps the list linked both ways and the buckets contiguous |
| HashTable.Hash.Rehash | lmdb-backend/src/hash.c:103-137 | the same elements under a new number of buckets, or nothing changed when the allocator gives nothing |
| HashTable.Hash.FindElement | lmdb-backend/src/hash.c:143-167 | the element with that key, by bucket or by walking the list; null only if there is none |
| HashTable.Hash.RemoveElement | lmdb-backend/src/hash.c:172-201 | one element unlinked, the bucket heads and counts still right |
| HashTable.Hash.Find | lmdb-backend/src/hash.c:207-221 | the data of the element whose key is a respelling of the key, or null if there is none |
| HashTable.Hash.Insert | lmdb-backend/src/hash.c:237-281 | stores, replaces or, for null data, removes one key; returns the data of the element whose key was a respelling of it; every other key is unchanged, whether or not the table was resized |
| HashTable.Replay | lmdb-backend/src/hash.h:30-51 | after any sequence of insertions and removals a lookup gives the data of the last call whose key is a respelling of the key, whatever the hash function and the allocator do |
| HashTable.ReplayStrings | lmdb-backend/src/hash.c:55-63 | the same with the hash function of the source |
| HashTable.SameFold | lmdb-backend/src/global.c:24-40 | two keys are one key exactly when they have one length and at each place the same character, or a capital and its small letter |
| HashTable.AfterAnswers | lmdb-backend/src/hash.c:237-281 | the map that a run of calls describes holds for a key the data of the last call with a respelling of it; calls with other keys do not matter |
| HashTable.Bucketed | lmdb-backend/src/hash.c:213-217 | the bucket computed from the hash of the source is that of the folded key |
| HashTable.RunInsert | lmdb-backend/src/hash.h:30-51 | every bucket is one contiguous run of the list, kept by insertion |
| HashTable.RunRemove | lmdb-backend/src/hash.h:30-51 | every bucket is one contiguous run of the list, kept by removal |
| Sampler.Stat3Accum.constructor | lmdb-backend/src/analyze.c:245-270 | an empty sample, with a period that lets at most a third of it be periodic |
| Sampler.Stat3Accum.Push | lmdb-backend/src/analyze.c:294-363 | whatever is pushed is held or discarded; at most the limit is held, in key order; nothing discarded was periodic, had more equal rows than a held sample that is not, or on a tie a larger hash |
| Sampler.FindMin | lmdb-backend/src/analyze.c:340-361 | the sample found is not periodic, has the fewest equal rows of those that are not, and on a tie the smallest hash |
| Sampler.PeriodBound | lmdb-backend/src/analyze.c:267 | the number of periodic samples over the whole index is at most a third of the limit |
| Sampler.PeriodLeast | lmdb-backend/src/analyze.c:267 | the period is the least number that, taken a third of the limit and one more times, exceeds the number of rows |
| Sampler.PrnIs | lmdb-backend/src/analyze.c:314 | the next random number is 1103515245 times the last plus 12345, in 32 bits |
| Sampler.Room | lmdb-backend/src/analyze.c:325-347 | a full sample always holds one that may be discarded, so the search for it ends |
| Sampler.EvictBest | lmdb-backend/src/analyze.c:319-331 | replacing the least sample by a better or periodic one keeps what is held best |
| Analyze.ScanIndex | lmdb-backend/src/analyze.c:526-616 | one pass counts the rows and, for every column, the distinct prefixes up to it; the groups pushed are the distinct first columns in order, with their exact numbers of equal, smaller and distinct smaller rows |
| Analyze.FirstChange | lmdb-backend/src/analyze.c:567-588 | the column at which a row departs from the previous one |
| Analyze.NewPrefix | lmdb-backend/src/analyze.c:589-605 | in index order a prefix is new if and only if it differs from that of the previous row |
| Analyze.SampleIndex | lmdb-backend/src/analyze.c:594-616 | the samples stored and those discarded are exactly the groups of the index |
| Analyze.AnalyzeIndex | lmdb-backend/src/analyze.c:526-616 | from the sorted rows of an index to the stored samples: at most the limit, in key order, each with the exact numbers of equal, smaller and distinct smaller rows; a value that is not stored is not periodic, and has no more rows than any stored value that is not, and on a tie no larger a random number |
| Analyze.RowsCounted | lmdb-backend/src/analyze.c:589-605 | the counts are numbers of rows with that value, and with a smaller one, in the first column |
| Analyze.LeqFirst | lmdb-backend/src/analyze.c:567-588 | index order is decided by the first column that differs |
| Analyze.BinCrosses | lmdb-backend/src/analyze.c:315-317 | a group is periodic exactly when a multiple of the period lies among its rows |
| Analyze.EstimateCeiling | lmdb-backend/src/analyze.c:643-670 | the stored number is the rows per distinct prefix, rounded up |
| Analyze.Estimates | lmdb-backend/src/analyze.c:643-670 | the divisor is never zero, and longer prefixes never select more rows |
| Pattern.PatternCompare | lmdb-backend/src/func.c:588-694 | the matcher, with its skipping and seeking after a wildcard, agrees with the declarative meaning of the pattern on every string |
| Pattern.OperatorsUsable | lmdb-backend/src/func.c:1570-1584 | GLOB without an escape character and LIKE with any are operators the matcher is proved for |
| Pattern.MatchAll | lmdb-backend/src/func.c:604-642 | the part after a wildcard that matches any run |
| Pattern.SeekLit | lmdb-backend/src/func.c:626-642 | trying only the places where the next literal occurs loses no match |
| Pattern.SeekSet | lmdb-backend/src/func.c:618-625 | a set after a wildcard is tried at every place |
| Pattern.SkipRun | lmdb-backend/src/func.c:605-610 | a run of wildcards is the characters it must take, then one wildcard |
| Pattern.ScanSet | lmdb-backend/src/func.c:647-678 | a bracket set: membership, inversion, ranges and the leading bracket; an unclosed set matches nothing |
| Pattern.StarStar | lmdb-backend/src/func.c:605-610 | two wildcards that match any run are one |
| Pattern.StarOne | lmdb-backend/src/func.c:605-610 | a wildcard that matches any run commutes with one that matches a character |
| Pattern.StarSeek | lmdb-backend/src/func.c:618-642 | after a wildcard the rest matches if and only if it matches at some place |
| PatternForm.ListRead | lmdb-backend/src/func.c:656-674 | a set written from characters, ranges, a bracket that comes first and a dash at either end is read back as that: the same members, and the rest of the pattern |
| PatternForm.SetMatches | lmdb-backend/src/func.c:647-678 | in a pattern, such a set matches one character that is among its members, or with a caret one that is not, and then what follows |
| PatternForm.RangeMatches | lmdb-backend/src/func.c:663-667 | [lo-hi] matches exactly the characters from lo to hi, and [^lo-hi] the others |
| PatternForm.NeverClosed | lmdb-backend/src/func.c:662-678 | without a closing bracket there is no set |
| PatternForm.ParseBack | lmdb-backend/src/func.c:603-691 | wildcards and literals, with an escape character where one is needed, are read back as they were written |
| PatternForm.WildcardMatches | lmdb-backend/src/func.c:552-555 | percent and star match anything, underscore and question mark exactly one character |
| PatternForm.LiteralMatches | lmdb-backend/src/func.c:681-691 | a pattern without wildcards: LIKE accepts the texts that differ from it at most in the case of ASCII letters, GLOB only the text itself |
| Dates.NextDay | lmdb-backend/src/date.c:213-235 | the day number of the next calendar day is one more, over every end of month, year, century and leap day from year 0 on |
| Dates.Epoch | lmdb-backend/src/date.c:213-235 | two known days, which with NextDay fix all others |
| Dates.Milliseconds | lmdb-backend/src/date.c:213-245 | 1970-01-01 and 2000-01-01 in the milliseconds of iJD |
| Dates.RoundTrip | lmdb-backend/src/date.c:345-366 | the date of a date's day number is that date if and only if it is not 1 March 300 |
| Dates.Exception | lmdb-backend/src/date.c:345-366 | for that day the code gives 29 February 300, which is no date |
| Dates.DayRoundTrip | lmdb-backend/src/date.c:345-366 | the day number of a day's date is that day, for every day from year 0 on, and it is a date with that one exception |
| Dates.Injective | lmdb-backend/src/date.c:213-235 | different dates have different day numbers |
| Dates.DateTime.ComputeJD | lmdb-backend/src/date.c:213-245 | a Julian day already valid is kept; otherwise that of the date, or of 2000-01-01 |
| Dates.DateTime.ComputeYMD | lmdb-backend/src/date.c:345-366 | a date already valid is kept; otherwise that of the Julian day, or 2000-01-01 |
| IndexKey.SplitIndexKey | lmdb-backend/src/btree.c:1040-1052 | in place, the record becomes a key without the rowid followed by the rowid with its type |
| IndexKey.JoinIndexKey | lmdb-backend/src/btree.c:1054-1076 | joining what was split gives back the record byte for byte, whatever the length of its header |
| IndexKey.SplitAndJoin | lmdb-backend/src/btree.c:1040-1076 | a buffer that is split in place, cut into key and data, and joined again holds its original bytes |
| IndexKey.SplitKeyIs | lmdb-backend/src/btree.c:1040-1052 | the key is itself a well-formed record if and only if its shorter header length takes as many bytes as the longer one |
| IndexKey.HeaderCanonical | lmdb-backend/src/btree.c:1111-1121 | the header length counts its own bytes, and with one type fewer takes as many |
| IndexKey.SplitCanonical | lmdb-backend/src/btree.c:1111-1121 | a record whose header length was computed by the rule for new records splits into a key that is itself a record of the columns |
| IndexKey.DecodeVarint | lmdb-backend/src/btree.c:1040-1076 | reading a varint back gives the number, whatever follows |
| IndexKey.SerialLengths | lmdb-backend/src/vdbeaux.c:2630-2637 | how many bytes a value takes, for every serial type in use |
| Complete.IsComplete | lmdb-backend/src/complete.c:104-254 | the scanner answers as the state machine over the tokens of the text does, which is what CompleteForm.CompleteIff spells out |
| Complete.NextToken | lmdb-backend/src/complete.c:138-249 | the loops inside quotes, comments and identifiers find the end of the token |
| Complete.AcceptsTokens | lmdb-backend/src/complete.c:104-254 | a text is complete if and only if no quote or comment is left open and its tokens lead to the start state |
| Complete.Followed | lmdb-backend/src/complete.c:104-254 | after a complete text the answer for what follows is that for it alone, less the line that an open comment swallows |
| Complete.Concatenated | lmdb-backend/src/complete.c:104-254 | two complete texts in a row are complete if and only if the first does not end in a line comment or what follows the first newline of the second is complete |
| Complete.Swallowed | lmdb-backend/src/complete.c:163-172 | a pair of complete texts that are not complete together |
| Complete.TriggerEnds | lmdb-backend/src/complete.c:51-103 | inside CREATE TRIGGER only a semicolon, END and a semicolon in a row lead out |
| CompleteForm.CompleteIff | lmdb-backend/src/complete.c:104-254 | a text is complete if and only if no quote or comment is left open and its tokens, less white space and comments, are one or more whole statements: trigger definitions up to the first semicolon, END and semicolon, and others up to their first semicolon |
| CompleteForm.StatementsRun | lmdb-backend/src/complete.c:115-124 | from the start state the transition table comes back to it exactly on sequences of whole statements |
| CompleteForm.Told | lmdb-backend/src/complete.c:60-83 | what each state says about the tokens of the statement under way |
| CompleteForm.KeywordIs | lmdb-backend/src/complete.c:201-236 | the words that are more than other tokens, in any case of their letters |
| AffinityScan.AffinityType | lmdb-backend/src/build.c:1069-1103 | the rolling window finds the affinity that the table of substrings gives, in its order of priority |
| AffinityScan.BranchIs | lmdb-backend/src/build.c:1074-1099 | one more byte changes the answer exactly as it changes which words occur |
| AffinityScan.WindowIs | lmdb-backend/src/build.c:1074 | the window is the last four bytes, although it is shifted modulo 2 to the 32 |
| AffinityScan.OccursSomewhere | lmdb-backend/src/build.c:1044-1068 | a word that occurs, occurs at some place |
| AffinityScan.Declared | lmdb-backend/src/build.c:1044-1068 | the affinity by the words that stand in the declared type, in any case of their letters, in the order of the documentation |

## Left out

- CodeGen: the column cache (`sqlite3ExprCachePush` and its relatives) is off, so every column is read again.
- CodeGen: subqueries, EXISTS, IN over a SELECT or an existing index, aggregates, triggers and RAISE are not in the trees.
- CodeGen: affinity and collation are part of the abstract `compare` of the engine; `OP_Affinity` and `OP_CollSeq` are not emitted.
- CodeGen: the number of the IN table and of its once-flag comes with the tree instead of from counters in the parser; unary plus, COLLATE and AS are one node.
- CodeGen: a jump that is patched later to the next instruction is emitted with that address; a jump to a label is modelled as in the source.
- Vdbe: `OP_SCopy` copies; that a shallow copy may outlive the memory it points to is not modelled. An IN table is a set of keys, so the order of its b-tree is not visible.
- Vdbe: arithmetic, casts, parsing of numbers and SQL functions are parameters; overflow and rounding happen inside them.
- ExprAnd.IntegerIs: takes COLLATE and AS for a sign, as ExprAnd.IntegerValue does.
- ExprAnd.IntegerValue: looks through COLLATE and AS as well as through unary plus, which share a node here; the source looks through unary plus and minus only, so the result covers more folding than the source does.
- ExprDup: separately allocated lists are opaque numbers; `nHeight`, the full-size copy and token-only source nodes are not modelled.
- Bitvec: the union of the three forms is three fields, the descent through a tree is a call, and allocation does not fail.
- ForeignKeys: ON DELETE and ON UPDATE actions, DROP TABLE, the authorizer, the transfer optimisation of INSERT, SAVEPOINT, INSERT OR REPLACE, triggers, and affinity and collation of keys (keys are compared by equality) are left out; foreign keys are taken to be checked from the creation of the database on.
- HashTable: allocation fails only in a resize, which the source ignores; data is a number and null is zero.
- Analyze: a column value is its rank in its collating order; the pushes are collected in the loop and made after it, in the same order; `stat3_get` and the text of the stored row are not modelled.
- Pattern: strings are sequences of code points; reading UTF-8 is not modelled.
- Dates: the time of day, time zones and modifiers, years before 0 and 32-bit overflow are left out; the floating-point quotients are taken exactly, as quotients of integers, so rounding is not modelled.
- Truth: the parsers that turn text into an integer and into a real are parameters; when they agree about zero is not resolved to a condition on the characters.
- IndexKey: reuse of the cursor's buffer, and the hashing of long columns, are not modelled.
- Complete: the UTF-16 wrapper is not modelled.
- The tokenizer, the parser, the query planner, the pager and the LMDB cursor functions are left out: there the work is in the interplay with code outside this tree.
