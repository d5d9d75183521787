# NanoXGen verification

A Dafny model of the parts of NanoXGen whose correctness is hardest to see from the code, with proofs of
the properties those parts exist for. To verify it, use `dafny verify dfyconfig.toml` with Dafny 4.11.

The model covers these areas.

**Thread pool** (`TaskExecutor.dfy`). The fixed-size pool with nested `parallel_for` is a state machine over
the atomic steps of its threads: stacks of frames, the shared queue, the groups, the stop flag. Evaluating a
wait predicate and going to sleep are separate steps, so lost wakeups are expressible. The invariant says that
every known job is in exactly one place, that `remaining` counts the unfinished jobs, that no sleeper is
forgotten, and that a nested `run` always owns a newer group than the frames below it. From it follow deadlock
freedom for every nesting, a bound on the work of every run by what its calls bring in, exactly-once execution, the
rethrow rule and the drain on shutdown. `ExecutorOrder.dfy` adds that each group's jobs are started in the order of
their indices.

**Minimum-cost assignment** (`Assignment.dfy`, `Permutations.dfy`). The guide-to-curve assignment as the source
runs it, in place on its potential, pairing and back-pointer arrays, over the reals. The result is a
permutation whose total cost no other permutation beats.

**Guide matching** (`GuideMatching.dfy`, `Decimals.dfy`). The authored identifiers at the end of the curve names,
read from text, override that assignment exactly when they determine a pairing of guides and curves.

**Expression compiler** (`ExpressionSyntax`, `ExpressionPhrases`, `ExpressionSemantics`, `ExpressionLaws`,
`ExpressionProgram`, `ExpressionEmitter`, `ExpressionLimits`, `ExpressionCompiler`, `Ramps`, `RampSlopes`). The
recursive-descent compiler with its cursor, program and locals; the strict evaluator of the emitted instructions; and
a meaning of syntax trees that knows no instructions. Every compiled program means what its source means, including
when it fails. What the source is comes from `ExpressionPhrases`, which says how expressions are written, operator by
operator, and knows no parser: the grammar reads exactly what is written there, and every tree, printed with as few
parentheses as its operators allow, parses back to itself. `ExpressionLimits` counts what a source needs and says when
it compiles; `ExpressionLaws` says what every call and operator gives. Ramps pass through their points, and where two
cubic spans meet they have one slope.

**Expression hash** (`HashComponent.dfy`, `ExpressionHash.dfy`). The float component in two 64-bit limbs equals
the exact real product's fraction and exponent; finishing is a bijection on 32-bit words. The component of 1 and its
hash are those of the calibration in `tests/expression_test.cpp:41-45`.

**Container** (`Bytes.dfy`, `XgenContainer.dfy`, `PackedCurves.dfy`, `PackedLayout.dfy`, `Sorting.dfy`,
`FusedReader.dfy`). The byte format with its writer and staged reader, its layout byte by byte, both round trips, the
packing of curves in either order, and the selective reader, which is proved equal to the staged one on every input.
`PackedLayout` says of the stored bytes alone which curves the arrays of any number of items hold and when they are
acceptable; packing gives these curves, item after item or sorted, exactly when they are.

**Metadata** (`JsonText.dfy`, `JsonTree.dfy`, `JsonForms.dfy`, `JsonReader.dfy`, `XgenMetadata.dfy`). The JSON parser
with its offset, the written forms of strings and numbers, the printing of JSON values with any spacing and its
inverse, the header and item readers, and the writer.

**Building and reading curves** (`CurveChannels.dfy`, `ChannelLayout.dfy`, `XgenBuilder.dfy`, `PackedRoundTrip.dfy`). From evaluated
curves to typed arrays, groups, ids and metadata, to bytes, and back through every reader.

**Alias table** (`AliasTable.dfy`), **guide grid** (`Geometry.dfy`, `GuideSupport.dfy`, `GuideIndex.dfy`), **root
plan** (`RootPlan.dfy`), **curve rebuild** (`SplineCurve.dfy`, `CurveRebuild.dfy`), **samples** (`Samples.dfy`), **clump remap**
(`ClumpRemap.dfy`) and **motion sharing** (`MotionSharing.dfy`) are the geometric and combinatorial kernels.

Conventions. Computations over `float` and `double` are modelled over `real`, except in the two hash modules and
wherever values are only moved or compared as bits, which are words. Machine words are written out
(`word32`, `word64`, explicit remainders). Exceptions are `None`, `Err` or a false `ok`. What the source calls
and this model does not contain is a parameter: the compressor, the square root, the texture samplers and the
surface evaluators. The container's proofs hold for every metadata reader; the round trip uses the real one.
State that the source updates in place is a field, an array or a local sequence of a method, and each such method
is proved against a function whose properties are then proved as lemmas. `Arithmetic.dfy` and `Wrappers.dfy` are shared helpers.

Three results are worth knowing for a maintainer:

* The sample descent (`src/xgen_samples.cpp:29-61`) ends exactly for indices below 2863300608. From there on its
  32-bit comparison value is zero at the tenth level and the loop does not end (`Samples.DescentStops`).
  The group size is 32768 as in `include/nanoxgen/xgen_samples.h`.
* The clump remap identifies guides by face and coordinate bits. Prefilter and region filter keep or drop equal
  guides together, so there every guide goes to itself; culling can separate them, and then the greedy walk
  sends a culled guide to its double (`ClumpRemap.DoublesAreConfused`). The whole remap is exact if and only if
  no culled guide, between a surviving one and the survivor before it, has that survivor's identity
  (`ClumpRemap.GreedyExactly`, `ClumpRemap.BuildRemap`).
* Nothing on the way to root planning tests the sign of a guide's radii; only `src/asset.cpp:128-145` does. A broad
  radius below minus the cell size, together with a radius of some angle beyond it, can put a guide out of reach of
  the 27 cells (`GuideIndex.NegativeRadiusMissed`). A guide's support is safe wherever it stands if and only if one of
  the two is within the cell size (`GuideIndex.NearExactly`), and then the grid agrees with brute force.

## Model

| member | source | states |
|---|---|---|
| TaskExecutor.Preferred | src/task_executor.cpp:97-107 | helping takes the first queued job of the waiter's own group, and the front of the queue only when the group has none queued |
| TaskExecutor.InitialInv | src/task_executor.cpp:49-70 | a new pool with at least one worker satisfies the invariant |
| TaskExecutor.PlacedKept | src/task_executor.cpp:87-158 | every step keeps each known job in exactly one place: queued, running in one frame, or done |
| TaskExecutor.CountedKept | src/task_executor.cpp:126-158 | every step keeps `remaining` equal to the number of the group's jobs that are queued or running, and each job taken at most once |
| TaskExecutor.WakeupsKept | src/task_executor.cpp:135-183 | no step loses a wakeup: a sleeping thread's predicate is false, or a notification to it is still due |
| TaskExecutor.InvKept | src/task_executor.cpp:72-188 | every enabled step, spurious wakeups included, keeps the whole invariant |
| TaskExecutor.ReachableInv | src/task_executor.cpp:49-188 | every state of every run of every pool satisfies the invariant |
| TaskExecutor.CoveredJob | src/task_executor.cpp:169-181 | a frame above an unfinished job on one stack belongs to a nested call on a newer group |
| TaskExecutor.NothingLeft | src/task_executor.cpp:169-187 | when no thread can work, no group is unfinished: behind each there would be a newer one |
| TaskExecutor.DeadlockFreedom | src/task_executor.cpp:87-188 | whatever was called and however calls nest, a state with unfinished work has a thread with an enabled working step |
| TaskExecutor.ReachableProgress | src/task_executor.cpp:87-188 | the same for every state that a run of a pool can reach |
| TaskExecutor.WorkingStepDecreases | src/task_executor.cpp:87-188 | every working step lowers a bound computed from queue and stacks, so helping and waiting cannot go on for ever |
| TaskExecutor.WorkCompletes | src/task_executor.cpp:87-188 | under any schedule a run takes no more working steps than the work at its start allows, plus an amount for each step that is not work: for a call in proportion to its jobs, for a shutdown, a spurious wakeup or a round of busy waiting a fixed one for the number of threads; it comes to rest only when everything is finished |
| TaskExecutor.ReachableCompletes | src/task_executor.cpp:87-188 | the same after any run of any pool; a run of working steps only takes at most the work that was left |
| TaskExecutor.CanFinish | src/task_executor.cpp:87-188 | from every state of the invariant some schedule finishes all work |
| TaskExecutor.ReturnMeansDone | src/task_executor.cpp:113-188 | when `run` returns, each of its indices was taken exactly once and is done, and it rethrows an exception exactly when one of its tasks threw, namely one of theirs |
| TaskExecutor.ShutdownDrains | src/task_executor.cpp:72-79 | the destructor's join completes only with an empty queue and every job ever queued run exactly once |
| TaskExecutor.ExitedQueueStaysEmpty | src/task_executor.cpp:81-97 | a worker leaves its loop only in a stopping pool with an empty queue, which then stays empty |
| ExecutorOrder.TakesEarliest | src/task_executor.cpp:95-110 | what a thread takes is the earliest queued job of its group, and for a worker at its loop the earliest of all |
| ExecutorOrder.JobsStartInOrder | src/task_executor.cpp:87-147 | in every run of every pool each group's jobs are started in the order of their indices, and the queue stays in the order of groups and indices |
| Assignment.Relax | src/xgen_classic_alembic.cpp:2168-2183 | one pass over the free columns lowers `minimum` and the back pointers to the best slack from the tree and finds the nearest column |
| Assignment.Shift | src/xgen_classic_alembic.cpp:2187-2194 | the potential update by delta, exactly |
| Assignment.ShiftedFeasible | src/xgen_classic_alembic.cpp:2187-2194 | shifting by the least slack keeps the potentials dual-feasible |
| Assignment.RoundKept | src/xgen_classic_alembic.cpp:2165-2196 | a whole round keeps the search tree, tightness of tree edges and matched pairs, and the minima of all free columns |
| Assignment.NoInfiniteDelta | src/xgen_classic_alembic.cpp:2184-2186 | with finite costs delta is finite, so the failure branch is never taken |
| Assignment.UnusedColumn | src/xgen_classic_alembic.cpp:2165-2196 | while a row searches, some column is unused, so the search ends |
| Assignment.AugmentStep | src/xgen_classic_alembic.cpp:2197-2201 | one step along the back pointers moves the hole and keeps a tight matching around it |
| Assignment.InsertRow | src/xgen_classic_alembic.cpp:2159-2202 | inserting a row ends with feasible potentials and a matching of all rows so far that is tight on every pair |
| Assignment.WeakDuality | src/xgen_classic_alembic.cpp:2155-2202 | feasible potentials bound the cost of every permutation from below |
| Assignment.TightIsOptimal | src/xgen_classic_alembic.cpp:2155-2208 | a full tight matching is a permutation of least cost among all permutations |
| Assignment.ExtractMapping | src/xgen_classic_alembic.cpp:2203-2208 | the mapping read off the pairing sends each row to its own column |
| Assignment.Assign | src/xgen_classic_alembic.cpp:2155-2218 | never fails for a non-finite delta; returns a globally optimal permutation of compatible pairs, or fails because an optimal permutation contains an incompatible pair |
| Assignment.CheapMeansCompatible | src/xgen_classic_alembic.cpp:2121-2218 | with nonnegative costs, if some permutation avoids the incompatible cost then no optimal one uses it |
| GuideMatching.TrailingIdMeans | src/xgen_classic_alembic.cpp:2220-2236 | a name has an identifier exactly when it ends, after no other digit, in that number's decimal form behind any zeros, and the number fits 64 bits |
| GuideMatching.ReadTrailingId | src/xgen_classic_alembic.cpp:2220-2236 | the backward scan and conversion compute that identifier |
| GuideMatching.WireIdsOfNames | src/xgen_classic_alembic.cpp:2237-2253 | names without commas that end in identifiers, joined by commas, give back these identifiers in order |
| GuideMatching.WireIdsOfEntries | src/xgen_classic_alembic.cpp:2237-2253 | empty entries between commas do not count, and one entry without an identifier leaves no identifiers at all |
| GuideMatching.ReadWireIds | src/xgen_classic_alembic.cpp:2237-2253 | the scan for commas skips empty entries, and gives nothing when an entry has no identifier |
| GuideMatching.MatchesUnique | src/xgen_classic_alembic.cpp:2264-2305 | identifiers ask for one pairing at most |
| GuideMatching.MatchedIds | src/xgen_classic_alembic.cpp:2266-2283 | when they ask for one, all curves have an identifier and every test before the pairing succeeds |
| GuideMatching.CheapIsCompatible | src/xgen_classic_alembic.cpp:2121-2218 | where costs are nonnegative and some pairing is cheaper than one incompatible pair, no optimal pairing uses an incompatible one |
| GuideMatching.RankedCurve | src/xgen_classic_alembic.cpp:2287-2294 | a guide's rank among the sorted identifiers leads to a curve with its own identifier |
| GuideMatching.AuthoredMapping | src/xgen_classic_alembic.cpp:2237-2305 | the mapping by ranks is the permutation that gives each guide the curve of its identifier and its number of points, and is missing exactly when no such permutation exists |
| GuideMatching.MapGuides | src/xgen_classic_alembic.cpp:2155-2333 | the mapping is the authored one if it exists, else a permutation of least cost whose roots agree; never pairs different numbers of points; what each failure means; and with nonnegative costs and a pairing cheaper than one incompatible pair it succeeds |
| GuideMatching.ApplyCurves | src/xgen_classic_alembic.cpp:2334-2340 | each guide gets the points of its curve behind its own root, though every curve is emptied by the move |
| ExpressionProgram.RampValue | src/xgen_expression.cpp:568-622 | a ramp's value, whenever it has one, lies between 0 and 1 |
| Ramps.RampAtPoint | src/xgen_expression.cpp:568-622 | a ramp with increasing positions passes through each of its points, whatever the interpolation on either side |
| Ramps.RampInSpan | src/xgen_expression.cpp:568-622 | between two points the ramp is the value of their span at the share of the way |
| Ramps.SpanEnds | src/xgen_expression.cpp:568-622 | every span starts at its first point, and all but steps end at their second, so ramps without steps are continuous |
| Ramps.SpanBetween | src/xgen_expression.cpp:568-622 | stepped, linear and smooth spans stay between the values of their two points |
| RampSlopes.SpanIsCubic | src/xgen_expression.cpp:568-622 | on a cubic span the ramp is the cubic whose end slopes are those of its two points, cut off to 0 and 1 |
| RampSlopes.CubicSpansSmooth | src/xgen_expression.cpp:568-622 | two neighbouring cubic spans go through their common point with the same slope, that of the line through the points beside it |
| ExpressionProgram.FailureStays | src/xgen_expression.cpp:861-993 | once an instruction fails the evaluation of every longer prefix fails with the same error |
| ExpressionProgram.Evaluate | src/xgen_expression.cpp:836-994 | the loop over the scratch array computes the strict instruction-by-instruction evaluation, or its first failure |
| ExpressionLaws.Operators | src/xgen_expression.cpp:318-375 | what every binary operator gives: arithmetic, comparisons and connectives as 1 or 0, and no quotient by zero |
| ExpressionLaws.Extremes | src/xgen_expression.cpp:515-566 | `min` and `max` take two arguments and give the smaller and the larger; a name that is no function gives nothing |
| ExpressionLaws.Clamps | src/xgen_expression.cpp:515-566 | `clamp` keeps what lies between its bounds and else gives the bound that is passed |
| ExpressionLaws.Fits | src/xgen_expression.cpp:515-566 | `fit` takes the first interval evenly to the second, ends to ends, and fails exactly on an interval of no length |
| ExpressionLaws.Smooth | src/xgen_expression.cpp:515-566 | `smoothstep` is level outside its bounds and 3 t t - 2 t t t between them, with the cases of equal bounds |
| ExpressionLaws.LibraryCalls | src/xgen_expression.cpp:515-566 | `hash` hashes all its values; `gamma` and `contrast` take two and are the library's |
| ExpressionLaws.RandomCalls | src/xgen_expression.cpp:529-540 | `rand` hashes the place, the face seed, the seed of its own site and maybe an explicit seed, over its interval |
| ExpressionLaws.StrayCalls | src/xgen_expression.cpp:541-547 | `stray` compares a hash of the place with the percentage |
| ExpressionEmitter.EmitExprGrown | src/xgen_expression.cpp:276-306 | emission only appends, never reports an SSA violation, keeps the program well formed, and numbers `rand` calls in the order of the tree |
| ExpressionEmitter.IncreasingRampIsFinite | src/xgen_expression.cpp:568-622 | points in strictly increasing positions never divide by zero |
| ExpressionEmitter.EmitExprMeans | src/xgen_expression.cpp:308-566 | running the instructions of a tree gives the tree's value with all branches evaluated, or is non-finite exactly when the tree is |
| ExpressionEmitter.StatementsMean | src/xgen_expression.cpp:233-264 | assignments act as bindings for what follows, and each statement keeps that correspondence |
| ExpressionEmitter.CompiledMeans | src/xgen_expression.cpp:233-566 | in every context with one value per input the compiled program gives the meaning of its statements and never trips an arity, operand-range, SSA-order or ramp check |
| ExpressionCompiler.Compiler.Ternary | src/xgen_expression.cpp:308-317 | consumes and emits exactly what the grammar's conditional parses at the cursor, or fails |
| ExpressionCompiler.Compiler.Level | src/xgen_expression.cpp:318-375 | each of the six binary levels parses left-associatively, and emits in that order, exactly what the grammar's level parses at the cursor, or fails; which operators those are says ExpressionPhrases.LevelsAreRanks |
| ExpressionCompiler.Compiler.Prefix | src/xgen_expression.cpp:376-382 | the same for the prefix operators |
| ExpressionCompiler.Compiler.Postfix | src/xgen_expression.cpp:383-404 | the same for chains of method calls, whose receiver becomes the first argument |
| ExpressionCompiler.Compiler.RampPoints | src/xgen_expression.cpp:406-462 | the same for ramps; their points are stored only in increasing order and within the limit |
| ExpressionCompiler.Compiler.Primary | src/xgen_expression.cpp:464-515 | the same for literals, names, parentheses and calls |
| ExpressionCompiler.Compiler.Call | src/xgen_expression.cpp:517-565 | emits a call with its arity check; each `rand` site gets the next number |
| ExpressionPhrases.LevelsAreRanks | src/xgen_expression.cpp:318-375 | the operators that a level of the grammar takes are those of its rank, written out operator by operator |
| ExpressionPhrases.LevelsRead | src/xgen_expression.cpp:318-375 | at any place a level reads each written expression of a tighter rank as its tree, whatever its operators, unless what follows holds on to it more tightly |
| ExpressionPhrases.Reads | src/xgen_expression.cpp:308-515 | a written expression is read as its own tree wherever what follows does not hold on to it more tightly than the rank asked for |
| ExpressionPhrases.GrammarIsWriting | src/xgen_expression.cpp:233-515 | the grammar accepts exactly the token sequences that are written as clauses and semicolons, with operands parenthesized where their rank asks for it, and reads their statements |
| ExpressionPhrases.PrintedTreeReads | src/xgen_expression.cpp:233-515 | every tree, printed with parentheses only where rank or left associativity asks for them, parses back to itself |
| ExpressionLimits.ExprFits | src/xgen_expression.cpp:276-566 | a tree can be emitted exactly when its names are bound, its calls and ramps are proper and its size keeps to the limits; the program then grows by that size |
| ExpressionLimits.SourceFits | src/xgen_expression.cpp:233-306 | as long as 32-bit offsets reach, statements can be emitted exactly when they are proper, and their instructions, ramp points and bound names keep to the limits |
| ExpressionCompiler.Compiler.Compile | src/xgen_expression.cpp:233-264 | succeeds exactly when the tokens parse and can be emitted within the limits, and the program then has the meaning of the source in every context; and the same said of the writing: only tokens of a written source compile, and the program means the statements of any pieces that are written so |
| HashComponent.LimbParts | src/xgen_expression.cpp:699-708 | shifting and masking the two limbs is shifting and masking the 77-bit product |
| HashComponent.Limbs | src/xgen_expression.cpp:690-695 | the two 64-bit limbs hold the exact product, carry included |
| HashComponent.LimbLength | src/xgen_expression.cpp:696-698 | the length from the leading zeros is the bit length of the product |
| HashComponent.FloorOfScaled | src/xgen_expression.cpp:699-708 | scaling by 2^32 - 1 takes one off the top bits exactly when the remainder is below the rounded-up 2^32-th part |
| HashComponent.ProductValue | src/xgen_expression.cpp:672-718 | fraction times two to the exponent is the float's magnitude times the constant, exactly |
| HashComponent.FractionOfProduct | src/xgen_expression.cpp:672-718 | the fraction lies in [1/2, 1) and the integer fraction is the floor of its multiple by 2^32 - 1 |
| HashComponent.RuntimeComponent | src/xgen_expression.cpp:672-718 | the two-limb computation is that signed fraction xor that exponent for every bit pattern, and fits 32 bits |
| HashComponent.ComponentOfOne | src/xgen_expression.cpp:672-718 | the components of 1 and -1 in numbers |
| ExpressionHash.TemperInverse | src/xgen_expression.cpp:647-650 | the four masked xor-shift steps are undone by an explicit inverse, in both directions |
| ExpressionHash.ScrambleInverse | src/xgen_expression.cpp:651-659 | the chained permutation lookups are undone byte by byte |
| ExpressionHash.FinishIsBijection | src/xgen_expression.cpp:646-660 | the finish has a two-sided inverse on 32-bit words |
| ExpressionHash.HashFinish | src/xgen_expression.cpp:646-660 | the word computation is the tempered word's bytewise scramble |
| ExpressionHash.HashPrefix | src/xgen_expression.cpp:636-644 | the loop accumulates the components from zero |
| ExpressionHash.HashSeparates | src/xgen_expression.cpp:636-660 | argument lists that differ in exactly one component never have the same hash |
| ExpressionHash.HashCalibrated | tests/expression_test.cpp:41-45 | the component of 1 alone hashes to the word whose share of 2^32 - 1 is the calibration value |
| Bytes.ReadWord | src/xgen.cpp:44-55 | reads the little-endian word at an offset, and fails exactly when it does not fit |
| Bytes.AppendWord | src/xgen.cpp:57-61 | appends the eight little-endian bytes of a word |
| Bytes.WordRoundTrip | src/xgen.cpp:44-61 | a written word is read back wherever it stands |
| XgenContainer.ReadGroups | src/xgen.cpp:1109-1150 | reads the stored groups in index order to exactly the end of the bytes |
| XgenContainer.DecodeGroup | src/xgen.cpp:1152-1201 | decodes one group, whose records must use up the expanded payload and its declared size |
| XgenContainer.ParseDocument | src/xgen.cpp:1079-1240 | the staged reader is the specified partial function on all bytes |
| XgenContainer.SerializeDocument | src/xgen.cpp:1264-1310 | the writer, checking fields, group order and sizes as it goes, is the specified partial function on all documents, and what it writes has the layout |
| XgenContainer.ParseSerialized | src/xgen.cpp:1079-1310 | parsing the serialization of any document that serializes returns that document, for every lossless compressor |
| XgenContainer.SerializeParsed | src/xgen.cpp:1079-1310 | for uncompressed files, serializing what was parsed reproduces every byte |
| XgenContainer.SerializedLayout | src/xgen.cpp:1264-1310 | where every word of a written file stands: magic words, sizes, numbers, counts, flags, types, and the bytes of every array up to the end |
| PackedCurves.ViewsNeed | src/xgen.cpp:701-758 | packing succeeds only if every reference resolves to an array of the expected type |
| PackedCurves.ViewsAgree | src/xgen.cpp:701-758 | packing depends on the lookup only through the references |
| PackedCurves.CanonicalOrder | src/xgen.cpp:799-810 | canonical order fails exactly when two curves share an identity, and else is their rearrangement by strictly increasing identity |
| PackedLayout.PackedIsStored | src/xgen.cpp:701-859 | packing any number of items succeeds exactly when every array is there with its type and size, every range and value is acceptable, the totals fit and, in canonical order, no identity repeats; it then gives every stored curve with its own points, item after item or by increasing identity |
| PackedLayout.SourcePacksInOrder | src/xgen.cpp:837-846 | in source order two lists of items pack exactly when both do and the totals fit, to the curves of the first followed by those of the second |
| FusedReader.Pack | src/xgen.cpp:701-859 | resolving, checking, ordering and flattening the curves computes the specified packed curves or fails as specified; said of the bytes, these are the stored curves of all items in order |
| FusedReader.Select | src/xgen.cpp:895-918 | one slot for each referenced identity with its type, or two references with one identity and different types |
| FusedReader.GroupSelections | src/xgen.cpp:963-976 | each group's selection is strictly increasing and holds exactly the slots of that group, or some reference is out of range |
| FusedReader.DecodeSelected | src/xgen.cpp:978-1031 | decodes a group exactly when the staged reader would and the types match, filling the waiting slots with the group's arrays |
| FusedReader.AllPassed | src/xgen.cpp:1027-1030 | the final count of selected arrays never fails |
| FusedReader.AllLoaded | src/xgen.cpp:1064-1066 | the check for arrays left undecoded never fails |
| FusedReader.ConflictFails | src/xgen.cpp:897-907 | where the selective reader rejects conflicting types the staged reading fails too |
| FusedReader.OutOfRangeFails | src/xgen.cpp:965-973 | where it rejects an out-of-range reference the staged reading fails too |
| FusedReader.MismatchFails | src/xgen.cpp:1012-1017 | where it rejects a decoded array's type the staged reading fails too |
| FusedReader.SlotsAgree | src/xgen.cpp:1067-1074 | after decoding, every slot shows exactly what the whole document holds under that identity |
| FusedReader.Fused | src/xgen.cpp:880-1075 | for all bytes and both orders the selective reader succeeds exactly when parsing and packing the whole document does, with the same curves, which are those stored for all of the document's items in order |
| FusedReader.ReadStaged | src/xgen.cpp:862-870 | the staged composition of the parser and the packer is that specification, with the same stored curves |
| XgenBuilder.OpenGroup | src/xgen.cpp:1650-1668 | opening a group for an array keeps the grouping and resolves the new id |
| XgenBuilder.GroupArrays | src/xgen.cpp:1646-1669 | arrays keep their order, every id resolves to its own array, groups are numbered and non-empty, one larger than the target holds a single array, and a group is opened only for an array that no longer fits |
| XgenBuilder.IdentityNames | src/xgen.cpp:1646-1669 | an identity names the group in its upper 32 bits and the array in its lower 32 |
| ChannelLayout.MaterializedIsStored | src/xgen.cpp:1322-1412 | reading the channels of any number of items succeeds exactly when all stored curves are acceptable and, in canonical order, differ; it then shows each of them, with coordinates (0, t) at its points, item after item or by increasing identity |
| XgenBuilder.BuildWords | src/xgen.cpp:1590-1617 | offsets, counts and repeated patch coordinates, as the readers expect them |
| XgenBuilder.BuildDocument | src/xgen.cpp:1565-1686 | refuses invalid curves, an empty name, a zero target or an unknown level; else stores the curves' arrays grouped for the target, with metadata that names them |
| XgenBuilder.MaterializeCurves | src/xgen.cpp:1322-1412 | reads a document's metadata and curves with all their checks, in stored or canonical order; what it gives are the stored curves of all items |
| XgenBuilder.BuildRoundTrip | src/xgen.cpp:1322-1686 | reading a built document, metadata text included, in source order returns every channel of the curves, with texture coordinates (0, t), for every target size and name |
| XgenBuilder.CanonicalRead | src/xgen.cpp:1385-1394 | reading in canonical order fails exactly on duplicate identities, and else gives the same curves by increasing identity |
| XgenBuilder.RoundTripThroughBytes | src/xgen.cpp:1079-1686 | a built document whose sizes fit 64 bits serializes, parses back to itself and gives the same channels, for every lossless compressor |
| PackedRoundTrip.PackedBuilt | src/xgen.cpp:701-859 | packing the arrays of a built set gives its curves: in stored order, or in canonical order by increasing identity, failing exactly when two are equal |
| PackedRoundTrip.ReadersReturnCurves | src/xgen.cpp:862-1686 | on the bytes of a built document the staged and so the selective reader return the set's curves; in stored order its counts and all its points |
| JsonText.JsonEscape | src/xgen.cpp:477-498 | escapes a name byte by byte |
| JsonText.EscapeRoundTrip | src/xgen.cpp:221-266 | an escaped text up to its closing quote reads back byte for byte, whatever surrounds it |
| JsonText.QuotedNameReads | src/xgen.cpp:477-498 | the quoted, escaped item name is read back as the name |
| JsonForms.StringIsWritten | src/xgen.cpp:207-266 | a string is read exactly when it is written as plain bytes, named escapes, units of four hexadecimal digits and surrogate pairs up to a quote, and then as their bytes |
| JsonForms.Utf8Means | src/xgen.cpp:189-205 | the bytes of a code point stand for it, by six bits of every tail byte, and are as few as can be |
| JsonForms.NumberIsWritten | src/xgen.cpp:268-310 | a text is a number exactly when it is a sign, a whole part without leading zeros, a fraction and an exponent, the last two optional |
| JsonReader.JsonParser.ParseString | src/xgen.cpp:221-266 | the parser's string reading, with escapes and surrogate pairs, and its offset afterwards |
| JsonReader.JsonParser.ParseNumber | src/xgen.cpp:268-310 | a number's sign, whole part, fraction and exponent, and its exact text |
| JsonReader.JsonParser.ParseValue | src/xgen.cpp:157-175 | any value at the offset, nested at most 64 levels, is read exactly as the grammar function says |
| JsonReader.JsonParser.ParseObject | src/xgen.cpp:324-343 | an object with its members in order; a repeated key fails |
| JsonReader.JsonParser.Parse | src/xgen.cpp:123-128 | one value with nothing but space around it |
| JsonTree.NumberReads | src/xgen.cpp:268-310 | a number reads the same among other text as on its own |
| JsonTree.PrintRoundTrip | src/xgen.cpp:119-348 | any value with proper numbers, different keys and at most 64 levels, printed with any space at every place where space may stand (around values, keys and colons, inside empty containers, around the whole text), parses back to itself |
| XgenMetadata.ParseMetadata | src/xgen.cpp:350-438 | the metadata header is read exactly as specified, with every check of types, ranges and versions |
| XgenMetadata.ReadRefs | src/xgen.cpp:626-647 | the array references of every item, failing as specified |
| XgenMetadata.WriteMetadata | src/xgen.cpp:1671-1685 | the written text is the printed metadata tree of that name, level and ids |
| XgenMetadata.MetadataUnderstood | src/xgen.cpp:350-438 | the readers get back from the written text its header and exactly the ids that it was given, for every name, level and number of groups |
| AliasTable.PairConserves | src/asset.cpp:63-69 | pairing a light with a heavy triangle keeps every triangle's mass: kept share plus received mass |
| AliasTable.PairBalances | src/asset.cpp:63-69 | and takes exactly one unit out of the two lists |
| AliasTable.Leftovers | src/asset.cpp:63-71 | at the end no light triangle is left and every heavy one left weighs exactly one |
| AliasTable.MakeAliasTable | src/asset.cpp:47-73 | refuses exactly a mesh of zero area; else each triangle's kept share plus everything given to it is its area scaled to mean one, with probabilities in [0, 1] |
| GuideSupport.RadiusBounds | src/xgen_classic_roots.cpp:517-562 | a directional radius lies between the smallest and the largest of the guide's radii, whatever their signs and angles |
| GuideSupport.WeightBounds | src/xgen_classic_roots.cpp:565-585 | a guide's weight lies in [0, 1] and is zero at or beyond the broad radius, for radii of any sign |
| GuideSupport.TurnMeans | src/xgen_classic_roots.cpp:517-531 | the angle of a direction, of four a turn: by its signed squared cosine from 0 along the tangent to 2 against it, and back to 4 on the other side of the normal |
| GuideSupport.RadiusMeans | src/xgen_classic_roots.cpp:532-562 | between two angles the radius lies on the straight line from the one's radius to the other's, across the full turn as well |
| GuideSupport.RadiusContinuous | src/xgen_classic_roots.cpp:532-562 | for angles in increasing order the radius follows these lines up to both ends, so it has no jumps around the turn |
| GuideSupport.WeightMeans | src/xgen_classic_roots.cpp:565-585 | a weight times radius and cosine of eighty degrees is the rest of the radius beyond the distance times the alignment up to that cosine |
| GuideSupport.WeighsOnce | src/xgen_classic_roots.cpp:517-585 | these conditions leave one weight only |
| GuideIndex.InfluenceIsNear | src/xgen_classic_roots.cpp:447-487 | a guide within its reach that has some weight at a root lies in one of the 27 cells around it |
| GuideIndex.NearExactly | src/xgen_classic_roots.cpp:447-585 | for angles in increasing order, a support is found by the grid wherever its guide stands exactly when its broad radius is not below minus the cell size or its angles' radii do not reach beyond the cell size |
| GuideIndex.NegativeRadiusMissed | src/xgen_classic_roots.cpp:447-585 | two guides and a root for which the 27 cells miss an influence that brute force finds |
| GuideIndex.NearIsAll | src/xgen_classic_roots.cpp:447-487 | for one root, the 27 cells give the brute-force answer exactly when every guide with some weight there is in them |
| GuideIndex.BoxMeans | src/xgen_classic_roots.cpp:462-478 | the box test asks whether some point of the face's box is nearer than the radius in every coordinate |
| GuideIndex.NearAnswers | src/xgen_classic_roots.cpp:447-500 | the guides found are exactly those near, inside the box test and above the threshold, in increasing order, each with its scaled weight |
| GuideIndex.SupportIndex.Build | src/xgen_classic_roots.cpp:414-443 | when the index is off, when it fails, and that otherwise every guide is filed under its own cell in order |
| GuideIndex.SupportIndex.Gather | src/xgen_classic_roots.cpp:447-500 | the grid search returns, sorted and without duplicates, exactly the guides of the 27 cells that pass the box test with enough scaled weight, and with that weight, stated by radius, distance and alignment; if every guide is within its reach that is the brute-force list over all guides |
| RootPlan.Accounted | src/xgen_classic_roots.cpp:749-907 | candidates are roots plus mask-rejected plus patch-culled plus guide-rejected |
| RootPlan.OffsetTable | src/xgen_classic_roots.cpp:894-905 | the influence offsets are a strictly increasing table over the roots from zero to the number of influences |
| RootPlan.RaisingMaskKeeps | src/xgen_classic_roots.cpp:739-804 | raising the mask anywhere never removes a candidate it accepted, nor changes that candidate's fate |
| RootPlan.ConstantMask | src/xgen_classic_roots.cpp:739-791 | a constant mask p accepts the smaller of all candidates and p times the expected count, rounded up |
| RootPlan.Plan.CandidateLoop | src/xgen_classic_roots.cpp:739-907 | the sampling loop of a face logs exactly the specified outcomes within the limits, or stops for a failure or a limit |
| RootPlan.Plan.PlanAccounting | src/xgen_classic_roots.cpp:635-910 | every plan satisfies the accounting and, with guides, has a valid offset table |
| RootPlan.Plan.Build | src/xgen_classic_roots.cpp:635-910 | succeeds exactly when there are limits and faces, every face's count is in range and its candidates can be decided, and the whole log is within the limits; the plan is then that log with its statistics |
| SplineCurve.WeightsConvex | src/xgen_classic_roots.cpp:1361-1368 | the blending weights are nonnegative and add up to six, the divisor |
| SplineCurve.SpansMeet | src/xgen_classic_roots.cpp:1369-1377 | the curve is continuous from span to span |
| SplineCurve.CurveStart | src/xgen_classic_roots.cpp:1369-1377 | by reflection the curve starts at the first point |
| SplineCurve.CurveEnd | src/xgen_classic_roots.cpp:1372-1377 | and ends at the last |
| SplineCurve.CurveInSpan | src/xgen_classic_roots.cpp:1352-1377 | inside the cut-offs the curve at s + f of all spans is span s at the share f, from 0 to 1 |
| SplineCurve.WeightMoments | src/xgen_classic_roots.cpp:1361-1368 | the weights reproduce polynomials up to the third power |
| SplineCurve.MomentsDetermine | src/xgen_classic_roots.cpp:1361-1368 | and they are the only weights that do |
| SplineCurve.LineCurve | src/xgen_classic_roots.cpp:1352-1377 | the curve of evenly spaced points on a line is that line at even speed |
| CurveRebuild.FractionInside | src/xgen_classic_roots.cpp:1422-1434 | a distance inside the polygon lies on a segment of positive length at a fraction in (0, 1] whose arc length is that distance |
| CurveRebuild.ParameterMonotone | src/xgen_classic_roots.cpp:1422-1434 | parameters lie in [0, 1] and never decrease with the distance |
| CurveRebuild.Advance | src/xgen_classic_roots.cpp:1423-1427 | the walk moves forward only, stays inside the polygon, and keeps prefix length plus remainder equal to the distance |
| CurveRebuild.WalkSegments | src/xgen_classic_roots.cpp:1416-1435 | fills in every inner point; over all of them together the walk leaves each segment but the last behind at most once |
| CurveRebuild.RebuildUniform | src/xgen_classic_roots.cpp:1380-1437 | keeps both ends and places every inner point at its even share of the length, with the even-parameter fallback for a degenerate polygon, in one pass over the segments; a straight guide with even points stays straight with even points |
| CurveRebuild.RebuiltLine | src/xgen_classic_roots.cpp:1380-1437 | of evenly spaced points on a line, output point k of n lies k shares of n - 1 along the line, outside the cut-offs |
| CurveRebuild.CutsCatchEnds | src/xgen_classic_roots.cpp:1352-1356 | up to ten million and one output points the cut-offs catch none but the ends |
| Samples.PlaceOfIndex | src/xgen_samples.cpp:36-43 | different places have different indices: decoding undoes encoding |
| Samples.IndexOfPlace | src/xgen_samples.cpp:36-43 | every index of a level is a place there: each tile gets each base sample exactly once |
| Samples.OnePlace | src/xgen_samples.cpp:29-48 | every index before the tenth level has exactly one level, tile and base sample |
| Samples.DescentStops | src/xgen_samples.cpp:36-40 | the 32-bit descent stops if the index is below 2863300608, and otherwise goes round for ever |
| Samples.TileBounds | src/xgen_samples.cpp:41-47 | a sample stays inside its own tile |
| Samples.SymmetriesAreBijections | src/xgen_samples.cpp:49-60 | each of the eight cases maps the unit square one-to-one onto itself |
| Samples.SymmetriesDiffer | src/xgen_samples.cpp:49-60 | different description numbers modulo eight give different symmetries |
| Samples.SymmetryMoves | src/xgen_samples.cpp:49-60 | a description turns by so many quarters as it leaves modulo four, and from four on reflects left and right after that |
| Samples.TurnsGoRound | src/xgen_samples.cpp:49-60 | a quarter turn takes the corner (1, 0) to (1, 1) and on round the square; a reflection turns it round the other way |
| Samples.PlacedNumber | src/xgen_samples.cpp:29-43 | the index of a place in numbers: the levels before it, then base sample, row and column |
| Samples.TileShrinks | src/xgen_samples.cpp:41-47 | inside its tile a sample is where the base sample is in the square |
| Samples.SampleExact | src/xgen_samples.cpp:29-61 | the sample is the base sample of the index's place, in its tile, under the description's symmetry; in numbers, turned and reflected as the description says |
| ClumpRemap.Prefilter | src/xgen_classic_clump.cpp:220-266 | keeps the associated guides in order and sends each to its own place; fails only for too many |
| ClumpRemap.ExplicitRoots | src/xgen_classic_roots.cpp:1070-1140 | the explicit roots are an order-preserving filter of the samples |
| ClumpRemap.MatchAssociated | src/xgen_classic_clump.cpp:280-297 | the walk over the samples always reaches the last root and sends each sample that has a root to its own, and no other |
| ClumpRemap.MatchRuntime | src/xgen_classic_clump.cpp:384-422 | the walk over the roots never fails; it finds each surviving axis at the first root of its identity behind the previous one |
| ClumpRemap.Follow | src/xgen_classic_clump.cpp:298-304 | sending every entry on through the next remap stays in range and composes the two |
| ClumpRemap.RemapsOnce | src/xgen_classic_clump.cpp:220-429 | every target of a remap is reached exactly once |
| ClumpRemap.GreedyExactly | src/xgen_classic_clump.cpp:384-422 | the walk finds every surviving axis at its own root exactly when no dropped root between two survivors has the second one's identity |
| ClumpRemap.IdentitySeparates | src/xgen_classic_clump.cpp:247-252 | a stage that looks at identities only meets that condition |
| ClumpRemap.DoublesAreConfused | src/xgen_classic_clump.cpp:384-422 | of two equal roots with the first one culled, the walk sends the culled one to the survivor and the survivor nowhere |
| ClumpRemap.Compact | src/xgen_classic_runtime.cpp:2050-2075 | compaction in place leaves exactly the kept strands in order, with their roots and points |
| ClumpRemap.BuildRemap | src/xgen_classic_clump.cpp:220-429 | the whole chain fails only for too many or no guides; every guide goes to an axis of its own identity or nowhere, and every axis is the target of exactly one guide; all guides go to their own axis exactly when culling separates equal roots |
| ClumpRemap.DecodingIsBijection | src/xgen_classic_clump.cpp:126-138 | colours other than black decode to different ids below 2^24 - 1 |
| ClumpRemap.EveryIdHasColour | src/xgen_classic_clump.cpp:126-138 | every such id is the decoding of some colour other than black |
| ClumpRemap.DecodingIsSpread | src/xgen_classic_clump.cpp:126-138 | the decoding in numbers: 2^24 - 1 less the channels' bits, red in the lowest of every three places, lowest bits first |
| ClumpRemap.DecodeRgbId | src/xgen_classic_clump.cpp:126-138 | the bit loop computes that decoding |
| MotionSharing.EarliestQuotient | src/xgen_classic_collection.cpp:597-629 | two samples have the same earliest sample exactly when their data are equal, and it is its own |
| MotionSharing.SourceIsEarliest | src/xgen_classic_collection.cpp:606-629 | the search among samples already shared finds the earliest sample with the same bytes |
| MotionSharing.Share | src/xgen_classic_collection.cpp:606-629 | every sample ends with the earliest equal sample as its source, and keeps its data only if it is that source |
| MotionSharing.ResolveShared | src/xgen_classic_collection.cpp:257-272 | resolving never reports inconsistency and yields the data that was imported for the sample |
| MotionSharing.ImportAndShare | src/xgen_classic_collection.cpp:487-629 | static or not, after import and sharing every sample resolves to a source that is its own and holds the needed data |

## Left out

- Rounding, NaN payloads and infinities: values are reals, or words where only bits matter; a result that is not finite is a failure value, and an infinite distance is a separate case.
- Busy waiting: while the pool is stopping, a nested wait with an empty queue goes round without sleeping; these rounds, new calls, shutdown and spurious wakeups are steps of the thread pool that keep its invariant but are not counted as work.
- A pool destroyed while outside threads are still calling it is modelled only up to its join, and the failure path of the pool's constructor is not modelled.
- Tokenizing and rewriting of expression source (`src/xgen_expression.cpp:100-224`): the compiler model starts from tokens.
- The single-precision program and evaluator (`src/xgen_expression.cpp:792-828` and from line 996 on) have the same structure over narrower numbers.
- In the meaning of syntax trees the value of a ramp is the evaluator's own function of the ramp's points. What that function is is stated independently in `Ramps` and `RampSlopes`.
- `gamma`, `contrast` and the seed hash inside expressions are parameters; a ramp whose points could divide by zero is a non-finite value, which compiled programs never reach.
- The double-precision component of `xgen_seexpr_component` rounds its product; only the integer form is modelled, against the exact product.
- In `XgenContainer` and `FusedReader` the metadata reader is a parameter; their results hold for every reader, and `XgenBuilder.RealCodec` and `PackedRoundTrip.RealReader` put in the real one.
- Deflate and inflate are a pair of parameters; the round trips that need it assume that inflating a deflated payload gives it back.
- Groups are decoded one after the other; the reader's own worker threads are not modelled.
- Total sizes beyond 64 bits make the writer fail here; the source relies on memory running out first.
- Surface frames and directions stored by the builder, and the in-place processing of curves (`src/xgen.cpp:1450-1563`).
- ExpressionLimits.SourceFits: sources whose operands, ramp points or ramps pass 2^32 - 1 are not covered by the exact condition.
- SplineCurve.CurveInSpan: parameters within 1e-7 of either end are cut off to the end points, as the code does.
- GuideMatching.MapGuides: the costs from root distances and fingerprints (`src/xgen_classic_alembic.cpp:2076-2150`) and the final comparison of root distances are parameters; of the costs, only the fixed cost of a pair with different numbers of points is assumed.
- GuideIndex.NearExactly: cell sizes below 1e-10 are not covered, where the test for a vanishing direction interferes; the forward half, in GuideIndex.InfluenceIsNear, covers every size.
- Angles out of order: the model takes the first greater angle, where the library search promises nothing.
- GuideIndex.SupportIndex.Gather: cell coordinates are unbounded once computed; stepping past the largest 32-bit coordinate is not modelled.
- RootPlan.Plan.Build: triangle lookup, barycentric coordinates, surface evaluation and random prefixes are not part of a root here, and the mask, the exclusions and the guide search are parameters.
- CurveRebuild.RebuildUniform: points are reals, so there is no check for non-finite points.
- ClumpRemap.BuildRemap: association and influence are given as tests of a guide's identity, and culling as flags; reading the point file, generating the axes and the floating-point culling are not modelled.
- MotionSharing.ImportAndShare: the imported bytes are parameters; the import runs sequentially.
- `cut_from_tip_and_rebuild`, `cut_to_length_and_rebuild`, asset layout and hashing, noise, frame transport, path handling, caches and tools: easier than the above or without a crisp specification.
