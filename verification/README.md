# olang, verified

A Dafny model of ten parts of olang, each modelled in the form its source has,
with what each part promises proved over every input, every run or every
interleaving. Check it all with `dafny verify dfyconfig.toml`.

| files | part of the system |
|---|---|
| `Heap`, `Freeing` | dropping deep values in bounded stack (`src/ast.rs`) |
| `NestedMap`, `NestedWrite` | nested map reads and copy-on-write updates (`src/builtin.rs`) |
| `Parallel` | parallel map and filter (`src/builtin.rs`) |
| `Range` | integer ranges in machine arithmetic (`src/builtin.rs`) |
| `Lines`, `LineMap`, `Expansion`, `Attribution` | macro expansion and its line map (`src/expand.rs`) |
| `GatePath` | where a path is placed, existing or not (`src/caps.rs`) |
| `Registry`, `GrantLaws` | run-time and manifest grants (`src/caps.rs`) |
| `Scopes`, `ScopeWalk`, `ScopeLaws`, `ScopeNames`, `ScopeUses` | the analyzer's scopes (`src/analyze.rs`) |
| `LittleEndian`, `Pack`, `PackLaws`, `PackMerge`, `PackRuns` | the pack file and its rewrites (`src/compile_cache.rs`) |
| `NamedArgs`, `NamedBinding`, `NamedLaws` | named arguments of native functions (`src/native_sig.rs`) |
| `CivilDate` | seconds to a civil date (`build.rs`) |
| `ThreadBytes` | per-thread byte accounting (`src/memory.rs`) |
| `Output` | bounded output collection (`src/output.rs`) |
| `StableSort`, `Wrappers` | shared: the stable falling sort, result types, bytes |

Heaps are maps from cell numbers to reference-counted cells, so that sharing
and sole ownership are explicit; `Heap.Coherent` says every count is exact. A
value's meaning is a tree (`NestedWrite.Shows`). State that the source updates
in place is a class's, or an array's or a variable's that a loop updates; a
method that changes it is tied to a function of the state before, and the
theorems are about that function.

## What was found

- A three-argument `range` is admitted with one element more than
  `MAX_BUILT_LEN`: the check divides the distance by the step, rounding down,
  and the last element makes one more. `Range.SpanAndCount` states exactly
  when, and `Range.OneOverTheLimit` names an input.
- Writing back what a path reads changes nothing exactly when the path is
  there: a missing key reads as unit, and writing that makes the key
  (`NestedMap.GetThenPut`).
- With a depth limit of one the drain loop would not progress: each value it
  takes is queued again (`Freeing.Memory.DrainStepAtLimitOne`). With the
  program's limit of 64, or any of two or more, it ends.
- A line marked original is not always the author's: the meta fns are blanked at
  the end, and their lines keep the mark. It is the author's byte for byte if and
  only if each byte of it where a meta fn stands is a space already
  (`Expansion.IntactIff`), so wherever no meta fn stands;
  `Expansion.MetaLineFades` names an input.
- A module load given up by a control signal, as by an `?` at the module's top
  level that meets an error, keeps the grant it registered and forgets the one
  it replaced; any other error puts it back. `GrantLaws.GrantStandsIff` states
  exactly when the folder's grant stands, and
  `GrantLaws.SignalledLoadKeepsItsGrant` names an input.
- Wherever a task's balance is about to be folded, the total can be read wrong by
  that balance, though nothing was allocated or freed: missed if the slot it goes
  to is read first, counted twice if the slot it comes from is
  (`ThreadBytes.FoldIsMisread`). `ThreadBytes.FoldEscapes` names a run with one
  byte allocated and a read of none. A read that no fold falls into misses nothing
  (`ThreadBytes.ReadWithoutFolds`).
- The depth limit does not count functions: what a closure captured is freed by
  plain recursion. A drop that frees no closure has the limit's bound on the
  stack; otherwise no more closures are freed one inside another than are freed
  at all, and no fewer than stand one on another, each the only holder of the next
  (`Freeing.Memory.DropOutermost`), which `Freeing.TallTower` has in every height.

## Hypotheses

They stand as preconditions: parameter names in a signature are distinct;
spans spliced in one round are in range, not empty and do not overlap; folders
registered are canonical absolute paths (`Registry.Dir`, names not empty);
task guards are dropped last in, first out on their thread; the clock does not
run backwards between two rewrites of a pack; a build's stamp is shorter than
64 KiB and files are shorter than 2^64 bytes. The checksum is any function
(`Pack.Digest`), as are a list's per-item function, a macro's output and a
round's parse.

## Model

| member | source | states |
|---|---|---|
| Freeing.Memory.Drop | src/ast.rs:669-676 | at any depth, dropping a held value keeps every count exact, gives up that value's holds and no other, frees each cell at most once, and past the limit only queues a value seen to own others; what is left to free never grows, and shrinks when the value owned something; closures freed one inside another are no more than the closures emptied and no fewer than stand one on another under the value |
| Freeing.Memory.Release | src/ast.rs:661-668 | giving up one hold: the cell goes, and is given back, exactly with its last |
| Freeing.Memory.FreeBounded | src/ast.rs:690-729 | below the limit the value is left with nothing nested, at it the value moves to the queue whole; the depth is back at its entry value and never passes the limit |
| Freeing.Memory.FreeBelow | src/ast.rs:690-720 | the part of it below the limit: cleared at the raised depth, the queue drained by the outermost, the depth restored |
| Freeing.Memory.Drain | src/ast.rs:716-719 | the outermost drop empties the queue; it ends because what is left to free strictly falls |
| Freeing.Memory.ClearChildren | src/ast.rs:781-802 | a sole owner's children are dropped in place, each through its own drop |
| Freeing.Memory.DropOutermost | src/ast.rs:660-729 | a drop from outside any other leaves the queue empty and the depth zero, never had more than limit + 1 counted activations on the stack, gives each cell that went back exactly once, and keeps exactly the cells the remaining holders reach; closures freed one inside another are at most those freed, so none if other holders reach them all, and at least as many as the highest chain of sole holders under the value |
| Freeing.FreesTheUnreachable | src/ast.rs:660-668 | in a heap without cycles, a cell is there after a drop if and only if a holder other than the one dropped reaches it |
| Freeing.TallTower | src/ast.rs:861-872 | for every n there is a heap where n closures stand one on another, each the only holder of the next |
| Freeing.Memory.DrainStepAtLimitOne | src/ast.rs:690-729 | with a limit of one, a step of the drain loop changes nothing |
| Freeing.NewThread | src/ast.rs:678-688 | a thread starts at depth zero with an empty queue and a limit of 64 |
| Heap.CellRemoved | src/ast.rs:781-802 | a last hold given up, the counts of the cell's children are exact once its contents are out of it |
| NestedMap.MapGetIn | src/builtin.rs:3811-3868 | the loop over the path reads what the path means, refusing a key that is none where it meets it |
| NestedMap.ReadStops | src/builtin.rs:3811-3868 | where a read stops and why: a key that is none where it is come to, unit past what is missing, and past anything else an error naming the key and what it met |
| NestedMap.RefusedBeforeWriting | src/builtin.rs:3871-3925 | a path is refused for a bad key if and only if it holds one, wherever it stands and whatever the target, for being empty if and only if it is, and is otherwise written along its texts |
| NestedMap.SetThenGet | src/builtin.rs:3811-3925 | what `map_set_in` writes, `map_get_in` reads back |
| NestedMap.PutThenGet | src/builtin.rs:49-69 | reading a path just written gives the value |
| NestedMap.PutThenPut | src/builtin.rs:49-69 | a second write at a path wins, errors alike |
| NestedMap.GetThenPut | src/builtin.rs:49-69 | writing back what is read changes nothing if and only if the path is there |
| NestedMap.PutElsewhere | src/builtin.rs:49-69 | reads along a path that parts from the one written are unchanged |
| NestedMap.PutGoesThrough | src/builtin.rs:50-59 | a write goes through if and only if the target and every level on the way is a map or struct, or is missing |
| NestedMap.PutErrorNames | src/builtin.rs:50-59 | a refusal names the key, and what stands there |
| NestedMap.PutKeepsOrder | src/builtin.rs:60-66 | each level written has the keys it had in their order, and at most one more, at the end |
| NestedMap.MissingIsNewMap | src/builtin.rs:60-68 | a level that was missing is a new map with the one key |
| NestedWrite.SetIn | src/builtin.rs:49-69 | in a heap of counted cells, the target shows what the write means, refusal included; whatever anybody else holds shows what it showed; every count stays exact; a sole owner is written in place and a shared one copied |
| NestedWrite.Descend | src/builtin.rs:64-68 | the same, through one level whose entry is borrowed and put back |
| NestedWrite.MakeMut | src/builtin.rs:50-51 | a cell held once is kept, a shared one is copied with its children's counts raised, and nobody sees the difference |
| NestedWrite.PutField | src/builtin.rs:60-63 | one entry written, its old value dropped, unseen by every other holder |
| NestedWrite.DropMoves | src/builtin.rs:60-63 | dropping what was replaced changes nothing that anybody else holds |
| NestedWrite.ShowsOne | src/builtin.rs:49-69 | a value in a heap shows one tree at most |
| Parallel.ParallelApply | src/builtin.rs:2037-2164 | for every list, worker count and choice of native chunks, the answer is the sequential loop's: the same values in order, or the error of the lowest failing item |
| Parallel.RunChunk | src/builtin.rs:2086-2118 | a chunk's answer is the loop's over that chunk; item by item, an error carries the place of the first failing item in the whole list, and natively the chunk's start |
| Parallel.Collect | src/builtin.rs:2137-2152 | joined chunks are the loop's values, or the error with the lowest index |
| Parallel.SequentialConcat | src/builtin.rs:2037-2164 | the loop over two lists put together is the first's, then the second's unless the first failed |
| Parallel.SequentialIs | src/builtin.rs:2037-2164 | the loop answers each item's value in order, or stops at the first item without one, as that item does |
| Parallel.ParFilter | src/builtin.rs:2182-2203 | `par_filter` keeps what the sequential filter keeps |
| Parallel.FilterIsKept | src/builtin.rs:1732-1740 | the filter loop keeps the items whose verdict is true, or stops at the first error |
| Range.Range | src/builtin.rs:2554-2655 | every form of `range`, a start left out being zero and a step left out one: which arguments give which error, if and only if, the size it names, and otherwise the list with exactly the elements asked for |
| Range.SpanIsExact | src/builtin.rs:2566-2649 | what the limit refuses is over it, and without a step of its own a range is refused if and only if it is |
| Range.RangeList | src/builtin.rs:4847-4874 | element k is start + k * step, exactly as many as were reserved, though the loop runs in 64 bits; refused room or a stop asked for is an error |
| Range.CountIsExact | src/builtin.rs:4847-4874 | the count computed in wide arithmetic is the number of elements before the end, for all k, if and only if |
| Range.CountFits | src/builtin.rs:4847-4874 | that count never exceeds 2^64 - 1 |
| Range.PastTheLimit | src/builtin.rs:4860-4872 | when the next 64-bit sum would overflow, no element is left |
| Range.CountAtMostDistance | src/builtin.rs:2602-2605 | a one-step range admitted has at most as many elements as the limit |
| Range.SpanAndCount | src/builtin.rs:2642-2649 | a stepped range admitted has at most one element more than the limit, and when |
| Range.OneOverTheLimit | src/builtin.rs:2642-2649 | an admitted range with one element more than the documented limit |
| Lines.SplitConcat | src/expand.rs:958-964 | the lines of two texts put together, for the counting of lines |
| LineMap.SpliceKeepsMap | src/expand.rs:121-145 | one splice keeps the map true: one origin a line, each a source line, an original line byte for byte that line, in order |
| LineMap.SpliceStaysTrue | src/expand.rs:121-145 | the same, for a text cut in three around the span |
| LineMap.SplicesAreSimultaneous | src/expand.rs:477-487 | splicing right to left, one after another, replaces every span of the original text at once |
| LineMap.InOrderFits | src/expand.rs:477-477 | sorted by falling start, sites that do not overlap never shift one another |
| LineMap.Blank | src/expand.rs:386-394 | the bytes of the spans become spaces, newlines kept, everything else as it was |
| LineMap.FadesByLine | src/expand.rs:386-394 | blanking leaves every line in its place with its length, and of each line changes exactly the bytes a span covers |
| Expansion.Expander.SpliceLineMap | src/expand.rs:121-145 | the lines before the site and after it keep their origins, and those between are the macro's, put down to the source line the site begins on, found through generated lines |
| Expansion.Expander.Round | src/expand.rs:477-487 | a round's loop leaves the text with every site replaced at once and the map true to it |
| Expansion.Expand | src/expand.rs:155-509 | up to 16 rounds, an error from a round or from running out of them, the meta fns blanked at the end |
| Expansion.ExpansionIsPromised | src/expand.rs:77-95 | whatever the macros produce, the map handed back has one origin a line, each a line of the source, in the source's order, none named twice but by what one site generated; a line marked original is the author's with exactly the bytes blanked where a meta fn of the last round stands |
| Attribution.LinesAreAttributed | src/expand.rs:77-145 | through all the rounds, a source line is marked original if and only if no site ever stood on it, and a generated line names the macro of some site and the source line that site begins on |
| Attribution.SpliceKeepsOriginal | src/expand.rs:115-145 | one splice leaves a line the author's if and only if its site does not stand on it |
| Attribution.ExpandsByRounds | src/expand.rs:330-509 | an expansion is its rounds, every site of a round replaced at once, up to the first text without a site, the first error or the last round |
| Expansion.IntactIff | src/expand.rs:77-95 | such a line is the author's byte for byte if and only if each byte of it inside a meta fn is a space already |
| Expansion.MetaLineFades | src/expand.rs:383-401 | a source with one meta fn, whose line is marked original and is blank |
| GatePath.GateResolve | src/caps.rs:531-576 | the loop, with its recursion through dangling links, computes `Gate` |
| GatePath.GateIsPlace | src/caps.rs:516-576 | whenever the system's own walk succeeds, its last part missing or a dangling link or not, the gate gives that same place; the depth argument is never what stops it |
| GatePath.GatePathIsPlace | src/caps.rs:516-529 | the same for `gate_path`, relative paths taken from the working directory |
| GatePath.PastMissing | src/caps.rs:535-576 | past a part that is missing the rest is lexical, from the place where the system would make that part |
| GatePath.NamesPastMissing | src/caps.rs:535-576 | names after a missing part are names under it |
| GatePath.WalkThrough | src/caps.rs:516-520 | links are followed where they are met, before a later `..` |
| GatePath.NamesLeadThere | src/caps.rs:544-552 | a real place's own names lead to it following no link |
| GatePath.PlaceIsItself | src/caps.rs:516-576 | a place the gate gave holds no link, and asked for again is itself |
| Registry.DeeperIsLonger | src/caps.rs:446-448 | of two folders that hold a file, the deeper is the one with the longer text |
| Registry.FirstMatchIsNearest | src/caps.rs:418-425 | first match in order of falling length is the nearest folder registered around the file |
| Registry.SortKeepsFolders | src/caps.rs:446-448 | sorting loses no folder, nor which entry of one folder comes first |
| Registry.Modules.ModuleFor | src/caps.rs:418-425 | a file answers to the nearest registered folder's grant, or to none |
| Registry.Modules.ModuleAt | src/caps.rs:427-436 | the folder's own grant, a tombstone being none |
| Registry.Modules.Register | src/caps.rs:438-451 | the folder's grant is replaced, every other kept, folders distinct, the flag up; the one replaced is given back |
| Registry.Modules.Unregister | src/caps.rs:453-468 | a loaded folder's grant becomes one that allows nothing, anything else is unchanged |
| Registry.Modules.Remove | src/caps.rs:470-480 | the folder is forgotten, the flag down exactly when no folder is left |
| GrantLaws.PerformAll | src/caps.rs:438-480 | every run of the registry is a run of the map of folders |
| GrantLaws.UnloadedStaysEmpty | src/caps.rs:453-457 | over every run, an unloaded folder's code is allowed no capability, folder or program until that folder is registered again or removed; only a folder inside it can answer otherwise |
| GrantLaws.LoadModule | src/stdlib/runtime.rs:560-583 | a load registers a grant that allows exactly what is asked for and its caller may do, runs the module's code, and takes the grant back on one of its three ends only |
| GrantLaws.LoadTouchesOneFolder | src/stdlib/runtime.rs:560-583 | however a load ends, every other folder is as the loaded code left it |
| GrantLaws.FailedLoadLeavesNoTrace | src/stdlib/runtime.rs:573-579 | a load that ends in an error that is no control signal leaves its folder's grant as it was, whatever the loaded code did to it, and every other as that code left it |
| GrantLaws.GrantStandsIff | src/stdlib/runtime.rs:566-579 | when the loaded code leaves its folder's grant alone, that grant is as before if and only if the load failed with no control signal, or the folder held the same grant already |
| GrantLaws.SignalledLoadKeepsItsGrant | src/stdlib/runtime.rs:570-570 | a load given up by a control signal that leaves a wider grant in place of a narrower one |
| GrantLaws.IntersectIsMeet | src/caps.rs:85-96 | two grants intersected allow exactly what both allow |
| GrantLaws.ResolveGrants | src/caps.rs:256-285 | what each setting of a manifest entry grants, left out or given, and the word refused |
| GrantLaws.Build | src/caps.rs:315-347 | the manifest's table, or the first thing wrong with it in the order of names |
| GrantLaws.AttenuatedFault | src/caps.rs:315-347 | a manifest is refused if and only if an entry is wrong, and for the first that is |
| GrantLaws.CapsFor | src/caps.rs:349-360 | the first dependency whose folder holds the file, else the app |
| GrantLaws.TableIsNearest | src/caps.rs:340-360 | in a built table that is the nearest folder's, the first named of two in one folder, and it allows exactly what its entry and the app both allow |
| GrantLaws.AttenuatedWithin | src/caps.rs:337-338 | each dependency's grant allows exactly what the app and its own entry both allow |
| Scopes.DeclareRefines | src/analyze.rs:906-917 | the flat map with its logs stays the flattened view of the stack when a name is declared |
| Scopes.PutRefines | src/analyze.rs:804-824 | the same when an entry is written |
| Scopes.CountRefines | src/analyze.rs:827-831 | the same when a use is counted, through the scope that declares the name |
| Scopes.ExitRefines | src/analyze.rs:885-904 | leaving a scope restores each shadowed entry: the view of the stack without it |
| Scopes.Analyzer.EnterScope | src/analyze.rs:879-883 | one more scope, nothing declared in it |
| Scopes.Analyzer.ExitScope | src/analyze.rs:885-904 | the innermost scope gone, the outermost never |
| Scopes.Analyzer.DeclareInScope | src/analyze.rs:906-917 | the name is declared innermost with the entry visible before |
| Scopes.Analyzer.Bind | src/analyze.rs:804-824 | a fresh entry, uses already waiting for it counted at top level |
| Scopes.Analyzer.BindFunction | src/analyze.rs:290-297 | a function declared ahead is not declared twice |
| Scopes.Analyzer.NoteUse | src/analyze.rs:827-831 | one more use of the visible entry |
| Scopes.Analyzer.CheckUsage | src/analyze.rs:777-803 | a use of an open name, or one more undefined name, once |
| Scopes.Analyzer.AssignName | src/analyze.rs:520-554 | an assignment to a name not open declares it |
| Scopes.Analyzer.Recover | src/analyze.rs:183-192 | back to the outermost scope |
| Scopes.PerformAll | src/analyze.rs:777-917 | every sequence of operations on the flat map is that sequence on the stack |
| ScopeWalk.AnalyzeExpr | src/analyze.rs:394-676 | the walk of an expression does to the state what its operations do, none for one it does not enter, and fails where it meets a literal naming a field twice |
| ScopeWalk.AnalyzeFields | src/analyze.rs:568-579 | an anonymous object's fields walked in order, the first one named twice refused before its value |
| ScopeWalk.AnalyzeStmt | src/analyze.rs:264-392 | the same for a statement |
| ScopeWalk.WalkExprPaired | src/analyze.rs:394-676 | a walk that goes through closes each scope it opens and no other |
| ScopeWalk.FieldsAreClean | src/analyze.rs:568-579 | the set of names seen refuses exactly the objects that name a field twice |
| ScopeWalk.StmtIsClean | src/analyze.rs:264-392 | a statement's walk goes through if and only if no literal and no type declaration it enters names a field twice |
| ScopeLaws.AnalyzeProgram | src/analyze.rs:147-193 | functions declared ahead, each statement walked, a failed one recovered from, the first undefined name reported: from a fresh start, the first free name of the program |
| ScopeLaws.ScopeLeavesOuter | src/analyze.rs:879-917 | whatever happens in a scope, the scopes around it are given back with the same names and entries, but for uses counted through |
| ScopeLaws.ShadowIsRestored | src/analyze.rs:885-917 | an entry shadowed is restored exactly, uses and all |
| ScopeLaws.WalkLeavesOuter | src/analyze.rs:394-676 | the same for every expression's walk, wherever it stops |
| ScopeLaws.StmtEndsOutermost | src/analyze.rs:183-192 | after every statement, followed or not, the analyzer stands in the outermost scope with every name it had |
| ScopeLaws.ProgramEndsOutermost | src/analyze.rs:155-193 | and so after every program |
| ScopeLaws.ExprReports | src/analyze.rs:394-676 | an expression's walk reports exactly its free names as far as it goes, each once, in the order they are first met, and binds what it assigns |
| ScopeLaws.ProgramReports | src/analyze.rs:147-193 | every program is reported exactly its free names, each once, in the order they are first met, functions declared anywhere at the top level bound throughout; a statement the walk gives up is reported as far as the walk went, and those after it in full |
| ScopeNames.CleanProgramReports | src/analyze.rs:147-193 | a program that names no field twice is walked whole and reported the free names that scoping alone gives it, in the order they are first met |
| ScopeUses.ExprCounts | src/analyze.rs:394-676 | walking an expression counts as many uses of a visible name as references reach it, and of a shadowed one none |
| ScopeUses.LetIsCounted | src/analyze.rs:804-831 | a top-level variable not declared again ends with as many uses as references reach it, and one more if it was reported before: it is unused exactly when none does |
| ScopeUses.FunctionIsCounted | src/analyze.rs:155-182 | a top-level function declared once ends with as many uses as references reach it anywhere in the program, before its declaration too |
| LittleEndian.FromToBytes | src/compile_cache.rs:499-511 | a number that fits its width is read back |
| Pack.Encode | src/compile_cache.rs:488-517 | the two loops write header, index and bodies, past the limit the most recent entries only |
| Pack.Parse | src/compile_cache.rs:412-460 | with its checked arithmetic, the cursor accepts exactly the files whose header and index are whole, of this build, and whose bodies lie inside |
| Pack.ParsedIsWhole | src/compile_cache.rs:412-481 | whatever the bytes, a pack that parses slices every body inside them |
| PackLaws.ParsesIff | src/compile_cache.rs:412-460 | whatever the bytes, they parse if and only if they begin with this build's header and a whole index and every row's body lies in the rest |
| PackLaws.OtherBuildIsRefused | src/compile_cache.rs:433-436 | a pack written by a build of any other stamp is refused |
| PackLaws.OtherFormatIsRefused | src/compile_cache.rs:428-432 | so is a file of other letters or another format |
| PackLaws.EmptyPack | src/compile_cache.rs:497-503 | a pack of nothing, byte by byte |
| PackLaws.BodyAt | src/compile_cache.rs:462-467 | an entry's bytes if they match their checksum |
| PackLaws.BodiesOf | src/compile_cache.rs:469-481 | a key's undamaged entries in order |
| PackLaws.UndamagedIs | src/compile_cache.rs:462-481 | a body is handed out if and only if its bytes have the checksum of its row |
| PackLaws.RoundTrip | src/compile_cache.rs:412-517 | parsing an encoded pack gives back, for each key, exactly its times and bodies in order |
| PackLaws.CutIsRefused | src/compile_cache.rs:412-517 | every strict prefix of an encoded pack is refused |
| PackMerge.WritePack | src/compile_cache.rs:845-874 | a rewrite, keys taken in any order, leaves under each key what was made, then what was stored, capped |
| PackRuns.MergedHolds | src/compile_cache.rs:848-868 | before the limits a key holds a body if and only if it was made, or stored and used or not stale |
| PackRuns.MergedInOrder | src/compile_cache.rs:848-873 | a merge leaves a key's entries newest first, none later than now, no body twice |
| PackRuns.MadeLastIsFirst | src/compile_cache.rs:848-856 | what was made last for a key stands first, made now, the others keeping their order |
| PackRuns.StoredLastIsLast | src/compile_cache.rs:857-868 | what is stored last stands last if it is wanted and not there, of now under a used key and of its own time otherwise |
| PackRuns.UsedIsRecent | src/compile_cache.rs:848-868 | every entry made, and every entry of a used key, is of now |
| PackRuns.NewestCutsOldest | src/compile_cache.rs:488-495 | the file's limit cuts each key from its end, and keeps nothing older than what it cuts |
| PackRuns.RewriteIsTidy | src/compile_cache.rs:845-874 | one rewrite of an ordered file leaves it in order, within both limits, no body twice |
| PackRuns.RunIsTidy | src/compile_cache.rs:829-874 | so does any number of them under a clock that does not run backwards |
| PackRuns.WantedIsKept | src/compile_cache.rs:845-874 | what was made, or stored and wanted, is in the file unless its key's places went to bodies no older, or the file had no room and keeps nothing older |
| PackRuns.NothingFromNowhere | src/compile_cache.rs:845-874 | what the file holds was made, or stored and wanted |
| StableSort.SortIsStable | src/compile_cache.rs:491-493 | the sort keeps equal keys in order and loses nothing |
| StableSort.OneStableOrder | src/compile_cache.rs:491-493 | there is one such order, whatever the algorithm |
| NamedArgs.FindLayout | src/native_sig.rs:420-491 | the checks in their order, the length of the positional call, the first fault |
| NamedLaws.FirstFault | src/native_sig.rs:420-491 | a call refused is refused for the first name that something is wrong with, said as it is or, all names being right, for the first required parameter it skips |
| NamedArgs.Plan | src/native_sig.rs:518-547 | the loop's slots, one a place |
| NamedBinding.BindValues | src/native_sig.rs:603-640 | binding by moving gives what reading the plan's slots gives, success and failure alike |
| NamedBinding.PlanInRange | src/native_sig.rs:518-547 | every index of a plan is one of the call's arguments |
| NamedBinding.UsedExactlyOnce | src/native_sig.rs:493-547 | each argument given stands in exactly one slot |
| NamedBinding.LayoutStands | src/native_sig.rs:420-491 | a layout that stands reaches every name and no further than the options |
| NamedLaws.LayoutIsAccepted | src/native_sig.rs:420-491 | a layout stands if and only if no name is written twice and the names, as a set, are accepted |
| NamedLaws.CallMeans | src/native_sig.rs:420-695 | a call binds what its arguments mean taken as a map, a parameter left out being its own default, and fails exactly when they mean nothing |
| NamedLaws.BoundParam | src/native_sig.rs:493-547 | a call that binds gives each parameter its argument by position, its argument by name, or its literal default, an optional one nothing, and skips no required one |
| NamedLaws.OptionsFault | src/native_sig.rs:603-640 | a call refused though its names are right was given no options in the options' place |
| NamedLaws.OrderDoesNotMatter | src/native_sig.rs:420-695 | rearranging the named arguments changes neither whether a call binds nor what |
| NamedLaws.FillDefaults | src/native_sig.rs:697-712 | the loop appends the literal defaults that follow |
| NamedLaws.FilledIs | src/native_sig.rs:697-712 | the given prefix kept, each added argument its parameter's default, stopping at the first without one, idempotent |
| CivilDate.CivilIsTheCalendar | build.rs:290-303 | every date is valid, and counting days back from it recovers the day number |
| CivilDate.DayNumberIsOne | build.rs:290-303 | a day number is one date's |
| CivilDate.CivilOfNumber | build.rs:290-303 | every valid date is the date of its number |
| CivilDate.NextDay | build.rs:290-303 | the next day number gives the calendar's next date, across months, leap years and eras |
| CivilDate.NextIsNumberedNext | build.rs:290-303 | the calendar's next date has the next number |
| CivilDate.Epoch | build.rs:288-303 | day zero is 1 January 1970 |
| CivilDate.StampIsExact | build.rs:290-312 | date and time give the seconds back, the time fields in the ranges of section 5.7 of RFC 3339 |
| CivilDate.FourDigitYear | build.rs:304-312 | exactly which second counts have a year of four digits |
| ThreadBytes.StepInv | src/memory.rs:69-85 | every step of every thread keeps the accounting: allocation, free, entering and leaving a task, one atomic access at a time |
| ThreadBytes.ClaimInv | src/memory.rs:210-226 | claiming the first free named slot, or none |
| ThreadBytes.FoldInv | src/memory.rs:234-239 | folding a task's balance back |
| ThreadBytes.RunInv | src/memory.rs:69-243 | so does every interleaving |
| ThreadBytes.NothingLost | src/memory.rs:120-159 | in every state the slots' sum and the balances being folded are the bytes that the run allocated minus those it freed |
| ThreadBytes.TaskHoldsItsOwn | src/memory.rs:203-243 | from where a task is entered and while its thread stays in it, its slot bears its name and holds just what that thread allocated and did not free, whatever the others do |
| ThreadBytes.ClaimTakesFirst | src/memory.rs:205-226 | a task takes the first named slot free and names it; with none free its thread counts where it did |
| ThreadBytes.SlotsInTurn | src/memory.rs:67-80 | threads without a task are given the shared slots in turn |
| ThreadBytes.ReadIs | src/memory.rs:155-159 | a read of the slots one at a time, other threads' steps between, comes to what was in them and what was written meanwhile to slots not yet loaded |
| ThreadBytes.WholeReadIs | src/memory.rs:155-159 | so over any interleaving a whole read is bytes allocated minus bytes freed when it began, but for balances then being folded and the steps it saw |
| ThreadBytes.ReadWithoutFolds | src/memory.rs:155-159 | a whole read that no fold falls into is off by no more than was allocated or freed while it ran |
| ThreadBytes.FoldIsMisread | src/memory.rs:155-159 | in every state where a thread is about to fold, a whole read with nothing allocated or freed in it is wrong by the balance, missed or counted twice as the slots lie |
| ThreadBytes.FoldEscapes | src/memory.rs:155-159 | a run with one byte allocated, and a whole read of it that answers zero |
| ThreadBytes.OneOwnerEach | src/memory.rs:210-243 | a claimed named slot is one thread's, and an unclaimed one reads zero |
| Output.Collected.Push | src/output.rs:130-145 | the buffers are what the log so far leaves, within `HEAD_MAX + 2 * TAIL_MAX` bytes |
| Output.Collected.Take | src/output.rs:146-166 | what is handed back depends on the log alone |
| Output.Run | src/output.rs:117-166 | and so not on how it was split into writes |
| Output.KeepLosesTheMiddle | src/output.rs:111-126 | a log that fits is whole; of another the first `HEAD_MAX` bytes, the last `TAIL_MAX` and the exact count between them |

## Left out

- The interpreter, parser, bytecode compiler and native tier: per-item functions are functions, and sites, spans and macro outputs are given by a function of the round and its text, whatever it is.
- Files, renames, clocks, environment variables, threads' scheduling and terminals: their results are parameters.
- Serialization of entries and the hash: bodies are bytes and the checksum is any function of them.
- Freeing: one kind of value and one queue (the bytecode tier's own values share the depth cell); thread teardown and the queue's spare capacity; boxes are owned inline; counters are unbounded. The drain loop stands in a method of its own. A function and the map it captured are one cell, and so is any other shared value freed by its own glue; the inner nodes of a persistent map, at most as deep as a key's hash is long, are not cells.
- NestedWrite.SetIn: the borrowed entry is taken out of its level and put back, where the source holds a mutable reference; weak counts are not modelled, and a struct's type name stays with its cell.
- NestedMap.RefusedBeforeWriting: arity and the type of the path argument are not modelled; keys that are not strings arrive as their texts.
- Parallel.ParallelApply: the thread pool is any order of running the chunks, since each chunk's answer is its own; per-item functions are deterministic; a panic is an outcome, not an unwinding.
- Expansion.Expand: bytes, not characters: spans stand at character boundaries in the source, so blanking keeps the text valid; how sites are found, run and checked is the given function; step budgets are left out.
- GatePath.GateResolve: what the gate answers when the system refuses a path for anything but a missing part (a file in a folder's place, too many links) is not claimed beyond the function that computes it; permissions, trailing separators, mount points, Windows prefixes and a missing working directory are left out, and links are bounded as Linux bounds them, at 40.
- GrantLaws.LoadModule: what the loaded code does to the registry is any run of its operations, those of loads inside it among them; how the code ends is given, and what is told of the error is left out.
- Registry: locks are left out: each operation holds the registry's lock throughout. Folder and file comparison is by whole parts.
- ScopeWalk.AnalyzeExpr: expressions that open scopes, bind, assign or use names have a form of their own, those walked part by part in order share one, and those the walk does not enter share another; annotations, imports, shares and tests are left out. The walk is of a finite tree.
- Pack.Encode: the stamp's length is written as 16 bits and the row count as 32, and those that do not fit are not claimed to be read back.
- PackMerge.WritePack: renaming, temporary names and two processes writing at once are left out; a reader meets one file or the other whole.
- ScopeUses.LetIsCounted: of programs that name no field twice; how many uses a name gets that is declared again is not claimed.
- PackRuns.WantedIsKept: says that a body is kept or why not, not at which place among equally recent ones of other keys.
- NamedArgs.Plan: an option's key is its text; that a plan keeps one copy of each is left out, as are the wordings of errors.
- NamedLaws.OrderDoesNotMatter: which of several faults is reported does depend on the order, as `FirstFault` says; entries of an options map are compared as a map.
- ThreadBytes.NothingLost: of a state, not of a read, which `WholeReadIs` is about; counters are integers without bound; a thread being torn down, whose slot is gone, is left out.
- Output.Collected.Take: decoding to text, and the tap that follows output as it comes, are left out.
- Static purity of kernels, match exhaustiveness, the budget watchdog, capability name tables: approximations, timing or plain case splits.
