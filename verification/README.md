# Verified models of the COME compiler, its runtime and the libraries it ships

COME is a C-like language compiled to C. This project models the parts of the repository whose correctness is hard to see
from the code and proves what they promise, over all inputs and whole runs. Code that updates memory is modelled by classes,
arrays and loops proved against pure functions; what the source promises is then proved about those functions.

| area | files |
|---|---|
| hash map (`src/map/map.c`) | `FloatCount`, `MapTable`, `Map` |
| talloc hierarchy: alloc, reference, steal, unlink, free, realloc | `TallocForest`, `TallocLinks`, `TallocRetry`, `TallocRings`, `TallocFree`, `TallocShape`, `TallocTrace`, `TallocClean`, `TallocMove`, `TallocCalls`, `TallocRuns`, `TallocKnots`, `Talloc` |
| talloc pools | `TallocPool`, `TallocBlock` |
| ownership records of the Windows branch (`src/mem/talloc.c`) | `MemTree`, `MemRecords` |
| regex engine, string builders, UTF-8 (`src/string/string.c`) | `RegexSyntax`, `RegexMeaning`, `RegexExact`, `RegexCaps`, `RegexPlaces`, `RegexPatterns`, `RegexText`, `Regex`, `StringSearch`, `Strings`, `Utf8Text`, `Utf8` |
| compiler: module init and exit, expressions, macros, `switch` | `ModuleGraph`, `ModuleInit`, `ModuleContexts`, `ModuleExit`, `ModuleRun`, `ModuleOrder`, `GeneratedProgram`, `ExprGrammar`, `ExprParsing`, `ExprC11`, `ExprParser`, `Macro`, `Switch` |
| libreplace: IPv6 text, `snprintf`, calendar | `Inet6Text`, `Inet6Grammar`, `Inet6Standard`, `Inet6Shape`, `Inet6`, `PrintfText`, `Printf`, `CalendarDays`, `Calendar` |
| shared notions | `Basics` |

How to read the model:

- **Map.** A table is a sequence of slots; `View` is the finite map it stands for. `Good` is the invariant: every slot between
  an entry's home and its place is occupied, keys differ, and the load is at most 3/4 as the `float` test reckons. Removal
  breaks it for a while: `OneHole` says exactly how, and that it gets better.
- **talloc.** Memory is kept field by field, as maps from addresses. The ghost forest `f` of the class `Heap` gives each chunk its
  logical parent, its children and its references in list order; `Linked` says that the fields, with a parent pointer only on
  the first child, spell out that forest, and `Sound` that it is a forest: well formed, nothing being freed, no cycle of parents.
  `FreeOf` is the recursion of a free as a function, for all references, and `Clean` says that no chunk is stolen by its own
  descendant on its way. For references in order there is a closed form: `Effect` says what a free released, what it moved where,
  and that nothing else changed. A reference is a chunk's own (`Own`) if it hangs below that chunk. `Doomed` is what goes with a
  freed chunk, `Topmost` what first survives below it, `Troubled` a chunk whose newest reference is its own and another is not;
  `Tame` sets out which references the closed form allows, `Prudent` which ones make a free clean.
- **Pools.** A pool is a block of bytes; members are intervals of it. `Inv` is what every run keeps, `Intact` that the bytes of
  others stay.
- **Regex.** `Matches` is the declarative meaning of a pattern, `First` what the backtracking matcher finds, `Reachable` and
  `Preferred` the matches its greedy way through items and groups can reach and the one it takes, said without the matcher.
  `FirstCaps` are the group records it leaves, `Contained` says that no group's last repetition ends behind a place. `Describes`
  is the meaning of a pattern as written (`Pat`), without reference to how it is read; `RegexText` shows that the two agree.
- **Modules.** An import graph is acyclic by a rank. `RunMain` is the run of the emitted `main`; the class `Program` has the static
  flags and context globals. `Visits` is the walk over the imports with every visit in it, repeated ones too; `Openings` lists the
  imports of non-system modules in the order in which it meets them.
- **Expressions.** `Derives` is the grammar by levels, `From` the nonterminals of C11 with the tokens its sections name, `Flat` the tokens of a derivation, `Strip` its
  tree.
- **IPv6, strings, `snprintf`, calendar.** Pure functions for the text or number, and methods over buffers and loops that are
  proved to produce it.

Where the code and what is said about it part ways, the model follows the code:

- `inet_pton6` says that `::` in a full address is ignored. It zeroes what follows (`Inet6Grammar.FullAddressCut`, for every place
  of the mark). It also takes a colon behind the last word (`Inet6Grammar.TrailingColon`) and spare zeros in words and octets;
  `Inet6Grammar.ReadExactly` gives the texts it takes, `Inet6Standard.BeyondExactly` what separates them from the standard, where
  `::` is taken to stand for one group or more.
- The switch of COME never falls through by itself, but the emitted `default` has no `break`. That is harmless exactly for the
  lists of clauses `Switch.LoweringExact` names, which include all with `default` last, as the grammar has it.
- Modules do not in general exit in the reverse order of their inits. `ModuleOrder.ReversesExactly` says when they do: exactly when
  no module has all its visits between two visits of another. Sharing alone does not decide it (`RevisitNotReversed`,
  `SharedYetReversed`). `ModuleRun.RunOrderExact` gives the import graphs for which each module exits before its imports.
- The regex matcher looks at no atom where the text ends, does not skip a group that fails, and does not enter a group again:
  `RegexExact.StarMissesEmptyText`, `OptionalGroupNotSkipped`, `GroupNotReentered`. `RegexExact.SearchExact` says exactly which
  patterns are found where, and with which end.
- A group's record may lie outside the match: `(.)*a` in `xab` (`RegexCaps.GroupOutsideMatch`); `RegexCaps.RecordsInside` says when
  none does.
- `talloc_free` can lose the forest. A chunk it reaches whose newest reference comes from below itself, and an older one from
  elsewhere, is stolen under its own descendant (`TallocKnots.KnotTied`, `KnotCut`). References from elsewhere in the subtree can
  bring that about on the way, where none was of that kind before (`TallocKnots.TangleReached`, `TangleUntold`, `TangleSnarls`).
  `TallocRuns.StepSound` and `RunSound` say that this is the only way to lose it, for all references; `SafeIsHarmless` and
  `TellingRunSound` how a caller can tell.
- A reference from the NULL context protects only direct children of what is freed (`TallocShape.NullReferenceProtects`), because
  such a chunk is handed to its grandparent.
- `mem_talloc_realloc` of NULL makes the new block its own ancestor (`MemTree.ReallocNullCycles`).
- `fmtint`, `fmtstr` and character conversions depart from C11 in the cases `PrintfText.IntExact`, `StrExact` and `CharExact` name.
- `day_of_the_week` is wrong in January and February of year 0 (`CalendarDays.WeekdayExact`).

`dafny verify dfyconfig.toml` checks everything.

## Model

| member | source | states |
|---|---|---|
| MapTable.ViewIs | src/map/map.c:53-84 | two tables whose occupied slots hold the same entries stand for the same map |
| MapTable.CountIsCardinality | src/map/map.c:132-134 | the number of occupied slots is the cardinality of the map |
| MapTable.FindDecides | src/map/map.c:86-102 | in a table with an empty slot the probe from a key's home ends, at the key exactly when the map has it, and then with its value; otherwise at an empty slot |
| MapTable.PutIsUpdate | src/map/map.c:68-83 | storing after the load test is the map update of exactly that key and keeps every slot between an entry's home and its place occupied |
| MapTable.RehashKeepsMap | src/map/map.c:32-51 | the doubled table holds the same map and the same number of entries, and probes correctly |
| MapTable.PutKeepsGood | src/map/map.c:53-84 | a put, with or without a rehash before it, is the map update and keeps the table at most 3/4 full as the `float` load test reckons |
| FloatCount.LoadedDouble | src/map/map.c:63 | a table at most three quarters full by the rounded count takes one more entry when doubled |
| FloatCount.RoundedMonotone | src/map/map.c:63 | rounding a count to a `float` keeps the order |
| FloatCount.RoundedIsNearest | src/map/map.c:63 | the count is compared as the `float` nearest to it: a number with a mantissa of 24 bits, and none is nearer |
| FloatCount.RoundedToEven | src/map/map.c:63 | of two as near it is the one with an even mantissa |
| FloatCount.LoadedIsThreeQuarters | src/map/map.c:8-63 | below 2^24 entries the load test says that a table is at most three quarters full |
| MapTable.ClearOpensHole | src/map/map.c:111-115 | clearing the found slot of a correct table leaves exactly one hole that entries may have to cross |
| MapTable.ReinsertTarget | src/map/map.c:117-121 | the entry taken out lands in the hole if its probe path crosses it, and in its own slot otherwise |
| MapTable.RoundKeepsOneHole | src/map/map.c:117-122 | every round of the re-insertion loop keeps exactly one hole between the removed slot and the scan, the map and the count, and brings the end of the scan nearer |
| MapTable.ScanEnds | src/map/map.c:117-124 | when the scan meets an empty slot the table probes correctly again |
| MapTable.ReinsertRestores | src/map/map.c:116-123 | the whole re-insertion loop ends with a correctly probing table for the same map |
| MapTable.ClearFound | src/map/map.c:111-116 | after the found slot is cleared only its key is gone and the loop's invariant holds |
| MapTable.RemoveIsDelete | src/map/map.c:104-130 | removal takes exactly the key out of the map, or nothing if it is absent, and keeps the table correct and its load |
| MapTable.RunsAgree | src/map/map.c:53-134 | over every run of put, get, remove and len from a correct table all answers are those of a finite map, and the table stays correct and at most 3/4 full as the load test reckons |
| MapTable.HashIsDjb2 | src/map/map.c:11-17 | the hash is 5381 times 33 for every byte with the bytes added as signed characters, modulo 2^32, however often it wraps around on the way |
| ComeMap.Table.constructor | src/map/map.c:19-30 | a new table is empty |
| ComeMap.HashString | src/map/map.c:11-17 | the loop computes the 32-bit hash the pure model uses, signed characters included |
| ComeMap.Store | src/map/map.c:68-83 | the probing loop with its store leaves the slots of the pure put |
| ComeMap.Put | src/map/map.c:53-84 | for a NULL map pointer, NULL key, missing table, full and roomy table: the slots of the pure put; in normal use the contents with that key updated; the table object changes only if it was over the load limit |
| ComeMap.Rehash | src/map/map.c:32-51 | the caller's pointer gets a fresh table of twice the size with the entries put in again; it is below the load limit |
| ComeMap.MoveEntries | src/map/map.c:43-47 | the nested puts fill the new table as the pure model says and never replace it |
| ComeMap.NestedPutFits | src/map/map.c:43-47 | the new table is never over the load limit while the old entries go in, so the nested put cannot rehash again |
| ComeMap.PutBack | src/map/map.c:43-47 | a put while there is room leaves the local pointer at the same table |
| ComeMap.Get | src/map/map.c:86-102 | the value the map has for the key, NULL for a NULL map, a NULL key or an absent key |
| ComeMap.Len | src/map/map.c:132-134 | the cardinality of the contents; 0 for NULL |
| ComeMap.Remove | src/map/map.c:104-130 | the contents lose exactly the key; a NULL map or key changes nothing |
| ComeMap.ReinsertCluster | src/map/map.c:116-123 | the in-place loop reaches the state the pure scan leads to, on the same table object and with the same count |
| ComeMap.ReinsertOne | src/map/map.c:117-121 | one round, whose nested put goes through the local pointer, leaves the pure round's slots in the caller's table |
| TallocForest.NextAncestor | src/external/talloc/lib/talloc/talloc.c:572-584 | one step more up the parents is the parent of where the steps before end |
| TallocForest.EffectJoin | src/external/talloc/lib/talloc/talloc.c:1653-1684 | the effects of freeing children one after the other add up to one effect |
| TallocForest.RoundGone | src/external/talloc/lib/talloc/talloc.c:1653-1684 | a chunk that must go and that one round of the child loop has not taken is still there and must still go |
| TallocForest.ProgressStep | src/external/talloc/lib/talloc/talloc.c:1653-1684 | one round of the child loop keeps its invariant: what was taken, what was moved where, and that nothing else changed |
| TallocForest.ProgressEnd | src/external/talloc/lib/talloc/talloc.c:1653-1684 | when no child is left every chunk that must go is gone and every survivor has found its place |
| TallocLinks.ListRemove | src/external/talloc/lib/talloc/talloc.c:555-566 | the in-place macro takes one element out of a doubly linked list and leaves the order of the others |
| TallocLinks.ListAdd | src/external/talloc/lib/talloc/talloc.c:541-553 | the in-place macro puts an element in front of a doubly linked list |
| TallocLinks.UnlinkedRoot | src/external/talloc/lib/talloc/talloc.c:1171-1180 | taking a root out keeps all lists, list heads and parent fields right |
| TallocLinks.UnlinkedMiddle | src/external/talloc/lib/talloc/talloc.c:1171-1180 | taking a child that is not the first out keeps all lists, list heads and parent fields right |
| TallocLinks.RootAttached | src/external/talloc/lib/talloc/talloc.c:1289-1302 | a loose chunk becomes a root: links, heads and parent fields are right |
| TallocLinks.TargetedWf | src/external/talloc/lib/talloc/talloc.c:1016-1019 | a new reference handle at the head of its target's list keeps the hierarchy well formed |
| TallocFree.FreeCompletes | src/external/talloc/lib/talloc/talloc.c:1110-1224 | releasing a chunk whose children are gone completes the exact effect of freeing it: what is doomed goes, own references and what they hang off included |
| TallocFree.FreeFinishes | src/external/talloc/lib/talloc/talloc.c:1110-1224 | then everything a free promises in every case holds: it has shrunk the hierarchy, result and refusal fit, rings stay, and the chunks above stay |
| TallocFree.FreeFinishesExactly | src/external/talloc/lib/talloc/talloc.c:1110-1224 | and, for references from outside or from below their targets, the exact effect, or a ring of parents exactly when the free came to a troubled chunk |
| TallocFree.AdoptionEffect | src/external/talloc/lib/talloc/talloc.c:1653-1684 | a referenced child loses its newest reference and moves under the referring context; nothing else changes |
| TallocFree.TroubledChild | src/external/talloc/lib/talloc/talloc.c:1657-1682 | a refused child whose newest reference came from below itself is stolen under its own descendant: the parents then run in a ring |
| TallocFree.RetriedOutcome | src/external/talloc/lib/talloc/talloc.c:1116-1131 | after a reference from below the chunk itself has gone, what the second try promises holds for the whole call |
| TallocFree.RetriedExactly | src/external/talloc/lib/talloc/talloc.c:1116-1131 | and, for references from outside or from below their targets, so do its exact effect and its result: the chunk goes exactly when all its references come from below itself |
| TallocRetry.PoppedEffect | src/external/talloc/lib/talloc/talloc.c:1124-1131 | dropping an own reference first and freeing then has the effect of freeing at once |
| TallocFree.NewParentLives | src/external/talloc/lib/talloc/talloc.c:1653-1684 | the context a refused child is given to is a live chunk and not a reference handle |
| TallocShape.EffectAcyclic | src/external/talloc/lib/talloc/talloc.c:1653-1684 | freeing leaves no cycle of parents when every reference into the subtree comes from outside it or from below its own target and no chunk reached is troubled |
| TallocShape.BrokenNotAcyclic | src/external/talloc/lib/talloc/talloc.c:1676-1682 | a ring of parents rules out every ranking of the chunks |
| TallocShape.StolenAcyclic | src/external/talloc/lib/talloc/talloc.c:1289-1323 | stealing keeps the hierarchy acyclic exactly when the new parent does not hang below the chunk |
| TallocRings.StolenRing | src/external/talloc/lib/talloc/talloc.c:1676-1682 | a chunk put under its own descendant closes a ring |
| TallocShape.FreeVerdict | src/external/talloc/lib/talloc/talloc.c:1110-1224 | after `talloc_free` each chunk of the subtree is released, alone or as an own reference of one that is, or is a topmost survivor now under the context of its newest reference with that reference consumed, or stays where it hung with its references; outside only the newest handles of chunks of the first two kinds go |
| TallocShape.AdoptedSubtree | src/external/talloc/lib/talloc/talloc.c:1653-1684 | a survivor keeps its whole subtree, parent by parent, but for handles whose target above them goes |
| TallocShape.NullReferenceProtects | src/external/talloc/lib/talloc/talloc.c:1653-1684 | a single reference from the NULL context saves a chunk exactly when it is a direct child of the freed chunk |
| TallocShape.ContextReferenceProtects | src/external/talloc/lib/talloc/talloc.c:1653-1684 | where the newest reference to a chunk comes from another context, the chunk survives exactly when that reference does not hang below it; it is then used up |
| TallocMove.MovedLinked | src/external/talloc/lib/talloc/talloc.c:2056-2073 | copying a record to a new address and telling its neighbours gives the same hierarchy with that chunk renamed, all links right |
| TallocMove.RenamedAcyclic | src/external/talloc/lib/talloc/talloc.c:2056-2073 | the moved hierarchy is acyclic |
| TallocCalls.StolenSound | src/external/talloc/lib/talloc/talloc.c:1260-1335 | after a steal the hierarchy is sound exactly when the new context is NULL, the chunk itself or not below the chunk |
| TallocCalls.StolenNode | src/external/talloc/lib/talloc/talloc.c:1260-1335 | what a steal does to every chunk: the stolen one gets the new parent and leads its children, the others of the old parent keep their order, and nothing else changes |
| TallocCalls.ReferenceNode | src/external/talloc/lib/talloc/talloc.c:1024-1062 | what a reference does to every chunk: a new handle leads the children of the context and the references of its target, and nothing else changes |
| TallocShape.BornFacts | src/external/talloc/lib/talloc/talloc.c:739-849 | a new chunk leads the children of its context, and nothing else changes |
| TallocCalls.HandleDrops | src/external/talloc/lib/talloc/talloc.c:957-962 | freeing a reference handle takes it out of its target's list and does nothing else |
| TallocCalls.InPlace | src/external/talloc/lib/talloc/talloc.c:2056-2073 | telling the neighbours of a chunk that did not move changes no field |
| TallocCalls.ReferenceFrom | src/external/talloc/lib/talloc/talloc.c:1423-1430 | a reference from the context, or none exactly when there is none |
| TallocCalls.ReferenceFromNewest | src/external/talloc/lib/talloc/talloc.c:1423-1433 | and it is the newest of them: none from the context stands before it in the list |
| TallocCalls.HandleDropped | src/external/talloc/lib/talloc/talloc.c:1414-1436 | dropping the newest reference from its own context succeeds and removes just that handle |
| TallocCalls.FreedIs | src/external/talloc/lib/talloc/talloc.c:1754-1793 | a `talloc_free` that goes ahead returns 0 and leaves exactly what the recursion says, whatever the references; the hierarchy is sound afterwards exactly when no chunk was stolen by its own descendant, which no prudent free does; where each reference comes from outside the subtree or from below its target, that is exactly when no troubled chunk is reached, and then the effect is the one of `FreeVerdict` |
| TallocCalls.CleanExactly | src/external/talloc/lib/talloc/talloc.c:1110-1240 | the hierarchy after a free is acyclic exactly when every steal on the way went to a context not below the chunk; a prudent free has no other |
| TallocTrace.FreesOneWay | src/external/talloc/lib/talloc/talloc.c:1110-1240 | the recursion, as a function of the hierarchy, leads from a chunk to one hierarchy, one result and one answer whether every steal was clean |
| TallocClean.TracedReference | src/external/talloc/lib/talloc/talloc.c:1116-1131 | a referenced chunk goes the way of the recursion: refused without its newest reference, or tried again |
| TallocClean.TracedTree | src/external/talloc/lib/talloc/talloc.c:1171-1182 | so does an unreferenced one, unlinked, emptied and released |
| TallocClean.LedOn | src/external/talloc/lib/talloc/talloc.c:1653-1684 | so does the loop over the children, round by round; a ring once closed stays closed |
| TallocClean.TracedMoved | src/external/talloc/lib/talloc/talloc.c:1657-1682 | so does a refused child; it closes a ring exactly when its new context hangs below it, and in a careful family it never does |
| TallocClean.SeesWhatIsBelow | src/external/talloc/lib/talloc/talloc.c:2941-2969 | among at most 10000 chunks `talloc_is_parent` sees just what hangs below a chunk that is not being freed |
| Talloc.Heap.constructor | src/external/talloc/lib/talloc/talloc.c:739-819 | the empty heap is valid |
| Talloc.Heap.ParentChunk | src/external/talloc/lib/talloc/talloc.c:572-584 | walking to the front of the sibling list finds the logical parent |
| Talloc.Heap.IsParent | src/external/talloc/lib/talloc/talloc.c:2941-2969 | true exactly when the chunk is reached within 10000 steps of the parent walk |
| Talloc.Heap.FreeInternal | src/external/talloc/lib/talloc/talloc.c:1110-1224 | for all references: the hierarchy and the result are those of the recursion as a function; a chunk being freed is left alone; links stay right and the chunks above stay; acyclic exactly when every steal was clean, and otherwise with a ring. For references from outside or from below their targets, also the exact effect in closed form |
| Talloc.Heap.FreeReference | src/external/talloc/lib/talloc/talloc.c:1116-1131 | the newest reference goes; the chunk is refused or tried again, as the recursion says for all references, and in closed form for those from outside or from below their targets |
| Talloc.Heap.DropNewest | src/external/talloc/lib/talloc/talloc.c:1125-1127 | the newest reference goes and nothing else, and whether it came from below is what the parent walk saw |
| Talloc.Heap.FreeChildren | src/external/talloc/lib/talloc/talloc.c:1653-1684 | the loop frees or moves every child and ends, as the recursion says for all references; in closed form for those from outside or from below their targets |
| Talloc.Heap.FreeOneChild | src/external/talloc/lib/talloc/talloc.c:1657-1683 | one round frees the first child or hands it to the parent of its newest reference, as the recursion says |
| Talloc.Heap.MoveRefused | src/external/talloc/lib/talloc/talloc.c:1669-1682 | a refused child goes to the new parent, or to the parent of the chunk being freed |
| Talloc.Heap.StealInternal | src/external/talloc/lib/talloc/talloc.c:1260-1335 | the fields and the hierarchy change exactly as moving one chunk to the front of the new parent's children says |
| Talloc.Heap.Alloc | src/external/talloc/lib/talloc/talloc.c:739-819 | a new chunk leads its context's children; above the size limit, or when `malloc` fails, nothing changes |
| Talloc.Heap.Reference | src/external/talloc/lib/talloc/talloc.c:992-1021 | a new handle under the context leads the target's list of references |
| Talloc.Heap.StealLoc | src/external/talloc/lib/talloc/talloc.c:1342-1373 | the logical parent of exactly one chunk changes; the heap stays valid exactly when the chunk does not go below itself |
| Talloc.Heap.FindReference | src/external/talloc/lib/talloc/talloc.c:1423-1433 | the search finds the newest reference from the context |
| Talloc.Heap.Unreference | src/external/talloc/lib/talloc/talloc.c:1414-1436 | the newest reference from the context goes; -1 and nothing changed when there is none |
| Talloc.Heap.UnlinkFrom | src/external/talloc/lib/talloc/talloc.c:1444-1490 | one parent of a chunk is given up: a reference from the context, or the context itself, and then the chunk is freed or goes to the context of its newest reference; -1 and nothing changed when it is no parent |
| Talloc.Heap.LetGo | src/external/talloc/lib/talloc/talloc.c:1470-1489 | a chunk given up by its parent is freed, as `talloc_free` frees it, or goes to the context of its newest reference |
| Talloc.Heap.Free | src/external/talloc/lib/talloc/talloc.c:1762-1793 | a referenced chunk is refused with nothing changed, unless it is a root with a single reference: that reference is dropped if it comes from the NULL context, and otherwise takes the chunk over; a chunk without references is freed exactly as the recursion says, whatever the references below it, and the heap is valid afterwards exactly when no chunk was stolen by its own descendant |
| Talloc.Heap.FreeWhole | src/external/talloc/lib/talloc/talloc.c:1229-1250 | the free of a chunk without references, as a public call makes it |
| Talloc.Heap.Perform | src/external/talloc/lib/talloc/talloc.c:739-1793 | any of the calls, realloc too with its exact result, as a step of a run; the heap stays valid exactly when the call is harmless |
| TallocRuns.StepSound | src/external/talloc/lib/talloc/talloc.c:739-1793 | a call of alloc, reference, steal, unlink, free or realloc on a sound hierarchy leaves a sound one exactly when it is harmless: no steal or hand-over goes below the chunk itself, and on the way of a free none does; with no assumption on the references |
| TallocRuns.RunSound | src/external/talloc/lib/talloc/talloc.c:739-1793 | over every run from nothing, the hierarchy is sound all along exactly when every call was harmless when made; with no assumption on the references |
| TallocRuns.SafeIsHarmless | src/external/talloc/lib/talloc/talloc.c:1110-1240 | what can be told before the call: a free is harmless if below its chunk each chunk has one reference at most, or none from elsewhere in the subtree and its own oldest, with at most 10000 chunks; and if every reference into the subtree comes from outside (the NULL context only alone) or from below its target, exactly when no reached chunk has its newest reference from below itself and another that is not |
| TallocRuns.TellingRunSound | src/external/talloc/lib/talloc/talloc.c:739-1793 | over every run whose frees are of those two kinds, the hierarchy is sound all along exactly when every call was safe by what can be told before it |
| TallocKnots.KnotTied | src/external/talloc/lib/talloc/talloc.c:992-1021 | six harmless public calls lead to a chunk referenced by a root and then by its own child |
| TallocKnots.KnotCut | src/external/talloc/lib/talloc/talloc.c:1657-1682 | freeing its parent leads to one hierarchy and no other, in which the chunk and its child hang below each other |
| TallocKnots.TangleReached | src/external/talloc/lib/talloc/talloc.c:992-1021 | eight harmless public calls lead to a chunk referenced by a root and by its sibling, which its grandchild refers to; no chunk is referenced from below itself |
| TallocKnots.TangleUntold | src/external/talloc/lib/talloc/talloc.c:1110-1131 | there no chunk is troubled, and the free is of neither kind that can be told from the references |
| TallocKnots.TangleSnarls | src/external/talloc/lib/talloc/talloc.c:1657-1682 | freeing the parent leads to one hierarchy and no other, with a ring of three chunks |
| Talloc.Heap.Realloc | src/external/talloc/lib/talloc/talloc.c:1801-2085 | outside pools: size 0 unlinks, NULL allocates; too large or referenced fails with nothing changed; otherwise the chunk keeps its block exactly where it is to have as many bytes as before or fewer with less than 1024 to gain, and else goes to the block `realloc` gives, or fails with nothing changed exactly when that is NULL; the hierarchy is the same with the chunk at its new address, and it has its new size |
| Talloc.Heap.MoveTo | src/external/talloc/lib/talloc/talloc.c:2019-2085 | the moving branch: the hierarchy renamed, or nothing changed when memory runs out |
| Talloc.AddReference | src/external/talloc/lib/talloc/talloc.c:1013-1020 | the links after the handle is put at the head of the list are those of the new hierarchy |
| Talloc.TellNeighbours | src/external/talloc/lib/talloc/talloc.c:2056-2073 | first child, parent, and both siblings get the new address, and no other field |
| Talloc.ReferenceDestructor | src/external/talloc/lib/talloc/talloc.c:957-962 | the handle leaves its target's list |
| Talloc.Prepare | src/external/talloc/lib/talloc/talloc.c:1138-1182 | destructor run, unlinked and flagged: the links are those of the hierarchy with the chunk loose |
| Talloc.Steal | src/external/talloc/lib/talloc/talloc.c:1289-1323 | the fields after unlinking and linking are those of the hierarchy with the chunk moved |
| Talloc.LinkUnder | src/external/talloc/lib/talloc/talloc.c:1321-1323 | the new first child takes over the parent pointer |
| Talloc.UnlinkFirst | src/external/talloc/lib/talloc/talloc.c:1310-1314 | the next child inherits the parent pointer |
| Talloc.UnlinkOther | src/external/talloc/lib/talloc/talloc.c:1315-1319 | the neighbours close up and no parent pointer moves |
| TallocPool.AllocKeeps | src/external/talloc/lib/talloc/talloc.c:682-734 | cutting a member out keeps the pool invariant: members apart, aligned to 16 bytes, below the end, counted |
| TallocPool.FreeKeeps | src/external/talloc/lib/talloc/talloc.c:1025-1099 | freeing a member keeps the invariant and releases the block exactly when it was the last one of a freed pool |
| TallocPool.FreePoolKeeps | src/external/talloc/lib/talloc/talloc.c:1186-1217 | freeing the pool keeps the invariant and releases the block exactly when no member is left |
| TallocPool.ReallocKeeps | src/external/talloc/lib/talloc/talloc.c:1837-2018 | reallocating a member, by any of the branches, keeps the invariant |
| TallocPool.StepKeeps | src/external/talloc/lib/talloc/talloc.c:682-734 | each allowed operation keeps the invariant and the block is not released twice |
| TallocPool.RunsKeep | src/external/talloc/lib/talloc/talloc.c:600-734 | over every run: members disjoint, aligned and inside, the object count is the live members plus the pool while it lives, the block released exactly once, when the count reaches zero |
| TallocPool.FreeUndoesAlloc | src/external/talloc/lib/talloc/talloc.c:1085-1093 | freeing what was allocated last gives the space back |
| TallocPool.ShrinkIsSmallerAlloc | src/external/talloc/lib/talloc/talloc.c:1837-1870 | making the member allocated last smaller leaves the pool as if no more had been asked for, its space given back |
| TallocPool.ShrinkUndoesGrow | src/external/talloc/lib/talloc/talloc.c:1837-1970 | growing the last member in place and making it small again leaves the pool as it was |
| TallocPool.ReallocPlaces | src/external/talloc/lib/talloc/talloc.c:1880-2018 | a member leaves its pool exactly when it takes more space than it has and there is no room for it behind the members, in its place if it is the last, or at the front if it is the only one; it fails only then, with nothing changed, and only if there is no block to be had |
| TallocPool.CountFits | src/external/talloc/lib/talloc/talloc.c:600-618 | a pool below the size limit never overflows `object_count` |
| TallocPool.RoomForAll | src/external/talloc/lib/talloc/talloc.c:891-904 | with the stated slack no allocation of a list is refused |
| TallocPool.PooledObjectSuffices | src/external/talloc/lib/talloc/talloc.c:869-927 | a pooled object has room for its subobjects whatever their sizes |
| TallocPool.WritesInside | src/external/talloc/lib/talloc/talloc.c:1837-2018 | writing inside one member, or behind the end, changes no other member |
| TallocPool.FreedIntact | src/external/talloc/lib/talloc/talloc.c:1025-1099 | the fill writes of a free touch no other member |
| TallocPool.FrontDone | src/external/talloc/lib/talloc/talloc.c:1907-1957 | sliding the only member to the front keeps its bytes |
| TallocPool.ShrinkDone | src/external/talloc/lib/talloc/talloc.c:1843-1852 | shrinking in place keeps the bytes that remain |
| TallocPool.GrowDone | src/external/talloc/lib/talloc/talloc.c:1962-1984 | growing in place keeps the bytes |
| TallocPool.AwayDone | src/external/talloc/lib/talloc/talloc.c:1986-2017 | moving to new space in the pool keeps the bytes and frees the old member |
| TallocBlock.Pool.constructor | src/external/talloc/lib/talloc/talloc.c:832-856 | a new pool has no members and counts itself |
| TallocBlock.Pool.TcAllocPool | src/external/talloc/lib/talloc/talloc.c:682-734 | the in-place fields follow the pure step, and nothing already in the pool changes |
| TallocBlock.Pool.TcFreePoolmem | src/external/talloc/lib/talloc/talloc.c:1025-1099 | likewise for a free, with its fill writes |
| TallocBlock.Pool.Realloc | src/external/talloc/lib/talloc/talloc.c:1801-2018 | every branch: place, state and bytes; the member's bytes go with it and no other member's change |
| TallocBlock.Pool.Grow | src/external/talloc/lib/talloc/talloc.c:1893-2018 | the growing branches |
| TallocBlock.Pool.ShrinkInPlace | src/external/talloc/lib/talloc/talloc.c:1843-1852 | the shrinking branch |
| TallocBlock.Pool.GrowInPlace | src/external/talloc/lib/talloc/talloc.c:1962-1984 | the branch that extends the last member |
| TallocBlock.Pool.MoveToFront | src/external/talloc/lib/talloc/talloc.c:1907-1957 | the only member slides to the front, with its bytes, and the rest is filled |
| TallocBlock.Pool.MoveAway | src/external/talloc/lib/talloc/talloc.c:1986-2017 | new space in the pool, else a block from `malloc`, else failure with nothing changed |
| TallocBlock.Pool.FreePool | src/external/talloc/lib/talloc/talloc.c:1186-1217 | the block is released now if there are no members, and otherwise left to the last of them |
| TallocBlock.NewPool | src/external/talloc/lib/talloc/talloc.c:832-856 | NULL exactly when the size is out of range or `malloc` fails |
| TallocBlock.CheckedSize | src/external/talloc/lib/talloc/talloc.c:880-904 | the wrapping sums are accepted exactly when the true size is a `size_t`, and are then exact |
| TallocBlock.PooledObject | src/external/talloc/lib/talloc/talloc.c:869-927 | the pool begins with the object and has the computed size |
| MemTree.StealSound | src/mem/talloc.c:110-113 | giving a block a new parent keeps all chains of parents finite exactly when the parent is neither the block nor below it |
| MemTree.ReallocMoves | src/mem/talloc.c:66-85 | the hierarchy is the old one with the block at its new address, under the given context if there is one |
| MemTree.ReallocNullCycles | src/mem/talloc.c:66-85 | reallocating NULL makes the new block its own ancestor, because every record whose parent is NULL is readdressed to it |
| MemTree.ReallocSound | src/mem/talloc.c:66-85 | reallocating keeps the records sound exactly when the block is not NULL and does not go below itself |
| MemTree.FreeingMore | src/mem/talloc.c:89-99 | after one child is freed the blocks gone are still closed downwards, only those below the block, and released once and in order |
| MemTree.FreeEnds | src/mem/talloc.c:89-102 | when no child is left, exactly the block and all below it are gone |
| MemTree.NotUnderItself | src/mem/talloc.c:23-34 | no block of sound records is its own ancestor |
| MemTree.TrackIs | src/mem/talloc.c:23-34 | tracking sets one parent and keeps the keys unique |
| MemRecords.Memory.constructor | src/mem/talloc.c:14 | no records at the start |
| MemRecords.Memory.FindRecord | src/mem/talloc.c:16-21 | the first record of the block, or none exactly when it has none |
| MemRecords.Memory.Track | src/mem/talloc.c:23-34 | the list after tracking, NULL ignored |
| MemRecords.Memory.Untrack | src/mem/talloc.c:36-47 | the list without the block's record |
| MemRecords.Memory.Alloc | src/mem/talloc.c:60-64 | a new leaf under the context; nothing when `calloc` fails |
| MemRecords.Memory.Steal | src/mem/talloc.c:110-113 | one parent changes, and a block without a record gets one; the records stay sound exactly when the block does not go below itself |
| MemRecords.Memory.Parent | src/mem/talloc.c:115-118 | the recorded parent, or NULL |
| MemRecords.Memory.Realloc | src/mem/talloc.c:66-85 | the relabelled list, for tracked and untracked blocks; sound afterwards exactly when the block was not NULL and did not go below itself; a failing `realloc` changes nothing |
| MemRecords.Memory.Readdress | src/mem/talloc.c:79-83 | every record of a child of the old address, and no other, names the new one |
| MemRecords.Memory.AnyChild | src/mem/talloc.c:90-96 | a child of the block, or none exactly when it has none |
| MemRecords.Memory.FreeChild | src/mem/talloc.c:89-99 | one round of the loop keeps its invariant, and ends it exactly when no child is left |
| MemRecords.Memory.Free | src/mem/talloc.c:87-102 | ends; exactly the records of the block and of everything below it go, each block is given to the C library once and none before what is below it |
| MemRecords.Memory.Shutdown | src/mem/talloc.c:52-58 | no record is left |
| RegexSyntax.AtomAligned | src/string/string.c:644-656 | reading the pattern atom by atom never gets out of step with the scan that numbers groups |
| RegexSyntax.GroupsNumbered | src/string/string.c:644-656 | a later group has a larger number |
| RegexSyntax.FindMatching | src/string/string.c:623-642 | a closing bracket found is at or after the start |
| RegexMeaning.FirstSound | src/string/string.c:799-859 | what the matcher reports is a match by the declarative meaning of the pattern, for every pattern that reads well |
| RegexExact.ReachableMatches | src/string/string.c:799-859 | what is within the reach of the engine, groups included, is a match |
| RegexExact.MatchesReachable | src/string/string.c:712-859 | without groups, a match that ends before the text does and is shorter than 512 is within reach |
| RegexExact.FirstIs | src/string/string.c:799-859 | for every pattern, with groups: the matcher reports a match exactly when one is within reach, and it reports e exactly when e is the preferred one, where each item is repeated as often as leaves the rest within reach and a group only matches in its preferred way |
| RegexMeaning.SearchLeftmost | src/string/string.c:875-892 | the reported span is an ordered match inside the text and no earlier start has one the matcher finds |
| RegexMeaning.UnclosedNotFound | src/string/string.c:722-739 | a pattern with an escape, class or group that is not closed is found in no text |
| RegexExact.SearchExact | src/string/string.c:875-892 | a pattern is found exactly when a match is within reach of some start, and then at the first such start with the preferred end |
| RegexText.WrittenRead | src/string/string.c:623-797 | every pattern written from `.`, escapes, classes, groups, characters (a `$` that is not at the end and a `^` that is not in front among them), the repetitions `*`, `+`, `?`, `{n}`, `{n,}`, `{m,n}`, `^` and `$` is read to its end, as one that means what the notation means |
| RegexText.PatMatches | src/string/string.c:644-859 | what is read of a pattern matches exactly the stretches of a text that the pattern as written describes, by the meaning of each notation alone |
| RegexText.FoundIsDescribed | src/string/string.c:861-892 | what is found for a written pattern is a span of the text that the pattern describes, at its start if there is a `^` |
| RegexText.DescribedIsFound | src/string/string.c:861-892 | a pattern written without groups is found if it describes a stretch of at most 511 characters that ends before the text does, and not behind that stretch |
| RegexText.EscapeStands | src/string/string.c:658-671 | each escape stands for the characters listed for it |
| RegexText.ItemsRead | src/string/string.c:673-707 | the members of a class as written are those read: characters, ranges and escapes |
| RegexText.SetMeans | src/string/string.c:673-707 | and `^` and `!` in front are read as its negation |
| RegexText.TimesRead | src/string/string.c:756-797 | each repetition is read as the bounds that allow just the numbers of repetitions it means, and as ending where it ends |
| RegexText.BracesExactly | src/string/string.c:765-794 | braces are a repetition exactly where they have one of the forms `{d}`, `{d,}` and `{d,e}`, with any decimal digits or, but for e, none, and then the one these digits are worth; otherwise they are none |
| RegexMeaning.RecordedMatches | src/string/string.c:735-750 | a recorded group span is a match of that group's body |
| RegexCaps.DecodedRecords | src/string/string.c:735-750 | what is recorded for a group, in whatever tries, stays a match of its body |
| RegexCaps.DecodedNumbered | src/string/string.c:644-656 | groups are numbered in the order in which they open, a body's between its group and what follows |
| RegexCaps.RecordIsLast | src/string/string.c:823-839 | a group's record is the last repetition that was tried, also where the rest of the pattern then matches from an earlier one |
| RegexCaps.RecordsInside | src/string/string.c:861-892 | after a search the records of all groups lie inside the match reported exactly when the last repetition of every group ends in it; numbers of no group are unset |
| RegexCaps.NoFallBackContained | src/string/string.c:823-855 | that is so where no match falls back over a group: each is repeated a fixed number of times, or is followed by nothing in its sequence but a `$` |
| RegexCaps.GroupOutsideMatch | src/string/string.c:823-855 | `(.)*a` is found in `xab` from 0 to 2, and its group is recorded from 2 to 3 |
| RegexExact.StarMissesEmptyText | src/string/string.c:715 | `a*` describes the empty text and is not found in it |
| RegexExact.DollarItemAtEnd | src/string/string.c:712-716 | `$*` is found in the empty text: an item that is a `$` is looked at where the text ends |
| RegexExact.OptionalGroupNotSkipped | src/string/string.c:814-821 | `(a)?b`, as read by the engine, describes `b` and is not found in it |
| RegexExact.GroupNotReentered | src/string/string.c:846-858 | `(a*)a`, as read by the engine, describes `aa` and is not found in it |
| Regex.FindClosing | src/string/string.c:623-642 | the loop finds the bracket the pure reading finds |
| Regex.NumberGroup | src/string/string.c:644-656 | the loop counts the group numbers |
| Regex.ReadQuantifier | src/string/string.c:756-797 | minimum, maximum and rest of `*`, `+`, `?` and braces, as the pure reading has them |
| Regex.MatchClass | src/string/string.c:673-707 | membership in the class read as a list of ranges and escapes, negated or not |
| Regex.MatchClassItem | src/string/string.c:682-704 | one round reads exactly the next item of the class |
| Regex.MatchAtomOnce | src/string/string.c:712-754 | where one match of the atom ends; the records left are exactly those of the pure model; for something not closed neither |
| Regex.MatchSeq | src/string/string.c:799-859 | the result the pure matcher gives, and exactly the records the pure model leaves |
| Regex.Repeat | src/string/string.c:823-839 | the positions of the greedy run, and the records it leaves |
| Regex.RepeatOnce | src/string/string.c:830-838 | one more match of the atom, undone with its records if it does not advance |
| Regex.TryRest | src/string/string.c:846-855 | the rest of the pattern from the last position that works, down to the minimum, with the records of that try only |
| Regex.MatchGroup | src/string/string.c:735-750 | a group matches where its body does and its record is set; otherwise all records are as before |
| Regex.Find | src/string/string.c:875-892 | the leftmost match in `caps[0]`, and in the other entries exactly the records of that match's start; they are matches of their groups |
| ModuleInit.InitInOrder | src/core/codegen.c:2592-2616 | an init call marks exactly what the module reaches, each once and after all its imports |
| ModuleInit.InitGivesContexts | src/core/codegen.c:2597-2603 | every non-system module reached gets one context of its own, under the one of a module that imports it or under NULL; which of them, `InitParents` says |
| ModuleContexts.InitParents | src/core/codegen.c:2592-2603 | the context of main is under NULL, and every other one under the context of its first importer, in the order in which the walk over the imports meets them, or under NULL if that has none |
| ModuleContexts.NoParentExactly | src/core/codegen.c:2592-2603 | where main is no system module, a context other than its own is under NULL exactly when the first importer is a system module |
| ModuleContexts.ChainsEndAtMain | src/core/codegen.c:2592-2603 | where system modules import nothing, every chain of contexts ends at the one of main |
| ModuleExit.ExitReaches | src/core/codegen.c:2618-2641 | an exit call marks exactly what the module reaches, each once |
| ModuleExit.ExitOrderExact | src/core/codegen.c:2618-2641 | every module exits before its imports exactly when no import reached only early crosses a later one |
| ModuleExit.BeforeReached | src/core/codegen.c:2634-2640 | exiting before one's imports means exiting before all one reaches |
| ModuleRun.ExitCloses | src/core/codegen.c:2634-2640 | each context is freed once, and when nothing is recorded live under it |
| ModuleRun.WholeRun | src/core/codegen.c:2558-2641 | over a whole run: init of each reachable module once and after its imports, exit once, every context made once and freed once with nothing below it, none left |
| ModuleRun.LocalCalls | src/core/codegen.c:2604-2632 | `init_local` and `exit_local` run once for each reachable module defining them, inits after those of imports |
| ModuleOrder.RunVisits | src/core/codegen.c:2558-2641 | the modules are ready in the order of the first visits of one walk over the imports, and exit in the reverse order of the last visits |
| ModuleOrder.ReversesExactly | src/core/codegen.c:2558-2641 | exits are the exact reverse of inits exactly when no module has all its visits between two visits of another |
| ModuleOrder.UnsharedReverses | src/core/codegen.c:2618-2641 | without shared imports the exit order is the exact reverse of the init order |
| ModuleOrder.RevisitNotReversed | src/core/codegen.c:2618-2641 | where main imports x, y and z, and z imports x again, x goes before y in both orders |
| ModuleOrder.RevisitExists | src/core/codegen.c:2618-2641 | such an acyclic import graph exists |
| ModuleOrder.SharedYetReversed | src/core/codegen.c:2618-2641 | where main imports a and b, and b imports a, the order is reversed though a is shared |
| ModuleRun.SharedImportExitsEarly | src/core/codegen.c:2618-2641 | in a triangle of imports the shared module exits before one that imports it |
| ModuleRun.TriangleExists | src/core/codegen.c:2618-2641 | such an acyclic import graph exists |
| ModuleRun.RunOrderExact | src/core/codegen.c:2558-2641 | over a whole run modules exit before their imports exactly when the import graph has no crossing |
| GeneratedProgram.Program.constructor | src/core/codegen.c:2592-2641 | all flags are clear and all contexts NULL at the start |
| GeneratedProgram.Program.Init | src/core/codegen.c:2592-2616 | the emitted init over its static flag and the context globals does what the pure run says, so that contexts are where `InitParents` has them |
| GeneratedProgram.Program.Exit | src/core/codegen.c:2618-2641 | the emitted exit likewise |
| GeneratedProgram.Program.RunProgram | src/core/codegen.c:2558-2582 | the emitted main likewise; in the end no context is live and the local inits and exits called are those of the reachable modules |
| ExprParsing.ParsesExactly | src/core/parser.c:400-440 | precedence climbing accepts a token list with a tree exactly when the level grammar derives it with that tree |
| ExprParsing.Unambiguous | src/core/parser.c:387-398 | parentheses apart, tokens have one derivation |
| ExprParsing.PrintParses | src/core/codegen.c:1254-1261 | the printed form of any tree parses back to it |
| ExprParsing.SparseParses | src/core/parser.c:400-440 | so does the form with only the parentheses that precedence and associativity need |
| ExprParsing.SparseShortest | src/core/parser.c:400-440 | no other text that parses to the tree is as short: dropping any of its parentheses changes the parse |
| ExprParsing.ReprintParses | src/core/codegen.c:1303-1307 | printing what was parsed and parsing it again changes nothing |
| ExprC11.FromIsLevel | src/core/parser.c:387-398 | each nonterminal of sections 6.5.3 to 6.5.15 of C11, cut to the known operators, is a level of the precedence table |
| ExprC11.OperatorsAre | src/core/parser.c:163-398 | the unary operators, the atoms and the binary operators of the parser are those that sections 6.5.1 to 6.5.14 of C11 name, cut to the tokens known, and each binary one belongs to a section |
| ExprC11.BuiltIsOfC11 | src/core/parser.c:163-440 | the trees the parser can build are exactly those of these operators |
| ExprC11.ParserIsC11 | src/core/parser.c:400-440 | the parser reads tokens as a tree exactly when the C11 grammar, with the unary, primary and binary tokens each section names, derives them with it; and such a tree has no other operators |
| ExprC11.PrintedParses | src/core/codegen.c:733-736 | every tree of the operators C11 names, printed in full or with the fewest parentheses, parses back to itself by the C11 precedences |
| ExprParser.Parser.constructor | src/core/parser.c:438-440 | the parser starts at the first token with the precedence table |
| ExprParser.Parser.ParsePrimary | src/core/parser.c:153-184 | the loop-free part: unary operators and parentheses, as the pure parser, with the tokens left as the measure |
| ExprParser.Parser.ParseExpressionPrec | src/core/parser.c:400-436 | the loop over the global position reads what the pure parser reads |
| ExprParser.Parser.ParseOperation | src/core/parser.c:404-433 | one round builds the node the pure parser builds |
| ExprParser.Parser.ParseAll | src/core/parser.c:438-440 | a tree for all tokens exactly when there is one |
| Macro.ExpansionMeans | src/core/parser.c:88-107 | evaluating an expansion is evaluating the body with the parameters bound to the argument values, at once and without substituting into arguments |
| Macro.BoundAt | src/core/parser.c:88-107 | with distinct parameters and matching arity the i-th parameter is the i-th argument |
| Macro.EmittedExpansion | src/core/parser.c:320-338 | the text emitted for an expansion is read by C in one way, and that means the body with its parameters bound |
| Macro.ExpandSubstitutes | src/core/parser.c:88-107 | expanding an expression of the grammar is the general substitution |
| Macro.Clone | src/core/parser.c:76-86 | the copy equals the original |
| Macro.CloneSubstitute | src/core/parser.c:88-107 | the loops over parameters and children compute the substitution, the first parameter of a name winning |
| Macro.FindMacroAlias | src/core/parser.c:67-74 | the macro of that name defined first, or none exactly when there is none |
| Switch.LoweringPreserves | src/core/codegen.c:2039-2080 | the emitted C switch does what the COME switch does, for every value, state and meaning of the statements, when the clauses are settled |
| Switch.LastIsSettled | src/core/codegen.c:2072-2080 | a list with `default` last is settled |
| Switch.UnsettledDiffers | src/core/codegen.c:2072-2080 | where `default` is followed by a clause with something to do, the emitted switch runs on into it |
| Switch.LoweringExact | src/core/codegen.c:2039-2080 | the emitted switch is right exactly when the clauses are settled |
| Switch.SameCase | src/core/codegen.c:2052-2056 | the C switch jumps to the clause COME selects |
| Switch.GenerateSwitch | src/core/codegen.c:2039-2050 | the loop emits the clauses in order |
| Switch.GenerateClause | src/core/codegen.c:2052-2080 | a case gets its label, its statements without the trailing `fallthrough`, and a `break` without it; `default` gets no `break` |
| Switch.ClauseEnds | src/core/codegen.c:2052-2080 | a clause of COME is left when it completes, unless its last statement is `fallthrough`, behind which the next one is entered |
| Inet6Text.RoundTrip | src/external/talloc/lib/replace/inet_pton.c:129-210 | for every 16-byte address and every run the printer may choose, parsing the text gives the address back |
| Inet6Text.FitsBuffer | src/external/talloc/lib/replace/inet_ntop.c:100-192 | the text with its NUL fits the 46-byte buffer |
| Inet6Shape.TextShaped | src/external/talloc/lib/replace/inet_ntop.c:100-192 | the text is eight lower-case hexadecimal words without spare zeros between colons, if no two zero words are adjacent; otherwise those before and behind the first longest run of zero words, with `::` for it; the last two as a dotted quad without spare zeros exactly if six words are zero and the seventh is not, or five are and the sixth is ffff |
| Inet6Shape.EmbeddedExactly | src/external/talloc/lib/replace/inet_ntop.c:160-168 | the printer takes an address for an IPv4 address exactly then |
| Inet6Grammar.FullAddressCut | src/external/talloc/lib/replace/inet_pton.c:192-205 | for every k from 0 to 8, eight words with `::` behind the first k are read as those k words and zeros; the mark changes nothing exactly when the others are zero |
| Inet6Grammar.ReadExactly | src/external/talloc/lib/replace/inet_pton.c:129-210 | a text is read as an address exactly when it spells one: hexadecimal words between colons, at most one gap, at the end possibly a dotted quad or nothing; sixteen bytes, or no more with a gap; the value is the words with zeros at the gap |
| Inet6Grammar.QuadExactly | src/external/talloc/lib/replace/inet_pton.c:75-113 | pieces between dots are read as four bytes exactly when there are four and each is decimal digits worth at most 255, with any number of zeros in front |
| Inet6Standard.BeyondExactly | src/external/talloc/lib/replace/inet_pton.c:129-210 | every address of section 2.2 of RFC 1884 is read as what it stands for; what else is read is exactly the texts with a colon behind the last word, a word of more than four digits, an octet with spare zeros, or a `::` that stands for nothing |
| Inet6Standard.OneSpelling | src/external/talloc/lib/replace/inet_pton.c:129-210 | a text spells its words, its quad and its gap in one way |
| Inet6Standard.StandardSpelled | src/external/talloc/lib/replace/inet_pton.c:129-210 | what is spelled without those deviations is a standard address with its value |
| Inet6Grammar.TrailingColon | src/external/talloc/lib/replace/inet_pton.c:162-177 | an address that ends with a word may have another colon behind it, which section 2.2 of RFC 1884 does not allow |
| Inet6.FindRun | src/external/talloc/lib/replace/inet_ntop.c:115-146 | the words, and the first longest run of at least two zero words |
| Inet6.Format | src/external/talloc/lib/replace/inet_ntop.c:148-180 | the loop writes the text of the pure printer |
| Inet6.NtopSix | src/external/talloc/lib/replace/inet_ntop.c:100-192 | the text and its NUL in dst exactly when they fit; otherwise dst is untouched |
| Inet6.PtonFour | src/external/talloc/lib/replace/inet_pton.c:75-113 | dst gets four bytes exactly when the text is a dotted quad |
| Inet6.ShiftToEnd | src/external/talloc/lib/replace/inet_pton.c:192-205 | the overlapping shift and zero loop moves what is behind `::` to the end |
| Inet6.ScanSix | src/external/talloc/lib/replace/inet_pton.c:139-191 | the loop accepts what the pure scanner accepts, with the same bytes |
| Inet6.PtonSix | src/external/talloc/lib/replace/inet_pton.c:129-210 | dst is written exactly when the text is good, with the parsed address |
| StringSearch.JoinSplit | src/string/string.c:342-424 | joining what was split with the same separator gives the text back, for every text, separator and limit |
| StringSearch.ReplaceIsSplitJoin | src/string/string.c:251-290 | replacing is splitting and joining with the new text |
| StringSearch.ReplaceSame | src/string/string.c:251-290 | replacing a text by itself changes nothing |
| StringSearch.PositionsLeftmost | src/string/string.c:258-287 | the matches used are the first n leftmost non-overlapping ones |
| StringSearch.LeftmostUnique | src/string/string.c:258-287 | there is only one such choice |
| StringSearch.FinalLenExact | src/string/string.c:267 | the length computed with a wrapping difference is the true one modulo 2^64 |
| StringSearch.PartsCount | src/string/string.c:342-389 | the counting pass counts the parts |
| StringSearch.PartsBetween | src/string/string.c:251-389 | the k-th part is the text from the end of one match used to the start of the next, or to an end of the text |
| StringSearch.SplitBetween | src/string/string.c:342-389 | splitting uses the leftmost non-overlapping separators, all of them for 0 and otherwise as many as make at most n parts, and its parts are what stands between them |
| Strings.CountPass | src/string/string.c:258-265 | the counting loop counts the matches used |
| Strings.ReplaceString | src/string/string.c:251-290 | the buffer made for the counted length is filled exactly, with the matches replaced, and a NUL; the text itself if the old part is empty |
| Strings.FillReplaced | src/string/string.c:270-287 | the filling pass writes the replaced text |
| Strings.SplitN | src/string/string.c:342-389 | the parts between the separators used; the whole text if the separator is empty |
| Strings.JoinList | src/string/string.c:395-424 | the parts with the separator between them, and a NUL; NULL stands for no list, an empty item or an empty separator |
| Strings.JoinedLength | src/string/string.c:401-405 | the counting loop |
| Strings.FillJoined | src/string/string.c:411-421 | the copying loop fills the buffer exactly |
| Utf8Text.CharsCover | src/string/string.c:1061-1084 | the characters put together are the text |
| Utf8Text.LenCountsChars | src/string/string.c:47-56 | the length is the number of characters, one less when the text starts in the middle of one |
| Utf8Text.PiecesJoin | src/string/string.c:1061-1084 | putting `at(s, i)` for i below the length together gives the text exactly when it does not start in the middle of a character |
| Utf8Text.SliceOne | src/string/string.c:426-452 | one character cut out is the one `come_string_at` gives, or nothing behind the last |
| Utf8Text.SliceJoin | src/string/string.c:426-452 | what is cut out up to a place and from there on is what is cut out over both |
| Utf8Text.SliceAll | src/string/string.c:426-452 | all characters cut out are the text, and from an end to a start before it nothing is |
| Utf8Text.CharsAreCodePoints | src/string/string.c:47-56 | on well-formed text (section 3 of RFC 3629) the characters are the encoded code points, and the length counts them |
| Utf8Text.CompareIsOrder | src/string/string.c:104-120 | for n > 0 the sign of the comparison is the order of the first n code points of both |
| Utf8Text.BytesAreOrder | src/string/string.c:104-106 | for n = 0 it is the order of all code points |
| Utf8Text.EncodeOrder | src/string/string.c:71-102 | the order of two code points shows at the first byte where their encodings differ |
| Utf8.StringLen | src/string/string.c:47-56 | the loop counts the bytes that do not continue a character |
| Utf8.StringAt | src/string/string.c:1061-1084 | the character at the index, or NULL exactly when there is none |
| Utf8.StringSubstr | src/string/string.c:426-453 | characters start to end - 1 put together, clipped to the text; nothing when start is not below end |
| Utf8.CharWidth | src/string/string.c:58-69 | the announced width, cut at the end of the text |
| Utf8.CompareNext | src/string/string.c:71-102 | the difference of two characters, and where the next ones start |
| Utf8.StringCmp | src/string/string.c:104-120 | byte order for n = 0, otherwise the first difference among n characters |
| PrintfText.DigitsDenote | src/external/talloc/lib/replace/snprintf.c:834-839 | the digits denote the magnitude, and lead with zero only for zero |
| PrintfText.DigitsFit | src/external/talloc/lib/replace/snprintf.c:809-841 | a 64-bit value has at most 22 digits in bases 8, 10 and 16 |
| PrintfText.IntExact | src/external/talloc/lib/replace/snprintf.c:804-886 | by the sign, number and layout that section 7.21.6.1 of C11 gives in its own terms, `fmtint` prints what it asks for exactly when: not zero with precision zero; and, where there is padding, width not negative and no `0` flag beside `-` or a precision |
| PrintfText.IntReads | src/external/talloc/lib/replace/snprintf.c:804-886 | for every width, precision and flags the text is spaces on one side, `-` for a negative value, `+` or a space for another one by the flags, nothing if unsigned, and zeros and the one numeral, without spare zeros and with capitals by the flag, whose value is the number, modulo 2^64 if unsigned |
| PrintfText.NumeralIs | src/external/talloc/lib/replace/snprintf.c:834-839 | a number has one such numeral, whose value is counted digit by digit |
| PrintfText.C11IntIs | src/external/talloc/lib/replace/snprintf.c:804-886 | the layout C11 asks for is one text |
| PrintfText.StrExact | src/external/talloc/lib/replace/snprintf.c:768-800 | by the field C11 describes in its own terms, `fmtstr` prints what it asks for exactly when a negative width does not pad and a precision below -1 hides nothing |
| PrintfText.CharExact | src/external/talloc/lib/replace/snprintf.c:701-703 | a character conversion is the field C11 asks for exactly when its width is at most 1, because the width is ignored; `%%` prints a percent sign |
| Printf.Output.Outch | src/external/talloc/lib/replace/snprintf.c:1109-1115 | one character more in the output, written only inside the room |
| Printf.Output.Fmtstr | src/external/talloc/lib/replace/snprintf.c:768-800 | the padded string |
| Printf.Output.Convert | src/external/talloc/lib/replace/snprintf.c:834-841 | the digit loop, last digit first, in 23 bytes |
| Printf.Output.Fmtint | src/external/talloc/lib/replace/snprintf.c:804-886 | the number with its spaces, sign and zeros |
| Printf.Output.Copy | src/external/talloc/lib/replace/snprintf.c:673-680 | a literal, of which only what fits is copied |
| Printf.Padding | src/external/talloc/lib/replace/snprintf.c:843-852 | the zeros and spaces `fmtint` puts out |
| Printf.Dopr | src/external/talloc/lib/replace/snprintf.c:660-747 | for every list of chunks: the result is the length of the whole output whatever the room; the buffer holds as much as fits and a NUL, and nothing behind the room is written |
| CalendarDays.YearsClosed | src/external/talloc/lib/replace/replace.c:143-145 | the closed form of the days up to a year is the sum of the years' lengths, for years before 1970 too |
| CalendarDays.WholeYears | src/external/talloc/lib/replace/replace.c:150-159 | months past December are months of later years |
| CalendarDays.TableIsSum | src/external/talloc/lib/replace/strptime.c:190-196 | the cumulative table is the sum of the months |
| CalendarDays.DayOfTheYearIs | src/external/talloc/lib/replace/strptime.c:228-234 | `day_of_the_year` is the offset from 1 January |
| CalendarDays.WeekdayRight | src/external/talloc/lib/replace/strptime.c:210-226 | `day_of_the_week` is (days since the epoch + 4) mod 7 for every date from March of year 0 on |
| CalendarDays.WeekdayExact | src/external/talloc/lib/replace/strptime.c:210-226 | of the dates from year 0 on it is wrong exactly in January and February of year 0 |
| Calendar.Mktime | src/external/talloc/lib/replace/replace.c:132-162 | -1 before 1970, otherwise the seconds from the epoch, for any number of months |
| Calendar.AddMonths | src/external/talloc/lib/replace/replace.c:147-159 | the month loop adds the months' days |
| Calendar.Timegm | src/external/talloc/lib/replace/timegm.c:47-77 | 0 for rejected fields, otherwise the year-by-year sum, with a negative `tm_year` counted as the unsigned number it becomes; no date and time of the calendar is rejected, and from 1970 on the result is the seconds from the epoch |
| Calendar.CountYears | src/external/talloc/lib/replace/timegm.c:65-66 | the year loop over an unsigned counter |
| Calendar.CountedFrom1970 | src/external/talloc/lib/replace/timegm.c:65-66 | until the counted year wraps around, the days counted are those from 1970 |
| Calendar.Agree | src/external/talloc/lib/replace/timegm.c:41-77 | both give the same seconds for every date and time of the calendar from 1970 on, and for whatever else `rep_timegm` accepts |

## Left out

- ComeMap.Put: allocation is taken to succeed, as in all of the map, and a table to be rehashed has less than 2^31 slots, because its size is doubled in 32 bits; sizes are powers of two, for which the division of the load test is exact.
- ComeMap.Remove: values and keys are not freed by the source, and `come_map_free` does nothing.
- TallocFree.FreeFinishesExactly: the closed form of the effect is for `Tame` subtrees: each reference into the subtree comes from outside it, the NULL context only alone, or from below its own target, near enough for `talloc_is_parent`; and no troubled chunk has its newest handle for a child, where the steal does nothing. For all other references the effect is that of the function `FreeOf`.
- TallocFree.RetriedExactly: likewise.
- TallocRuns.SafeIsHarmless: for frees that are neither `Prudent` nor `Tame`, whether one is harmless is stated by the recursion (`Clean`), not by the references alone.
- TallocRuns.RunSound: pools are not among the calls of a run.
- Talloc.Heap.Free: destructors other than that of reference handles, names, memory limits, logging and abort callbacks, magic values, null tracking and `talloc_reparent` are not modelled.
- Talloc.Heap.Realloc: the bytes of chunks are modelled only inside pools; what `realloc` returns is a parameter.
- TallocBlock.Pool.Realloc: pools inside pools, limits and valgrind hooks are not modelled; a failing `malloc` is a parameter. `TC_HDR_SIZE` is that of a 64-bit build.
- MemRecords.Memory.Alloc: a record is taken to be allocated; addresses come from the C library as parameters.
- MemRecords.Memory.Free: states termination for sound records; with a cycle below the block the source does not return.
- RegexExact.MatchesReachable: groups are left out, because with them it fails (`GroupNotReentered`); what is found with groups is said by `FirstIs`. Characters are bytes; `isdigit` and its kin are those of the C locale.
- RegexText.WrittenRead: patterns are written with a backslash before brackets, `-`, `^` and `!` in classes, and before what is special outside them; classes with a bare `-` at an end, and the like, are read as `RegexMeaning.ClassItems` says.
- RegexText.DescribedIsFound: for patterns without groups, as `RegexExact.MatchesReachable`.
- RegexCaps.RecordsInside: for patterns whose groups end at the parenthesis that `come_find_matching` counts, which a `)` inside a class can spoil.
- Regex.Find: patterns with a group body that has no end, as `([)]`, where the engine reads behind the end of the pattern, are left out; the numbers of a `{m,n}` are not bounded by `int`; the POSIX branch, and `regex_split` and `regex_replace`, are not modelled.
- Strings.ReplaceString: for results whose length is a `size_t`; string objects are their bytes without NUL, with `count` their number.
- Utf8.StringCmp: without folding case; `come_string_casecmp` is not modelled.
- GeneratedProgram.Program.RunProgram: the user's main and its arguments, and what local inits and exits do, are not modelled; contexts are numbered.
- ExprParser.Parser.ParsePrimary: identifiers, numbers, unary operators and parentheses; casts, calls, initialisers, postfix operators and alias expansion are not modelled, and a missing token is a failure rather than a reported error.
- ExprC11.ParserIsC11: numeric operands; code generation treats string operands of `==` apart.
- Macro.EmittedExpansion: pure expressions, on values of nodes rather than in place; more than 16 parameters or arguments, and the error printed for a wrong number of them, are not modelled.
- Switch.LoweringExact: statements are names with an interpretation; nested labels and jumps into clauses do not arise.
- Inet6.NtopSix: `errno`, address families other than IPv6, and `inet_ntop4` on its own.
- Printf.Dopr: parsing of the format, `%n`, pointers and floating point are not modelled; widths and precisions are unbounded integers.
- Calendar.Mktime: up to the epoch value; the local time it then asks for is not modelled, and numbers do not overflow.
- The lexer, command line, file handling and calls of the C compiler: input and output.
- Array slices, trimming, repeating, changing case, and the thin wrappers of `src/std/std.c`: they would add easy members only.
