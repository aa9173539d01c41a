# Verified model of the secondary index module

This project models the compound secondary index in Dafny, with its query engine and the data structures under it, and
proves what they promise. Everything that the C code does by updating memory is a class, or a method on arrays,
and is proved against a specification on values. The laws are then proved about those specifications.

## The parts, and the main result of each

**The index and its query engine.** A WHERE tree is marked in place (`QueryNodes`), its predicates on the leading
columns become alternatives, and their product becomes scan ranges (`Ranges`, `QueryPlans`). A cursor walks these over
the skiplist and filters the keys with what is left of the tree (`Scans`). `Scans.Select` states the result for the
cursor: there is one exactly if an AND path leads to a predicate on the first column, and what it returned when drained
is exactly the set of ids whose recorded keys satisfy the original tree and pass what is left of it as a filter, so
that no answer is ever wrong, and none is missing if the leaves that are left work as filters. An id comes twice exactly
if an extracted IN list names its value twice, and `AnswerOrders.AnswerInOrder` says in which order they come.
`Searches.Search` composes this with the lowering of the parse tree (`QueryParsing`).
`Indexes.CompoundIndex.Apply` keeps the skiplist and the reverse index in agreement over every batch of changes, after
which every id is as the last change about it says. `Indexes.RunKeepsUnique` keeps a unique index unique. The order that
all of this rests on is that of the values themselves (`Values.IntegersInOrder`, `Values.StringsInOrder`).

**The skiplist** (`SkiplistShape`, `Skiplists`, `SkiplistIterators`). Nodes are heap objects with forward pointers,
spans and backward pointers. For any levels drawn, insertion and deletion keep every level, span, backward pointer and
counter exact and act on the abstract ordered map as adding or removing one value (`SkiplistContents`).

**The hash table** (`Probing`, `Primality`, `PrimeTable`, `Flags`, `HashTables`, `KHashes`). Packed two-bit flags,
tombstones and the in-place rehash that evicts live entries. The table sizes are proved prime with certificates
checked by `Primality.Pocklington`, so that a probe visits every bucket. The rehash terminates and keeps the map.

**The B+ tree** (`Btree…`). Nodes are heap objects with keys, pointers, a parent pointer and a leaf chain. A ghost
tree of levels says what they should hold. For every order from 3 on, `Btrees.BTree.Insert` and `Btrees.BTree.Delete`
keep keys sorted, separators bounding, leaves at one depth, occupancy between the limits, parent pointers right and the
leaf chain in order, through any cascade of splits or of coalescing and redistribution.

**Smaller parts.** Operator lowering with LIKE (`QueryParsing`), reference counts over the whole life of a query
(`RefCounts`, whose values with string identities refine those of the query modules), saving and loading (`Traversals`,
`Reloads`, `Rdb`), quoting and splitting of arguments (`Sds`, `SdsLines`), the binary heap and the priority queue on it
(`Heaps`, `PriorityQueues`).

## Where the code does not do what one would expect

The model follows the code. Each of these has its exact condition or a counterexample proved.

- An IN list left in the residual filter is evaluated as "equal to all", and IS NULL left there is always false
  (`Queries.FilterableExact` says for each predicate exactly when it works as a filter, `Answers.ResidualFails`
  gives queries that lose ids). As scan ranges both are right. `Scans.Select` says exactly which ids are lost: those
  whose keys fail the residual filter.
- A node with m ids is visited m times with each of its ids in a traversal (`Traversals.Traverse`). What a save writes
  is read back completely exactly if no two ids share an equal key (`Rdb.SaveAndLoad`), and `Reloads.LoadedExact` says
  exactly when all ids come back into an index that is not unique.
- The comparator puts NULL above everything, plus infinity included, although the comment beside it (`src/key.h`, line
  14) says the opposite. NULL lies outside the range of `x > v`, which ends at plus infinity
  (`QueryParsing.LowerMeans`).
- LIKE with a prefix is a range that ends in the byte 0xFF. `QueryParsing.LikeRangeExact` says exactly which strings it
  accepts, and `QueryParsing.LowerMeans` that the lowering is right exactly unless a string with the prefix goes on with
  a byte 0xFF and more. The range is right for all strings exactly if the prefix holds no NUL
  (`QueryParsing.LikeNulExact`). Parsed patterns hold none, as their length is that of a C string
  (`src/parser/parser.y`, lines 72-74).
- Deleting a value from the skiplist answers 1 whenever the key is there, even if the value was not
  (`Skiplists.Skiplist.Delete`).
- The probe step `i + inc` is computed in 32 bits and is exact only up to 2^31 buckets (`Probing.StepFitsWord`), so the
  table and everything over it is proved up to that size.
- A specification whose columns are named although the index is not, or the other way round, does not come back as it
  was saved (`Rdb.SpecRoundTrip`).

## Model

| member | source | states |
|---|---|---|
| `Values.CmpTotalPreorder` | src/key.h:11-24 | every typed comparator is reflexive and antisymmetric on stored values, with NULL at the top |
| `Values.CmpMonotone` | src/key.h:11-24 | comparing stored values with any one bound, infinities included, is monotone along their order, hence transitive |
| `Values.InfinitiesBound` | src/key.h:21-22 | the infinities are one-sided bounds: every stored value but NULL lies strictly between them, and NULL lies above both |
| `Values.StringsAntisymmetric` | src/key.c:31-42 | swapping two strings swaps the sign of their case-insensitive comparison |
| `Values.StringsTransitive` | src/key.c:31-42 | the string comparison is transitive, strictly if either step is strict |
| `Values.StringsEqual` | src/key.c:33-41 | two strings compare equal exactly if they have one length and agree, case aside, up to a NUL |
| `Values.IntegersInOrder` | src/key.h:11-24 | on two values of its type each comparator of whole numbers is negative exactly if the first holds the smaller number, and zero exactly if they hold the same |
| `Values.RealsInOrder` | src/key.h:11-24 | the same of FLOAT and DOUBLE |
| `Values.FoldIsLowerCase` | src/key.c:33-35 | bytes are compared as the lower case of each letter, spelled out, and every other byte as it is |
| `Values.StringsInOrder` | src/key.c:31-42 | the first bytes that differ, case aside, decide by their lower case; without any, up to a NUL in both, the lengths do |
| `Keys.SICmpMultiKey` | src/key.c:67-76 | the loop computes the lexicographic comparison over the common length |
| `Keys.CmpKeyColumns` | src/key.c:67-76 | the first unequal column decides; keys equal over the common length compare equal |
| `Keys.CmpKeyAntisymmetric` | src/key.c:67-76 | on full keys the comparison is reflexive and antisymmetric |
| `Keys.CmpKeyMonotone` | src/key.c:67-76 | comparing full keys with a shorter key, or one ending in an infinity, is monotone along their order |
| `Keys.KeyOrderLawful` | src/key.c:67-76 | the two facts together, as the law the skiplist needs of its comparator |
| `Orders.SplitExact` | src/skiplist/skiplist.c:293-304 | on sorted keys the keys a search steps over are exactly the leading ones, whatever the probe and the exclusivity |
| `SkiplistShape.InsertLinked` | src/skiplist/skiplist.c:178-190 | relinking the predecessors on every level, and raising the spans above, gives exact forward pointers and spans for the longer row |
| `SkiplistShape.RemoveLinked` | src/skiplist/skiplist.c:206-213 | the relinking of a deletion gives exact forward pointers and spans for the shorter row |
| `SkiplistShape.InsertChained` | src/skiplist/skiplist.c:192-197 | the backward pointers, the tail and the length are exact after an insertion |
| `SkiplistShape.RemoveChained` | src/skiplist/skiplist.c:214-221 | the backward pointers, the tail and the length are exact after a deletion |
| `Skiplists.AddedSorted` | src/skiplist/skiplist.c:149-165 | adding a value under a key keeps the entries strictly sorted |
| `Skiplists.RemovedSorted` | src/skiplist/skiplist.c:257-260 | removing one, or a whole key, keeps the entries strictly sorted |
| `Skiplists.SplitAtKey` | src/skiplist/skiplist.c:311-332 | a search for a stored key stops at that key and at no other |
| `SkiplistContents.AddedExact` | src/skiplist/skiplist.c:144-199 | adding a value adds that one under the keys equal to its key, and nothing under any other |
| `SkiplistContents.RemovedExact` | src/skiplist/skiplist.c:226-264 | removing takes away that value, or all values, under the keys equal to the one given, and nothing else |
| `SkiplistContents.RemovedProper` | src/skiplist/skiplist.c:243-264 | no key is left without values, and none gets a value twice |
| `SkiplistContents.UnderExact` | src/skiplist/skiplist.c:268-285 | a value is held under a key exactly if the entry where a search stops has an equal key and the value |
| `Skiplists.Skiplist.constructor` | src/skiplist/skiplist.c:88-109 | a new list satisfies the whole invariant and is empty |
| `Skiplists.Skiplist.Descend` | src/skiplist/skiplist.c:149-159 | the search ends before the first node it does not step over, with the exact predecessors and ranks on every level |
| `Skiplists.Skiplist.InsertValue` | src/skiplist/skiplist.c:144-199 | for any level drawn, the whole invariant is kept and the entries become those with the value added under the key; a new node has that many levels and stands where the search stopped |
| `Skiplists.Skiplist.AppendValue` | src/skiplist/skiplist.c:72-84 | a value a node already has is not added again |
| `Skiplists.Skiplist.DeleteNode` | src/skiplist/skiplist.c:204-222 | the node is taken out of every level, the backward chain and the counters, and unused levels are given up |
| `Skiplists.Skiplist.Delete` | src/skiplist/skiplist.c:226-264 | the value, or the key, is removed, an emptied entry goes away, and the answer tells whether the key was there |
| `Skiplists.Skiplist.DropValue` | src/skiplist/skiplist.c:243-254 | the last value moves into the place of the removed one |
| `Skiplists.Skiplist.Find` | src/skiplist/skiplist.c:268-285 | the node of an equal key, or null if there is none |
| `Skiplists.Skiplist.FindAtLeast` | src/skiplist/skiplist.c:289-307 | the first node at, or strictly after, the probe |
| `Skiplists.Skiplist.PopHead` | src/skiplist/skiplist.c:311-320 | the first key is returned and its entry removed |
| `Skiplists.Skiplist.PopTail` | src/skiplist/skiplist.c:324-332 | the last key is returned and its entry removed |
| `SkiplistIterators.Iterator.Range` | src/skiplist/skiplist.c:336-355 | what remains is exactly the pairs of the entries between the bounds, in key order |
| `SkiplistIterators.Iterator.All` | src/skiplist/skiplist.c:357-366 | it starts on the header, and all pairs of the list remain |
| `SkiplistIterators.Iterator.FirstRemains` | src/skiplist/skiplist.c:378-380 | the value under the iterator is the first that remains, and without it the rest remains |
| `SkiplistIterators.Iterator.Next` | src/skiplist/skiplist.c:372-395 | each call yields the next remaining value once, and ends past the range maximum |
| `Probing.ProbesDiffer` | src/util/khash.h:141-147 | fewer than n steps of a probe never come back to the same bucket, the number of buckets being prime |
| `Probing.ProbeReturns` | src/util/khash.h:146-147 | after n steps the probe is back at its first bucket |
| `Probing.FullCycle` | src/util/khash.h:141-147 | every bucket is probed within n steps |
| `Probing.StepFitsWord` | src/util/khash.h:144-145 | the 32-bit step i + inc is the exact one for all buckets and increments exactly if there are at most 2^31 buckets |
| `Primality.Pocklington` | src/util/khash.h:91-100 | a criterion by which the table's sizes are prime |
| `PrimeTable.SizesArePrime` | src/util/khash.h:91-100 | every size in the table, those above 2^31 included, is prime |
| `PrimeTable.SizesGrow` | src/util/khash.h:91-100 | the sizes grow, by more than 2 at each step, so that a request of one bucket more gets the next size |
| `Flags.EmptyCleared` | src/util/khash.h:102-108 | clearing the empty bit of one bucket changes the flags of no other bucket in the packed words |
| `Flags.DelMarked` | src/util/khash.h:102-108 | marking one bucket deleted changes the flags of no other bucket |
| `Flags.BothCleared` | src/util/khash.h:102-108 | clearing both bits of one bucket changes the flags of no other bucket |
| `HashTables.Absent` | src/util/khash.h:143-148 | a key whose probe path reaches a free bucket without meeting it is not in the table |
| `HashTables.NotAround` | src/util/khash.h:146 | as long as a bucket is free, no probe that has met neither the key nor a free bucket has gone round |
| `HashTables.PlaceGood` | src/util/khash.h:236-246 | filling a free or deleted bucket on a key's path adds that key and keeps all others reachable |
| `HashTables.KillGood` | src/util/khash.h:249-255 | a tombstone removes one key and keeps all others reachable |
| `HashTables.PickUp` | src/util/khash.h:172-176 | taking an entry in hand conserves: old entries left, entries placed and the one in hand are the original entries |
| `HashTables.PutDownKeeps` | src/util/khash.h:191-195 | placing the entry in hand conserves the entries and keeps the placed ones reachable in the new table |
| `HashTables.SwapKeeps` | src/util/khash.h:187-190 | evicting a live old entry conserves the entries and keeps the placed ones reachable |
| `HashTables.MoveEnd` | src/util/khash.h:171-198 | when nothing is left and nothing in hand, the new table maps exactly what the old one did |
| `KHashes.KHash.Get` | src/util/khash.h:137-150 | the bucket of the key, or the number of buckets if it is absent; the probe terminates |
| `KHashes.KHash.Put` | src/util/khash.h:211-248 | the key is in the table at the returned bucket, every other entry is as before, and the code tells whether it was there, and if not whether it took a bucket never used |
| `KHashes.KHash.ProbeOn` | src/util/khash.h:224-229 | the loop stops at the key or a free bucket, with the last tombstone passed as the candidate site |
| `KHashes.KHash.MakeRoom` | src/util/khash.h:214-217 | after the check the contents are the same and a bucket is free, below the load bound |
| `KHashes.KHash.Resize` | src/util/khash.h:151-210 | the contents are the same, for growing and shrinking and for a refused resize |
| `KHashes.KHash.Resettle` | src/util/khash.h:172-196 | the eviction loop terminates: every turn leaves fewer live old entries |
| `KHashes.KHash.MoveAll` | src/util/khash.h:171-198 | all entries are moved in place into the new flags |
| `KHashes.KHash.Del` | src/util/khash.h:249-255 | exactly the entry of the bucket is removed; a free or deleted bucket is left alone |
| `ReverseIndexes.Exists` | src/reverse_index.c:9-18 | the key recorded for an id, or none |
| `ReverseIndexes.Insert` | src/reverse_index.c:20-26 | the id is recorded under the key, whatever was there before |
| `ReverseIndexes.Delete` | src/reverse_index.c:28-37 | the id is forgotten, and the answer tells whether it was known |
| `IndexStates.AddAgree` | src/index.c:75-83 | adding an id not yet indexed keeps the list and the reverse index in agreement |
| `IndexStates.RemoveAgree` | src/index.c:27-31 | removing an id keeps them in agreement |
| `IndexStates.HitIs` | src/index.c:50-55 | an id is recorded under a key equal to k exactly if it is listed in the node found for k |
| `IndexStates.HitIsTaken` | src/index.c:50-51 | the node is found exactly if some id is recorded under an equal key |
| `IndexStates.OnlyValue` | src/index.c:54-59 | in a unique index the node holds one id, and comparing that one decides whose key it is |
| `Indexes.FailureExact` | src/index.c:21-110 | when a change fails: an add of the wrong width, or of a key another id holds in a unique index, and a deletion of an unknown id; it then changes nothing |
| `Indexes.StepDone` | src/index.c:21-85 | an applied add leaves its id recorded under an equal key, the very key if the index is not unique; an applied deletion leaves its id unrecorded; no other id is touched |
| `Indexes.RunDone` | src/index.c:87-110 | after a run every id is as the last change about it says, and as before if there is none |
| `Indexes.RunOutcome` | src/index.c:87-110 | of every batch the first n changes are applied in that sense, and the next, if there is one, is refused for one of the two reasons |
| `Indexes.RunKeepsUnique` | src/index.c:46-65 | a unique index never records two ids under equal keys, over every run of changes |
| `Indexes.RunStops` | src/index.c:104-106 | a failing run has applied exactly the changes before the failing one |
| `Indexes.RunConcat` | src/index.c:87-110 | one batch after another is one long batch, unless the first fails |
| `Indexes.RunLeavesOthers` | src/index.c:87-110 | an id that no change mentions keeps its key |
| `Indexes.CompoundIndex.constructor` | src/index.c:126-182 | a new index is consistent and empty |
| `Indexes.CompoundIndex.CheckDuplicate` | src/index.c:48-65 | looking at the first value of the node decides between nothing to do, a duplicate key and a new key |
| `Indexes.CompoundIndex.ApplyAdd` | src/index.c:38-85 | unless another id of a unique index holds an equal key, the id is recorded under an equal key afterwards, and no other id is touched; both structures agree and the length is exact |
| `Indexes.CompoundIndex.ApplyDel` | src/index.c:21-36 | the id is not recorded afterwards, every other one as before, and the status tells whether it was; both structures agree |
| `Indexes.CompoundIndex.Apply` | src/index.c:87-110 | every id is as the last applied change about it says; all changes are applied unless one is refused, and the status says why; both structures agree |
| `Indexes.CompoundIndex.Len` | src/index.c:112-115 | the number of ids |
| `Queries.EvalPredicate` | src/index.c:205-247 | the filter's answer for each kind of predicate |
| `Queries.FilterableExact` | src/index.c:205-247 | a predicate works as a filter for all keys exactly if it is EQ, a range, an IN list of equal values, or about no column of the index |
| `Queries.FiltersThatFail` | src/index.c:217-246 | a member of an IN list fails the list as a filter, and NULL fails IS NULL |
| `Queries.SameForEqualKeys` | src/index.c:205-247 | keys equal under the index order satisfy the same predicates |
| `Queries.MarkedMeaning` | src/query_plan.c:8-39 | marking one predicate as passed through takes exactly that conjunct out of the tree, and only on AND paths |
| `Queries.MarkedFinds` | src/query_plan.c:8-39 | a predicate is found exactly if some leaf on the column is reached through AND nodes only, left or right, and it is the first of them |
| `Queries.ExtractedShape` | src/query_plan.c:157-174 | the extracted predicates are about the leading columns, only the last may be a range, and there are no more than the query has |
| `Queries.ExtractedExhausts` | src/query_plan.c:157-174 | a predicate is taken for every next column that has such a leaf, up to the last column of the index, a range, or a column without one |
| `Queries.SearchableExact` | src/query_plan.c:157-179 | something is extracted exactly if there is a column and such a leaf on the first |
| `Queries.ExtractedMeaning` | src/query_plan.c:157-174 | the tree is the conjunction of the extracted predicates and what is left of it |
| `Queries.CleanedMeaning` | src/query_plan.c:123-148 | cleaning preserves the meaning of a tree without pass-through nodes below an OR |
| `Queries.CleaningNeedsPrunable` | src/query_plan.c:123-148 | without that it would not: a counterexample |
| `Queries.CleanedClean` | src/query_plan.c:123-148 | below a cleaned root that is not a pass-through there is none |
| `Queries.PruningPreservesMeaning` | src/query_plan.c:150-194 | the WHERE tree holds exactly if all extracted predicates and the cleaned rest hold, for every meaning of its leaves |
| `Queries.FilterableTreeExact` | src/index.c:251-271 | a filter tree of predicates that work as filters evaluates as the condition it states |
| `Queries.FilterSound` | src/index.c:251-271 | whatever its predicates, a filter tree lets nothing through that its condition rules out |
| `QueryNodes.QueryNode.GetPredicate` | src/query_plan.c:8-39 | the nodes are marked in place as specified, and the predicate found is returned, one exactly if an AND path leads to a leaf on the column |
| `QueryNodes.QueryNode.Clean` | src/query_plan.c:123-148 | the tree that takes the node's place is the cleaned one |
| `QueryNodes.QueryNode.EvalKey` | src/index.c:251-271 | the short-circuiting evaluation is the tree's value under the filter |
| `QueryParsing.LikeRangeExact` | src/query_parse.c:23-35 | the range for LIKE accepts exactly the strings with the prefix, case aside, that are not past its end; without a byte 0xFF, exactly the prefixed ones |
| `QueryParsing.LikeNulExact` | src/query_parse.c:23-35 | the range accepts what it should for all strings exactly if the prefix holds no NUL |
| `QueryParsing.LowerMeans` | src/query_parse.c:5-46 | each operator's predicate means what the operator says of a column, LIKE the prefix, exactly unless a LIKE overruns; NULL is not greater than anything |
| `QueryParsing.OverrunByte` | src/query_parse.c:31 | a LIKE overruns only strings that hold a byte 0xFF |
| `QueryParsing.LoweredNumbers` | src/query_parse.c:5-19 | each comparison operator, lowered, compares the numbers |
| `QueryParsing.LoweredList` | src/query_parse.c:20-21 | IN, lowered, asks for a number of the list |
| `QueryParsing.LoweredLike` | src/query_parse.c:23-35 | LIKE, lowered, asks for the letters of its prefix, case aside |
| `QueryParsing.NumberedColumn` | src/query_parse.c:57-69 | a property without a name and with number i + 1 is column i, on an index with names and on one without |
| `QueryParsing.NoSuchNumber` | src/query_parse.c:57-69 | a number that is no column's says nothing of any key |
| `QueryParsing.NamedColumn` | src/query_parse.c:57-69 | a name is that of the first column so named, letter by letter and case aside; an unknown one says nothing of any key |
| `QueryParsing.FindColumn` | src/query_parse.c:57-69 | the number less one, or the first column so named, or -1 |
| `QueryParsing.LoweredMeans` | src/query_parse.c:49-74 | the lowered tree means what the parse tree says, names resolved, for every key of the columns' types that no LIKE overruns |
| `QueryParsing.ByName` | src/spec.c:20-32 | the first column with the name, case aside, or -1 |
| `QueryParsing.PropertyByName` | src/spec.c:20-32 | the loop finds it |
| `QueryParsing.TraverseNode` | src/query_parse.c:49-74 | new nodes for the lowered tree, each leaf on the column of its number or name, and as many predicates counted as it has leaves |
| `QueryParsing.ParseQuery` | src/query_parse.c:76-90 | a query whose tree has no pass-through node and whose count is exact |
| `Ranges.AlternativesExact` | src/query_plan.c:43-94 | the alternatives of a predicate cover exactly the values it means, IN and IS NULL included |
| `Ranges.RangeExact` | src/query_plan.c:96-121 | taking the last column's flags is sound: a range holds exactly the keys that fit column by column |
| `Ranges.ProductAt` | src/query_plan.c:96-121 | every combination is in the product, at its rank in mixed radix |
| `Ranges.ProductSize` | src/query_plan.c:96-121 | the product has exactly as many members as there are combinations |
| `Ranges.ChoiceAt` | src/query_plan.c:96-121 | every member of the product is one combination |
| `Ranges.RankLexicographic` | src/query_plan.c:96-121 | ranks follow the lexicographic order of the combinations |
| `Ranges.ScanRangesExact` | src/query_plan.c:150-185 | the union of the scan ranges is exactly the keys that satisfy all extracted predicates |
| `Ranges.ScanRangesDisjoint` | src/query_plan.c:78-121 | no key is in two scan ranges if the values of every IN list are pairwise unequal |
| `QueryPlans.PredicateToRanges` | src/query_plan.c:43-94 | the alternatives, and whether no further column can be used |
| `QueryPlans.BuildKey` | src/query_plan.c:96-121 | the recursion over the stack pushes the ranges of the product, in order |
| `QueryPlans.ExtractColumns` | src/query_plan.c:157-174 | the loop extracts as specified, for as many columns as there are predicates on, and never overruns the arrays sized by the number of predicates |
| `QueryPlans.BuildQueryPlan` | src/query_plan.c:150-207 | a plan exactly if an AND path leads to a leaf on the first column; it has the scan ranges and the cleaned filter |
| `Answers.SliceExact` | src/skiplist/skiplist.c:336-395 | a range iteration visits exactly the entries whose keys are in the range |
| `Answers.AnswerCount` | src/index.c:273-312 | a scan returns an id once for each range that holds its key, if the key passes the filter |
| `Answers.PlanDecides` | src/index.c:273-312 | being in a range and passing the filter is satisfying the extracted predicates and the residual filter |
| `Answers.PlanDecidesCondition` | src/index.c:249-312 | it is satisfying the WHERE tree and passing the residual filter, which a residual that works never adds to |
| `Answers.ResidualFails` | src/index.c:217-246 | a residual IN, and a residual IS NULL, lose ids: no scan returns an id recorded under a key that the query holds of, on any index |
| `Answers.HoldingTwice` | src/query_plan.c:78-121 | a key in some scan range is in two of them exactly if an extracted IN list names its value twice |
| `Answers.PlanAnswersQuery` | src/index.c:273-349 | the ids of a scan are exactly those whose recorded keys satisfy the WHERE tree and pass the residual filter, all of the former if the residual works; an id comes twice exactly if an extracted IN list names its value twice |
| `AnswerOrders.AnswerInOrder` | src/index.c:273-312 | ids come range by range, within a range in the order of the keys they are recorded under, and under one key as its node lists them |
| `Scans.ScanCtx.ScanNext` | src/index.c:273-312 | each call returns the next of the ids the scan has left, and ends when none is left |
| `Scans.Find` | src/index.c:320-349 | a cursor with the whole answer left exactly if the query has a predicate on the first column that only ANDs lie above, otherwise the error cursor |
| `Scans.Drain` | src/index.c:273-312 | calling Next until it returns nothing gives the whole answer, in order |
| `Scans.Select` | src/index.c:273-349 | the same of a whole query on an index as it stands, run to its end |
| `Searches.AsksFirstExact` | src/query_parse.c:49-74 | the lowered tree has a leaf on the first column on an AND path exactly if the parse tree has one, by number or by name |
| `Searches.Search` | src/module.c:166-196 | from the parse tree to the ids: there is an answer exactly if the parse tree asks for the first column under nothing but ANDs; the ids returned are recorded under keys of which the tree tells the truth, and are all of those if the residual leaves work as filters |
| `BtreeShape.OneCover` | src/btree/btree.c:89-106 | on one level at most one node covers a key |
| `BtreeShape.LeafDecides` | src/btree/btree.c:119-131 | the leaf that covers a key decides whether it is in the map, and with which record |
| `BtreeShape.SeparatorsBound` | src/btree/btree.h:84-92 | a child has exactly those keys of its parent beneath it that lie between the separators around it |
| `BtreeShape.ChainInOrder` | src/btree/btree.h:79-83 | a leaf's keys come before those of the next leaf in the chain, with no key between |
| `BtreeShape.ChainLists` | src/btree/btree.h:79-83 | walking the chain from any leaf lists in order all keys of the map from where the leaf begins |
| `BtreeShape.ChainListsAll` | src/btree/btree.h:79-83 | walking it from the leftmost leaf lists all keys of the map in order |
| `BtreeCuts.CutFormed` | src/btree/btree.c:234-403 | cutting a node in two below its parent keeps the tree well formed with the same contents |
| `BtreeJoins.JoinFormed` | src/btree/btree.c:630-711 | joining two neighbours keeps the tree well formed with the same contents |
| `BtreeEdits.AddKeyFormed` | src/btree/btree.c:211-227 | a new key at its place in the leaf that covers it keeps the tree well formed |
| `BtreeEdits.RemoveKeyFormed` | src/btree/btree.c:552-585 | removing a key of a leaf keeps the tree well formed |
| `BtreeEdits.GrowRootFormed` | src/btree/btree.c:449-460 | a new root above the old one keeps the tree well formed |
| `BtreeEdits.ShrinkRootFormed` | src/btree/btree.c:606-609 | the only child of the root in its place keeps the tree well formed |
| `BtreeSizes.CutAt` | src/btree/btree.c:136-141 | half of a length, rounded up |
| `BtreeSizes.MinKeysHalf` | src/btree/btree.c:816-820 | a leaf that is not the root is at least half full of keys, an inner node of children |
| `BtreeSizes.SplitSized` | src/btree/btree.c:272-284 | for every order from 3 on, splitting an overfull node leaves both parts between the minimum and the maximum |
| `BtreeSizes.MergeSized` | src/btree/btree.c:820-852 | coalescing within the capacity leaves a node between the limits, only its parent possibly too small |
| `BtreeSizes.ShiftSized` | src/btree/btree.c:854-858 | redistribution beyond the capacity leaves both neighbours between the limits |
| `BtreeEntries.SplitLeaf` | src/btree/btree.c:234-298 | the two leaves hold the parts of the old entries and the new one, chained to each other |
| `BtreeEntries.SplitNode` | src/btree/btree.c:325-391 | the two inner nodes hold the parts, and the middle key is handed up |
| `BtreeEntries.RemoveEntryFromNode` | src/btree/btree.c:552-585 | exactly the key and its pointer are gone |
| `BtreeEntries.Absorb` | src/btree/btree.c:630-704 | the neighbour holds the contents of both, the separator taken down between inner nodes |
| `BtreeEntries.TakeFromLeft` | src/btree/btree.c:731-751 | the left neighbour's last entry is the first of n, with the new separator |
| `BtreeEntries.TakeFromRight` | src/btree/btree.c:759-784 | the right neighbour's first entry is the last of n, with the new separator |
| `BtreeSteps.AdoptKids` | src/btree/btree.c:392-395 | all children of a node point up at it, and nothing else changes |
| `BtreeSteps.Redistribute` | src/btree/btree.c:719-787 | the node arrays, the moved child's parent and the separator are those of the tree with one entry moved |
| `Btrees.BTree.FindLeaf` | src/btree/btree.c:81-114 | the leaf that covers the key |
| `Btrees.BTree.Find` | src/btree/btree.c:119-131 | the record of the key, or null if it has none |
| `Btrees.BTree.InsertIntoParent` | src/btree/btree.c:408-460 | from a node in two parts to a well-formed tree with the same contents, through any cascade of splits up to a new root |
| `Btrees.BTree.Insert` | src/btree/btree.c:482-522 | the tree stays well formed and exactly the new key is added with its value; a duplicate changes nothing |
| `Btrees.BTree.AdjustRoot` | src/btree/btree.c:587-622 | an empty root gives way to its only child, or the tree is empty |
| `Btrees.BTree.CoalesceNodes` | src/btree/btree.c:630-711 | coalescing, and the deletion in the parent it leads to, keep the contents |
| `Btrees.BTree.DeleteEntry` | src/btree/btree.c:794-859 | from one entry too many in a node to a well-formed tree, through any cascade of coalescing and redistribution |
| `Btrees.BTree.Delete` | src/btree/btree.c:863-875 | the tree stays well formed, parent pointers, depth, occupancy and chain included, and exactly the key is removed |
| `Traversals.Traverse` | src/index.c:351-364 | a node with m ids is visited m times with each of its ids |
| `Reloads.SquaresTotal` | src/index.c:357-363 | there are at least as many visits as ids, and as many exactly if every node has one id |
| `Reloads.StreamConsumed` | src/index_type.c:152-200 | a load reads all records that a save wrote exactly if no two ids share an equal key |
| `Reloads.LoadedExact` | src/index_type.c:167-200 | all ids come back exactly if no two share an equal key, unless it is the greatest key |
| `Reloads.LoadedKeys` | src/index_type.c:140-149 | an id comes back under the key of its node, which equals the recorded one |
| `Reloads.RoundTrip` | src/index_type.c:152-200 | if no two ids share an equal key, as in every unique index, a load gives back all ids under equal keys satisfying the same conditions |
| `Reloads.UniqueSingles` | src/index.c:46-65 | in a unique index no two ids share a node |
| `Rdb.WriteValue` | src/index_type.c:93-127 | a type tag and the value, by its type |
| `Rdb.ReadValue` | src/index_type.c:54-90 | reading what was written gives the value back, for every value its C type can hold, and reads nothing more |
| `Rdb.SaveIndex` | src/index_type.c:152-164 | the number of ids, then every visit |
| `Rdb.LoadIndex` | src/index_type.c:167-200 | as many records as promised, each applied as an add |
| `Rdb.SpecRoundTrip` | src/index_type.c:13-50 | a specification comes back exactly if its columns are named when, and only when, the index is; its comparators always do |
| `Rdb.ColumnInOrder` | src/index.c:134-166 | a column of a usable specification compares values of its type, for each of the eight tags, by what they hold, and there is no other tag |
| `Rdb.FlagsRead` | src/spec.h:12-13 | an index is named exactly if bit 0 of its flags is set, and unique exactly if bit 1 is, whatever the other bits |
| `Rdb.SaveSpec` | src/index_type.c:13-31 | flags, column count, and for each column its name if the index is named, its type and its flags |
| `Rdb.LoadSpec` | src/index_type.c:34-50 | reads them back |
| `Rdb.RdbSave` | src/index_type.c:306-316 | kind, flags, specification and records, in order |
| `Rdb.RdbLoad` | src/index_type.c:287-303 | what was saved is loaded, up to the number of records promised |
| `Rdb.SaveAndLoad` | src/index_type.c:287-316 | saving and loading an index: the stream is read to its end exactly if no two ids share an equal key, and then all ids are back under equal keys, always so for a unique index |
| `Rdb.SavedAndLeft` | src/index_type.c:152-200 | the saved stream begins with what will be loaded, and nothing is left exactly if all visits are |
| `Sds.CatRepr` | src/rmutil/sds.c:858-881 | the quoted form is appended |
| `Sds.SplitArgs` | src/rmutil/sds.c:933-1041 | the flags and pointers of the loops compute the arguments of the line, or fail on wrong quotes |
| `Sds.EscapeScanned` | src/rmutil/sds.c:950-984 | the escape of any byte is scanned back as that byte, whatever follows |
| `Sds.RoundTrip` | src/rmutil/sds.c:858-1041 | splitting the quoted forms of any byte strings, joined with spaces, gives the strings back |
| `SdsLines.WordsSplit` | src/rmutil/sds.c:939-1025 | a line of plain words is split at the blanks between them, in order |
| `SdsLines.BlanksSkipped` | src/rmutil/sds.c:941 | leading blanks of any kind count for nothing |
| `SdsLines.QuotedArgument` | src/rmutil/sds.c:950-999 | a string in double or single quotes is one argument if a blank or nothing follows, and otherwise the line is refused |
| `SdsLines.UnterminatedRefused` | src/rmutil/sds.c:979-996 | a double or single quote that nothing closes is refused |
| `SdsLines.HexScanned` | src/rmutil/sds.c:951-960 | two hexadecimal digits in either case are read as the byte with that number |
| `SdsLines.QuotedPrints` | src/rmutil/sds.c:858-881 | the quoted form of any bytes consists of printable ones |
| `Heaps.FirstGreatest` | src/rmutil/heap.h:18-20 | in a heap the first element is greatest |
| `Heaps.SiftUp` | src/rmutil/heap.c:22-41 | the range becomes a heap again with the same elements, the rest of the vector untouched |
| `Heaps.SiftDown` | src/rmutil/heap.c:43-85 | the same downwards, for the part of the heap below the place |
| `Heaps.MakeHeap` | src/rmutil/heap.c:88-95 | any range becomes a heap with the same elements |
| `Heaps.HeapPop` | src/rmutil/heap.c:103-108 | the greatest element is at the end, the others are a heap |
| `PriorityQueues.PriorityQueue.Push` | src/rmutil/priority_queue.c:21-25 | one element is added |
| `PriorityQueues.PriorityQueue.Top` | src/rmutil/priority_queue.c:17-19 | an element than which none is greater |
| `PriorityQueues.PriorityQueue.Pop` | src/rmutil/priority_queue.c:27-33 | that element is removed |
| `PriorityQueues.PriorityQueue.Drain` | src/rmutil/priority_queue.c:27-33 | popping until the queue is empty yields its elements in non-increasing order |
| `RefCounts.Store.IncRef` | src/value.c:60-71 | a copy counts one more holder of a string not yet freed |
| `RefCounts.Store.Free` | src/value.c:86-102 | the string goes exactly when its last holder does |
| `RefCounts.GetPredicate` | src/query_plan.c:8-39 | marking leaves all holders in place, and what it finds is held by the tree |
| `RefCounts.LeadingColumns` | src/query_plan.c:157-174 | the alternatives of the extracted columns hold nothing themselves: every value has a holder in the tree |
| `RefCounts.Store.TraverseNode` | src/query_parse.c:49-74 | the lowered tree is one more holder of each value, two for the one string of a LIKE range |
| `RefCounts.Store.Clean` | src/query_plan.c:123-148 | the nodes that cleaning frees give up their strings, the others keep theirs, and the tree left is the cleaned one |
| `RefCounts.Store.BuildKey` | src/query_plan.c:96-121 | no string is copied that has been freed, every range of the product holds each value of its two keys, and the ranges are those of the product |
| `RefCounts.Store.BuildQueryPlan` | src/query_plan.c:150-207 | the counts after planning are those of the ranges and of the tree that is left, which are the plan's |
| `RefCounts.Store.Life` | src/module.c:170-194 | from the parse tree to the end of query and cursor, freed in either order, counts equal holders at every step and none is left |

## Left out

- Redis command handlers, proxying of hash commands, reply code and the AOF rewrite: they only talk to the module API.
- The generated lexer and parser tables: the model starts from the parse tree.
- Printing of queries and trees, and `btree_find_range`, which no operation of the index needs.
- Type casting and `SIQuery_Normalize`, which finding does not call: predicate values have their column's type. A
  value whose tag does not fit its column reads as 0, where the C union would show whatever lies there.
- Raw memory, node lifetime, and key objects shared between reverse index and skiplist: keys are immutable values.
  Reference counts are kept of values that carry the identity of their string as well.
- The distribution of random levels and all claims about speed: a level is any number from 1 to 32.
- Floating point: FLOAT and DOUBLE are real numbers, so there is no NaN and no rounding. The load bound 0.77 n of the
  hash table is floor((77 n + 50) / 100).
- Integer widths of spans, lengths, counters and B+ tree keys, which are unbounded here. The 32-bit step of a probe is
  treated by StepFitsWord, and the widths of saved values by ReadValue.
- B+ tree keys are integers, as in `src/btree/btree.c`, although its header declares pointers.
- Growth of a value vector beyond 1000 elements, where the source stops enlarging it.
- `calloc(0, …)` for an empty IN list is taken to give a pointer that is not null.
- Two C library calls in the C locale: `isprint` and `isspace` (`Sds`).
- Opening a cursor and changing the index while it is open: a cursor is used as long as the index does not change.
- The keys and pointers of a B+ tree node are sequences of a fixed length, and an assignment to a place replaces the
  sequence.
- The heap moves elements one by one where the source copies memory, and the vector under it holds a sequence.
- KHashes.KHash.Put: not for a table that would have to grow beyond 2^31 buckets, as the probe step wraps there.
- KHashes.KHash.MakeRoom: with the same bound.
- KHashes.KHash.Resize: for requests whose size in the table is at most 2^31, for the same reason.
- ReverseIndexes.Insert: for up to 805306370 ids, below which that growth cannot come about.
- Indexes.CompoundIndex.Apply: for as many ids, and for keys of stored values, without the infinities that only query
  bounds use.
- Scans.Select: the query must be built from supported predicates (PRED_NE has no constructor).
- QueryParsing.TraverseNode: for the operators that can be lowered. For `!=`, and IS with anything but NULL, the source
  dereferences a null node. LIKE is modelled on strings, as the grammar has it.
- QueryParsing.ParseQuery: the same.
- QueryPlans.BuildKey: the arrays of alternatives are sequences, and `keyNums` is their lengths.
- RefCounts.Store.Life: the nodes are values, and the memory of nodes, plans and cursors is not counted.
- Rdb.LoadIndex: the stream is a list of tokens, and a load takes the content it expects as ghost arguments; streams
  that no save wrote are not modelled. The key saved for an id is that of its node, equal to the recorded one but
  possibly different in case.
- Rdb.ReadValue: on streams that a save wrote.
- Rdb.LoadSpec: on streams that a save wrote.
- Rdb.RdbLoad: on streams that a save wrote.
