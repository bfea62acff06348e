# minisqlr in Dafny

minisqlr is a small relational database. This project models its four hard parts and proves what they are for.

* **The page B-tree.** `BTreeSpec` says what insert and remove do to a tree as a value; `BTreeLayout` says how a tree lies
  in pages: separators, sibling links of every level, open and closed nodes. `BTreeEngine` has the nodes, the page store with
  its free list and the cursors, updated in place, and every method is proved against the value-level tree. Insert needs
  nothing but a well-formed tree; `BTreeClosedSpine` says exactly when it leaves one, gives the run that shows when it does
  not, and how a key is lost then.
* **Pager and rollback journal.** `RollbackJournal` has both files as the program sees them and, in ghost state, what of them
  is certain to survive: unsynced database writes may be lost one by one, unsynced records from the end. Every journal call
  exports that all images a crash can leave are among the noted ones, and each of those recovers to one of two files.
  `PagerCache` is the cache with pins, reuse order, spilling and rollback; `PagerRun` puts whole sessions and recovery on top.
* **Queries and updates.** `PlanCompiler` and `UpdateCompiler` emit labelled code; `Blocks`, `PlanCode` and `UpdateCode` say what
  program comes out; `PlanMeaning` and `UpdateCode` say what plans and statements mean. `Machine` and `UpdateMachine` are the
  virtual machine on sequences of rows, and `TableEngine` is the machine itself, on B-tree cursors. `ValueLaws`, `FromMeaning` and
  `SelectMeaning` say what expressions, FROM clauses and whole statements mean, in terms of values, names and rows only.
* **The optimizer.** `Optimizer` is the memo search with its cache and bounds; `PlanSearch` is exhaustive recursion;
  `OptimizedMeaning` says that the plan means what the statement says, and `JoinChoice` which joins are hashed.

Byte codecs (`ByteCodec`, `RecordCodec`, `PageCodec`) and the expression grammar (`ExprGrammar`, `ExprParser`, `ExprRoundTrip`)
come with their round trips; `ExprWritten` says what may be written for an expression.

Keys are integers, pages of the B-tree are parsed nodes in a map, costs and floating-point numbers are reals, m is at least 2.
The sources of the clock, the file system and the base-2 logarithm are parameters or absent. The machine on sequences of rows
refuses what the machine on cursors leaves open, such as rewinding a cursor twice or updating a row with a key that is not its
own; the two `ProgramOrderly` lemmas and `UpdateRuns` show that no compiled program does either.

## Model

| member | source | states |
|---|---|---|
| BTreeEngine.BTreeNode.BinarySearchCell | src/engine/btree.rs:464-493 | the search finds the key, or the first larger cell, or says that the key is above all cells, without its upper index going below zero |
| BTreeEngine.BTreeNode.GetKey | src/engine/btree.rs:495-502 | the record of the key exactly when the node has the key |
| BTreeEngine.BTreeNode.InsertLeaf | src/engine/btree.rs:536-559 | a present key is refused with nothing changed; another one goes to its place, and a full node asks to be split at the maximum of its left half |
| BTreeEngine.BTreeNode.InsertInternal | src/engine/btree.rs:561-607 | the separator and the two children take the place of the old child; a separator that is there already is refused |
| BTreeEngine.BTreeNode.Split | src/engine/btree.rs:609-640 | left and right half of cells and children, and the new page between the node and its right neighbour in the sibling chain |
| BTreeEngine.BTreeNode.RemoveLeaf | src/engine/btree.rs:642-656 | an absent key changes nothing; a present one is taken out, and a node below m asks for balancing |
| BTreeEngine.BTreeNode.FindLeftSibling | src/engine/btree.rs:658-677 | the page of the child before the one that holds the key |
| BTreeEngine.BTreeNode.FindRightSibling | src/engine/btree.rs:679-698 | the page of the child after the one that holds the key |
| BTreeEngine.BTreeNode.TryBorrowLeft | src/engine/btree.rs:704-743 | when the left sibling has cells to spare, its last cell (and child) moves over; otherwise nothing changes |
| BTreeEngine.BTreeNode.TryBorrowRight | src/engine/btree.rs:745-784 | when the right sibling has cells to spare, its first cell (and child) moves over; otherwise nothing changes |
| BTreeEngine.BTreeNode.MergeLeaf | src/engine/btree.rs:794-888 | the underfull leaf and a neighbour become one, and the emptied page leaves the chain and the parent and is freed |
| BTreeEngine.BTreeNode.MergeInternal | src/engine/btree.rs:890-981 | the same for inner nodes, children included |
| Cells.InsertCellMeaning | src/engine/btree.rs:536-559 | inserting an absent key keeps a run sorted and adds exactly that binding to the map it stands for |
| Cells.RemoveCellMeaning | src/engine/btree.rs:642-656 | removing a present key keeps a run sorted and drops exactly that binding |
| BTreeEngine.BTree.AcquireFreePgno | src/engine/btree.rs:1088-1105 | freed pages of this transaction first, then the head of the chain in the file; none when both are empty |
| BTreeEngine.BTree.GetNewPage | src/engine/btree.rs:1061-1077 | a free page if there is one, otherwise the page past the end of the file |
| BTreeEngine.BTree.FreeTree | src/engine/btree.rs:1049-1059 | every page of the tree, and no other, becomes free |
| BTreeEngine.BTree.WriteFreePage | src/engine/btree.rs:1132-1173 | the freed pages are threaded in front of the chain, which has the recorded length again |
| BTreeEngine.BTree.CommitFree | src/engine/btree.rs:1190-1200 | a committed transaction keeps the tree and loses no page; the free pages are then all on the chain |
| FreeList.TakeNOk | src/engine/btree.rs:1061-1105 | any number of allocations gives different pages that were free or past the end, keeps the chain acyclic and ended by 0, and loses no page |
| FreeList.CommittedOk | src/engine/btree.rs:1132-1173 | after the write the chain is acyclic, ends at 0, has exactly the recorded length and holds the freed pages followed by the old chain |
| BTreeInsertProof.InsRootCorrect | src/engine/btree.rs:1486-1552 | inserting an absent key into a well-formed tree gives a well-formed tree whose map has that pair more, on the old pages and the newly taken ones |
| BTreeEngine.BTreeCursor.MoveToTarget | src/engine/btree.rs:1444-1484 | from any state of the cursor the search ends at the leaf on the path of the key and says whether the key is there |
| BTreeEngine.BTreeCursor.Insert | src/engine/btree.rs:1486-1507 | for every well-formed tree: false and nothing changed for a present key; otherwise the pages hold the tree with the pair added, splits up to a new root included, siblings linked, no page lost and other pages untouched; the panic is unreachable |
| BTreeEngine.BTreeCursor.SplitInner | src/engine/btree.rs:1527-1552 | two halves below a parent that does not know them yet end in a finished insert, however far the splits go |
| BTreeEngine.BTreeCursor.KeepRoot | src/engine/btree.rs:1509-1525 | a split root keeps its page; its left half moves to the new page |
| BTreeEngine.BTreeCursor.GetVal | src/engine/btree.rs:1708-1712 | the record of the key in the map of the tree, or none, also where closed nodes overlook the largest key |
| BTreeSearch.DescentBut | src/engine/btree.rs:1444-1484 | in every stored tree, exact or overlooking its largest key, each search step leads to the child whose range holds the key |
| BTreeKept.InsertKept | src/engine/btree.rs:1486-1552 | what an insert leaves is a kept tree: links, page bounds, free pages apart from it, and every page accounted for |
| BTreeClosedSpine.InsertExactIff | src/engine/btree.rs:1486-1552 | for every insert: a well-formed tree with exact separators is stored at the root afterwards if and only if the key is below the maximum or every node of the right spine is open |
| BTreeClosedSpine.MergeCloses | src/engine/btree.rs:826-829 | removing the largest key of an open tree can merge the last two leaves and close the root |
| BTreeClosedSpine.FailingInsert | src/engine/btree.rs:1486-1507 | inserting 7 into what that removal leaves stores no well-formed tree |
| BTreeClosedSpine.KeyLost | src/engine/btree.rs:594-599 | after 8 and 9 have followed, a search for 7 ends at a leaf without it although another leaf holds it |
| BTreeClosedSpine.SevenGoesIn | src/engine/btree.rs:609-640 | the tree that the insert of 7 makes of it |
| BTreeClosedSpine.BeforeWf | src/engine/btree.rs:1486-1552 | a well-formed tree with an open spine that this happens to |
| BTreeClosedSpine.SevenLaid | src/engine/btree.rs:609-640 | what the pages of that tree say |
| BTreeClosedSpine.LeafTakesBoth | src/engine/btree.rs:536-559 | 8 and 9 go into its last leaf |
| BTreeClosedSpine.ReachedIsPath | src/engine/btree.rs:1444-1484 | in a stored tree the leaf a search reaches is the one on the path of the key |
| BTreeRemoveProof.RemRootCorrect | src/engine/btree.rs:1554-1678 | removing a present key from a well-formed tree gives a well-formed tree whose map lacks that key, through borrows, merges and a shrinking root |
| BTreeEngine.BTreeCursor.Remove | src/engine/btree.rs:1554-1583 | for every well-formed tree on page 1: an absent key changes nothing; otherwise the pages hold the tree without the key, with exact separators, linked siblings and the emptied pages free |
| BTreeEngine.BTreeCursor.RemoveBalanceClean | src/engine/btree.rs:1595-1616 | an underfull leaf is repaired from a sibling, and the repair goes on upwards |
| BTreeEngine.BTreeCursor.BalanceInternalClean | src/engine/btree.rs:1652-1678 | an underfull inner node is repaired the same way, up to the root |
| BTreeEngine.BTreeCursor.DecrRoot | src/engine/btree.rs:1639-1650 | a root with one child takes over the contents of that child, whose page is freed |
| BTreeEngine.BTreeCursor.UpdateParentSeparator | src/engine/btree.rs:1586-1593 | only separators of nodes on the path change |
| BTreeEngine.BTree.RefreshSeparatorsInner | src/engine/btree.rs:1215-1245 | afterwards every separator below the page is exactly the maximum of its child, and nothing but separators has changed |
| BTreeEngine.BTree.RefreshSeparators | src/engine/btree.rs:1211-1213 | the same for the tree on page 1 |
| BTreeEngine.BTreeCursor.MoveToFirstEntry | src/engine/btree.rs:1333-1336 | the cursor stands at the first entry of the leaf chain, or the tree is empty |
| BTreeEngine.BTreeCursor.MoveToNextEntry | src/engine/btree.rs:1338-1356 | the next entry of the chain, across leaves, or the end |
| BTreeEngine.BTreeCursor.ListEntries | src/engine/btree.rs:1333-1356 | a scan lists every pair exactly once, in ascending key order |
| BTreeEngine.BTreeCursor.Prev | src/engine/btree.rs:1714-1729 | the entry before, across leaves, or none at the start |
| BTreeEngine.BTreeCursor.NextIntegerKey | src/engine/btree.rs:1383-1390 | the key after the largest one, 1 in an empty table; none exactly when the largest is the last 64-bit number |
| BTreeScan.Leaves | src/engine/btree.rs:1317-1356 | the leaf chain read from left to right holds the entries of the tree in order |
| BTreeEngine.BTreeCursor.UpdateRow | src/sql/operations.rs:642-662 | remove and insert of the row a scan stands at: exactly that record is new, the tree keeps its shape, pages and links, and the scan stands where it stood |
| BTreeUpdate.SetValEntries | src/sql/operations.rs:642-662 | of all entries exactly the one the scan stands at has the new record |
| Schema.SchemaManager.CreateTable | src/sql/schema.rs:92-105 | through a fresh root cursor the table becomes the old map with the pair, or nothing changes if the key was there |
| Schema.SchemaManager.GetTable | src/sql/schema.rs:107-113 | the row of the key in the map |
| Schema.SchemaManager.DropTable | src/sql/schema.rs:115-120 | the map without the key |
| Schema.SchemaManager.TableExists | src/sql/schema.rs:122-127 | whether the key is in the map |
| Schema.SchemaManager.ListSchema | src/sql/schema.rs:129-151 | all rows in key order |
| Schema.SchemaManager.Run | src/sql/schema.rs:92-127 | over every run of inserts below a key that stays, removes, lookups and commits: every answer and the final table are those of a plain map, the tree is well-formed in every state, and no page is lost |
| ByteCodec.BeRoundTrip | src/engine/btree.rs:64-119 | big-endian bytes give the number back, cut to their width |
| ByteCodec.BeDigit | src/engine/btree.rs:64-119 | the highest byte comes first |
| RecordCodec.FieldLayout | src/engine/btree.rs:53-119 | a type byte from 0 to 4, then eight bytes, or a two-byte length and that many bytes |
| ByteCodec.TextRoundTrip | src/engine/btree.rs:92-119 | UTF-8 bytes of a text give the text back |
| RecordCodec.GetBytes | src/engine/btree.rs:164-170 | the concatenated encodings of the fields |
| RecordCodec.NewRecord | src/engine/btree.rs:172-181 | the values that fill the bytes, or failure |
| RecordCodec.FieldRoundTrip | src/engine/btree.rs:53-119 | one value comes back from its bytes if and only if its length fits in two bytes |
| RecordCodec.RecordRoundTrip | src/engine/btree.rs:159-181 | a record comes back from its bytes if and only if the lengths of all its texts and blobs fit in two bytes |
| RecordCodec.MakeRecordBack | src/sql/operations.rs:40-45 | making a record in a register and reading it back is the identity under the same condition, and only then |
| PageCodec.WriteBuf | src/engine/btree.rs:412-462 | in place: header, references growing up and cells growing down lie in the 4096 bytes without overlap |
| PageCodec.LoadPage | src/engine/btree.rs:309-386 | the node that a page describes |
| PageCodec.CellStep | src/engine/btree.rs:433-457 | writing a cell leaves the cells and references written before it alone |
| PageCodec.LoadWritten | src/engine/btree.rs:309-462 | loading what was written gives the same cells, children, links and flags for every node that fits |
| RollbackJournal.ChecksumNotices | src/engine/journal.rs:245-262 | a change of any single byte of a page changes its checksum |
| RollbackJournal.Journal.BeginTransactionWrite | src/engine/journal.rs:184-224 | a journal for the current file; whatever a crash leaves gives that file |
| RollbackJournal.Journal.BackupPage | src/engine/journal.rs:245-262 | the content of a page at the start of the transaction is saved once, with its checksum |
| RollbackJournal.Journal.CommitPage | src/engine/journal.rs:226-233 | a page goes to the file only after its pre-image is durable; a crash still gives the old file |
| RollbackJournal.Journal.WritePage | src/engine/journal.rs:235-239 | the file with that page, and a crash still gives the old file |
| RollbackJournal.Journal.SyncJournal | src/engine/journal.rs:264-269 | header and records are durable |
| RollbackJournal.Journal.InvalidateJournal | src/engine/journal.rs:271-282 | the commit point: from here a crash gives the current file |
| RollbackJournal.Journal.ResetJournal | src/engine/journal.rs:296-309 | an empty, durable journal for the given page count |
| RollbackJournal.Journal.CheckJournal | src/engine/journal.rs:333-361 | whether every record has the checksum of its content |
| RollbackJournal.Journal.Rollback | src/engine/journal.rs:383-416 | every record is written back: the file agrees with the old one on all its pages, and a crash in between still gives the old one |
| RollbackJournal.Journal.Shrink | src/engine/journal.rs:423-425 | the file is cut to its old length |
| RollbackJournal.Journal.CrashSafe | src/engine/journal.rs:184-269 | in the middle of a transaction recovery from anything a crash can leave gives exactly the file from before it |
| RollbackJournal.Journal.IdleSafe | src/engine/journal.rs:271-282 | outside a transaction it gives exactly the current file |
| PagerCache.Pager.PagePin | src/engine/pages.rs:159-164 | a page that gets its first user leaves the list of reusable pages and is counted as pinned |
| PagerCache.Pager.Acquire | src/engine/pages.rs:192-195 | one user more |
| PagerCache.Pager.Release | src/engine/pages.rs:197-203 | one user less; a page without users becomes reusable and is no longer counted |
| PagerCache.Pager.CommitPage | src/engine/pages.rs:279-284 | a dirty page goes to the file and is clean; the logical pages are unchanged |
| PagerCache.Pager.AllocPageAndRead | src/engine/pages.rs:171-190 | a new slot with the content of the page in the file |
| PagerCache.Pager.Recycle | src/engine/pages.rs:205-259 | the longest unused page without users makes room, written out first if it is dirty; the logical pages are unchanged |
| PagerCache.Pager.FetchkeyRekey | src/engine/pages.rs:412-416 | the slot stands for another page |
| PagerCache.Pager.FetchCache | src/engine/pages.rs:205-259 | the cached page, a recycled slot or a new one; nothing exactly when too many are pinned; pinned pages keep their slots and the logical pages are unchanged |
| PagerCache.Pager.Fetch | src/engine/pages.rs:261-269 | a pinned page with the content of the logical page |
| PagerCache.Pager.ExtendPageCount | src/engine/pages.rs:59-63 | the new page counts as part of the file |
| PagerCache.Pager.WillModify | src/engine/pages.rs:370-382 | before a page changes, its pre-image is in the journal exactly if the page existed at the start of the transaction |
| PagerCache.Pager.MarkInited | src/engine/pages.rs:384-387 | the page counts as filled |
| PagerCache.Pager.EndTransactionWrite | src/engine/pages.rs:309-344 | the file becomes exactly the logical pages; a crash at any moment gives the old file or the new one |
| PagerCache.Pager.BeginTransactionRead | src/engine/pages.rs:350-361 | a journal that a crash left is rolled back, and the file is as it was before that transaction |
| PagerCache.Pager.BeginTransactionWrite | src/engine/pages.rs:363-368 | a transaction on the current pages |
| PagerCache.Pager.CheckAndTryRollback | src/engine/pages.rs:65-81 | every page and the length of the file are as at the start of the transaction |
| PagerCache.Pager.Rollback | src/engine/pages.rs:83-106 | the same, spilled pages and allocations included |
| PagerCache.Pager.ReloadCacheAfterRollback | src/engine/pages.rs:108-124 | every cached page agrees with the file again, and pages past its end are dropped |
| PageCache.EvictOk | src/engine/pages.rs:205-259 | evicting a clean page without users keeps the cache counted right and every logical page as it was |
| PagerRun.RunTransaction | src/engine/pages.rs:309-382 | a transaction of page writes and appends has all its changes or none, and so it is after a crash at any moment |
| PagerRun.Session | src/engine/pages.rs:309-382 | over every session of transactions the database is what the committed ones say, and a crash at any moment gives the state before or after one of them |
| PagerRun.Recover | src/engine/pages.rs:65-106 | opening what a crash left gives the file from before the transaction, and a crash during that gives it the next time |
| SqlSyntax.ResolvesIff | src/sql/planner.rs:506-534 | a column is resolved to a source exactly when that source and no other offers it |
| Evaluate.CompareFlip | src/sql/operations.rs:56-67 | comparing the other way round gives the opposite answer, across all types |
| Evaluate.CompareTrans | src/sql/operations.rs:56-67 | values of all types are in one total preorder |
| ValueLaws.OrderMeans | src/sql/operations.rs:47-67 | numbers compare as numbers across both types, texts and bytes by prefix or first difference, and null < numbers < texts < bytes |
| ValueLaws.OperatorMeans | src/sql/operations.rs:30-113 | each of the twelve operators gives a value if and only if it is the one said in numbers, truth values and that order: whole results from 0 to 2^64 are integers, division by zero is null |
| ValueLaws.EvalMeans | src/sql/planner.rs:376-420 | evaluation gives v if and only if v is the value of the expression, defined by its operators, literals and the one source that has the column, with null past the end of a record |
| ValueLaws.NamesMeans | src/sql/planner.rs:506-552 | a name is resolved to a column if and only if it is the first of one source so called, ASCII letters without case, and no other source under that table name or alias has one |
| ValueLaws.UnresolvedMeans | src/sql/planner.rs:506-534 | otherwise it is unknown if no source has it, and ambiguous if two have |
| ValueLaws.CodeWhenClear | src/sql/planner.rs:376-420 | there is code for an expression if and only if all its names are resolved and it calls no function |
| ValueLaws.UsingRefused | src/sql/planner.rs:457-485 | a USING column is unknown if no source has it, and ambiguous if two have |
| ValueLaws.LimitMeans | src/sql/planner.rs:790-799 | a LIMIT is n if and only if it is that literal; a negative number and anything else are refused with their own errors |
| PlanCorrect.ExprCorrect | src/sql/planner.rs:376-420 | the code of an expression leaves its value in its register without disturbing earlier registers, or fails exactly when there is no value |
| SelectTheorem.SelectCorrect | src/sql/planner.rs:96-420 | the program of every SELECT plan of scans, filters, inner and cross joins, projection and limit halts, every cursor closed, and adds exactly the rows the plan denotes, or fails because an expression has no value |
| SelectTheorem.ProgramJumps | src/sql/planner.rs:693-718 | every jump of a compiled program stays within it, its end included, and none goes to itself |
| Blocks.SimScan | src/sql/planner.rs:205-241 | the seven operations of a scan run their body once for every row and take a number of steps bounded by the rows |
| Labels.FinishIsFlat | src/sql/planner.rs:693-718 | every label of emitted code is resolved, and to the position its block has in the laid-out program |
| PlanCompiler.ProgramBuilder.FinishProgram | src/sql/planner.rs:712-718 | all labels replaced by positions, or the first that was never marked |
| PlanCompiler.Compiler.CompileExpr | src/sql/planner.rs:376-420 | emits the code of the expression and returns its register, or the first error |
| PlanCompiler.Compiler.CompileRows | src/sql/planner.rs:148-203 | emits the block of the plan around what its rows are handed to |
| PlanCompiler.Compiler.CompileSeqScan | src/sql/planner.rs:205-241 | emits the scan block with a cursor of its own |
| PlanCompiler.Compiler.CompileJoinConstraint | src/sql/planner.rs:274-312 | emits the ON or USING condition |
| PlanCompiler.Compiler.EmitProjection | src/sql/planner.rs:314-333 | emits the result row behind the limit guard |
| PlanCompiler.Compiler.Compile | src/sql/planner.rs:88-146 | returns exactly the laid-out program of the plan, or its error |
| TableEngine.VMInstance.Rewind | src/sql/operations.rs:320-331 | the B-tree cursor stands at the first row, and the flag says whether there is none |
| TableEngine.VMInstance.MoveNext | src/sql/operations.rs:338-349 | the B-tree cursor stands at the next row, or past the last one |
| TableEngine.VMInstance.ExecuteRead | src/sql/operations.rs:469-541 | column, row key and record-making operations read the row the B-tree cursor stands at |
| TableEngine.VMInstance.Execute | src/sql/operations.rs:246-1063 | each operation on B-tree cursors does to registers, cursors, flags, results and tables what it does on sequences of rows |
| TableEngine.VMInstance.Run | src/sql/vm.rs:42-67 | the loop on stored tables ends as the steps on sequences of rows say |
| SelectChecks.ProgramOrderly | src/sql/planner.rs:205-241 | every compiled SELECT rewinds each cursor right after opening it and never jumps back to that, so no cursor is read before |
| SelectChecks.StepsOnTables | src/sql/vm.rs:42-67 | a program that only reads takes the same steps on stored tables as on the rows they hold |
| FromMeaning.CombosPick | src/sql/planner.rs:243-272 | the combinations of tables are exactly the choices of one row from each |
| FromMeaning.JoinHoldsMeans | src/sql/planner.rs:274-312 | a join condition is met if and only if its expression has a true value, or every USING column is found once on each side with equal values |
| FromMeaning.TreeRows | src/sql/planner.rs:148-312 | nested iteration over joins gives the combinations of the rows of all tables, in the order of the tables, on which every join condition holds; it fails if and only if some condition cannot be computed on a combination that meets those before it |
| SelectStatement.RunSelect | src/sql/planner.rs:57-108 | compiling and running a plan on stored B-trees adds the rows the plan denotes on their entries and leaves every table as it was |
| Optimizer.CascadesOptimizer.InsertRelation | src/sql/optimize.rs:276-342 | the memo holds the relation, one group for each of its operators |
| Optimizer.CascadesOptimizer.ExploreGroup | src/sql/optimize.rs:344-361 | every alternative the rules give is in the group, once |
| Optimizer.CascadesOptimizer.ApplyRules | src/sql/optimize.rs:363-407 | the alternatives of one expression: swapped inner or cross joins and merged filters |
| Optimizer.CascadesOptimizer.OptimizeGroup | src/sql/optimize.rs:409-446 | with an unlimited bound the cached or newly found plan is the one of exhaustive recursion |
| Optimizer.CascadesOptimizer.ImplementJoin | src/sql/optimize.rs:532-609 | the cheaper of nested loop and hash join; a hash join given up for its bound never loses the nested loop found |
| Optimizer.CascadesOptimizer.Enforce | src/sql/optimize.rs:611-643 | a sort on top exactly when the plan does not have the ordering asked for |
| Optimizer.CascadesOptimizer.Optimize | src/sql/optimize.rs:246-270 | for every lowered SELECT the memoized branch-and-bound search returns the same plan as exhaustive recursion over the memo; only inner joins on USING or = are hashed in it, and all of them where hashing pays |
| PlanSearch.BestIsFirstCheapest | src/sql/optimize.rs:409-446 | the plan of exhaustive recursion is the first of the cheapest |
| JoinChoice.HashableMeans | src/sql/optimize.rs:694-702 | the joins that may be hashed are the inner ones with USING columns or an ON whose top operator is = |
| JoinChoice.HashedGroup | src/sql/optimize.rs:532-609 | whatever the costs are, the best plan hashes no other join |
| JoinChoice.PlannedGroup | src/sql/optimize.rs:532-609 | where hashing two tables costs no more than looping over them, the best plan does every such join by hashing and any other by a nested loop |
| JoinChoice.DefaultHashingPays | src/sql/optimize.rs:117-132 | this is so under the default configuration |
| Memo.AlternativesMean | src/sql/optimize.rs:363-407 | the rules add the swapped inner or cross join and the merged pair of selections, and nothing else |
| PlanSearch.DefaultCosts | src/sql/optimize.rs:448-692 | the costs and row estimates of scans, filters, projections, limits, sorts and joins under the default configuration |
| PlanSearch.DefaultSane | src/sql/optimize.rs:117-132 | the default configuration meets what the bounds need |
| PlanBounds.GroupFair | src/sql/optimize.rs:645-669 | the lower bound of a group never exceeds the cost of its best plan, and joined tables are estimated at a table's rows or more |
| PlanCache.PrunedLoses | src/sql/optimize.rs:409-446 | an expression whose bound is not below the best cost so far would not have changed the winner |
| PlanCache.HashAboveBound | src/sql/optimize.rs:532-609 | a hash join costs more than the bound that may rule it out |
| OptimizedShape.BestIsOptimized | src/sql/optimize.rs:363-446 | the plan keeps the scan order of the FROM clause: a swapped join costs the same and never replaces |
| StableSort.SortFilter | src/sql/optimize.rs:448-530 | a stable sort and a filter commute |
| StableSort.SortStable | src/sql/optimize.rs:611-643 | sorting keeps the order of rows with equal keys |
| OptimizedMeaning.MeaningKept | src/sql/optimize.rs:363-643 | the optimized plan of every SELECT denotes the row sequence of its relation, sorts below filters included |
| OptimizedMeaning.AnswerIsOutcome | src/sql/optimize.rs:246-270 | what the code generator makes of the plan is what the statement says |
| Relation.LowerTableRef | src/sql/relation.rs:123-152 | joins fold to the left over the FROM clause |
| Relation.SelectHasShape | src/sql/relation.rs:100-121 | every lowered SELECT is limit over order over projection over filter over joins of scans |
| SelectMeaning.FromLowered | src/sql/relation.rs:123-152 | the relation of a FROM clause has its tables from left to right and its joins in the order they are carried out, each with its type, its constraint and the tables it spans; it is refused if and only if a cross join has a constraint |
| SelectMeaning.StatementMeans | src/sql/relation.rs:100-121 | for every SELECT: what its relation denotes is the answer said of its own clauses, the FROM combinations that WHERE accepts, in the stable order of ORDER BY, the first LIMIT of them, each put out as the projection says, and no answer exactly if something cannot be computed |
| SelectMeaning.AnswerOnce | src/sql/relation.rs:100-121 | a statement has one answer |
| SelectMeaning.OutputMeans | src/sql/planner.rs:314-374 | one result row for each row: the values of the items, and for * all columns of all tables |
| SelectMeaning.WholeRow | src/sql/planner.rs:335-374 | * over one table gives its rows as they are |
| SelectMeaning.KeyOrderMeans | src/sql/optimize.rs:611-643 | rows are compared by the first key on which they differ, the other way round if it is descending |
| SelectMeaning.OrderedRows | src/sql/optimize.rs:611-643 | ORDER BY gives the same rows in the order of the keys, those with equal keys in the order they had |
| SelectCompiles.StatementCompiles | src/sql/planner.rs:88-420 | a statement has a program if and only if it has no ORDER BY, its LIMIT is a number, its tables are known and all names are resolved, in a join condition among the tables up to that join |
| SelectStatement.LowerSelect | src/sql/relation.rs:100-121 | the relation of the statement, whose meaning is StatementMeans |
| SelectStatement.PlanOf | src/sql/ast.rs:157-162 | the optimizer plans every SELECT that can be lowered, and the plan of one over inner and cross joins gives its answer |
| SelectStatement.SameProgram | src/sql/ast.rs:157-162 | the optimized plan compiles to the very program of the statement read operator by operator, or to the same error |
| SelectStatement.RunStatement | src/sql/ast.rs:157-162 | lowered, optimized, compiled and run on stored B-trees, a SELECT over inner and cross joins yields exactly its answer, said of its own clauses, or fails if there is none; it is refused if and only if a cross join has a constraint or StatementCompiles says so |
| UpdateCode.AssignmentMapMeans | src/sql/ast.rs:729-746 | the assignments are accepted if and only if they name distinct columns of the table; each then sets its column and no other |
| UpdateCode.UpdateCellsAt | src/sql/ast.rs:405-485 | every row is visited once, evaluated on its old values; keys and order stay; a failing row and those after it are untouched |
| UpdateCorrect.UpdateRuns | src/sql/ast.rs:405-485 | the program of every UPDATE, run on any tables, ends with its table as the statement means, all else unchanged and the cursor closed; it is stuck exactly if some row cannot be computed |
| UpdateCorrect.UpdateMeans | src/sql/ast.rs:405-485 | row by row: keys stay; up to the first row on which something fails, rows the condition rejects stay and an accepted row has the assigned columns evaluated on the old row and the others as they were, null past its end; from there on nothing changes; it gets through if nothing fails and all new rows can be stored |
| UpdateCorrect.AssignedIff | src/sql/ast.rs:445-462 | the new row can be computed if and only if there is a row with the assignments carried out, and then it is that one |
| UpdateCorrect.ColumnRefused | src/sql/ast.rs:671-703 | a column is refused for a qualifier that is not the name of the table, and otherwise if the table has no such column |
| UpdateCorrect.UpdateCompiles | src/sql/ast.rs:405-485 | an UPDATE has a program if and only if its table is known, its assignments name distinct columns and all names in its expressions are resolved |
| UpdateCorrect.FieldsCorrect | src/sql/ast.rs:445-462 | the code of the new row leaves all new values in registers without disturbing earlier ones |
| UpdateCompiler.MutationCompiler.CompileExpr | src/sql/ast.rs:600-644 | emits the code of the expression over one table, or the first error |
| UpdateCompiler.MutationCompiler.MapAssignments | src/sql/ast.rs:729-746 | the expression of each column; unknown columns and double assignments are refused |
| UpdateCompiler.MutationCompiler.CompileUpdate | src/sql/ast.rs:405-485 | returns exactly the laid-out program with its three labels resolved, or the first error |
| UpdateCompiler.CodegenBuilder.Finish | src/sql/ast.rs:923-929 | all labels replaced by positions, or the first that was never marked |
| UpdateStatement.ProgramOrderly | src/sql/ast.rs:405-485 | an UPDATE program opens its one cursor, rewinds it at once and never jumps back there |
| UpdateStatement.RunUpdate | src/sql/ast.rs:405-485 | compiled exactly under the conditions of UpdateCompiles and run on stored B-trees, an UPDATE leaves the pages holding the table that UpdateMeans says, well-formed, with every other table as it was |
| ExprParser.Parser.ParseExpr | src/sql/parser.rs:436-438 | on every token list: reads an expression to the end if and only if the tokens are a written form of it, and otherwise takes just the written form at the front, or fails as the grammar does |
| ExprParser.Parser.ParseOr | src/sql/parser.rs:440-451 | left-associative, above AND |
| ExprParser.Parser.ParseComparison | src/sql/parser.rs:466-477 | left-associative, above addition; what it takes is a written form of what it reads |
| ExprParser.Parser.ParseUnary | src/sql/parser.rs:525-544 | prefix operators, nested |
| ExprParser.Parser.ParsePrimary | src/sql/parser.rs:546-585 | literals, columns, calls and brackets, or the error |
| ExprWritten.SpellsIff | src/sql/parser.rs:436-605 | = and == are Eq, != and <> are Ne, the words in any case; each operator at its level and no other |
| ExprWritten.LiteralIff | src/sql/parser.rs:553-567 | how a constant is taken for a real number, an integer or a text |
| ExprWritten.ReadsExactlyWhatIsWritten | src/sql/parser.rs:436-605 | an expression is read from the tokens if and only if they are a written form of it: any spelling of the operators, any brackets, left-associative levels |
| ExprWritten.WrittenOnce | src/sql/parser.rs:436-605 | the grammar is unambiguous |
| ExprRoundTrip.PrintReads | src/sql/parser.rs:436-585 | an expression printed with only the brackets its precedence levels need is read back as itself, consuming exactly those tokens |
| ExprRoundTrip.ReadPrintRead | src/sql/parser.rs:436-605 | an expression read from any spelling and brackets is printed and read as the same again |
| ExprRoundTrip.RoundTrip | src/sql/parser.rs:436-585 | this holds for an expression if and only if no name in it is a keyword the parser takes for something else and no text in it reads as a number |

## Left out

- Keys that are not integers, and the order of keys of different types.
- Trees with m = 1, and nodes whose cells do not fit in a page (`insert_leaf` writes 2m cells before it splits).
- Removes below a root on another page than 1: the refresh of separators is fixed to page 1. A scan that replaces rows of another table is covered by `UpdateRow`.
- Using one cursor again after a remove, whose cached nodes the refresh of separators does not reach.
- Insert into a tree whose separators are not exact, but for the run in `BTreeClosedSpine`.
- Composition of `PageCodec`, `PagerCache` and `BTreeEngine`: a B-tree page is its parsed node, the codec shows that its bytes give that node back, and the pager's transactions are over page contents.
- INSERT through the virtual machine on trees of several levels: `moveto_rightmost` records no path.
- The DELETE program, which goes to the next row after the current cell is gone.
- Outer joins: code generation ignores the join type, so plans with LEFT, RIGHT or FULL joins are outside `SelectCorrect` and `RunStatement`.
- Running a sort, which the code generator refuses; its meaning here is a stable sort in which a key that cannot be computed counts as null. A hash join is compiled as a nested loop, as in the source.
- Plans no SELECT leads to: a projection or LIMIT below another, an ordering demanded above a LIMIT, a finite initial bound.
- Relations over outer joins in `MeaningKept` and `Optimize`'s scan order; the search itself equals exhaustive recursion for them too.
- Cost annotations on the children of a physical plan.
- Function calls and blob literals in expressions; a division whose operands are not numbers fails here.
- UpdateRow on a record whose bytes cannot be read back: the machine refuses it; the source panics or repairs the text.
- Rounding of floating-point numbers, NaN, infinities, and the eight bytes of a number, which are a parameter of the record codec.
- Lossy repair of invalid UTF-8.
- Crashes inside one journal call, torn records, and the branch for a corrupt journal, which does not roll back.
- File locks and other processes; the cache is not invalidated when a read transaction begins.
- Recovery to an empty file: a database that is journalled has at least one page.
- Fetches beyond the page past the end, and a new page that loses its last user before it was announced.
- In-memory page totals and free-list fields after `BTree::rollback`, which the source does not restore.
- The unused `remove_balance` and `balance_internal`; the leaf and inner merges share their steps here.
- The lexer, statements other than expressions in the parser, JSON columns, the shell and `explain`.
