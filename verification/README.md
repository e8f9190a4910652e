# PySQLEngine, modelled and proved

PySQLEngine is a SQL engine written from scratch in Python. This project models the parts of it that are hardest to get
right and proves what they are for. The code that works by changing things step by step is modelled by methods over
arrays, loops and object fields; each method is proved equal to a function or held to a full specification, and the deep
properties are proved about those.

- **B+tree index** (`BTreeShape`, `BTreeInsert`, `BTreeDelete`, `BTreeMerge`, `BTreeCollapse`, `BPlusTree`,
  `BTreeHeight`). Nodes live in a map from identifiers to records and refer to each other by identifier, as the source's
  nodes refer to each other by reference. Every node has a span of keys and a level; the invariant speaks of one node
  and its neighbours at a time. Insertion and deletion refine a map; scans return exactly the bindings asked for; the
  height is logarithmic.
- **Raft** (`RaftNode`, `RaftCluster`, `RaftInvariant`, `RaftLemmas`, `RaftElections`, `RaftReplication`, `RaftSafety`,
  `RaftProgress`, `RaftFindings`). A cluster takes steps over a network that loses, repeats and reorders messages. All five guarantees
  named at the head of `pysql/raft.py` are proved over every run; and from every reachable state some node can still be
  elected and any command committed.
- **Multi-version concurrency control** (`MvccStore`, `MvccInvariant`, `MvccReads`, `MvccKeeps`, `MvccIsolation`,
  `MvccStrict`, `MvccAbort`, `MvccFindings`, `MvccUnchecked`, `MvccManager`). Over every run that keeps the writers'
  discipline the version chains refine a store that copies the committed rows at begin; no update is lost; aborting and
  collecting are invisible, with the exact conditions where they are not.
- **Expression parser** (`ExprGrammar`, `ExprDerivations`, `ExprRoundTrip`, `ExprEnds`, `ExprErrors`, `ExprParser`).
  The grammar is a relation between trees and tokens; the parser accepts exactly what it derives, parsing undoes
  printing, and an error is raised at the first token that cannot follow what was read.
- **Buffer pool** (`BufferPool`). Caching, eviction by clock sweep and writing back never show in what users read.
- **Slotted page and record codec** (`PageBytes`, `SlottedPage`, `RecordCodec`, `RecordRows`, `Utf8`). A page is a map from
  slots to records under insertion, update, deletion and compaction; pages and rows survive their trip through bytes.

Where the code does not keep its own promise, the model follows the code; a lemma says exactly when it does, and where a
run is needed to get there a lemma gives the run:

- The minimum occupancy of the tree is `(order-1)//2` keys (`pysql/storage/btree.py:84`); the `ceil((order-1)/2)` of the
  class comment (line 67) is missed by some leaf exactly for even orders (`LeavesFallShort`, `MakeShortLeaf`). The
  comment's bounds on children are kept (`ChildrenAsDocumented`).
- A Raft node can vote twice in a term (`VoteLost`, `TwoVotesInOneTerm`), and a follower can commit past what a message
  showed it (`CommitsBeyondMessage`) and vouch for more than that (`VouchesForMore`). The source has no sender and no
  vote counter; theirs are the rules of `RaftCluster.Enabled`: a node is promoted only while a candidate and with a
  majority of grants; a leader sends slices of its own log, never to itself, with a commit index no greater than the
  last index sent, and credits a follower with no more than it was sent. Without the rule on the commit index, or
  without that on credits, two nodes can apply different commands (`CommitRuleIsNeeded`, `CreditRuleIsNeeded`).
- First-updater-wins is not enforced. Over runs of any operations the check at commit never fails (`CommitSucceeds`),
  and, where only running transactions write, updates are lost exactly where it ought to (`LosesUpdates`, `UpdateLost`);
  the check on writes refuses only writers that do not know all others, and lets through some of those
  (`KnowsOnlyIfUpToDate`, `UpToDateNotEnough`, `Resurrects`). For stores reached by writers that keep a discipline
  `FirstUpdaterWins` says which writes are safe, and the theorems over runs hold. The discipline is
  `MvccInvariant.Clear`: the item is absent, or the writer already holds its newest version, or that version is live and
  its creator had committed before the writer began.
- A transaction that writes an item twice leaves a stray version behind when it aborts (`AbortRestores`), and a later
  delete may then be without effect (`DeleteTakesEffect`, `DeleteWithoutEffect`).
- Garbage collection can take rows away from running transactions: in any store exactly as `CollectUnseen` says, for
  writers that keep the discipline exactly as `CollectInvisible` says (`CollectTakesRow`). Where writers keep the
  discipline and put no version on top of their own it never does (`StrictRunIsRun`, `StrictSnapshotIsolation`); the
  second alone is not enough (`HarmlessNotEnough`).
- `Abort` checks no state: called after a commit it removes committed rows (`AbortAnyTime`, `AbortAfterCommit`).
- After a dot the parser takes any token for a column name (`QualifiedTakesAny`), the end mark too (`PassesEndMark`).
- Fetching a page that does not exist unlinks a victim first; the pool stays sound exactly when a frame was empty
  (`FetchPage`). A page's last unpin that does not report a change leaves it marked clean (`UnpinPage`).
- The test on a page's free space counts holes (`RoomForAll`, `MakeHole`): a record that passes it may be laid over the
  slot directory, or begin before the page (`InsertRecord`). An update that has to move a record and fails the test
  loses it (`UpdateRecord`).
- Negative integers and timestamps cannot be packed (`IntegerPacks`), and CHAR values lose trailing white space
  (`ColumnRoundTrip`).

`dafny verify dfyconfig.toml` checks the whole project.

## Model

| member | source | states |
|---|---|---|
| BPlusTrees.BPlusTree.BisectRight | pysql/storage/btree.py:571-584 | The index returned has every key before it at most the target and every key from it on above the target. |
| BPlusTrees.BPlusTree.FindLeaf | pysql/storage/btree.py:558-568 | The descent ends in the one leaf whose span holds the key. |
| BPlusTrees.BPlusTree.Search | pysql/storage/btree.py:102-111 | The value bound to the key in the map the tree stands for, or nothing if it is unbound. |
| BPlusTrees.BPlusTree.LeftmostLeaf | pysql/storage/btree.py:158-161 | Going down by first children ends in a leaf with no lower bound. |
| BPlusTrees.BPlusTree.RangeScan | pysql/storage/btree.py:137-182 | For every mix of closed, open and missing bounds: exactly the bindings within them, strictly ascending. |
| BPlusTrees.ChainAdvances | pysql/storage/btree.py:163-182 | The chain never returns to a leaf already scanned, so the scan ends. |
| BPlusTrees.PassLeaf | pysql/storage/btree.py:163-182 | Moving to the next leaf passes exactly the keys of this one; no bound key lies between two neighbours of the chain. |
| BPlusTrees.BPlusTree.InsertUnique | pysql/storage/btree.py:203-215 | A present key leaves the tree as it was and gives False; an absent one is bound, every other binding kept; order, bounds, depth, occupancy, parents, chain, size and height stay right. |
| BPlusTrees.BPlusTree.InsertIntoLeaf | pysql/storage/btree.py:217-227 | The binding is added and the tree is sound again, however far splits go up. |
| BPlusTrees.BPlusTree.SplitLeaf | pysql/storage/btree.py:229-257 | A leaf holding `order` keys is split and the tree made sound without changing its bindings. |
| BPlusTrees.BPlusTree.DetachUpperBindings | pysql/storage/btree.py:235-253 | The step-by-step split of a leaf, with the four links of the chain, is the transformation SplitLeaf. |
| BPlusTrees.BPlusTree.InsertIntoParent | pysql/storage/btree.py:259-290 | A split-off node gets its place in the parent or under a new root; the recursion towards the root ends with a sound tree. |
| BPlusTrees.BPlusTree.SplitInternal | pysql/storage/btree.py:292-316 | An overfull internal node is split, its middle key pushed up, without changing the bindings. |
| BPlusTrees.BPlusTree.Delete | pysql/storage/btree.py:320-354 | True exactly when the key was bound; exactly that binding goes; through borrowing, merging and root collapse the tree stays sound, its size right, and the height falls only when the root goes, never where the leaf has a key to spare; there nothing changes but the leaf, and the separator to its left if its first key went. |
| BPlusTrees.BPlusTree.UpdateParentKey | pysql/storage/btree.py:460-468 | The separator to the left of a leaf, wherever in the tree, becomes its first key; nothing else changes and the tree stays sound. |
| BPlusTrees.BPlusTree.HandleUnderflow | pysql/storage/btree.py:356-392 | A node one key short takes a key from its left sibling if that one can spare one, else from the right one if that one can, and else is merged, with the left one if there is one; recursively, ending with a sound tree and the same bindings. |
| BPlusTrees.BPlusTree.RedistributeFromLeft | pysql/storage/btree.py:394-411 | Borrowing from the left, step by step, is re-splitting the joined keys and children one place earlier; the sibling has one key less. |
| BPlusTrees.BPlusTree.RedistributeFromRight | pysql/storage/btree.py:413-427 | Borrowing from the right, step by step, is re-splitting the joined keys and children one place later; the sibling has one key less. |
| BPlusTrees.BPlusTree.MergeNodes | pysql/storage/btree.py:429-458 | After a merge the parent is repaired or the root gives way to its only child; bindings stay; the height falls by one when the root has gone, and otherwise stays with it. |
| BTreeInsert.AddKeeps | pysql/storage/btree.py:217-222 | A binding put at its place in the right leaf is the only change to the bindings; all nodes but that leaf keep every clause of the invariant. |
| BTreeInsert.SplitLeafKeeps | pysql/storage/btree.py:229-253 | Splitting a leaf keeps every clause, up to the new leaf's missing place in a parent. |
| BTreeInsert.GrowKeeps | pysql/storage/btree.py:267-278 | A new root over two halves gives a sound tree one level higher. |
| BTreeInsert.AttachKeeps | pysql/storage/btree.py:280-289 | Giving the new half its separator and place keeps every clause but the parent's size. |
| BTreeInsert.SplitInternalKeeps | pysql/storage/btree.py:292-313 | Splitting an internal node, with its moved children's parents, keeps every clause up to the new node's place. |
| BTreeInsert.SiblingKeysDiffer | pysql/storage/btree.py:283 | Two children of a node never have the same list of keys, even in the middle of a repair: comparing nodes by content finds the node itself. |
| BTreeDelete.RemoveKeeps | pysql/storage/btree.py:340-342 | Taking out one key removes exactly its binding and leaves only that leaf possibly short. |
| BTreeDelete.ResplitKeeps | pysql/storage/btree.py:399-404 | Sharing two neighbouring leaves' bindings out anew, with the new separator, keeps every clause. |
| BTreeDelete.SiblingsChained | pysql/storage/btree.py:434-439 | Neighbouring leaves under one parent are neighbours in the chain, both ways. |
| BTreeMerge.ResplitInnerKeeps | pysql/storage/btree.py:405-427 | Rotating a key and a child through the parent keeps every clause, the child's parent included. |
| BTreeCollapse.MergeLeavesKeeps | pysql/storage/btree.py:434-449 | Merging a leaf into its left neighbour, unlinking it from chain and parent, keeps every clause but the parent's size. |
| BTreeCollapse.MergeInnerKeeps | pysql/storage/btree.py:440-449 | Merging internal nodes around the separator keeps every clause but the parent's size. |
| BTreeCollapse.CollapseKeeps | pysql/storage/btree.py:452-456 | A root left with one child can be dropped: the child is a sound root, the height one less. |
| BTreeShape.SpansDisjoint | pysql/storage/btree.py:558-568 | Two nodes of one level never share a key range: a key belongs to one leaf. |
| BTreeHeight.LeavesEquallyDeep | pysql/storage/btree.py:64-70 | A path from the root ends in a leaf exactly when it visits `height` nodes. |
| BTreeHeight.LogarithmicHeight | pysql/storage/btree.py:84 | A tree of height h >= 2 holds at least 2 m (m+1)^(h-2) keys, m = (order-1)//2. |
| BTreeHeight.SubtreeCount | pysql/storage/btree.py:84 | Below a node at level l other than the root lie at least m (m+1)^l keys. |
| BTreeHeight.LeavesFallShort | pysql/storage/btree.py:67-84 | For any order: some sound tree has a leaf below the root with fewer than the documented ceil((order-1)/2) keys exactly when the order is even. |
| BPlusTrees.BPlusTree.MakeShortLeaf | pysql/storage/btree.py:203-257 | For every even order, insertions into a new tree, and a deletion if need be, lead to a leaf below the root with fewer than the documented number of keys. |
| BTreeHeight.ChildrenAsDocumented | pysql/storage/btree.py:66-68 | Every internal node but the root has between ceil(order/2) and `order` children, and the root at least two: this half of the class comment is kept. |
| BTreeHeight.ChainIsInOrder | pysql/storage/btree.py:248-253 | The next and previous links of the leaves are those of the tree read left to right, and end where it ends. |
| RaftNodes.RaftNode.HandleRequestVote | pysql/raft.py:118-141 | A vote is granted exactly for a term not below the own one, where no other candidate has it in that term, and a log that ends in a later term or as far in the same one; the fields and the reply are those of the vote rule. |
| RaftNodes.RaftNode.HandleAppendEntries | pysql/raft.py:143-182 | The handler, entry by entry, gives exactly the node and reply of the append rule: stale term, gap, conflict, acceptance. |
| RaftNodes.AppendGives | pysql/raft.py:143-182 | Case by case what the append rule does to term, role, vote, commit index and applied commands, and what it answers. |
| RaftNodes.AppendGivesLog | pysql/raft.py:157-171 | A gap leaves the log, a conflict before the entries cuts it there, and otherwise consecutive entries replace the log from the first that differs in term, or extend it. |
| RaftNodes.PlacedIs | pysql/raft.py:162-171 | Placing consecutive entries one by one replaces the log from the first that clashes in term on; where none does it adds those beyond its end, and keeps a longer log. |
| RaftNodes.RaftNode.BeginElection | pysql/raft.py:186-200 | A new term, a vote for itself, and the list returned: every peer in order, each with that term and the last entry of the log. |
| RaftNodes.RaftNode.PromoteToLeader | pysql/raft.py:202-207 | Leader, with every next index one past the log and every match index 0. |
| RaftNodes.RaftNode.ProposeCommand | pysql/raft.py:209-220 | A leader appends one entry of its term at the index returned; any other node does nothing. |
| RaftNodes.RaftNode.UpdateLeaderCommit | pysql/raft.py:222-246 | The commit index becomes the greatest index beyond it whose entry has the current term and is held, by the match indices, by more than half of the cluster; True exactly when there is one. |
| RaftNodes.CommittableIs | pysql/raft.py:229-244 | The rule asks for the current term and for more than half of the members, counting the leader. |
| RaftNodes.RaftNode.ApplyEntries | pysql/raft.py:248-254 | Applying in a loop appends exactly the commands of the newly committed entries, in order. |
| RaftNodes.HighestCommittable | pysql/raft.py:229-244 | It is the greatest committable index above the commit index, if there is one. |
| RaftNodes.CommandsAppend | pysql/raft.py:248-254 | Applying in two batches is applying in one. |
| RaftProgress.GrantedExactly | pysql/raft.py:118-141 | In any reachable state, asked for a later term, a node grants its vote exactly when the last entry of the asking log has a later term than its own last one, or the same term and the log is at least as long. |
| RaftProgress.LongerLogGranted | pysql/raft.py:128-139 | In any reachable state a request for a later term from a node whose log extends the own one is granted. |
| RaftProgress.OneWouldGrant | pysql/raft.py:128-139 | Of any two nodes of a reachable state at least one would grant the other such a request. |
| RaftProgress.LongestCanLead | pysql/raft.py:118-207 | From any reachable state a node whose log extends every other can by enabled steps be made leader, its log as it was. |
| RaftProgress.LeaderCanCommit | pysql/raft.py:143-254 | From there, whatever it is then asked to propose it can by enabled steps replicate, commit and apply. |
| RaftProgress.NeverStuck | pysql/raft.py:118-254 | From every reachable state of a cluster that has members any command can still be proposed, committed and applied. |
| RaftSafety.NextInv | pysql/raft.py:118-254 | Every step of the cluster keeps the invariant over nodes, messages and history. |
| RaftSafety.RunHistory | pysql/raft.py:118-254 | Every run has a history with which each of its states satisfies the invariant. |
| RaftElections.TimeoutKeeps | pysql/raft.py:186-200 | Starting an election keeps the invariant. |
| RaftElections.VoteKeeps | pysql/raft.py:118-141 | Answering a vote request keeps the invariant, though a vote may have been cleared in the same term. |
| RaftElections.FirstElected | pysql/raft.py:148-151 | A candidate with a majority of grants is the first elected in its term. |
| RaftElections.PromoteKeeps | pysql/raft.py:202-207 | Promotion with a majority keeps the invariant; the new leader's log holds all committed entries. |
| RaftLemmas.UpToDateCarries | pysql/raft.py:128-139 | The up-to-date check passes committed entries on from voter to candidate, or an earlier leader already lacked them. |
| RaftLemmas.LeaderHolds | pysql/raft.py:11-13 | Every leader of a later term holds every committed entry. |
| RaftReplication.ProposeKeeps | pysql/raft.py:209-220 | Proposing keeps the invariant. |
| RaftReplication.SendKeeps | pysql/raft.py:143-182 | Sending a slice of the leader's log keeps the invariant. |
| RaftReplication.AppendKeeps | pysql/raft.py:143-182 | Handling any append message, old, duplicated or reordered, keeps the invariant. |
| RaftReplication.PlacedMerged | pysql/raft.py:162-171 | Placing a leader's entries over a log gives the leader's log that far, and keeps the old tail only if nothing conflicted. |
| RaftReplication.HoldersMajority | pysql/raft.py:229-244 | An index with enough credits is held by a majority of the members. |
| RaftReplication.CreditKeeps | pysql/raft.py:222-246 | Crediting a follower with no more than it was sent keeps the invariant. |
| RaftReplication.AdvanceKeeps | pysql/raft.py:222-246 | Advancing the commit index keeps the invariant. |
| RaftSafety.ElectionSafety | pysql/raft.py:8 | In any run at most one promotion happens in a term. |
| RaftSafety.OneLeaderPerTerm | pysql/raft.py:8 | At any moment two leaders of one term are the same node. |
| RaftSafety.LeaderAppendOnly | pysql/raft.py:9 | From any moment at which a node leads a term to any later moment at which it leads that term, its log has only been extended. |
| RaftSafety.LogMatching | pysql/raft.py:10-11 | In any reachable state each entry sits at its own index, and two logs with an entry of the same index and term agree up to it. |
| RaftSafety.LogMatchingInFlight | pysql/raft.py:10-11 | The same between a log and the entries of any message in flight. |
| RaftSafety.LeaderCompleteness | pysql/raft.py:12-13 | What a leader commits is in the log of every leader of that term or later, at every later moment. |
| RaftSafety.MachineGrowsTo | pysql/raft.py:14-15 | What a node has applied is never taken back. |
| RaftSafety.StateMachineSafety | pysql/raft.py:14-15 | In any run, of the command sequences any two nodes have applied at any two moments one is a prefix of the other. |
| RaftSafety.LogsNeverEmpty | pysql/raft.py:109-115 | No run empties a log, so the last entry can always be looked at. |
| RaftFindings.VoteLost | pysql/raft.py:148-151 | In any run, a step within a term changes a vote already given exactly when it delivers, to a candidate, an append message of that term. |
| RaftFindings.TwoVotesInOneTerm | pysql/raft.py:148-151 | A run in which a node votes twice in a term: for itself, and, a message from the leader of that term having cleared its vote, for that leader. |
| RaftFindings.CommitsBeyondMessage | pysql/raft.py:173-182 | For an accepted message with consecutive entries: the commit index moves past what was shown exactly when the log reached further before the call, no entry conflicts in term, and the message's commit index is beyond both. |
| RaftFindings.CommitRuleIsNeeded | pysql/raft.py:173-182 | If a leader may send a commit index beyond the last entry sent, all other rules being kept, there is a run in which two nodes apply different commands at one index. |
| RaftFindings.VouchesForMore | pysql/raft.py:178-182 | The match index in the answer to an accepted message with consecutive entries is beyond what was shown exactly when the log reached further before the call and no entry conflicts in term. |
| RaftFindings.CreditRuleIsNeeded | pysql/raft.py:178-182 | If a leader may credit a follower with that match index though it sent less, all other rules being kept, there is a run in which two nodes apply different commands at one index. |
| MvccManagers.MvccManager.BeginTransaction | pysql/mvcc.py:182-208 | A new identifier, and a snapshot of who is active, of the least of them, and of who has committed; nobody else's entry changes. |
| MvccManagers.MvccManager.CommitTransaction | pysql/mvcc.py:210-233 | True exactly for an active transaction that shares no written item with another one listed as active whose state is committed; then it counts as committed and nothing else changes; else an active one is rolled back. |
| MvccManagers.MvccManager.DoAbort | pysql/mvcc.py:240-265 | Every chain loses its newest version if the transaction made it, and then the mark of the transaction on the newest one left; a chain with nothing left goes. |
| MvccManagers.MvccManager.WriteVersion | pysql/mvcc.py:267-305 | Let through exactly when there is no chain or its newest version is not ended, ended by the writer, or ended by one no longer active; then that version is marked and the new one put on top, and else nothing changes. |
| MvccManagers.MvccManager.ReadVersion | pysql/mvcc.py:307-330 | The loop gives what Walk says, and, with a snapshot in which nobody is both active and committed, the data of the newest version made and not ended by the reader or a committed one, or nothing; only the read set changes. |
| MvccStore.WalkIs | pysql/mvcc.py:72-110 | With a snapshot in which nobody is both active and committed the visibility rule finds the newest version made and not ended by the reader or a committed one, by its position in the chain. |
| MvccUnchecked.ReadsNewest | pysql/mvcc.py:72-110 | At every moment of a run of any operations each read by any transaction ever begun returns the newest version that it or one known to it has made and none of them has ended, and nothing where there is none. |
| MvccManagers.MvccManager.DeleteVersion | pysql/mvcc.py:332-353 | Let through exactly when there is a chain and its newest version is not ended, ended by the deleter, or ended by one no longer active; then that version is marked, and else nothing changes. |
| MvccManagers.MvccManager.GarbageCollect | pysql/mvcc.py:355-387 | Every chain is cut below its first version but the newest that a committed transaction older than every active one has ended, if anything is below it; the number of chains cut is returned. |
| MvccManagers.TrimCuts | pysql/mvcc.py:367-385 | So does the function behind it, chain by chain. |
| MvccUnchecked.AlwaysWellFormed | pysql/mvcc.py:182-387 | At every moment of a run of any operations the manager's methods can be called: what is active is known and no chain is empty. |
| MvccReads.ReadIsSee | pysql/mvcc.py:72-110 | On the chains of writers that keep the discipline the visibility rule finds the newest version whose creator is in view, unless its end is in view too. |
| MvccReads.WriteSeen | pysql/mvcc.py:284-303 | A write under the discipline is seen by its author at once and by no other view. |
| MvccUnchecked.Resurrects | pysql/mvcc.py:286-305 | At every moment of a run of any operations a write over an end that has committed is let through, and what had been deleted is brought back for everyone who begins later. |
| MvccReads.UndoSeen | pysql/mvcc.py:246-265 | Rolling back changes no view that the transaction is not part of. |
| MvccReads.CommitSeen | pysql/mvcc.py:230-232 | Committing publishes exactly what the transaction read of the items it wrote. |
| MvccReads.CollectSeen | pysql/mvcc.py:375-385 | A cut changes what an active transaction sees exactly when it is not harmless. |
| MvccKeeps.WriteKeeps | pysql/mvcc.py:267-305 | A write, refused or under the discipline, keeps the invariant of chains, snapshots and write sets. |
| MvccKeeps.DeleteKeeps | pysql/mvcc.py:332-353 | So does a delete. |
| MvccKeeps.CommitKeeps | pysql/mvcc.py:210-233 | So does a commit. |
| MvccKeeps.AbortKeeps | pysql/mvcc.py:240-265 | So does an abort. |
| MvccKeeps.CollectKeeps | pysql/mvcc.py:355-387 | So does a collection. |
| MvccKeeps.WritersKnown | pysql/mvcc.py:25-26 | Whoever has written an item knows, from its snapshot, every committed writer of it. |
| MvccIsolation.SnapshotIsolation | pysql/mvcc.py:25 | Over every run that keeps the discipline each read returns what the abstract store returns: the rows committed at begin, overlaid with own writes. |
| MvccIsolation.NextAgrees | pysql/mvcc.py:182-387 | Each operation, refused or not, matches the abstract store's step; collection matches no step at all. |
| MvccIsolation.NoLostUpdates | pysql/mvcc.py:26 | Of two committed writers of one item one had committed before the other began. |
| MvccIsolation.ActiveWritersApart | pysql/mvcc.py:26 | Two active transactions never hold the same item. |
| MvccUnchecked.CommitSucceeds | pysql/mvcc.py:217-233 | At every moment of a run of any operations whatever, commit succeeds exactly when the transaction is active: the check for conflicts never turns one away, whoever has written what it wrote. |
| MvccUnchecked.LosesUpdates | pysql/mvcc.py:221-232 | A run in which only running transactions write keeps committed writers of an item in order exactly when none of its commits is of a transaction with an item that a committed transaction outside its snapshot has written: the check that commit would need. |
| MvccAbort.AbortRestores | pysql/mvcc.py:246-265 | An abort puts back the version found at the first write, or its absence, exactly when the transaction has put at most one version on the item. |
| MvccAbort.AbortErases | pysql/mvcc.py:240-265 | An abort changes no chain its transaction has not written, no other transaction's reads and nothing for those to come. |
| MvccFindings.CollectInvisible | pysql/mvcc.py:355-387 | In every store reached by writers that keep the discipline a collection changes a transaction's read of an item exactly when the first dead version was made and ended by one transaction, unknown to it, that did not also make the last version; never what later transactions read. |
| MvccStrict.StrictRunIsRun | pysql/mvcc.py:355-387 | If writers, besides the discipline, put no version on top of their own, collections may come at any time: each of them is harmless, though nothing is asked of them. |
| MvccStrict.StrictSnapshotIsolation | pysql/mvcc.py:25 | Over every such run, with unrestricted collection, each read returns what the abstract store returns. |
| MvccStrict.CollectionUnseen | pysql/mvcc.py:355-387 | At every moment of such a run a collection would change no active transaction's read of any item, nor what those to come will read. |
| MvccUnchecked.CollectUnseen | pysql/mvcc.py:355-387 | In any store whatever a collection leaves a transaction's read as it was exactly when there is nothing to cut, a version down to the first dead one is visible to it, or none below is. |
| MvccUnchecked.HarmlessNotEnough | pysql/mvcc.py:375-385 | Without the discipline a collection takes a row from a running transaction though no two versions of it have one creator. |
| MvccFindings.CollectTakesRow | pysql/mvcc.py:375-385 | A run in which a collection takes a row away from a running transaction. |
| MvccFindings.FirstUpdaterWins | pysql/mvcc.py:286-292 | In every store reached by writers that keep the discipline, after any write that is let through its author knows all other running or committed writers of the item exactly when nobody else active holds the newest version and the newest committed one was neither made nor ended by a commit unknown to it. |
| MvccUnchecked.KnowsOnlyIfUpToDate | pysql/mvcc.py:286-292 | Over runs of any operations that condition is necessary, and a writer the check refuses never knows all others. |
| MvccUnchecked.UpToDateNotEnough | pysql/mvcc.py:286-292 | Without the discipline it is not sufficient: a run in which a writer is up to date and let through and does not know another committed writer. |
| MvccUnchecked.UpdateLost | pysql/mvcc.py:221-228 | A run in which two concurrent transactions write the same item, both are let through, and both commit, the second though it was overtaken. |
| MvccFindings.DeleteTakesEffect | pysql/mvcc.py:332-353 | In every store reached by writers that keep the discipline, a delete that is let through and committed leaves nothing for later transactions to read exactly when the newest version's creator is the deleter or committed, or no version has a committed creator. |
| MvccFindings.DeleteWithoutEffect | pysql/mvcc.py:252-265 | A run to such a state: after a double write is rolled back, a delete is accepted and commits and the row stays. |
| MvccFindings.AbortAnyTime | pysql/mvcc.py:240-265 | For every transaction, committed or not, in every store reached by writers that keep the discipline: rolling back changes a chain exactly when the transaction made or ended its newest version; and what later transactions then read. |
| MvccFindings.AbortAfterCommit | pysql/mvcc.py:240-244 | A run after which aborting a committed transaction takes its row away. |
| ExprRoundTrip.ParseUndoesPrint | pysql/parser.py:16-31 | The minimally bracketed tokens of any expression the parser can build parse to that expression, and all are consumed. |
| ExprRoundTrip.ParsePrinted | pysql/parser.py:737-955 | The same at every level of precedence and before any token that cannot continue the expression. |
| ExprDerivations.ParsesExactly | pysql/parser.py:737-983 | Up to a closing bracket, a comma or the end the parser returns a tree exactly when the grammar derives it from the tokens read: names quoted or not, any extra brackets, chains to the left, each operator at its level. |
| ExprDerivations.DerivedParses | pysql/parser.py:737-983 | Every stretch of tokens the grammar derives at a level, before a token that cannot continue it, is read as the tree it is derived for. |
| ExprDerivations.ParsedDerives | pysql/parser.py:737-983 | Whatever is accepted, and whatever follows, the grammar derives the tree returned from exactly the tokens read. |
| ExprDerivations.DerivesOneTree | pysql/parser.py:16-31 | The grammar gives such a stretch of tokens one tree. |
| ExprErrors.ErrorIsLate | pysql/parser.py:737-983 | Where an error is raised, the tokens before that position can be completed to an expression that parses. |
| ExprErrors.ErrorIsEarly | pysql/parser.py:737-983 | Whatever is put in place of the tokens after that position and the next one, the same error is raised there. |
| ExprRoundTrip.PrintedComparison | pysql/parser.py:792-849 | Printed comparisons, IS NULL, BETWEEN, IN and LIKE, negated or not, are derived by the grammar, for the tree printed. |
| ExprRoundTrip.PrintedCall | pysql/parser.py:958-970 | So are printed function calls, with or without arguments and DISTINCT. |
| ExprRoundTrip.Built | pysql/parser.py:737-983 | Whatever the parser accepts is a tree with no empty IN list and no empty list after DISTINCT. |
| ExprRoundTrip.PrintKeepsMeaning | pysql/parser.py:737-983 | Printing what was parsed with only the brackets it needs, and parsing again, gives the same tree. |
| ExprRoundTrip.PrintTellsApart | pysql/parser.py:29-31 | Different trees are printed differently. |
| ExprEnds.QualifiedTakesAny | pysql/parser.py:972-975 | After a name and a dot any token whatever is taken for the column. |
| ExprEnds.PassesEndMark | pysql/parser.py:737-983 | Of all parses that succeed exactly those leave the cursor past the end that used every token before the end mark, the last two being a name and a dot. |
| ExprEnds.DotTakesEndMark | pysql/parser.py:972-975 | A name and a dot with nothing after them is such a parse. |
| ExprEnds.LeavesNoOperator | pysql/parser.py:765-887 | A parse that succeeds has not stopped before an operator it could have taken: one without an operand is an error. |
| ExprEnds.TakesSuffix | pysql/parser.py:792-849 | Where what follows an addition begins a comparison, IS, BETWEEN, IN or LIKE, negated or not, it is taken or an error; elsewhere nothing is. |
| ExprParsers.Parser.ParseOrExpr | pysql/parser.py:765-773 | The loop gives what the grammar function says and leaves the cursor there; likewise every method below. |
| ExprParsers.Parser.ParseAndExpr | pysql/parser.py:775-783 | As above, for AND. |
| ExprParsers.Parser.ParseNotExpr | pysql/parser.py:785-790 | As above, for NOT. |
| ExprParsers.Parser.ParseComparison | pysql/parser.py:792-849 | As above, with the look past NOT before BETWEEN, IN and LIKE. |
| ExprParsers.Parser.ParseAddition | pysql/parser.py:851-868 | As above, for +, - and ||. |
| ExprParsers.Parser.ParseMultiplication | pysql/parser.py:870-887 | As above, for *, / and %. |
| ExprParsers.Parser.ParseUnary | pysql/parser.py:889-894 | As above, for unary minus. |
| ExprParsers.Parser.ParsePrimaryExpr | pysql/parser.py:896-983 | As above, for literals, brackets, names and *. |
| ExprParsers.Parser.ParseExpressionList | pysql/parser.py:741-748 | The list is read in order up to the first missing comma. |
| BufferPools.BufferPool.FetchPage | pysql/storage/buffer_pool.py:85-131 | The page with its latest content, pinned once more and marked as used; a missing page takes the frame of the victim, whose page leaves the table and is written back if it was dirty; no other frame changes but for bits; an error exactly when all frames are pinned or there is no such page, and in the latter case the pool stays sound exactly when a frame was empty. |
| BufferPools.BufferPool.NewPage | pysql/storage/buffer_pool.py:133-163 | The store grows by one page whether or not a frame is found for it; if one is, it is the victim's, and holds the new page pinned and dirty. |
| BufferPools.BufferPool.UnpinPage | pysql/storage/buffer_pool.py:165-188 | One pin less exactly when there was one; the pool stays sound exactly when, at the last unpin, it knows of every change to the page, or the disk holds the content all the same. |
| BufferPools.BufferPool.FlushPage | pysql/storage/buffer_pool.py:190-207 | The disk holds the page's latest reported content; no other page on disk and no other frame changes. |
| BufferPools.BufferPool.FlushAll | pysql/storage/buffer_pool.py:209-220 | Afterwards the disk holds the latest content of every page, unreported changes aside; exactly the dirty pages are written. |
| BufferPools.BufferPool.DeletePage | pysql/storage/buffer_pool.py:222-240 | Refused exactly for a pinned page; the page leaves the table and its frame is empty; a dirty page's content falls back to what is on disk. |
| BufferPools.BufferPool.Sweep | pysql/storage/buffer_pool.py:280-300 | From the hand on, the first unpinned frame not used since the hand last passed it, or the first unpinned one if all have been used; exactly the unpinned frames passed lose their bit; the hand stands one past the victim; none exactly when all are pinned. |
| BufferPools.Found | pysql/storage/buffer_pool.py:283-297 | The frame at which the stepping hand stops is that frame, whichever round it is in, and the bits left are those of the frames not passed. |
| BufferPools.BufferPool.FindVictimFrame | pysql/storage/buffer_pool.py:264-300 | The first empty frame, bits and hand untouched, else the one the sweep chooses; none exactly when all are taken and pinned. |
| BufferPools.OneVictim | pysql/storage/buffer_pool.py:264-300 | There is never more than one frame that may be chosen. |
| SlottedPages.Page.InsertRecord | pysql/storage/page.py:208-246 | Nothing happens exactly when the test on free space fails; else the record stands under the first deleted slot, or a new one if none is, and no other record changes, unless its data begin before the page; the data stay clear of the directory exactly when the gap was large enough. |
| SlottedPages.Page.ReadRecord | pysql/storage/page.py:248-260 | The record under the slot, or nothing for a deleted or missing slot. |
| SlottedPages.Page.UpdateRecord | pysql/storage/page.py:262-294 | The record is replaced under its own slot; one that has to move and fails the test is lost; one that passes it with too small a gap is laid over the directory; exactly when each happens. |
| SlottedPages.Page.DeleteRecord | pysql/storage/page.py:296-311 | Exactly that record goes; the free space grows by its length. |
| SlottedPages.Page.Compact | pysql/storage/page.py:313-338 | The same records under the same slots, the free space unchanged and now in one piece. |
| SlottedPages.Page.ToBytes | pysql/storage/page.py:183-198 | The bytes decode to the page's header and slots and carry their own checksum; the bytes hold exactly those records of which header and directory change no byte, so all of them if the records lie clear of the directory. |
| SlottedPages.BytesRoundTrip | pysql/storage/page.py:166-204 | Reading back a written page gives its header, slots and records, and the checksum verifies. |
| SlottedPages.LiveBytesFit | pysql/storage/page.py:208-246 | The lengths of records that do not overlap add up to no more than the data region. |
| SlottedPages.Page.GapWithinFreeSpace | pysql/storage/page.py:208-246 | On every page the free space is never less than the gap. |
| SlottedPages.Page.RoomForAll | pysql/storage/page.py:217 | On a sound page every record that passes the test on free space finds room exactly when none passes it, or the holes hold no more than one slot where a deleted slot can be reused, and nothing otherwise. |
| SlottedPages.Page.MakeHole | pysql/storage/page.py:208-311 | Insertions and a deletion that lead to a page where a record passes the test and the gap is too small for it. |
| SlottedPages.PackedOk | pysql/storage/page.py:327-333 | Packed records are in the data region, do not overlap and are as long as before. |
| PageBytes.HeaderRoundTrip | pysql/storage/page.py:109-144 | The ten fields of a header survive packing and unpacking. |
| PageBytes.SlotsRoundTrip | pysql/storage/page.py:82-88 | So do the slots of a directory. |
| PageBytes.HeaderLayout | pysql/storage/page.py:109-124 | At which of the 32 bytes each of the ten fields stands, highest byte first, and what stands for a negative sequence number. |
| PageBytes.HeaderReads | pysql/storage/page.py:126-144 | Any 32 bytes are read as a header unless the fifth is no page type, and it is the header written as these bytes. |
| PageBytes.SlotLayout | pysql/storage/page.py:82-83 | Each slot takes four bytes: where its record begins, then how long it is. |
| PageBytes.SlotsRead | pysql/storage/page.py:85-88 | Any bytes of a directory are read as the slots that are written as these bytes. |
| PageBytes.CheckedCovers | pysql/storage/page.py:183-204 | Two pages agree on what the checksum is taken over exactly when they agree on all bytes but the four that hold it. |
| RecordCodec.ColumnRoundTrip | pysql/types.py:134-375 | A value that can be written comes back exactly when it is no CHAR ending in white space, ASCII or not, nor longer than its column, nor negative; the reader then moves on by as much as was written. |
| RecordCodec.Encodes | pysql/types.py:134-375 | Exactly which values of which type can be written; all others raise an error. |
| RecordCodec.ColumnLayout | pysql/types.py:134-375 | How each type is laid out: integers and timestamps as the value plus 2^63 in eight bytes, floats by their rank, text after its length, CHAR padded with spaces. |
| RecordCodec.ReadAsWritten | pysql/types.py:179-181 | Any eight bytes are read as the integer, timestamp or float that is written as these bytes. |
| RecordCodec.DecodesAnything | pysql/types.py:134-375 | What any stored bytes of the other types are read as, short or damaged ones included. |
| RecordCodec.FlipOrders | pysql/types.py:159-181 | Flipping the sign bit adds 2^63 to the low 64 bits, so that over the whole signed range they sort as the numbers do. |
| Utf8s.TextIsUtf8 | pysql/types.py:246-258 | The bytes taken for text are exactly the UTF-8 encodings of sequences of characters. |
| Utf8s.StripIsRStrip | pysql/types.py:313 | Stripping a text's bytes strips exactly the white space characters at its end. |
| RecordCodec.StripKeepsText | pysql/types.py:313 | Stripping white space, characters of several bytes included, off the end of valid UTF-8 leaves valid UTF-8 that ends in none. |
| RecordCodec.IntegersSort | pysql/types.py:159-181 | Integers that can be stored sort by their bytes as by their values. |
| RecordCodec.FloatsSort | pysql/types.py:196-231 | All float bit patterns sort by their bytes as by their values. |
| RecordCodec.IntegerPacks | pysql/types.py:172-186 | Of the integers the type admits exactly those that are not negative can be packed. |
| RecordRows.RowRoundTrip | pysql/storage/heap.py:94-149 | For every schema a row that can be written comes back exactly when each value other than NULL survives. |
| RecordRows.RowLayout | pysql/storage/heap.py:94-124 | A row can be written exactly when each value other than NULL can, and is its bitmap followed by its columns. |
| RecordRows.ColumnsAppend | pysql/storage/heap.py:116-124 | Columns stand in schema order: a column more adds its bytes at the end, or nothing if it is NULL. |
| RecordRows.RowReads | pysql/storage/heap.py:126-149 | Any bytes are read as given values exactly when each column not marked NULL is decoded from where the one before it ends. |
| RecordRows.BitmapMarks | pysql/storage/heap.py:108-114 | A bit of the bitmap is set exactly for the NULL columns. |
| RecordRows.BitmapLayout | pysql/storage/heap.py:108-114 | Byte j of the bitmap holds columns 8 j to 8 j + 7, the first of them in its lowest bit. |
| RecordRows.RecordSerializer.Serialize | pysql/storage/heap.py:94-124 | The loops over bits and columns build exactly the row's bytes, or fail where a value cannot be packed. |
| RecordRows.RecordSerializer.Deserialize | pysql/storage/heap.py:126-149 | The loop over offsets reads exactly the columns that stand there. |

## Left out

- Raft crashes, restarts, persistence and membership change: there is no code for them. Timers are steps that may happen at any time; command callbacks are the list of commands applied.
- Raft's sender, vote counter and reply handling: not in the source; they are the rules of `RaftCluster.Enabled`, and the theorems hold for senders that keep them.
- B+tree keys are integers and values are integers that are never looked at; keys are unique. `insert` and `search_all` with equal keys, `bulk_load`, `get_min`, `get_max` and printing are not modelled.
- B+tree nodes are records in a map, not heap objects: a merged node or a dropped root is removed from the map where the source merely stops referring to it. Comparing nodes with `==` is modelled as identity, which it is for distinct siblings.
- Version chains are sequences held in a map, not linked objects; no two items share a version. Times, locks, isolation levels other than snapshot and the uncached branch of `is_committed` are not modelled.
- SnapshotIsolation: holds for runs that keep the writers' discipline and collect only when harmless, because the source checks neither; `StrictSnapshotIsolation` asks nothing of collections but more of writers.
- NextAgrees: collection is a step of these runs only when harmless, as for SnapshotIsolation.
- NoLostUpdates: holds under the same discipline, which the source does not enforce; `LosesUpdates` is exact without it.
- StateMachineSafety: holds for senders and vote counters that keep the rules of `RaftCluster.Enabled`, because the source has none.
- ErrorIsLate: the tokens are completed within the expressions modelled; a subquery is an error where SELECT stands.
- Of the parser: statements, subqueries, CASE, CAST, EXISTS, aggregate functions and the lexer. Tokens are given; numbers are kept as their text. The cursor of a parser that has raised an error is not described.
- The buffer pool's counters and lock; the disk is a sequence of page contents, and a user's change to a page it holds is the step `ChangePage`.
- ParseComparison: IN with a subquery is an error here, because SELECT statements are not modelled.
- ParsePrimaryExpr: subqueries, CASE, CAST, EXISTS and aggregate functions are errors here, because only the expressions of `Expr` are modelled.
- A page grown past its size by an insertion is not described further.
- The checksum is any function to 32 bits. Opening, extending and syncing files is not modelled, nor is the heap file's list of pages.
- Strings are their UTF-8 bytes. Floats are their bit patterns. Values of another type than their column's are not converted.
- Vectorized execution, the lexer, the catalog, the planner, the executor, the write-ahead log and two-phase commit: they would add only easy members, or, as written, do not have the property they are named for.
