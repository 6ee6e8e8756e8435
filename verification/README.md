# NodeTree, modelled and proved in Dafny

NodeTree is a tree store served over unreliable datagrams. This project models its Go
implementation and proves what the parts promise and how they fit together.

- **The tree engine.** Nodes are heap objects whose value, children and parent change in
  place (`TreeHeap`, `TreeSetMethods`, `TreePlanMethods`, `TreeGrowMethods`,
  `TreeGetMethods`, `TreeFlatten`). Each method is proved to leave the heap as a
  specification on snapshots says; a snapshot is one value that holds every node's fields
  (`TreeState`). The theorems are about the specifications: what evaluation returns
  (`TreeRead`), what a Set does on success and on conflict (`UndoLog`, `TreeSet`,
  `TreeSetSafety`, `TreeSetExact`, `TreePlan`, `TreeSetTheorems`, `TreeSetOneMove`,
  `TreeSetFailures`, `TreeTouched`), what a
  Delete removes (`TreeDelete`), what the other operations add (`TreeGrow`), and what holds
  in every state of every run of all of them (`TreeRun`). `TreePaths`, `TreeSetEdits`,
  `TreeSetOneEdit` and `TreeOutcomes` say the same from the caller's side: of chains of
  nodes, of edits and of what their expressions match, without the intermediate plans.
- **Flatten, truncate, continue.** A forest becomes an array with relative pointers
  (`Flatten`), is cut to a byte budget (`Fit`, `WideDip`), and the client's queue drains the
  continuations (`Continuation`): fetching in pieces equals fetching whole, and `GetPages`
  says so of what a session answers. Expressions and
  their escaping are in `Expression`.
- **Reliable delivery.** `Receiver` and `Sender` are the two ends; `ReliableDelivery` runs
  them over a network that loses, duplicates and reorders data and acknowledgements.
- **The codec.** `Ber` is the TLV layer (X.690), `Codec` the specification of every
  message's octets, `CodecMethods` the writers and readers, `CodecRoundTrip` the round trips,
  `CodecOctets` the octets field by field,
  `AckSize` the size of an acknowledgement.
- **Sessions and queries.** `Replies` is the reply cache, `SessionBook` what a session keeps
  track of, for how long, and what follows for runs, `SessionEffects` what each request does,
  `Session` the dispatch, proved against both, `TreeApart` why a session's own nodes stay
  where they are, `SessionPointers` where the expressions lead that a session hands out,
  `QueryRunner` the collect, aggregate, transfer pipeline, `ResultEntries` the
  order of results, `Authz` who may do what.

A Go string is a sequence of bytes. Compiled regular expressions are predicates on strings,
policy patterns likewise. The clock, random identifiers, what aggregation computes, float
equality, the text of a float and the text of an error message are parameters.

## Where the code does less than its comments say

For each, the exact condition under which the property holds is proved, and where the failure
is not plain from it, a concrete input is given as a lemma of its own.

- Rollback replays undo records in the order recorded, so a node written or moved twice in
  one request may come back in an intermediate state (`TreeSet.ConflictLeavesTreeUnchanged`,
  `TreeSetFailures.RollbackLeavesAnIntermediateValue`); if it is a parent that does not come
  back, the invariant is lost (`TreeSetExact.ConflictExact`).
- A next sibling at or before its target doubles list entries
  (`TreeSetSafety.RelinkNextKeepsInv`, `TreeSetSafety.BackwardRelinkDuplicates`).
- Two `newParent` edits can close a parent circle (`TreeSetFailures.TwoMovesCloseACircle`), and
  one `newParent` followed by a sibling relink of the moved node can double a list although
  both look fine beforehand (`TreeSetFailures.MoveThenRelinkDuplicates`);
  `TreeRun.ProperIsExact` says which requests keep the invariant.
- `SplitResumeSuffix` unescapes the base it returns, so some bases do not survive a
  continuation (`Expression.ResumeSuffixSurvives`, `Expression.EscapedAtIsLost`).
- The search in `FitToSize` misses a dip wider than its span (`Fit.ChosenIsLargest`,
  `WideDip.WideDipIsMissed`).
- Integer contents carry one octet too many at exactly -2^(8k-1) (`Ber.IntegerMinimality`).
- The encoder writes a percentile that the decoder refuses (`CodecRoundTrip.MessageRoundTrip`).

## Model

| member | source | states |
|---|---|---|
| TreeState.AppendedKeepsInv | goimpl/internal/tree/tree.go:93-98 | attaching a new node keeps the tree invariant (children owned by their parent, lists free of repeats, parent chains acyclic, root without a parent), gives it an id of its own, and makes at most that node newly reachable |
| TreeState.MovedKeepsInv | goimpl/internal/tree/tree.go:852-855 | a newParent move keeps the invariant if and only if its destination is neither the moved node nor below it |
| TreeState.ShrunkListsKeepInv | goimpl/internal/tree/tree.go:1025-1030 | dropping entries from child lists and changing values keeps the invariant |
| TreeState.RemoveSpec | goimpl/internal/tree/tree.go:1025-1030 | removing one entry from a list without repeats leaves exactly the others, still without repeats |
| TreeState.BelowParent | goimpl/internal/tree/tree.go:626-646 | a node is reachable through child lists exactly when its parent is and still lists it |
| TreeState.AttachedIsBelow | goimpl/internal/tree/tree.go:626-646 | under the invariant, being listed by its parent, and so on upwards to the root, is the same as being reachable through child lists |
| TreeState.BelowIsDescendant | goimpl/internal/tree/tree.go:626-646 | what is reachable through child lists also has its ancestor on its parent chain |
| TreeState.DescendsTransitive | goimpl/internal/tree/tree.go:1058-1071 | being a descendant by parent chain is transitive |
| TreeState.SubtreeShrinks | goimpl/internal/tree/tree.go:272-282 | a child heads a strictly smaller subtree, so the recursive walks over children end |
| TreeRead.WalkIsLevelFiltered | goimpl/internal/tree/tree.go:236-267 | evaluation after k segments is the k-th level of the tree, in document order, kept where the root path matches and each value predicate met a readable node |
| TreeRead.LevelSpec | goimpl/internal/tree/tree.go:236-267 | level k holds each node reachable at depth k once and no other |
| TreeRead.EvaluateMember | goimpl/internal/tree/tree.go:236-267 | a node is returned if and only if it is reachable, lies one level down per segment and its path matches the segments |
| TreeRead.EvaluateHasNoRepeats | goimpl/internal/tree/tree.go:236-267 | no node is returned twice |
| TreeRead.MatchesReadable | goimpl/internal/tree/tree.go:228-261 | every node returned may be read by the caller |
| TreeRead.GetRevealsOnlyReadable | goimpl/internal/tree/tree.go:406-428 | two trees that differ only in values the caller may not read give the same answer to every expression: no value predicate is an oracle |
| TreePaths.PathsAreFound | goimpl/internal/tree/tree.go:236-267 | the end of every chain of nodes from the root down that matches the segments one by one is found: keys by their patterns, a value predicate only on a readable value that has a text, and the end itself readable |
| TreePaths.FoundHasPath | goimpl/internal/tree/tree.go:236-267 | and every node found is the end of such a chain |
| TreePaths.ValueTextReads | goimpl/internal/tree/tree.go:298-317 | the text a value predicate is tried against: octets as they are, an integer in plain decimal that reads back as the integer, sign included |
| TreePaths.NodePathIsKeys | goimpl/internal/tree/tree.go:205-222 | the path by which access to a node is decided is the keys of its chain from the root, each behind a slash |
| TreePaths.GetShows | goimpl/internal/tree/tree.go:273-282 | the array of a Get has, at each index, the key and value of the node there, the nodes being those of each match's subtree, in pre-order, that are readable all the way up to the match |
| TreePaths.ViewNests | goimpl/internal/tree/tree.go:273-282 | what a Get shows of a node is its key, its value and, under it, what it shows of each readable child, in order |
| UndoLog.ReplayRestores | goimpl/internal/tree/tree.go:895-901 | replaying undo records first to last restores every target if and only if each was written once, or its next-to-last write put its first value back |
| TreeSet.ConflictLeavesTreeUnchanged | goimpl/internal/tree/tree.go:875-965 | the error half of all-or-nothing: a conflict at edit k leaves the tree exactly as before if and only if the values written by edits 0..k and the moves of edits before k undo themselves |
| TreeSetFailures.RollbackLeavesAnIntermediateValue | goimpl/internal/tree/tree.go:895-901 | a request of three edits, on a tree of four nodes, that writes a node twice and then names the node as its own first child: it fails with a conflict, and the node comes back with the first of its two new values |
| TreeSet.RollbackParts | goimpl/internal/tree/tree.go:886-905 | after rollback every child list and id is as before the request; values and parents are what the replayed records say |
| TreeSet.SuccessWritesLast | goimpl/internal/tree/tree.go:915-962 | after success each node holds the value of the last planned edit that has it among its targets, and the parent of the last planned move of it; TreeSetEdits.SetWritesLastMatch says which those are |
| TreeSetEdits.SetWritesLastMatch | goimpl/internal/tree/tree.go:800-808 | after a successful Set each node holds the newValue of the last edit that has one and whose target expression matched it before the request, and its own value if none did; however many nodes each target matches |
| TreeSetEdits.SetMovesLastMatch | goimpl/internal/tree/tree.go:838-857 | and its parent is the one match of the newParent expression of the last edit that has one and whose target matched it, or the parent it had |
| TreeSetEdits.SetReportsMatches | goimpl/internal/tree/tree.go:907-913 | a successful Set reports, once each, exactly the nodes matched by an edit that asks for anything |
| TreeSetEdits.PlansExactly | goimpl/internal/tree/tree.go:787-859 | planning accepts an edit if and only if its target parses, is one node for a structural edit, what it writes may be written, its pointers lead to one node each, what its relinks would drop may be deleted, and a move is of a staged node to a writable place outside it; and it is refused for lack of permission if and only if the first of these to fail is one |
| TreeSetEdits.RequestPlans | goimpl/internal/tree/tree.go:783-859 | a request is planned if and only if each edit is plannable on the tree before it, and is refused for lack of permission if and only if the first edit that is not is refused for that |
| TreeSetEdits.ValueEditsSucceed | goimpl/internal/tree/tree.go:800-813 | a request of value edits succeeds if and only if every target parses and every node matched may be written: never does it fail for how many nodes a target matches, none included |
| TreeSetOneEdit.FirstChildEdit | goimpl/internal/tree/tree.go:923-931 | the whole outcome of a Set of one newFirstChild: the list from the named child on, or an empty one, and nothing else changed; or the conflict if it is no child, and the tree as it was |
| TreeSetOneEdit.NextSiblingEdit | goimpl/internal/tree/tree.go:932-942 | the whole outcome of a Set of one newNextSibling: the list up to the target and then from the named sibling on, or the conflict |
| TreeSetOneEdit.ParentEdit | goimpl/internal/tree/tree.go:943-962 | the whole outcome of a Set of one newParent: out of its list, last in the other, with its new parent, and nothing else changed |
| TreeSet.PlanTracks | goimpl/internal/tree/tree.go:915-962 | each edit leaves a record of every value and parent it overwrites and of every list before its first change |
| TreeTouched.TouchedIsFirstSeen | goimpl/internal/tree/tree.go:907-913 | a successful Set reports the nodes it wrote to as the first occurrences of all writes in order |
| TreeTouched.FirstSeenMembers | goimpl/internal/tree/tree.go:907-913 | the report has every written node, none twice |
| TreeTouched.FirstSeenOrder | goimpl/internal/tree/tree.go:907-913 | the report is in the order of first touch |
| TreeSetSafety.RelinkFirstKeepsInv | goimpl/internal/tree/tree.go:1086-1107 | relinking the first child keeps the invariant |
| TreeSetSafety.RelinkNextKeepsInv | goimpl/internal/tree/tree.go:1109-1131 | relinking the next sibling keeps the invariant if and only if the new sibling lies after the target |
| TreeSetSafety.BackwardRelinkDuplicates | goimpl/internal/tree/tree.go:1125-1129 | a sibling at or before the target: the list then holds entries twice |
| TreeSetSafety.ApplyKeepsInv | goimpl/internal/tree/tree.go:875-965 | a successful request keeps the invariant at every one of its edits if and only if each relink goes forward and each move, of a node other than the root, closes no circle, as each is met |
| TreeSetSafety.PlanExact | goimpl/internal/tree/tree.go:915-962 | one edit that succeeds keeps the invariant if and only if it is careful: a list doubled by a backward relink still holds its target after the same edit's move |
| TreeSetExact.SuccessExact | goimpl/internal/tree/tree.go:915-962 | a successful request, whatever it mixes, leaves the invariant if and only if the parents written last keep the root on top and make no circle and every list it leaves names nodes once, each last moved there, whatever the trees in between |
| TreeSetExact.AheadExact | goimpl/internal/tree/tree.go:932-962 | where each newNextSibling lies ahead of its target as it is met, the lists fit by themselves, and the parents written last decide alone, whatever mix of moves, relinks and writes it is |
| TreeSetExact.ListsExact | goimpl/internal/tree/tree.go:1109-1131 | over a successful request the child lists are in order after every edit, each naming its nodes once and only its own, if and only if each newNextSibling lies ahead as it is met, whatever the moves do to parent chains |
| TreeSetExact.NoNextIsAhead | goimpl/internal/tree/tree.go:932-942 | a request without newNextSibling meets that condition, whatever it moves, cuts and writes |
| TreeSetExact.ConflictExact | goimpl/internal/tree/tree.go:886-905 | a request that conflicts leaves the invariant if and only if every node moved before the conflict was moved once or was put back by its next-to-last move |
| TreeSetFailures.TwoMovesCloseACircle | goimpl/internal/tree/tree.go:852-855 | a request of two newParent edits, each allowed against the tree before the request, that succeeds and leaves its two nodes as each other's parent |
| TreeSetSafety.SetBringsNothingBack | goimpl/internal/tree/tree.go:783-870 | whatever a Set does, nothing is reachable afterwards that was not before, and after a conflict exactly the same nodes are |
| TreePlan.PlanEditSound | goimpl/internal/tree/tree.go:787-859 | a planned edit has reachable targets, write allowed on them, delete allowed on all it would drop, and a newParent that is writable, outside the moved subtree and not for the root |
| TreePlan.PlanAllSound | goimpl/internal/tree/tree.go:783-859 | planning succeeds only if every edit plans, each against the tree before the request |
| TreeSetFailures.PlansSpareTheRoot | goimpl/internal/tree/tree.go:976-978 | no planned edit has the root among its targets or as a first child, next sibling or new parent: every expression leads below it |
| TreeSetTheorems.RelinkFirstExact | goimpl/internal/tree/tree.go:1086-1107 | on its own it drops exactly what droppedByFirstChild lists, the child named comes first, and nothing else changes |
| TreeSetTheorems.RelinkNextExact | goimpl/internal/tree/tree.go:1109-1131 | on its own a forward relink drops exactly what droppedByNextSibling lists, the sibling named directly follows, and nothing else changes |
| TreeSetTheorems.GoneNeedsAnEarlierEdit | goimpl/internal/tree/tree.go:1095-1103 | while its nodes are reachable no relink finds them gone: that conflict needs an earlier edit in the same request |
| TreeSetTheorems.RelinkFirstLoses | goimpl/internal/tree/tree.go:1086-1107 | however earlier edits changed the list, a first-child relink drops a subset of what was planned for it |
| TreeSetTheorems.RelinkNextLoses | goimpl/internal/tree/tree.go:1109-1131 | the same for a next-sibling relink, which still meets its sibling ahead of its target |
| TreeSetTheorems.RelinksLoseOnlyPlanned | goimpl/internal/tree/tree.go:875-965 | over a whole request without moves, lists lose only entries that were planned to go, and keep their order |
| TreeSetTheorems.CutNodesWereDeletable | goimpl/internal/tree/tree.go:814-837 | every node that a successful Set without moves makes unreachable had delete allowed on its path before the request, even when several relinks act on one list |
| TreeSetTheorems.ChangedValuesWereWritable | goimpl/internal/tree/tree.go:800-813 | every node whose value a successful Set changes had write allowed |
| TreeSetTheorems.OtherSessionsUntouched | goimpl/internal/authz/authz.go:199-244 | one session's Set neither changes a value in, nor cuts a node out of, another session's subtree, whatever the policy |
| TreeSetTheorems.SetOutcome | goimpl/internal/tree/tree.go:783-870 | Set as a whole: no planning error changes anything; after a conflict the tree is as before exactly when the writes undo themselves; after success a careful request keeps the invariant |
| TreeSetOneMove.OneMoveIsCareful | goimpl/internal/tree/tree.go:838-857 | one newParent among relinks and value edits keeps the invariant, provided no later edit relinks the moved node's own next sibling |
| TreeSetFailures.MoveThenRelinkDuplicates | goimpl/internal/tree/tree.go:943-962 | that proviso is needed: a request that moves a node to the end of its own list and then relinks it to a former later sibling succeeds and doubles the list |
| TreeSetOneMove.CommitLosesNothing | goimpl/internal/tree/tree.go:943-962 | committing a staged node with a single newParent edit leaves exactly the same nodes reachable, with the node under its new parent |
| TreeDelete.DeleteRemovesMatches | goimpl/internal/tree/tree.go:992-1023 | a successful Delete takes exactly its matches out of their lists, in place and in order, and changes nothing else |
| TreeDelete.DeleteOutcome | goimpl/internal/tree/tree.go:992-1023 | reachable afterwards is what was reachable before less the subtrees of all matches; the invariant is kept; all that goes had delete allowed; any error changes nothing |
| TreeDelete.EachIsStillThere | goimpl/internal/tree/tree.go:1014-1016 | each match is still in its parent's list when its turn comes, whatever matches were removed before it |
| TreeDelete.DeleteIsIdempotent | goimpl/internal/tree/tree.go:967-982 | the same Delete again matches nothing, changes nothing and is not an error |
| TreeDelete.TargetOrderIsIrrelevant | goimpl/internal/tree/tree.go:995-1022 | two Deletes of the same targets, in whatever order and however often repeated, both succeed or both fail, leave the same tree, and report the same nodes, each once |
| TreeOutcomes.DeleteSucceeds | goimpl/internal/tree/tree.go:995-1013 | a Delete succeeds if and only if every target parses and every node matched, with all that is listed below it, may be deleted; where only that is missing it is refused for lack of permission |
| TreeOutcomes.DeleteReportsInOrder | goimpl/internal/tree/tree.go:995-1009 | a Delete reports in first-matched order: by the first target that matches a node, then by place among the matches of that one |
| TreeDelete.DeleteSparesOtherSessions | goimpl/internal/authz/authz.go:199-244 | one session's Delete takes nothing out of another session's subtree, whatever the policy |
| TreeGrow.AppendUnderGrows | goimpl/internal/tree/tree.go:686-696 | appending adds one node with a new id and keeps the invariant |
| TreeGrow.EnsurePathGrows | goimpl/internal/tree/tree.go:667-684 | only the missing part of a path is added |
| TreeGrow.EnsurePathLeadsThere | goimpl/internal/tree/tree.go:667-684 | the node returned is the one the keys lead to |
| TreeGrow.EnsurePathIsIdempotent | goimpl/internal/tree/tree.go:667-684 | ensuring the same path again returns the same node and changes nothing |
| TreeGrow.CreateStaysStaged | goimpl/internal/tree/tree.go:709-731 | a created node lies below the session's staging node, wherever its parent expression led; on error nothing changes |
| TreeOutcomes.CreatePlaces | goimpl/internal/tree/tree.go:711-724 | a Create goes under the staging node if it names no parent, else under the one node its expression matches, if that is the staging node or descends from it; else it fails |
| TreeGrow.LeafSubtreeGrows | goimpl/internal/tree/tree.go:586-604 | a leaf subtree adds its nodes and nothing else, and reads back as exactly the entries given |
| TreeRun.SetKeepsSane | goimpl/internal/tree/tree.go:783-870 | a proper Set keeps invariant and ids, and brings nothing back, whether it succeeds or conflicts |
| TreeRun.ProperIsExact | goimpl/internal/tree/tree.go:783-965 | proper is exact: a planned Set, whatever it mixes and whether it succeeds or conflicts, leaves the invariant if and only if it is proper; where each newNextSibling lies ahead as it is met the lists always fit |
| TreeRun.TameIsProper | goimpl/internal/tree/tree.go:838-857 | a Set whose relinks go forward and that has at most one newParent edit, with no later relink of the moved node's own next sibling, is proper |
| TreeRun.EffectGrows | goimpl/internal/tree/tree.go:667-731 | every operation keeps the invariant and the ids, and only nodes it makes can become newly reachable |
| TreeRun.RunKeepsInvariant | goimpl/internal/tree/tree.go:93-98 | the invariant holds in every state of every run of every operation |
| TreeRun.CutLooseForGood | goimpl/internal/tree/tree.go:626-646 | in every run a node keeps its id for ever, and a node cut loose never becomes reachable again |
| TreeRun.NewTreeIsSane | goimpl/internal/tree/tree.go:65-67 | a new tree satisfies the invariant |
| TreeHeap.Tree.constructor | goimpl/internal/tree/tree.go:65-67 | a new tree holds its root alone |
| TreeHeap.Tree.AppendChild | goimpl/internal/tree/tree.go:93-98 | the heap afterwards is the specified one: child last in the list, parent and id set, nothing else changed |
| TreeHeap.Tree.IndexOfChild | goimpl/internal/tree/tree.go:1133-1140 | the first position of the child, or -1 |
| TreeHeap.Tree.RemoveChild | goimpl/internal/tree/tree.go:1025-1030 | the list without its first occurrence of the child; nothing else changed |
| TreeHeap.Tree.RelinkFirstChild | goimpl/internal/tree/tree.go:1086-1107 | the specified relink, or its error and no change |
| TreeHeap.Tree.RelinkNextSibling | goimpl/internal/tree/tree.go:1109-1131 | the specified relink, or its error and no change |
| TreeHeap.Tree.NodePath | goimpl/internal/tree/tree.go:205-222 | the keys from below the root down, each behind a slash, or a slash alone |
| TreeHeap.Tree.IsReachable | goimpl/internal/tree/tree.go:637-646 | true if and only if each node up to the root is listed by its parent; on a valid tree, if and only if the node is reachable from the root through child lists, whatever stale parent fields say |
| TreeHeap.Tree.IsDescendant | goimpl/internal/tree/tree.go:1058-1067 | true if and only if the parent chain passes through the ancestor; it terminates on every node |
| TreeHeap.Tree.RequireOp | goimpl/internal/tree/tree.go:1144-1149 | the checker's answer for the node's path; no checker allows everything |
| TreeHeap.Tree.Evaluate | goimpl/internal/tree/tree.go:236-267 | the nested loops compute the specified evaluation |
| TreeSetMethods.WriteTargets | goimpl/internal/tree/tree.go:916-922 | every target is written, recorded and touched, in order |
| TreeSetMethods.ApplyFirstChild | goimpl/internal/tree/tree.go:923-931 | the list is recorded before the relink, which conflicts or succeeds as specified |
| TreeSetMethods.ApplyNextSibling | goimpl/internal/tree/tree.go:932-942 | the parent's list is recorded before the relink, which conflicts or succeeds as specified |
| TreeSetMethods.ApplyNewParent | goimpl/internal/tree/tree.go:943-962 | both lists are recorded, then the node moves as specified, or the conflict is reported |
| TreeSetMethods.ApplyEdit | goimpl/internal/tree/tree.go:915-962 | one planned edit, in the code's order: value, first child, next sibling, parent |
| TreeSetMethods.RollBack | goimpl/internal/tree/tree.go:895-905 | the heap is put back as the replayed records say, in whatever order the lists come up |
| TreeSetMethods.ApplySetPlans | goimpl/internal/tree/tree.go:875-965 | the heap after all plans, or after the rollback at the first conflict |
| TreePlanMethods.SubtreeAllows | goimpl/internal/tree/tree.go:1170-1177 | true if and only if the operation is allowed on everything beneath the node |
| TreePlanMethods.RequireDeleteAll | goimpl/internal/tree/tree.go:1151-1168 | true if and only if delete is allowed on each node and everything beneath it |
| TreePlanMethods.DroppedByFirstChild | goimpl/internal/tree/tree.go:1179-1190 | the children ahead of the new first one, or all |
| TreePlanMethods.DroppedByNextSibling | goimpl/internal/tree/tree.go:1192-1212 | the siblings between the node and its new next one, or all after it |
| TreePlanMethods.ResolveExactlyOne | goimpl/internal/tree/tree.go:1039-1056 | the one match, or how many there were |
| TreePlanMethods.ResolveChildPointer | goimpl/internal/tree/tree.go:1073-1084 | "none" resolves to nothing, an offset is an error, an expression to its one match |
| TreePlanMethods.PlanOne | goimpl/internal/tree/tree.go:787-859 | one edit planned, or its first error, with the checks in the code's order |
| TreePlanMethods.PlanEdits | goimpl/internal/tree/tree.go:786-859 | all edits planned, or the first error, and no change to the tree |
| TreePlanMethods.SetRequest | goimpl/internal/tree/tree.go:783-870 | the heap and the result are those of the specification for every request, and the tree is valid afterwards if and only if it satisfies the invariant |
| TreePlanMethods.DeleteRequest | goimpl/internal/tree/tree.go:992-1023 | the heap and the result are those of the specification; the invariant is kept |
| TreePlanMethods.MatchTargets | goimpl/internal/tree/tree.go:995-1009 | the matches of all targets, each once in first-match order |
| TreeGrowMethods.AppendUnder | goimpl/internal/tree/tree.go:689-696 | one new node with the given key and value, as specified; a valid tree stays valid |
| TreeGrowMethods.EnsurePathFrom | goimpl/internal/tree/tree.go:667-684 | the specified path walk, with the nodes it made |
| TreeGrowMethods.CreateStagedAs | goimpl/internal/tree/tree.go:711-731 | a new node under the resolved parent, or the error and no change |
| TreeFlatten.Visit | goimpl/internal/tree/tree.go:347-358 | the visit numbers the subtree in pre-order and records for each node whose child it is and where it stands |
| TreeFlatten.FlattenSubtree | goimpl/internal/tree/tree.go:342-381 | looking offsets up in the maps gives the array that the recursive definition gives |
| TreeFlatten.FlattenMatches | goimpl/internal/tree/tree.go:327-340 | blocks, then the second pass over their starts, give the array of the whole forest |
| TreeGetMethods.PruneVisible | goimpl/internal/tree/tree.go:269-282 | a copy made of new nodes that reads as the subtree less what lies at or below an unreadable node; the tree is not changed |
| TreeGetMethods.ShapeHasNoRepeats | goimpl/internal/tree/tree.go:342-358 | no node is visited twice: child subtrees of a tree in order are disjoint |
| TreeGetMethods.GetFullAs | goimpl/internal/tree/tree.go:409-428 | the flattened visible forest, the resume index and the base, or the error |
| TreeGetMethods.AppendLeafSubtree | goimpl/internal/tree/tree.go:593-604 | the new subtree on the heap, and its array as Get would return it |
| Flatten.UnflattenInvertsFlat | goimpl/internal/tree/tree.go:319-381 | following first-child and next-sibling offsets from index 0 rebuilds exactly the forest, in order |
| Flatten.OnePointerEach | goimpl/internal/tree/tree.go:319-381 | every index after 0 is the target of exactly one pointer, which lies before it |
| Flatten.OffsetsInside | goimpl/internal/tree/tree.go:365-379 | every offset is zero, or positive and inside the array |
| Fit.FixupWindow | goimpl/internal/tree/tree.go:497-518 | the slice with each pointer at or past its end made an absolute continuation |
| Fit.WindowReadsBack | goimpl/internal/tree/tree.go:505-516 | turning a window's continuations back into offsets gives the slice it was cut from |
| Fit.WindowOffsetsInside | goimpl/internal/tree/tree.go:505-516 | offsets left in a window land inside it |
| Fit.FitToSize | goimpl/internal/tree/tree.go:457-495 | the window of the size that the search chooses, and whether anything was cut |
| Fit.Deliver | goimpl/internal/server/server.go:412-425 | all of the remainder if it fits, else the window that the search chooses, and nothing exactly where that window is empty |
| Fit.ChosenIsLargest | goimpl/internal/tree/tree.go:466-495 | the search finds the largest size that fits if and only if no dip above the binary search's answer is wider than 32 |
| Fit.DeliveredFits | goimpl/internal/server/server.go:409-420 | what is sent fits the size given, and is the whole remainder where that fits |
| Fit.SmallDipsSuffice | goimpl/internal/tree/tree.go:443-455 | in particular when the smallest fitting size is at most 32 and fitting sizes are at most 32 apart |
| Fit.MonotoneSuffices | goimpl/internal/tree/tree.go:443-455 | in particular when a longer window is never shorter in bytes |
| Fit.NothingFits | goimpl/internal/tree/tree.go:491-494 | an empty window means that no size up to 32 fits |
| Fit.NothingSent | goimpl/internal/server/server.go:412-425 | nothing is sent only where neither the remainder nor any window of up to 32 nodes fits |
| WideDip.WideDipIsMissed | goimpl/internal/tree/tree.go:466-495 | a dip of 33 is missed: of a chain of 34 nodes with a large sibling after its top, under a base of about 760 octets, 34 nodes fit a Response of 1472 octets and none is sent |
| Expression.SplitUnescaped | goimpl/internal/tree/tree.go:153-175 | the loop computes the pieces between unescaped delimiters |
| Expression.SplitFirstUnescaped | goimpl/internal/tree/tree.go:177-194 | the loop computes the unescaped part before the first delimiter, and the raw rest |
| Expression.ParseExpression | goimpl/internal/tree/tree.go:115-139 | the segments of the non-empty parts, or the first bad pattern, or the error for none |
| Expression.SplitInvertsJoin | goimpl/internal/tree/tree.go:153-175 | any pieces at all, escaped and joined, split into the same pieces |
| Expression.WrittenExpressionParses | goimpl/internal/tree/tree.go:115-141 | any segments can be written as one expression, which parses to exactly them if all their patterns compile, and is refused if one does not |
| Expression.SuffixIsNumber | goimpl/internal/tree/tree.go:143-151 | what follows the "@" of an expression counts as a resume index if and only if it is a number |
| Expression.AtoiMeans | goimpl/internal/tree/tree.go:146 | numbers are decimal digits behind one sign or none that fit in 64 bits |
| Expression.ResumeSuffixSurvives | goimpl/internal/tree/tree.go:141-151 | "base@index" reads back as base and index if and only if base has no "@", no doubled backslash and no backslash at its end |
| Expression.EscapedAtIsLost | goimpl/internal/tree/tree.go:143-151 | an escaped "@" in a base does not survive a continuation |
| Continuation.ContinuationQueue.Add | goimpl/cmd/client/continuation.go:55-71 | queued once, unless already covered |
| Continuation.ContinuationQueue.Next | goimpl/cmd/client/continuation.go:73-94 | the smallest index that is not covered, covered ones being dropped |
| Continuation.PopSpec | goimpl/cmd/client/continuation.go:73-94 | what is taken is an entry that is not covered, and nothing else uncovered is dropped |
| Continuation.PopTakesFirstSmallest | goimpl/cmd/client/continuation.go:76-94 | the entry taken has the smallest index of all uncovered ones, and is the earliest of equals |
| Continuation.ContinuationQueue.MarkCovered | goimpl/cmd/client/continuation.go:96-104 | the fetched range is covered from then on |
| Continuation.ContinuationQueue.Covered | goimpl/cmd/client/continuation.go:106-113 | true if and only if some fetched range of that base holds the index |
| Continuation.Serve | goimpl/internal/server/server.go:403-425 | an index out of range is an error; otherwise the remainder if it fits, or the window that the search chooses, and silence exactly where nothing is chosen |
| Continuation.NextIsWhereItStopped | goimpl/cmd/client/main.go:327-365 | with the first c nodes delivered, the next continuation is c itself, or none is left |
| Continuation.PiecesAreWhole | goimpl/cmd/client/main.go:324-365 | fetching in pieces equals fetching whole: unless some round finds nothing that fits, the pieces tile the array and reassemble to it, whatever budget each round has |
| Continuation.SingleNodesSuffice | goimpl/internal/tree/tree.go:443-455 | no round finds nothing that fits if every single node fits with its pointers as continuations |
| Continuation.FewCuts | goimpl/cmd/client/main.go:298-356 | the pieces cut off no more indices than the array has |
| Continuation.FollowGet | goimpl/cmd/client/main.go:324-365 | the fetch is complete if and only if no round of the pieces finds nothing that fits and they cut off at most 50 indices; then it fetches exactly those pieces, which reassemble to the array; it is capped only with more than 50 cut off, and unanswered only where nothing fits |
| Continuation.FetchForest | goimpl/cmd/client/main.go:324-365 | the same for forests: with at most 50 nodes and a window that fits for every remainder the fetch is complete, and whenever it is complete its pieces, read by their offsets, are the forest that the expression matches |
| GetPages.PageOf | goimpl/internal/tree/tree.go:409-428 | a Get of "base@k" finds the same visible forest as one of base, with resume index k, if k is at most its size, and fails exactly beyond |
| GetPages.PageIsSent | goimpl/internal/server/server.go:512-523 | what handleGet sends for a page is exactly what the server of the continuation proofs delivers from that index on, or nothing where it delivers nothing, and the tree stays |
| GetPages.PageBeyond | goimpl/internal/server/server.go:517-521 | a page past the end is an error |
| GetPages.ReplyFits | goimpl/internal/server/server.go:409-425 | with a known budget no reply with nodes is longer, octet by octet, and a remainder that is not too long is sent whole |
| GetPages.FetchVisible | goimpl/cmd/client/main.go:324-365 | following the continuations of a session that stays as it is: if it completes, each fetch is what handleGet sends from where the one before it ended, and the pieces put together and read by their offsets are the forest the caller may see; it completes if and only if no round of the pieces starves and no more than 50 indices are cut off |
| Receiver.Receiver.MarkReceived | goimpl/internal/reliability/reliability.go:59-74 | the state and the answer are those of the specified marking |
| Receiver.Receiver.BuildAck | goimpl/internal/reliability/reliability.go:98-126 | the acknowledgement is the specified list of ranges |
| Receiver.MarkRefinesSet | goimpl/internal/reliability/reliability.go:59-96 | marking refines a plain set: new exactly for positive numbers not seen; afterwards seen is what was seen, that number and the gap given up on; at most 1024 are held above the mark |
| Receiver.AbandonsOnlyWhenFull | goimpl/internal/reliability/reliability.go:66-73 | a gap is given up on only when 1024 numbers above it are held |
| Receiver.AnswersLikeUnboundedSet | goimpl/internal/reliability/reliability.go:55-96 | over any arrivals, the next number is new if and only if it has not arrived yet, except that a number given up on before it arrived is never new |
| Receiver.AllRangesAreMaximalRuns | goimpl/internal/reliability/reliability.go:98-126 | the ranges are the maximal runs of what was seen, in order, disjoint and not adjacent |
| Receiver.SeparatedUnique | goimpl/internal/reliability/reliability.go:98-126 | no other separated list of ranges covers the same numbers |
| Receiver.AckHasLowest | goimpl/internal/reliability/reliability.go:98-128 | of more runs than fit, an acknowledgement has the 64 lowest |
| Sender.Sender.Send | goimpl/internal/reliability/reliability.go:160-171 | the number is pending from now on with one attempt |
| Sender.Sender.Cancel | goimpl/internal/reliability/reliability.go:173-177 | the number is no longer pending |
| Sender.Sender.HandleAck | goimpl/internal/reliability/reliability.go:183-194 | exactly the pending numbers inside an acknowledged range are settled |
| Sender.Sender.RetransmitDue | goimpl/internal/reliability/reliability.go:218-247 | sent again is exactly what was last sent an interval ago or more and has attempts left, with its time and attempts brought up to date; given up on is exactly what is as old and has none; every other entry stays as it is |
| Sender.TickMeans | goimpl/internal/reliability/reliability.go:224-237 | the same of the table of the run proofs, without the notion of being due |
| ReliableDelivery.RunsAreSafe | goimpl/internal/reliability/reliability.go:59-247 | over every run of a losing, duplicating, reordering network: accepted once at most; acknowledged only what was accepted or given up on; every sent number in exactly one of pending, acknowledged, cancelled and given up; at most max(1, maxAttempts) transmissions per Send |
| ReliableDelivery.AckTakesOnlySeen | goimpl/internal/reliability/reliability.go:183-194 | a number leaves pending by an acknowledgement, stale ones included, only if the receiver had seen it |
| ReliableDelivery.AcceptedWasSent | goimpl/internal/reliability/reliability.go:59-74 | only numbers that were sent are accepted |
| ReliableDelivery.FreshAckSettles | goimpl/internal/reliability/reliability.go:183-194 | a fresh acknowledgement of at most 64 ranges leaves pending exactly what has not been seen |
| ReliableDelivery.TransmissionsAreSpaced | goimpl/internal/reliability/reliability.go:225-233 | over all runs, whatever the clock does, two successive transmissions of one Send are at least the interval apart |
| ReliableDelivery.TickLeavesNothingOverdue | goimpl/internal/reliability/reliability.go:218-237 | no tick leaves anything overdue: what is pending afterwards was last sent less than an interval ago, and what was due was sent again or given up on |
| AckSize.AckFitsDatagram | goimpl/internal/reliability/reliability.go:31-37 | an acknowledgement of numbers below 2^47 is at most 1160 octets as a message |
| Ber.WriteLength | goimpl/internal/wire/ber.go:79-92 | the loop writes the specified length octets |
| Ber.ReadTlv | goimpl/internal/wire/ber.go:96-131 | the loop over length octets reads what the specification reads, and fails where it fails |
| Ber.TlvRoundTrip | goimpl/internal/wire/ber.go:65-131 | an encoded TLV reads back, whatever follows it, and leaves that alone (X.690 section 8.1.3) |
| Ber.MinimalTwosComplement | goimpl/internal/wire/ber.go:169-190 | the arithmetic and the padding loop compute the specified contents octets |
| Ber.IntegerRoundTrip | goimpl/internal/wire/ber.go:169-204 | reading back the contents octets gives the integer, for every integer |
| Ber.IntegerMinimality | goimpl/internal/wire/ber.go:169-190 | the contents are in shortest form (X.690 section 8.3.2) except for exactly the values -2^(8k-1) |
| CodecMethods.MarshalMessage | goimpl/internal/wire/codec.go:892-913 | the writers produce the specified octets for all seven kinds |
| CodecMethods.UnmarshalMessage | goimpl/internal/wire/codec.go:915-972 | the readers accept and refuse as specified |
| CodecMethods.WriteSetEditFields | goimpl/internal/wire/codec.go:382-399 | one edit with any subset of its optional fields |
| CodecMethods.ReadSetEditFields | goimpl/internal/wire/codec.go:408-450 | the optional fields of an edit, in any order; an unknown one is refused |
| CodecMethods.WriteQueryFields | goimpl/internal/wire/codec.go:621-638 | a query with its optional aggregation fields |
| CodecMethods.ReadQueryFields | goimpl/internal/wire/codec.go:642-697 | a query read field by field |
| CodecMethods.WriteResponseFields | goimpl/internal/wire/codec.go:707-722 | a response with its optional error pointer and its nodes |
| CodecMethods.ReadResponseFields | goimpl/internal/wire/codec.go:733-799 | a response read field by field |
| CodecRoundTrip.GetRoundTrip | goimpl/internal/wire/codec.go:342-372 | a Get reads back as itself |
| CodecRoundTrip.SetRoundTrip | goimpl/internal/wire/codec.go:382-500 | a Set with any number of edits and any subset of optional fields reads back as itself |
| CodecRoundTrip.DeleteRoundTrip | goimpl/internal/wire/codec.go:510-554 | a Delete with any number of targets reads back as itself |
| CodecRoundTrip.CreateRoundTrip | goimpl/internal/wire/codec.go:564-611 | a Create with any subset of optional fields reads back as itself |
| CodecRoundTrip.QueryRoundTrip | goimpl/internal/wire/codec.go:621-697 | a Query reads back as itself if and only if its percentile is in range |
| CodecRoundTrip.ResponseRoundTrip | goimpl/internal/wire/codec.go:707-799 | a Response with any number of nodes reads back as itself |
| CodecRoundTrip.AckRoundTrip | goimpl/internal/wire/codec.go:843-880 | a SummaryAck with any number of ranges reads back as itself |
| CodecRoundTrip.MessageRoundTrip | goimpl/internal/wire/codec.go:892-972 | every message of all seven kinds reads back as itself, and is refused exactly when it carries a percentile outside 0..100 |
| CodecOctets.MessageLayout | goimpl/internal/wire/codec.go:342-913 | every message of all seven kinds, field by field, with the identifier octet of each field written out |
| CodecOctets.ElementsLayout | goimpl/internal/wire/codec.go:154-172 | the elements of each list, with the identifier octets of their fields |
| CodecOctets.PointerLayout | goimpl/internal/wire/codec.go:10-22 | the identifier octet of each kind of pointer |
| CodecOctets.ValueLayout | goimpl/internal/wire/codec.go:62-84 | the identifier octet of each kind of value |
| CodecOctets.QueryPartsLayout | goimpl/internal/wire/codec.go:245-307 | the identifier octets of collection modes and aggregation methods |
| CodecOctets.IntegerLayout | goimpl/internal/wire/ber.go:169-206 | an integer's octets are its two's complement, most significant first |
| CodecOctets.NumberLayout | goimpl/internal/wire/ber.go:192-206 | octets are weighed most significant first |
| CodecOctets.LengthLayout | goimpl/internal/wire/ber.go:79-92 | lengths below 128 in one octet, longer ones as a count and their digits, most significant first |
| CodecOctets.LongLengthsRead | goimpl/internal/wire/ber.go:96-133 | a length is read from any number of digits, leading zeros included |
| CodecOctets.HeadersRefused | goimpl/internal/wire/ber.go:96-133 | high tag numbers, indefinite lengths and octets that end too early are refused |
| CodecOctets.ContentsRead | goimpl/internal/wire/ber.go:192-232 | any octets are read as the integer they are in two's complement, shortest or not; a boolean is one octet, false if zero |
| CodecOctets.NothingTrails | goimpl/internal/wire/codec.go:915-925 | anything behind a message is refused |
| CodecOctets.OtherTagsRefused | goimpl/internal/wire/codec.go:926-975 | so is a message of an eighth kind |
| Authz.AllowedImpliesRead | goimpl/internal/authz/authz.go:166-194 | what may be written or deleted may be read |
| Authz.PolicyHasNoSayInSessions | goimpl/internal/authz/authz.go:166-244 | under /Sessions neither policy nor identity makes a difference |
| Authz.OwnSessionIsOpenWhereItShouldBe | goimpl/internal/authz/authz.go:199-244 | in its own session a client may do anything below NewNodes, read and delete below Errors and QueryResults, and otherwise only read |
| Authz.PolicyGrantsExactly | goimpl/internal/authz/authz.go:161-197 | outside /Sessions: without a policy everything is allowed; with one, exactly what a rule of the identity or of "*" grants, any rule to read and one of its kind to change, less changes to read-only paths |
| Authz.SessionRootsAreReadOnly | goimpl/internal/authz/authz.go:216-230 | /Sessions itself and a session's own root can be read and never changed |
| Authz.OtherSessionsAreClosed | goimpl/internal/authz/authz.go:199-244 | nothing is allowed in another session's subtree |
| Replies.ReplyCache.CacheAt | goimpl/internal/server/server.go:353-381 | the map afterwards holds the new reply and exactly those others that are at most the TTL old, each with its time, unchanged; the queue is shorter than live + 1024 or 2 * live |
| Replies.ReplyCache.Expire | goimpl/internal/server/server.go:365-375 | the loop drops exactly the expired insertions from the front |
| Replies.InsertStarts | goimpl/internal/server/server.go:363-364 | an insertion hides older ones under its number and no others |
| Replies.ExpireOne | goimpl/internal/server/server.go:366-374 | dropping an expired insertion removes its map entry only if that insertion put it there, or one as old did |
| Replies.ExpiryEnds | goimpl/internal/server/server.go:365-375 | when the front is young the map is the full scan |
| Replies.QueuedCompacted | goimpl/internal/server/server.go:376-380 | compaction preserves the live queue |
| SessionBook.StepKeepsBook | goimpl/internal/server/server.go:254-381 | every message, push and tick of the timer keeps this: requests executed once each, each kept reply the one first sent to its request, all answers to one request the same, transport numbers ascending, and what awaits acknowledgement under a number the reply sent with it |
| SessionBook.RunAnswersOnce | goimpl/internal/server/server.go:271-304 | over any run of messages and pushes a request is executed at most once, and any two replies to it have the same inReplyTo, error and nodes; of a query this holds of the replies without nodes |
| SessionBook.HeldAlong | goimpl/internal/server/server.go:318-381 | after a new request has been executed, for the rest of the run its reply is in the cache, with its time, if and only if it was answered and no reply has been kept more than the TTL later |
| SessionBook.RetransmissionIsAnsweredAlike | goimpl/internal/server/server.go:271-288 | at any later point of a run, a request that arrives again is not executed; if it was answered and no reply has been kept more than the TTL after that answer it is sent that answer once more, and in every other case nothing |
| SessionBook.RunNumbersReplies | goimpl/internal/server/server.go:242-247 | over any run no transport number is used twice and later replies have higher ones; whatever awaits acknowledgement under a number is the reply sent with it, octet by octet |
| SessionBook.RequestsAre | goimpl/internal/server/server.go:254-269 | the five kinds of request, and no other message, are recognised by their sequence numbers |
| TreeApart.SetKeepsApart | goimpl/internal/tree/tree.go:838-857 | a Set, proper or not, successful or not, changes no parent on the chain of a node that is not staged: a session's containers and results nodes keep a chain that ends |
| SessionEffects.QueryRefused | goimpl/internal/query/query.go:48-78 | a query is refused for a negative transfer interval, a recurring mode without one, a collection or aggregation interval that is not positive, or one aggregation field without the other, and for nothing else |
| SessionEffects.CopiesAre | goimpl/internal/tree/tree.go:606-624 | a copy in a reply has its node's key and value and points nowhere |
| SessionPointers.KeysParse | goimpl/internal/tree/tree.go:115-141 | keys without slash, backslash or "@", each behind a slash and with "=" escaped, parse to exactly those keys, without value predicates |
| SessionPointers.ErrorPointerLeads | goimpl/internal/server/server.go:476-489 | the pointer in an error's reply parses to the keys Sessions, Connection-ID=id, Errors and the code, and the session's own client, whatever the policy, finds under it the error node just recorded, with its message and request number |
| SessionPointers.FailureLeads | goimpl/internal/server/server.go:491-500 | a request that fails is sent one reply, marked as an error and without nodes, whose pointer leads there |
| SessionPointers.NewNodesText | goimpl/internal/server/server.go:171-174 | the key of the staging container, which needs no escaping |
| SessionPointers.TransferIsResumable | goimpl/internal/server/server.go:733-742 | the path under which a truncated push is continued parses to the keys down to the transfer's own node, which the session's own client finds under it; if no other node matches on the way, path@k gets the rest of exactly the array that was pushed, and fails past its end |
| Session.Session.constructor | goimpl/internal/server/server.go:155-184 | a session starts with its three containers at their places under /Sessions/Connection-ID=id, and with nothing executed, kept or sent |
| Session.Session.SendResponse | goimpl/internal/server/server.go:306-316 | each send takes a transport number of its own, and its octets are tracked under it from then on |
| Session.Session.RespondAndCache | goimpl/internal/server/server.go:335-344 | the request's one answer is sent, tracked, and kept under it at the time of sending; exactly the replies that are too old by then are dropped |
| Session.Session.SendFitted | goimpl/internal/server/server.go:403-440 | what is sent is all of the remainder, or the window the search chooses for the datagram size and this very reply, and nothing exactly where that window is empty; what is sent is tracked, and kept at the time of sending; pushes are tracked and not kept |
| Session.Session.RecordError | goimpl/internal/server/server.go:476-489 | exactly one error node with its message and request number as children is added, nothing else changes, and the expression returned ends in the error's code |
| Session.Session.Admit | goimpl/internal/server/server.go:271-288 | a number is new if and only if it is positive and was not seen, and then it has never been executed or answered |
| Session.Session.AnswerChange | goimpl/internal/server/server.go:527-559 | on failure an error node, an error reply and no query stopped; on success the reply copies the nodes changed and only reachable queries survive; either way the reply is tracked and kept at the time of sending |
| Session.Session.HandleGet | goimpl/internal/server/server.go:512-523 | a Get leaves the tree as it is and sends of what GetFull finds as much as fits, or adds one error node and sends the error; what is sent is kept from then on, and where nothing is sent the cache stays |
| Session.Session.HandleSet | goimpl/internal/server/server.go:527-544 | for every Set the tree is the one Set leaves, with an error node more if it failed; on success the reply copies the touched nodes and only queries whose results node is still attached survive; what is sent is kept from then on; the session is valid again whenever the tree it leaves satisfies the invariant |
| Session.Session.HandleDelete | goimpl/internal/server/server.go:548-559 | the tree is the one Delete leaves, with an error node more if it failed; on success the reply copies the removed nodes and only queries whose results node is still reachable survive; what is sent is kept from then on |
| Session.Session.HandleCreate | goimpl/internal/server/server.go:563-581 | one new node at the end of the staging parent's list and a copy of it as the reply, or an error node and its reply; what is sent is kept from then on |
| Session.Session.HandleQuery | goimpl/internal/server/server.go:585-634 | the results node is the last child of the session's results container; both maps gain the query, or for ONCE end as they began after its entries were appended and pushed; the acknowledgement comes last, without nodes, and is kept from then on; a query that is not valid is an error |
| Session.Session.PushResults | goimpl/internal/server/server.go:733-742 | the entries become a subtree under the query's results node, one leaf each and in order, and what is pushed is that subtree's array, as much of it as fits; no reply kept is touched |
| Session.Session.Reap | goimpl/internal/server/server.go:636-655 | the survivors are exactly the queries whose results node is attached, which on a valid tree is to be reachable, in both maps |
| Session.Session.Snapshot | goimpl/internal/tree/tree.go:606-624 | copies of the nodes' keys and values in order |
| Session.Session.Execute | goimpl/internal/server/server.go:290-303 | a new request does what its kind does, to the tree, the active queries and what is sent; at most one answer is among what is sent, and it is kept from then on, at that time |
| Session.Session.HandleMessage | goimpl/internal/server/server.go:271-304 | each request is executed at most once; one that is not new changes nothing but what is sent and tracked: the reply kept for it once more, which is the first answer sent to it and never a push, or nothing if none is kept; it is a step of the book, whose runs say how long a reply is kept |
| Session.Session.Retransmit | goimpl/internal/reliability/reliability.go:218-247 | the sender's timer changes attempts and drops what is given up on, and is a step of the book |
| Session.Session.Acknowledged | goimpl/internal/server/server.go:299-300 | an acknowledgement settles the numbers it covers and changes nothing else |
| Session.SampleTree | goimpl/internal/tree/tree.go:561-578 | one sample for each node matched, in order: its id as text, its key and its value |
| Session.SamplesTellNodesApart | goimpl/internal/tree/tree.go:551-554 | samples have the same identity if and only if they are of the same node |
| ResultEntries.SortedEntries | goimpl/internal/server/server.go:716-731 | keys ascend, each key's values stay in order, and nothing is lost |
| ResultEntries.LessTransitive | goimpl/internal/server/server.go:723 | the order on keys is transitive |
| QueryRunner.Runner.CollectSamples | goimpl/internal/query/query.go:166-176 | each value goes to the end of its key's list |
| QueryRunner.Runner.CollectChanged | goimpl/internal/query/query.go:226-247 | a sample is forwarded unless it equals the last value forwarded for its node, and is remembered if it is |
| QueryRunner.EqualIsSame | goimpl/internal/wire/types.go:87-111 | two values that are not both floats are equal if and only if they are of one kind and the same |
| QueryRunner.ForwardsEachChange | goimpl/internal/query/query.go:226-247 | in any run, a sample that is no float is forwarded if and only if it is the first of its node or its value is not the one sampled of that node just before |
| QueryRunner.Runner.PromoteCollectedToPending | goimpl/internal/query/query.go:266-273 | each key's collected values move behind its pending ones |
| QueryRunner.Runner.AggregateCollected | goimpl/internal/query/query.go:249-264 | each key's batch becomes one value, or none where aggregation fails |
| QueryRunner.Runner.TransferPending | goimpl/internal/query/query.go:275-289 | everything pending is handed over, if there is anything |
| QueryRunner.ForwardsOnlyChanges | goimpl/internal/query/query.go:226-247 | over a whole run, what is forwarded for a node is what was sampled of it with consecutive equal values removed |
| QueryRunner.NothingIsLost | goimpl/internal/query/query.go:135-164 | for any interleaving of all steps, delivered and pending are what was made ready, in order, and collected is the open batch |
| QueryRunner.Conservation | goimpl/internal/query/query.go:135-164 | without aggregation, delivered, pending and collected are all samples taken, per key and in order |
| QueryRunner.OnceDeliversAll | goimpl/internal/query/query.go:110-117 | a ONCE query delivers one transfer with every sample under its key, in order |

## Left out

- QUIC, TLS, certificates, the command line, printing, loading a policy from JSON, demo data and the load generator: input, output and library wrappers.
- The regexp engine: a compiled pattern is an arbitrary predicate; only splitting and escaping around it are modelled.
- Mutexes, goroutines, tickers and channels: each locked section is one step, and time is a supplied number. `ChangedSince`, `notifyChanged` and the claim that onChange never misses a mutation are not part of this model.
- The retry after a DatagramTooLargeError (goimpl/internal/server/server.go:427-457): a fitted non-empty window is sent, or nothing, against a budget that stays the same for a session.
- Float aggregation (goimpl/internal/query/aggregate.go) and float text: parameters. In the codec a float is its eight octets.
- Long-form lengths that overflow a Go int (goimpl/internal/wire/ber.go:122-130): lengths are mathematical integers, so only lengths up to the largest int64 are claimed to read back.
- Wrap-around of sequence numbers, node ids and offsets at the largest int64 or uint64: they are counted without overflow.
- The single-node wrappers of the codec (MarshalNode, UnmarshalSet and their like): the message forms use the same fields.
- nextNodeID is one counter per tree, not one per process: ids of nodes in other trees do not interleave.
- Backing arrays of Go slices: child lists are values, so the sharing that `append` can cause is not modelled; the three-index slice of goimpl/internal/tree/tree.go:1129 has no counterpart.
- The order in which Go visits a map: loops over maps take keys in any order, which is what the proofs allow for.
- Error texts: errors are kinds; the message stored in an error node is a parameter.
- Running the interval and onChange loops of a query inside a session: the runner's steps and the session's pushes are modelled, their scheduling is not. A ONCE query's delivery is given to HandleQuery as the entries its runner hands over.
- Fit.FitToSize: keeps the chosen size and rebuilds its window, where the code keeps the window itself.
- Session.Session.RespondAndCache: the kept reply has no transport number of its own, because every send overwrites it.
- Session.Session.HandleMessage: requires of a new request that the tree satisfies the invariant, of a Get that is new that its offsets fit an int64, and that transport numbers have not run out; SessionBook.RunAnswersOnce requires none of this. After a Set that leaves a tree outside the invariant, retransmissions, acknowledgements and the timer are still handled; what a further request does on such a tree is not modelled, as a walk over it need not end.
- TreeGetMethods.GetFullAs: requires that the matched forest has at most 2^63 - 1 nodes, as its offsets are int64.
- Continuation.FollowGet: each round's budget and sizes are given, and the tree stays as it is; promises nothing for bases that do not survive a continuation, and neither for a first request that already carries a resume index.
- TreeSetTheorems.CutNodesWereDeletable: only for requests without newParent; a request that mixes newParent with relinks of its destination can drop the moved node without asking.
- SessionPointers.TransferIsResumable: that path@k gets the pushed array back is stated where no other node matches the keys on the way; keys are patterns, and a "." in a timestamp matches any octet.
- SessionPointers.ErrorPointerLeads: errors of one code are siblings under one key, so the pointer matches earlier ones too; the new one is among them.
- GetPages.FetchVisible: the tree, the caller's rights and the budget stay as they are over all rounds.
- QueryRunner.ForwardsOnlyChanges: takes float equality to be symmetric and transitive, as IEEE 754 equality is; a NaN is forwarded every time.
