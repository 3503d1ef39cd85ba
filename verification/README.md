# ggblab: model and proofs

ggblab drives a GeoGebra applet from a Jupyter notebook. This project models the four parts of it
that hold real algorithms or protocols, and proves what they keep.

1. **Construction graphs** (`Graphs`, `Subgraph`, `SubgraphRuns`, `SubgraphArity`, `SubgraphEdges`, `SubgraphOrder`, `Reduction`, `Walks`).
   `parse_subgraph` searches a dependency graph `G`, frontier by frontier and over all subsets of each
   frontier, and builds a graph `G2` of minimal parents. `IsRun` describes its runs (both the newer
   and the older rule, any graph, any order in which Python walks its sets); the methods of the class
   `ConstructionParser` are proved to produce such runs. About all runs: every parent is a proper
   ancestor, single and pair parents alike; `G2` is layered and so acyclic even if `G` has cycles; both
   loops end; layers do not depend on set order, and parents do only between rival pairs, each of which some
   order chooses. `SubgraphEdges` says of both rules, in edges and reachability alone, which nodes enter a frontier and
   which get parents. Beside it stand the edge-pruning reduction, with the exact condition on the graph under
   which it keeps reachability, the path-guarded recursion `fbd` and the search that stops at groups.
2. **Tokenizer and printer** (`Chars`, `Tokens`, `Printer`, `Notation`, `RoundTrip`, `WordShapes`, `TokenizerOutput`, `Tokenizer`,
   `Pipeline`, `PipelineShape`, `Simplify`, `SimplifyShape`).
   The tokenizer is a stack machine over lexemes (`Machine`, `Run`). For every lexically well-formed tree,
   `Tokenize(Reconstruct(tree))` is the tree with its words split, its script groups repaired and its leading
   minus glued (`Norm`). Hence the exact condition under which the printer is the tokenizer's
   inverse, on trees and on all input strings. Further: which words split, and where, by their shape, what becomes of
   brackets, separators and script groups, what is printed for calls, groups and words, when the tokenizer succeeds,
   which text its tree holds, that the four passes of `tokenize` keep the words and which shape they give, which values
   pruning leaves alone the second time, and that simplification is idempotent, drops every duplicate and nothing else.
3. **The replicated object store** (`Observer`, `ObserverRuns`, `ObserverLog`, `Payloads`, `ObserverService`, `ActionBatch`,
   `Ingest`, `Sessions`).
   A step system of server, broadcast queue, streams and clients. In every run, whatever the order in which
   broadcasts are queued, a client that has seen a snapshot holds that snapshot with exactly the later changes
   that no larger number was queued before; from this follows for which names a drained client is right, and that
   it is current if broadcasts are queued in order. The front end's batching loses, repeats and reorders nothing, and
   in every session the store takes the updates in the order in which they were queued: it ends with the value that the
   last submitted action gave to a name, and everything else that was submitted is passed on once.
4. **Registers and replies** (`WordText`, `Registers`, `RegisterTable`, `RegisterRun`, `RegisterLabels`, `RegisterRows`,
   `RegisterReplies`, `LateReplies`, `Correlation`, `Delivery`).
   Object names become numbered registers, and registers become labels again while commands run. Replacing
   names one after the other is replacing all at once exactly if no names clash; and a reference is sent as the
   label of its row exactly if every row up to that one sends something. The store for late replies, and
   the race of replies and watchdog for a request's future: whoever completes it first decides what the caller gets.

`Options` and `JsonValues` hold shared datatypes. A class stands where the source updates an object in
place, and its methods' contracts tie the new state to a specification function; the lemmas are about
these functions and about all runs of steps.

## Where code and documentation disagree

- The older search is said to risk an infinite loop (`README_v1.md:617`). It ends on every finite graph:
  `ParseSubgraphLegacy` is proved to terminate, and `RunsAreShort` bounds the rounds by the number of nodes.
- Objects made from three or more parents are said to be ignored (`README_v1.md:618`, `docs/architecture.md:912-915`).
  That holds for the older search, which also gives no parents to an object behind which no chain of two edges leads on
  (`OlderParentsExactly`); the newer one gives such an object two of its three parents,
  and which two is up to set order (`ThreeFreeParents`, `SetOrderDecides`; `ArityExactly` says when parents are found).
- `reconstruct_from_tokens` is called the inverse of `tokenize_with_commas` (`ggblab/parser.py:440`). It is on
  normal trees only (`InverseExactlyOnNormal`, `InverseOnTokenized`).
- The second example in the documentation of `reconstruct_from_tokens` (`ggblab/parser.py:436-437`) shows a text with fewer
  brackets than the code prints (`GroupsKeepBrackets`; `PrintsNotation` says what is printed for all calls, groups and words).
- Pruning edges is used as a fallback on graphs with cycles too, where it may disconnect everything (`CyclesMayFallApart`).
  It keeps reachability exactly if the edges between different nodes have a least part with the same reachability
  (`ReachabilityStaysExactly`).
- A change that a later one overtakes on its way to the broadcast queue is ignored by connected clients
  (`ReplicasLackTheOvertaken`); the wait at `comm_bridge/OOB_Server.py:378` makes this possible. A client is then right about exactly
  the names whose last change was not overtaken, or which have the same value anyway (`DrainedReplicasAreRight`).
- `commands_for_ggb` numbers all rows, while registers are filled only by rows that send something: behind a row that
  sends nothing, references miss their labels (`ReferenceIsLabelExactly`, `MissingCommandsShift`). A number without a command is
  sent as an assignment to its own register, which no label has filled yet (`RowsAreSent`).
- A late reply under an id that is already stored keeps the old place in the eviction order and can go after two
  more replies (`RepeatedRepliesGoSoon`). A late message with a reply but without a payload is stored by its reply first and
  then, if nobody waits for it, as a whole (`RepliesAreStored`).

## Model

| member | source | states |
|---|---|---|
| Graphs.DescendantsAreReached | ggblab_extra/construction_parser.py:1051 | the descendants of a node are exactly the other nodes it reaches by a non-empty path |
| Graphs.AncestorsReach | ggblab_extra/construction_parser.py:1061 | the ancestors of a node are exactly the other nodes that reach it |
| Subgraph.ConstructionParser.MatchedTargets | ggblab_extra/construction_parser.py:1042-1065 | the targets matched by an active set are the successors of active nodes whose ancestors are active but for one excused predecessor |
| Subgraph.ConstructionParser.MatchedTargetsLegacy | ggblab_extra/construction_parser.py:1252-1263 | the same for the older rule, where a direct successor of the target excuses |
| Subgraph.ConstructionParser.AddParents | ggblab_extra/construction_parser.py:1068-1082 | one or two new parents are added to every matched target, more to none, and no other target changes |
| Subgraph.ConstructionParser.AddParentsOf | ggblab_extra/construction_parser.py:1069-1082 | a single parent is always added, a pair only if neither of it is a parent already |
| Subgraph.ConstructionParser.TryActiveSets | ggblab_extra/construction_parser.py:1021-1084 | after all subsets of the frontier, smallest first, each new target has all nodes that explain it alone, or else one pair that explains it |
| Subgraph.ConstructionParser.ParseSubgraph | ggblab_extra/construction_parser.py:1005-1094 | the search ends, its loop states form a run that starts with exactly the roots that are in the table, and it stops with an empty frontier or at the depth limit |
| Subgraph.ConstructionParser.ParseSubgraphLegacy | ggblab_extra/construction_parser.py:1238-1288 | the older search ends on every graph, cyclic or not, with an empty frontier, and its states form a run of the older rule that starts with exactly the roots that are in the table |
| Subgraph.RoundKeepsInv | ggblab_extra/construction_parser.py:1086-1088 | every round keeps: frontier and explored nodes are disjoint, what explored nodes match lies in the frontier, and no edge of G2 leaves these sets |
| Subgraph.PairWithoutSingleIsAncestral | ggblab_extra/construction_parser.py:1047-1079 | if a pair of frontier nodes matches a target that neither matches alone, both are ancestors of the target |
| Subgraph.SearchStep | ggblab_extra/construction_parser.py:1030-1082 | one more active set, tried in order of size, keeps the partial parents of every target right |
| SubgraphRuns.StagesKeepInv | ggblab_extra/construction_parser.py:1009-1088 | the invariant of the search holds at every stage of every run, for both rules |
| SubgraphRuns.ParentsAreAncestors | ggblab_extra/construction_parser.py:1068-1079 | every edge p to t of G2, in every run, has p as a proper ancestor of t in G |
| SubgraphRuns.LayersAreDisjoint | ggblab_extra/construction_parser.py:1086-1088 | no node is in the frontier twice |
| SubgraphRuns.EdgesJoinNeighbours | ggblab_extra/construction_parser.py:1068-1088 | every edge of G2 goes from one frontier to the next |
| SubgraphRuns.ResultIsAcyclic | ggblab_extra/construction_parser.py:1009-1094 | G2 is acyclic, even if G has cycles |
| SubgraphRuns.RunsAreShort | ggblab_extra/construction_parser.py:1241-1288 | there are at most as many rounds as nodes, for both rules |
| SubgraphRuns.AtMostTwoParents | ggblab_extra/construction_parser.py:1070-1082 | no node of G2 has more than two parents |
| SubgraphRuns.LayersAreDetermined | ggblab_extra/construction_parser.py:1086-1088 | two runs from the same start go through the same frontiers, whatever the set order |
| SubgraphRuns.ParentsAreDetermined | ggblab_extra/construction_parser.py:1068-1079 | two runs differ in a node's parents only where different pairs explain it and no node does alone |
| SubgraphRuns.RivalChoices | ggblab_extra/construction_parser.py:1073-1079 | a second choice of parents is possible if and only if both are rival pairs |
| SubgraphRuns.AcyclicGraphsAreCovered | ggblab_extra/construction_parser.py:1005-1088 | on an acyclic graph, a finished newer search from all nodes without predecessors explores every node |
| SubgraphArity.ArityOfTarget | ggblab_extra/construction_parser.py:1055-1082 | a target with all ancestors active gets parents if and only if one or two of its ancestors are new, or three are and one of them is a spare direct predecessor |
| SubgraphArity.ArityExactly | ggblab_extra/construction_parser.py:1055-1082 | the same for every new target: or one of its ancestors stays out of the round and is a direct predecessor, one or two others are new, and a predecessor is active |
| SubgraphArity.ThreeFreeParents | ggblab_extra/construction_parser.py:1073-1082 | an object made from three frontier objects is explained by rival pairs of them, so it is not ignored |
| SubgraphArity.OlderParents | ggblab_extra/construction_parser.py:1256-1285 | on acyclic graphs the older search gives parents only if they are all the new ancestors |
| SubgraphEdges.OlderParentsExactly | ggblab_extra/construction_parser.py:1250-1285 | on acyclic graphs, a round of the older search gives a new target exactly its new ancestors as parents, if they are one or two, lie in the frontier, and an edge leads to a node from which another can be reached; otherwise none |
| SubgraphEdges.OlderFrontierExactly | ggblab_extra/construction_parser.py:1252-1288 | the next frontier of the older search, in edges and reachability: unexplored nodes behind an explored one, with all ancestors explored, behind which a chain of two edges leads on |
| SubgraphEdges.NewerParentsExactly | ggblab_extra/construction_parser.py:1042-1082 | a round of the newer search, on any graph, gives a new target parents if and only if the arity condition holds |
| SubgraphEdges.NewerFrontierExactly | ggblab_extra/construction_parser.py:1042-1088 | the next frontier of the newer search, on any graph: unexplored nodes behind an explored one, all of whose ancestors are explored but possibly for one predecessor from which another node can be reached |
| SubgraphOrder.EachPairCanBeChosen | ggblab_extra/construction_parser.py:1021-1079 | each of several rival pairs is what some size-ordered list of the active sets leaves as parents |
| SubgraphOrder.OrdersChoose | ggblab_extra/construction_parser.py:1021-1079 | every size-ordered list leaves parents that a round may choose |
| SubgraphOrder.SetOrderDecides | ggblab_extra/construction_parser.py:1021-1079 | an object made from three frontier objects gets the first two as parents in one order and the last two in another |
| Reduction.EnumeratedAreSimple | ggblab_extra/construction_parser.py:166 | every enumerated path is a simple path between the two nodes |
| Reduction.SimpleAreEnumerated | ggblab_extra/construction_parser.py:166 | every simple path between the two nodes is enumerated |
| Reduction.Reduce | ggblab_extra/construction_parser.py:162-173 | the edges removed at once are exactly those with a longer simple path between their ends |
| Reduction.SameReachability | ggblab_extra/construction_parser.py:152-173 | on acyclic graphs the pruned graph reaches exactly what the graph reaches |
| Reduction.LeastWithSameReachability | ggblab_extra/construction_parser.py:154-159 | the pruned graph is contained in every edge set with the same reachability, so no edge of it is redundant and it is the transitive reduction |
| Reduction.ReachabilityStaysExactly | ggblab_extra/construction_parser.py:174-185 | on every graph, pruning keeps reachability if and only if the edges between different nodes have a least part with the same reachability, and then leaves exactly that part of them |
| Reduction.KeptIsNeeded | ggblab_extra/construction_parser.py:166-169 | an edge between different nodes that is kept lies in every part of the graph with the same reachability, cycles or not |
| Reduction.SecondPassDoesNothing | ggblab_extra/construction_parser.py:228-252 | pruning a pruned graph changes nothing, cycles or not |
| Reduction.CyclesMayFallApart | ggblab_extra/construction_parser.py:174-185 | on three objects that depend on one another pruning removes every edge |
| Walks.FbdRec | ggblab_extra/construction_parser.py:1431-1452 | the nested result holds exactly the objects reached by walks that avoid the objects on the current path, with what the polygon helper adds at any of them, and the guard set is restored; an object for which the helper fails gives nothing |
| Walks.Fbd | ggblab_extra/construction_parser.py:1427-1454 | the result is exactly the set of objects reachable through one or more references, and of what the polygon helper says of these and of the object, without the object itself, on cyclic tables too |
| Walks.GuardLosesNothing | ggblab_extra/construction_parser.py:1433-1443 | starting with an empty guard, guarded walks reach all that walks reach |
| Walks.LoopsCanBeCut | ggblab_extra/construction_parser.py:1432-1444 | whatever a walk reaches, a walk without repetitions reaches, which the recursion takes |
| Walks.VisibleDescendants | ggblab_extra/construction_parser.py:397-424 | the search ends with exactly the nodes reachable by a non-empty path with no group inside, cycles included |
| Walks.VisibleIsVisited | ggblab_extra/construction_parser.py:411-423 | when the stack is empty, every visible node has been visited |
| Tokens.LexKeepsText | ggblab/parser.py:137 | the lexemes joined are the input without white space |
| Tokenizer.TokenizeWithCommas | ggblab/parser.py:145-288 | the index-and-stack loop computes the tree of the stack machine, or fails where that does |
| Tokenizer.ConsumeGroup | ggblab/parser.py:193-210 | the inner loop returns the text up to the matching brace, or to the end of input, and the index behind it |
| Printer.CommasKeepLexemes | ggblab/parser.py:469 | tightening commas does not change the lexemes |
| Printer.CallsKeepLexemes | ggblab/parser.py:469 | removing the blank before a bracket does not change the lexemes |
| Printer.PrintedLexemes | ggblab/parser.py:448-470 | a printed tree reads as the lexemes of the tree, at any depth and through all three rewrites, but for a leading minus glued to the next word |
| Notation.PrintsNotation | ggblab/parser.py:448-470 | every list of words, groups and calls, nested at any depth, is printed in the usual notation: no blank before a bracket that follows a name or a comma, one blank after any other comma |
| Notation.GroupsKeepBrackets | ggblab/parser.py:436-437 | a list that holds just a call keeps its brackets, so the tree of the second documented example does not print as documented |
| Notation.OperatorsKeepBlank | ggblab/parser.py:466-470 | behind a word that ends in an operator the blank before a bracket stays, except behind a minus sign that starts the text |
| RoundTrip.TokenizePrinted | ggblab/parser.py:440 | tokenizing what is printed for any lexical tree with closed script groups gives the normal form of the tree |
| RoundTrip.NormFixed | ggblab/parser.py:259-273 | a tree is its own normal form if and only if no word splits, no script symbol stands alone and no list starts with a minus and a word |
| RoundTrip.InverseExactlyOnNormal | ggblab/parser.py:440 | for lexical trees with closed groups, tokenizing undoes printing if and only if the tree is normal |
| WordShapes.PlainWordsByShape | ggblab/parser.py:142 | a word that starts with an optionally signed decimal, or failing that with digits, taken as long as possible and followed by something, comes out as these two leaves; every other word as one |
| WordShapes.GroupsByShape | ggblab/parser.py:165-218 | a group with matching braces behind a word that ends in a script symbol stays in one leaf with it, or with the rest of the word behind its coefficient; a lone symbol is doubled |
| WordShapes.BracketsMakeLists | ggblab/parser.py:149-240 | brackets of all kinds make a list, also when they do not fit together, but for a brace behind a script symbol |
| WordShapes.SeparatorsStandAlone | ggblab/parser.py:137 | a comma, colon or semicolon between two words is a leaf of its own |
| TokenizerOutput.TokenizeOutput | ggblab/parser.py:149-288 | what the tokenizer returns is lexical, and its groups are closed except perhaps in the last word |
| TokenizerOutput.OpenNeverReturns | ggblab/parser.py:197-210 | a tree that ends in a group with an open brace is never recovered from its printed text |
| TokenizerOutput.InverseOnTokenized | ggblab/parser.py:439-441 | for every input string, printing its tree and tokenizing again gives the same tree if and only if the tree is closed and normal |
| TokenizerOutput.SucceedsExactlyWhenBalanced | ggblab/parser.py:234-239 | the tokenizer succeeds if and only if the bracket depth outside script groups, blind to the kind of bracket, never goes below zero and ends at zero |
| TokenizerOutput.TextIsKept | ggblab/parser.py:149-288 | the tree spells the input without white space, outer brackets made round, if and only if no script symbol stands alone and no group is unfinished; otherwise one character more for each of these |
| Pipeline.StripCommaList | ggblab/parser.py:297-324 | the loop over segments computes the specification of comma stripping |
| Pipeline.ArgumentsComeOut | ggblab/parser.py:304-324 | arguments separated by commas come out one by one, single items bare and others as lists, an empty last one dropped |
| Pipeline.StripLeaves | ggblab/parser.py:290-324 | comma stripping keeps the leaves in order and drops only commas |
| Pipeline.NormalizeIdempotent | ggblab/parser.py:347-366 | normalising the nesting twice is normalising it once |
| Pipeline.NormalizeFixed | ggblab/parser.py:353-364 | normalising leaves a tree alone if and only if no list in it holds a triple |
| Pipeline.NormalizedHasNoTriples | ggblab/parser.py:347-366 | after normalising, no list holds a triple |
| Pipeline.NormalizeLeaves | ggblab/parser.py:347-366 | normalising the nesting keeps the leaves in order |
| Pipeline.ConvertWords | ggblab/parser.py:336-345 | converting question marks keeps all other words in order |
| Pipeline.PruneWords | ggblab/parser.py:368-395 | pruning keeps all words in order |
| Pipeline.PruneRemovesMissing | ggblab/parser.py:388-394 | no missing value stays anywhere |
| Pipeline.PruneFixed | ggblab/parser.py:375-395 | pruning leaves a value alone if and only if nothing in it is missing and no list of lists holds an empty list |
| Pipeline.PruneIdempotentExactly | ggblab/parser.py:375-395 | pruning twice is pruning once if and only if no list anywhere in the value holds a missing value and otherwise only lists, one of which vanishes |
| Pipeline.VanishesExactly | ggblab/parser.py:380-394 | a value is pruned to the empty list exactly if it is a list of missing values, or of lists that vanish |
| Pipeline.PruningTwiceMayPruneMore | ggblab/parser.py:380-394 | dropping a missing value can leave a list of lists whose empty members only a second pruning would drop |
| Pipeline.PipelineKeepsWords | ggblab/parser.py:407-413 | the words of the result are the leaves of the tree without commas and question marks, in order, across all four passes |
| PipelineShape.ListsByArguments | ggblab/parser.py:297-324 | argument by argument, what comma stripping makes: a single item bare and stripped, any other number of items a list of them, an empty last argument dropped; a list without commas keeps its items |
| PipelineShape.NestingIsCut | ggblab/parser.py:347-366 | of any number of lists around a list that hold nothing else, inside a list, at most one is left |
| PipelineShape.OrdinaryTreesStay | ggblab/parser.py:407-413 | a tree without commas, question marks, triples and empty lists among lists passes through all four passes as it is |
| Simplify.DropDuplicates | ggblab/parser.py:533-539 | the loop keeps the first of each group of equal members, as specified |
| Simplify.DedupSplits | ggblab/parser.py:533-539 | no two members that stay are equal within tolerance; each member in turn stays if it equals none that stays before it, and is dropped otherwise |
| Simplify.DroppedEqualsEarlier | ggblab/parser.py:533-539 | each dropped member equals an earlier one that stays |
| Simplify.DedupSubsequence | ggblab/parser.py:533-539 | what stays is a subsequence |
| Simplify.SimplifyIdempotent | ggblab/parser.py:480-543 | simplifying twice is simplifying once, at every level, though tolerance equality is not transitive |
| Simplify.DeepEqSymmetric | ggblab/parser.py:507-526 | equality within tolerance is symmetric |
| Simplify.OrderDecides | ggblab/parser.py:523-538 | of three numbers one tolerance apart, the order decides whether one or two stay |
| SimplifyShape.EqualExactly | ggblab/parser.py:507-526 | two values are equal within tolerance if and only if they have the same shape and, in turn, atoms that are close numbers or, if they are not both numbers, the same |
| SimplifyShape.CloseExactly | ggblab/parser.py:521-523 | finite numbers are close if and only if they differ by at most the relative tolerance of the larger or the absolute tolerance; others only if they are the same |
| SimplifyShape.SimplifiedExactly | ggblab/parser.py:528-543 | simplifying leaves a value alone if and only if at no depth a list of lists holds two equal members |
| SimplifyShape.SimplifiedHasNoDuplicates | ggblab/parser.py:528-543 | after simplifying, at no depth a list of lists holds two equal members |
| SimplifyShape.SimplifiedWords | ggblab/parser.py:528-543 | the words that are left are words of the value, in their order |
| SimplifyShape.MembersAreRepresented | ggblab/parser.py:528-543 | each member of a list is still there, simplified, or one that equals it; in a list that holds anything but lists, in its place |
| Payloads.ShapesAgree | comm_bridge/OOB_Server.py:328-345 | a list of one pair and a dictionary with name and value mean the same change; the pair alone means it exactly if its value is no list, and nothing otherwise |
| Payloads.LastPairCounts | comm_bridge/OOB_Server.py:328-332 | a list of pairs fails if and only if it names something unhashable; otherwise it changes exactly the names that it gives values to, and the last value counts |
| Payloads.ParsePayload | comm_bridge/OOB_Server.py:326-345 | the loop and the other two shapes compute the specified changes, or fail on an unhashable name |
| Payloads.PayloadsMean | comm_bridge/OOB_Server.py:326-345 | a payload is refused if and only if it names something unhashable; otherwise its changes are exactly the values that it gives to names, in any of its shapes |
| ObserverService.UpdatesTakeEffect | comm_bridge/OOB_Server.py:347-372 | an update that gives values takes the next number, each name has its value and all others theirs, and the last entry logged and the last one due for broadcasting hold this number and these values; nothing else changes |
| ObserverService.OobServer.HandleObjectUpdate | comm_bridge/OOB_Server.py:318-363 | the handler fails exactly if the payload names something unhashable; otherwise a payload that gives values takes the next number, gives each name its value and leaves all others, and is logged and due for broadcasting as this change; one that gives none changes nothing |
| ObserverService.OobServer.Enqueue | comm_bridge/OOB_Server.py:386-421 | an applied change joins the broadcast queue, or goes nowhere if nobody is connected |
| ObserverService.OobServer.BroadcasterTakes | comm_bridge/OOB_Server.py:460-461 | the oldest queued change is taken, with the clients of that moment |
| ObserverService.OobServer.BroadcasterWrites | comm_bridge/OOB_Server.py:458-482 | the change is written to one of these clients, if it is still connected |
| ObserverService.OobServer.BroadcasterFinishes | comm_bridge/OOB_Server.py:538-545 | the next change is taken only when every client has been served |
| ObserverService.OobServer.ClientConnects | comm_bridge/OOB_Server.py:771-773 | a client joins with an empty stream |
| ObserverService.OobServer.ClientDropped | comm_bridge/OOB_Server.py:486-498 | a slow or closed client leaves |
| ObserverService.OobServer.AnswerSnapshot | comm_bridge/OOB_Server.py:796-812 | number and map of one moment are written to the asking client |
| ObserverService.OobServer.AnswerDiffs | comm_bridge/OOB_Server.py:813-831 | the loop returns exactly the logged changes above the given number, in order |
| ObserverService.OobClient.Read | comm_bridge/oob_client.py:41-57 | a snapshot replaces the copy, a newer update is applied, an old one is ignored |
| ObserverRuns.StepKeepsServer | comm_bridge/OOB_Server.py:347-372 | every step, in any order, keeps number and map consistent with the history, and the queue with the order of queueing |
| ObserverRuns.StepKeepsClient | comm_bridge/OOB_Server.py:446-498 | every step keeps: a synced client that reads its stream misses only overtaken changes, and no connected client will miss another |
| ObserverRuns.RunsKeepInv | comm_bridge/OOB_Server.py:347-372 | the invariant holds after every run |
| ObserverRuns.ReplicasLackTheOvertaken | comm_bridge/oob_client.py:41-57 | in every run, a client that has seen a snapshot holds that snapshot with exactly the later changes, up to its own number, that no larger number was queued before |
| ObserverRuns.DrainedReplicasAreUpToDate | comm_bridge/oob_client.py:41-57 | in every run, a drained and connected client that has seen a snapshot has the number of the server |
| ObserverRuns.DrainedReplicasAreRight | comm_bridge/oob_client.py:41-57 | in every run, a drained and connected client that has seen a snapshot agrees with the server about a name if and only if the name has not changed since, its last change was not overtaken, or the last change that was not gave it the same value |
| ObserverRuns.ReplicasAreHistory | comm_bridge/oob_client.py:41-57 | in every in-order run a client that has seen a snapshot holds the map the server had at the client's number |
| ObserverRuns.DrainedReplicasAreCurrent | comm_bridge/oob_client.py:41-57 | in every in-order run a drained and connected client that has seen a snapshot holds the current map |
| ObserverRuns.OvertakingLosesChanges | comm_bridge/OOB_Server.py:372-421 | when the second of two changes is queued first, a drained and connected client ends up with the second alone, which is the map of the server if and only if it covers the names of the first |
| ObserverLog.LogIsWindow | comm_bridge/OOB_Server.py:81 | after every run, in order or not, the log holds the last changes, at most 1000, numbered one after the other up to the current number |
| ObserverLog.LogHoldsThousand | comm_bridge/OOB_Server.py:81 | after every run the log holds the last thousand changes, or all if there are no more, with their numbers |
| ObserverLog.DiffsCatchUp | comm_bridge/OOB_Server.py:813-831 | after every run, diffs since a number within reach of the log bring the map of that time up to date; since an older one they are right exactly for names the window touched or that did not change before it |
| ActionBatch.Batcher.EnqueueSend | src/comm/kernel_comm.ts:88-94 | a message joins the end of the chain |
| ActionBatch.Batcher.FlushActionBatch | src/comm/kernel_comm.ts:96-108 | a non-empty buffer becomes one batch at the end of the chain, and the timer is cleared |
| ActionBatch.Batcher.ScheduleActionBatchFlush | src/comm/kernel_comm.ts:110-121 | a timer is started unless there is one |
| ActionBatch.Batcher.CallRemoteSocketSend | src/comm/kernel_comm.ts:123-167 | an action is buffered, and flushed at once if it is an object update; any other message is queued |
| ActionBatch.Batcher.TimerFires | src/comm/kernel_comm.ts:114-120 | the buffer is flushed |
| ActionBatch.Batcher.BeginSend | src/comm/kernel_comm.ts:88-94 | the oldest queued message is sent when none is being sent |
| ActionBatch.Batcher.EndSend | src/comm/kernel_comm.ts:88-94 | a failed sending ends like any other and the chain goes on |
| ActionBatch.RunsKeepInv | src/comm/kernel_comm.ts:34-163 | in every run, batches and buffer are the accepted entries in order, messages are sent one at a time in queue order even after failures, and a timer runs exactly while something is buffered |
| ActionBatch.DrainedClientsLoseNothing | src/comm/kernel_comm.ts:88-121 | when all is sent and nothing failed, what arrived is exactly what was accepted, in order |
| ActionBatch.CallsAreTaken | src/comm/kernel_comm.ts:132-165 | in every run, the accepted entries are the submitted actions, and the messages queued beside the batches the other submissions, in order |
| ActionBatch.UpdatesGoAtOnce | src/comm/kernel_comm.ts:145-152 | an object update is queued at once, last in a batch with everything that was buffered |
| Ingest.IngestLoop.HandleBulk | comm_bridge/ingest.py:128-142 | the loop over a bulk takes the entries in order and ends at the first failure |
| Ingest.IngestLoop.HandleSingle | comm_bridge/ingest.py:144-149 | a message of its own is an update or is passed on |
| Ingest.IngestLoop.HandleMessage | comm_bridge/ingest.py:128-150 | a message is taken as a bulk, as an update, or passed on |
| Ingest.BulkIsSingles | comm_bridge/ingest.py:128-148 | when no payload fails, a bulk does what its entries do one by one if and only if every list or dictionary in it belongs to an object update |
| Ingest.FailureEndsBulk | comm_bridge/ingest.py:131-142 | a failing update ends its bulk after the entries before it; one by one, the rest would be taken |
| Ingest.SessionsArriveInOrder | comm_bridge/ingest.py:128-150 | for every session over an ordered transport without failed sendings, the store has taken, in the order of queueing, the updates that the messages brought, each message up to its first failure |
| Ingest.UpdatesArriveInOrder | comm_bridge/ingest.py:128-150 | if moreover no payload fails, lists and dictionaries come only in object updates, and no other message reads as a bulk, the store has taken the object updates one by one as submitted, whatever else was sent |
| Sessions.LastSubmittedHolds | comm_bridge/ingest.py:128-150 | after every session without failures, the store holds for a name the value that the last submitted action with this name gave it |
| Sessions.OtherNamesStay | comm_bridge/ingest.py:128-150 | a name to which no action gave a value has in the store what it had before |
| Sessions.OneUpdateArrives | src/comm/kernel_comm.ts:132-165 | a session of one update is such a session, and gives the store the value and the next number |
| Sessions.OthersArePassedOn | comm_bridge/ingest.py:138-150 | every other action and every other submission is passed on, once and in order |
| Sessions.TextsAreBatches | src/comm/kernel_comm.ts:106 | a message that holds the entries of a batch as JSON is taken as the batch |
| Sessions.OtherItemsAreSkipped | comm_bridge/ingest.py:132-133 | items of a bulk that are no dictionaries count for nothing |
| Sessions.LoneUpdatesTakeEffect | comm_bridge/ingest.py:145-148 | an update in a message of its own takes effect, unless it names something unhashable |
| WordText.MapsCompose | ggblab_extra/construction_io.py:442-452 | two rewritings of a text, word by word, are one |
| Registers.SubName | ggblab_extra/construction_io.py:450-451 | replacing whole-name occurrences of a name (a word with primes) rewrites exactly the words that start with that name and are not glued to more |
| Registers.SubAllIsChain | ggblab_extra/construction_io.py:446-452 | replacing the names one after the other rewrites each word on its own |
| Registers.ChainIsAtOnce | ggblab_extra/construction_io.py:438-452 | without clashes, longest first, one after the other is all at once: each word becomes the register of its longest name, and no register is touched again |
| Registers.ClashShows | ggblab_extra/construction_io.py:438-452 | every clash, where a register is the start of a later name that writes something else, shows on some word |
| Registers.DecimalIsRead | ggblab/ipymagic.py:454-462 | the number in a register is read back |
| RegisterTable.NumberNames | ggblab_extra/construction_io.py:426-434 | the loop builds the dictionary from names to row numbers |
| RegisterTable.NamesAreNumbered | ggblab_extra/construction_io.py:426-434 | each name has the number of a row with that name |
| RegisterTable.LastRowNumbers | ggblab_extra/construction_io.py:426-434 | the number is that of the last row with the name |
| RegisterTable.LongestFirst | ggblab_extra/construction_io.py:438-440 | the same names in descending length |
| RegisterTable.TransformCommand | ggblab_extra/construction_io.py:442-452 | the loop over the names computes the chain of replacements |
| RegisterTable.CommandsForGgb | ggblab_extra/construction_io.py:454-476 | one command for each row with a command or with a numeric value, in order, without empty ones |
| RegisterTable.TransformsAtOnce | ggblab_extra/construction_io.py:438-452 | in a table without clashes, a command is transformed by replacing all names at once, longest name first |
| RegisterTable.TransformsAtOnceExactly | ggblab_extra/construction_io.py:438-452 | for a table of names that are words with primes, this holds for all commands if and only if no name clashes with a later one |
| RegisterTable.RegistersAsNamesClash | ggblab_extra/construction_io.py:446-452 | with a name that reads as a register, one replacement is replaced again |
| RegisterRun.RegisterMatches | ggblab/ipymagic.py:438-442 | the pattern matches a word exactly if it is an underscore with digits or a run of underscores |
| RegisterRun.SubRegisters | ggblab/ipymagic.py:442-475 | substituting registers rewrites exactly the register words without a prime before them |
| RegisterRun.RunCommands | ggblab/ipymagic.py:444-519 | the loop sends, records labels, skips blank commands and stops at an applet error as specified |
| RegisterRun.RunOverTexts | ggblab/ipymagic.py:444-519 | with one label for each command that is not blank, the run sends each of them with the labels known by then, and the registers are the labels so far |
| RegisterLabels.RegisterIsRead | ggblab/ipymagic.py:459-461 | register n is looked up as label n if that is known, and stays otherwise |
| RegisterLabels.RunsFillRegisters | ggblab/ipymagic.py:442-503 | for every numbered table without clashes, whatever its rows send, what is sent for a row is its text with each reference to row k replaced by label number k if that is known by then, and left as a register if not |
| RegisterLabels.RegistersMeanLabels | ggblab/ipymagic.py:442-503 | if the references of a row go to earlier rows up to which all rows send something, what is sent for it is its text with every name replaced by the label of the name's row |
| RegisterLabels.ReferenceIsLabelExactly | ggblab_extra/construction_io.py:455-475 | with pairwise different labels, a reference to an earlier row that sends something is sent as that row's label if and only if every row up to it sends something, or that label is the very register that stayed |
| RegisterLabels.AllSend | ggblab_extra/construction_io.py:455-475 | as many rows send something as there are exactly if all do |
| RegisterLabels.CommandsAreSent | ggblab_extra/construction_io.py:455-475 | where no command is blank, the number of commands is the number of rows that send something |
| RegisterLabels.LabelsAreSent | ggblab/ipymagic.py:442-503 | in a table of three rows that all send something and whose third command is the name of the second row, that command is sent as the second label |
| RegisterLabels.MissingCommandsShift | ggblab_extra/construction_io.py:455-475 | if the first of these rows sends nothing, it is sent as a register that nothing has filled |
| RegisterRows.RowsEmit | ggblab_extra/construction_io.py:454-476 | row by row: a command is emitted with its names replaced, a number without a command as its value, assigned to the register of its name unless the value is an assignment; any other row emits nothing |
| RegisterRows.SendsExactly | ggblab_extra/construction_io.py:455-475 | a row sends something if and only if its command is not blank, or it is a number without one |
| RegisterRows.RowsAreSent | ggblab/ipymagic.py:442-480 | what the applet gets for each kind of row: its text with the known labels filled in; the register of its own name is never filled |
| RegisterReplies.UnderscoresCountBack | ggblab/ipymagic.py:463-467 | a run of underscores is the result as many places back, or stays |
| RegisterReplies.NumbersCount | ggblab/ipymagic.py:454-462 | an underscore and a number is the result of that number, or stays |
| RegisterReplies.PackedRepliesSplit | ggblab/ipymagic.py:490-493 | a reply that lists labels with commas and blanks fills a register with each, and reads as the first where it is kept whole |
| RegisterReplies.ListRepliesFill | ggblab/ipymagic.py:494-499 | a reply that is a list fills a register with each item, missing ones skipped |
| RegisterReplies.RefusalStops | ggblab/ipymagic.py:513-516 | after a refused command nothing more is sent, and its report is all that is left |
| RegisterReplies.OnlyRefusalStops | ggblab/ipymagic.py:444-519 | without a refusal, one command is sent for each that is not blank |
| LateReplies.BridgeState.StoreReply | comm_bridge/server.py:139-160 | a reply is stored, and before that the oldest is dropped from a store of more than 1000 |
| LateReplies.BridgeState.ClaimPending | comm_bridge/server.py:162-164 | a waiting request is taken out of the table, if there is one |
| LateReplies.BridgeState.StoreUnclaimed | comm_bridge/server.py:184-195 | a reply nobody waits for is stored once more |
| LateReplies.BridgeState.GetReply | comm_bridge/server.py:280-291 | a stored reply is handed out once |
| LateReplies.ShelfIsBounded | comm_bridge/server.py:145-160 | in every run the store holds at most 1001 replies |
| LateReplies.Survives | comm_bridge/server.py:145-160 | a stored reply stays as long as the replies behind it and those still to arrive are at most 1000 |
| LateReplies.NewRepliesSurvive | comm_bridge/server.py:145-160 | a reply under an id that is not stored survives any 1000 later replies with other ids, whatever is taken or asked in between |
| LateReplies.NewRepliesPushOut | comm_bridge/server.py:145-160 | conversely, replies under new ids push it out as soon as there are more than 1000 with those behind it |
| LateReplies.RepeatedRepliesGoSoon | comm_bridge/server.py:155-159 | a second reply under a stored id can be lost after two later replies |
| LateReplies.RepliesAreStored | comm_bridge/server.py:131-195 | what is stored under an id: the payload, else the reply, else the whole message, the latter also for null; and when no request waits, the payload or the whole message instead; other ids keep what they have |
| LateReplies.AskedRepliesAreClaimed | comm_bridge/server.py:162-183 | a request that waits leaves the table with its reply |
| LateReplies.TakenOnce | comm_bridge/server.py:280-291 | what is handed out is gone, and nothing else is |
| Correlation.CommLink.BeginRequest | ggblab_core2/comm.py:607-613 | a request enters the table with an open future |
| Correlation.CommLink.BeginWait | ggblab_core2/comm.py:634-649 | the wait arms the watchdog |
| Correlation.CommLink.EndWait | ggblab_core2/comm.py:650-653 | every way out of the wait leaves the table |
| Correlation.CommLink.HandleRecv | ggblab_core2/comm.py:527-530 | a reply takes the future of its own id out of the table, if it is there |
| Correlation.CommLink.ClientHandle | ggblab_core2/comm.py:137-292 | of the replies of one mirror connection only the last is correlated |
| Correlation.CommLink.SetFutureResult | ggblab_core2/comm.py:531-565 | an open future gets the payload, another one stays |
| Correlation.CommLink.WatchdogChecks | ggblab_core2/comm.py:636-637 | the watchdog goes on only if it finds the future open |
| Correlation.CommLink.WatchdogExpires | ggblab_core2/comm.py:638-645 | an open future gets the timeout, another one stays |
| Correlation.RequestsEndProperly | ggblab_core2/comm.py:527-653 | in every interleaving a future is completed at most once, a caller gets a payload of its own id or a timeout, and a request that is over has left the table unless sending failed unanswered |
| Correlation.RepliesDoNotCompete | ggblab_core2/comm.py:529-559 | a reply that holds a future finds it open or timed out, never completed by another reply |
| Correlation.WaitingEnds | ggblab_core2/comm.py:634-653 | a waiting request always has a step that takes it further |
| Delivery.ReplyTakesFuture | ggblab_core2/comm.py:527-530 | a reply that meets its request in the table, over the comm or as the last of a mirror connection, takes it out, and its payload can be set |
| Delivery.OtherRepliesAreNoted | ggblab_core2/comm.py:527-530 | a reply that meets no request changes nothing |
| Delivery.HandStays | ggblab_core2/comm.py:531-559 | until its payload is set it can be set, whatever happens in between |
| Delivery.RepliesAreDelivered | ggblab_core2/comm.py:527-653 | in every run, a payload that is set while the future is open is what the caller gets |
| Delivery.FirstDecides | ggblab_core2/comm.py:527-653 | the first step that completes a future decides what the caller gets: the payload that waited, or a timeout |
| Delivery.TimeoutsComeFirst | ggblab_core2/comm.py:636-645 | a caller gets a timeout only if the watchdog completed its future before any reply to it was set |
| Delivery.ShortRuns | ggblab_core2/comm.py:600-653 | an answered request returns its payload, an unanswered one a timeout, and both leave the table |

## Left out

- Sockets, websockets, threads, event loops and start-up code: transports are queues, and what a lock protects is one step.
- The time limit of `parse_subgraph` and its fallback to the older search, data frame columns, node attributes, and `parse()`, which builds the graph.
- `networkx` itself: descendants and ancestors are defined by reachability, all simple paths by enumeration; its own transitive reduction is not modelled, but `LeastWithSameReachability` leaves it no other result.
- The non-recursive form of `fbd`, and how the helper for regular polygons finds its vertex in the data frame: what it returns, or that it fails with an error that `fbd` catches, is a parameter. `ffd` is not modelled, because it calls a function that does not exist.
- Names in construction graphs are opaque; node attributes decide only which nodes are groups.
- The flag that suppresses commas in a bracket group: it is always off, as are the `except` branches around script groups, so neither can be reached.
- Command names collected while tokenizing, and the cache that counts them.
- `\d` is modelled as the ASCII digits and `\w` as ASCII word characters and everything beyond ASCII that is no white space.
- Lists that Python shares between the stack and their parent are joined to the parent when they are closed.
- Floating point: numbers of tokens are reals, and `float()` is a parameter (`Reading`) that may accept any texts.
- Type errors of the printer on values that are neither lists nor texts.
- The store's listeners, its notices of updates on the receive queue, direct broadcasts when there is no queue, and write timeouts: dropping a client is a step that may come at any time.
- Names of shared objects that JSON cannot keep apart, such as 1 and "1", are kept apart here.
- Clients that ask for diffs: the shipped client asks for snapshots only, so diffs are a result about the server's answer.
- Time stamps of actions, and what else an entry that is passed on may hold beside type and payload.
- SessionsArriveInOrder: assumes an ordered transport, although each message opens a connection of its own; so do UpdatesArriveInOrder,
  LastSubmittedHolds, OtherNamesStay and OthersArePassedOn.
- SubName: is about names that are words with primes, as are SubAllIsChain, ChainIsAtOnce, TransformsAtOnce, RegistersMeanLabels and RowsEmit;
  names such as `C_{1}` appear in the loops only. An empty name, whose pattern Python would match between characters, matches
  nothing here; negative sequence numbers do not appear at all.
- Lists nested in applet results, labels in dictionaries, and `init`, `print` and exceptions other than the two kinds of command failure.
- RegistersMeanLabels: asks for one label per command, as does RowsAreSent.
- Which event loop completes a future, cancelled waits, and the error messages that `send_recv` collects after an empty reply.
