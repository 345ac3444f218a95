# Verified models of the context graph, the run stream and the repository tools

This project models the parts of the repository whose correctness rests on more than one function: the
context-graph engine that merges, clusters and stores code entities, the bridge that streams an agent run to a
client, and three text tools of the build. Each model follows the branches of the code it is named after, and each
main theorem is stated for all inputs, all runs, or all answers of the libraries the code calls.

| modules | part of the system |
|---|---|
| Closure, UnionFind, Entities, Dedup | entity deduplication: three merge passes over one path-halving union-find, then the rewrite of nodes and edges |
| Sorting, Matching, Communities, Clustering | community detection around a partitioner: hubs, splits, canonical numbering, and carrying ids over from the previous run |
| GraphBuild, Ids | building the graph: ghost nodes, edge ends, stored directions, and the id normaliser they rely on |
| Affected, Lsh, StatIndex | impact search, similarity index and the stat index in front of content hashes |
| RunLock, StreamItems, TerminalOutcome, TurnFiles | one agent run: the workspace lock, the items of the stream, the durable record of a failure, the registry of changed files |
| ExprParser, ExprLaws, ExprTrees, ExprPrinter, ExprLexer | the interpreter for workflow expressions |
| ChangelogLines, Changelog, Comments | the changelog normaliser and the JavaScript comment scanner |
| Common | optional values, characters, look-up, filtering, choosing |

Code that changes state step by step is a class or a method with loops, proved against a specification that knows
nothing of forests, tables or cursors; the theorems are about that specification. Code that runs concurrently is a
step system, and its theorems hold in every interleaving. Libraries appear as arbitrary functions: string metrics,
neighbour lists and model answers in Dedup, the partitioner in Clustering, case folding and composition in Ids and
Changelog, lower-casing and number printing in the expression modules, the full content hash in StatIndex.

## Where the code departs from its description

- The remapping of community ids is documented to maximize the overlap. It is greedy: on some communities every
  remapping keeps `k` where `2(k - 1)` is possible (`Communities.GreedyIsNotOptimal`), it always keeps at least half
  (`Communities.RemappingIsHalfOptimal`), and it keeps the maximum when every winning pair outweighs what competes for
  its ends (`Communities.OptimalWhenWinnersOutweigh`), exactly then when winners do not compete with each other
  (`Communities.OptimalIff`).
- `normalize_id` is documented as idempotent. It is so exactly when each word, folded and composed, has only word
  characters (`Ids.IdempotentIff`). A dotted capital I is a counterexample (`Ids.NotAlwaysIdempotent`); a j with caron
  folds to two characters but composes again, and is none (`Ids.RecomposedIsIdempotent`).
- Repeated changelog normalisation is documented as safe. It is so exactly when the text written splits into clean
  lines (`Changelog.SafeToRepeatIff`); a bare `*` swallows its line break, and a fence behind it is lost to the second
  run (`Changelog.BareStarUnfencesCode`).
- Every non-syntax-tree node that shares its key with a syntax-tree node is described as a ghost. The code removes one
  per key, the last one visited (`GraphBuild.SecondGhostStays`), so all of them go exactly when there is at most one
  and one syntax-tree node (`GraphBuild.EveryGhostGoesIff`). Two ghosts that normalise alike cannot both keep their
  edges (`GraphBuild.NamesakesAreMisrouted`).
- The first direction of an undirected edge is described as the one that stays. A second relation between the two
  nodes can undo that (`GraphBuild.SecondRelationFlips`); it stays exactly when every edge back names the last relation
  of the edges forth (`GraphBuild.FirstDirectionStaysInGraphIff`).
- Retrying the terminal record is described as idempotent. For a store that takes ledger events it is so exactly when
  the store ignores a repeated event key, as both stores of the repository do, or lists events and the thread has fewer
  than 500 of them (`TerminalOutcome.RetryIsIdempotentIff`).
- The comment scanner does not count a newline escaped inside quotes: a comment's line is right exactly when no quoted
  string before it escapes one (`Comments.ReportedComments`, `Comments.ContinuationShiftsLines`).
- The stat index is described as wrong only for edits that keep size and time. Restoring an old size and time with
  the old content can also leave a wrong digest, through a concurrent reader (`StatIndex.RestoringAFileFoolsTheIndex`).
- The expression parser accepts texts of no expression (`ExprLexer.AcceptsLoneOperator`,
  `ExprLexer.AcceptsMissingComma`, `ExprLexer.AcceptsTrailingComma`). The texts it accepts that are the text of an
  expression are exactly the tidy ones (`ExprLexer.AcceptedIsTextIff`).

## Model

| member | source | states |
|---|---|---|
| UnionFind.Forest.SameRootIffConnected | backend/context_graph/dedup.py:151-167 | after any sequence of unions two keys have one representative exactly when the reflexive-symmetric-transitive closure of the unions relates them |
| UnionFind.Forest.Find | backend/context_graph/dedup.py:155-160 | terminates on every forest, returns the root of the key's tree, and path halving changes nobody's representative |
| UnionFind.Forest.Union | backend/context_graph/dedup.py:162-167 | adds exactly the one link to the relation the forest stands for, and both keys to its keys |
| UnionFind.Forest.Hang | backend/context_graph/dedup.py:165-167 | hanging one root below the other is the union of the two trees and nothing else |
| UnionFind.Forest.Components | backend/context_graph/dedup.py:169-173 | the groups are exactly the classes of equal representative, each once, with their keys in insertion order, and no representative changes |
| UnionFind.Forest.SetDefault | backend/context_graph/dedup.py:156 | a new key becomes its own root; a known one changes nothing |
| UnionFind.HalveKeepsWellformed | backend/context_graph/dedup.py:157-159 | pointing a node at its grandparent keeps every tree, every representative and the height that makes the loop stop |
| UnionFind.JoinKeepsWellformed | backend/context_graph/dedup.py:165-167 | a root may be hung below another root: one new tree, no cycle |
| UnionFind.LinkKeepsExplained | backend/context_graph/dedup.py:162-167 | the representatives after a union are those of the closure with the new link |
| Closure.Absorb | backend/context_graph/dedup.py:162-173 | if each link of one relation joins points another relation connects, then so does every walk (closure of a closure) |
| Closure.LabelConstant | backend/context_graph/dedup.py:155-167 | a labelling that agrees along every link is constant on every class of the closure |
| Entities.PickWinner | backend/context_graph/dedup.py:459-468 | the survivor is the first node that no other node beats: no chunk suffix before chunk suffix, then the shorter id |
| Entities.SuffixStart | backend/context_graph/dedup.py:59-78 | the variant suffix found is the one the greedy pattern finds: the longest stem that ends in a letter |
| Entities.ComparableIff | backend/context_graph/dedup.py:66-147 | two entities may be compared exactly when: one file, or neither anchored to its file; one label, or the same numbers and neither label a start of the other; and under twelve characters, no siblings, score 97 and at most one character apart |
| Entities.VariantSuffixIff | backend/context_graph/dedup.py:59-63 | a variant suffix is a run of digits and a run of lower-case letters, of at least two letters without digits |
| Entities.OneNumberApart | backend/context_graph/dedup.py:99-122 | labels that differ in one number, not in its padding, are never comparable, whatever stands around it |
| Entities.ScoresAre | backend/context_graph/dedup.py:330-379 | across files a label of twelve characters takes the score without prefix bonus; one community adds five points exactly when both labels have twelve characters |
| Entities.ScoresDecide | backend/context_graph/dedup.py:381-389 | from 92 on comparable entities merge, except one label in two files; from 75 on they are asked about; no pair is both |
| Entities.ExactPairsAgree | backend/context_graph/dedup.py:245-275 | merging without a score is agreement in file and label, both nonempty, between nodes that are not code: symmetric and transitive |
| Entities.ChunkSuffixIff | backend/context_graph/dedup.py:183 | a chunk suffix is `_c` and digits at the end, before an optional newline |
| Dedup.GroupBy | backend/context_graph/dedup.py:245-265 | one group per key that occurs, holding exactly the selected nodes with that key, in order |
| Dedup.ExactPass | backend/context_graph/dedup.py:255-275 | connects all same-file, same-label pairs of non-code nodes and nothing that the allowed links do not connect |
| Dedup.FuzzyPass | backend/context_graph/dedup.py:293-398 | for any scores and any neighbour lists, connects exactly the pairs that pass all guards, whatever order the pairs are visited in |
| Dedup.CollectAmbiguous | backend/context_graph/dedup.py:487-523 | asking the mutable forest which pairs are still apart is asking the closure of the first two passes |
| Dedup.JudgePass | backend/context_graph/dedup.py:528-576 | for any answers, in batches of thirty, merges exactly the confirmed pairs; numbers outside a batch are ignored |
| Dedup.MergeAll | backend/context_graph/dedup.py:255-402 | the three passes leave exactly the closure of exact, fuzzy and confirmed links |
| Dedup.BuildRemap | backend/context_graph/dedup.py:405-416 | the remap table computed from the components is the renaming defined by the closure alone |
| Dedup.RewriteAll | backend/context_graph/dedup.py:433-454 | the loop computes the rewriting that `Dedup.RewriteIsComplete` and `Dedup.RewriteKeepsEndpoints` are about |
| Dedup.RewriteIsComplete | backend/context_graph/dedup.py:433-454 | one output edge, at ascending positions, for every input edge with two ends whose new names differ, and no other: the ends renamed, the legacy keys gone, everything else kept |
| Dedup.EdgesSurvive | backend/context_graph/dedup.py:418-456 | so for the whole pipeline, which returns the edges as they were when it merges nothing |
| Dedup.DeduplicateEntities | backend/context_graph/dedup.py:202-456 | the whole pipeline returns what the closure defines, with its early returns and the refusal of several repositories |
| Dedup.SurvivorOfClass | backend/context_graph/dedup.py:408-416 | a survivor lies in its own component, and two nodes have one survivor exactly when they are connected |
| Dedup.RenamingIsCanonical | backend/context_graph/dedup.py:404-416 | the remap sends each removed id to a survivor of its own component, is idempotent, and identifies exactly the connected ids |
| Dedup.LinksAvoidCode | backend/context_graph/dedup.py:249-250 | no pass ever links a code node |
| Dedup.CodeIsUntouched | backend/context_graph/dedup.py:186-196 | for any scores and answers no code node is removed and none absorbs another node |
| Dedup.RewriteKeepsEndpoints | backend/context_graph/dedup.py:433-454 | after the rewrite an edge end that named a node names a survivor, and no edge is a self-loop |
| Dedup.UniqueIsUnique | backend/context_graph/dedup.py:231-239 | the pre-deduplication keeps one node per nonempty id and loses no id |
| Dedup.UniqueKeepsFirsts | backend/context_graph/dedup.py:231-239 | kept are, in order, exactly the first nodes of each nonempty id |
| Dedup.CandidatesAreFirsts | backend/context_graph/dedup.py:278-294 | compared are, in order, exactly the first non-code nodes of each nonempty label whose text has entropy 2.5 |
| Dedup.AmbiguousIff | backend/context_graph/dedup.py:487-523 | the model is asked exactly about pairs of candidates, in order, that are still apart and score in the ambiguous range |
| Dedup.RefusedIff | backend/context_graph/dedup.py:220-228 | the call is refused exactly when two nodes name different repositories |
| Dedup.NodesSurvive | backend/context_graph/dedup.py:202-456 | returned are, in order, exactly the first nodes of each nonempty id that is not merged into another |
| Dedup.OutputIsWellFormed | backend/context_graph/dedup.py:202-456 | the returned graph has one node per id, all of them input nodes, every code node, and no edge end that lost its node |
| Matching.HalfOfEveryAssignment | backend/context_graph/cluster.py:311-320 | any assignment that dominates every overlapping pair keeps at least half the overlap of every one-to-one assignment |
| Matching.Charge | backend/context_graph/cluster.py:311-320 | a rival's overlap is covered by what the greedy assignment keeps at its new and at its old ends |
| Matching.OutweighingIsOptimal | backend/context_graph/cluster.py:311-320 | an assignment that leaves no overlap untouched, and whose pairs each outweigh every two pairs competing for their ends, keeps the largest total of all one-to-one assignments |
| Communities.CollectOverlaps | backend/context_graph/cluster.py:296-308 | lists exactly the pairs of communities that share nodes, with the number shared |
| Communities.MatchGreedily | backend/context_graph/cluster.py:309-320 | the accepted pairs are one-to-one, and every pair not accepted loses to an accepted one at one of its ends |
| Communities.NextFree | backend/context_graph/cluster.py:328-329 | the search for a fresh id stops, at the first number not used |
| Communities.AssignFresh | backend/context_graph/cluster.py:326-332 | fresh ids are new, one-to-one, ascend in the order given, and leave no smaller number unused |
| Communities.CollectUnmatched | backend/context_graph/cluster.py:322-325 | exactly the communities without a partner, larger ones first, ties by members |
| Communities.RemapToPrevious | backend/context_graph/cluster.py:284-334 | one entry per community, under its id and with its members sorted; matched ones keep old ids, unmatched ones get ascending free ids by size and then by members; keys come out ascending |
| Communities.MatchingIsUnique | backend/context_graph/cluster.py:309-320 | the overlaps alone decide which communities keep an id: two one-to-one matchings in which every overlap loses, by size and then by the smaller id, to a matched one at one of its ends are equal |
| Communities.SharedCountsCommon | backend/context_graph/cluster.py:296-307 | an overlap counts the nodes that both communities list |
| Communities.RemappingIsHalfOptimal | backend/context_graph/cluster.py:284-320 | the ids kept are worth at least half of every one-to-one assignment of new communities to old ids, fresh ids included |
| Communities.NoOverlapMissed | backend/context_graph/cluster.py:311-320 | an unmatched new community overlaps no unmatched old one |
| Communities.UndisturbedKeepsId | backend/context_graph/cluster.py:284-320 | two communities that overlap each other and nothing else keep the id |
| Communities.OptimalWhenWinnersOutweigh | backend/context_graph/cluster.py:288-320 | the documented maximum is reached when every winning pair (o, n) has w(o', n) + w(o, n') <= w(o, n) for all other o' and n' |
| Communities.OptimalIff | backend/context_graph/cluster.py:288-320 | when no overlap joins the ends of two winning pairs, the maximum is reached exactly under that condition |
| Communities.GreedyIsNotOptimal | backend/context_graph/cluster.py:288-291 | the documented maximum is not always reached: for every k >= 3 there are communities and a previous assignment on which every remapping keeps k where exchanging the two ids keeps 2(k - 1) > k, so no bound better than half holds |
| Clustering.Collect | backend/context_graph/cluster.py:186-188 | the groups hold exactly the nodes with their number, each number once |
| Clustering.NumberedCounts | backend/context_graph/cluster.py:186-188 | a group lists every node that the partition gives its number, as often as it does |
| Clustering.HubThreshold | backend/context_graph/cluster.py:167-174 | the threshold is the degree of some node; at most `rank` nodes have a smaller degree and at most `|nodes| - 1 - rank` nodes are hubs; there is none without a percentile or without nodes |
| Clustering.ThresholdIsUnique | backend/context_graph/cluster.py:167-174 | a percentile has one such threshold |
| Clustering.RankOfPercentile | backend/context_graph/cluster.py:171 | the rank is one less than the whole nodes below the percentile, zero at least, and the last one at 100 |
| Clustering.MajorityVote | backend/context_graph/cluster.py:202-208 | the winner has the most votes, the smallest number on a tie; no winner exactly when no neighbour is placed |
| Clustering.VotesCountNeighbours | backend/context_graph/cluster.py:202-206 | the votes for a community are the neighbours placed in it |
| Clustering.CommunityOf | backend/context_graph/cluster.py:198-200 | every placed node, and only those, with the number of a group that lists it |
| Clustering.ReattachHub | backend/context_graph/cluster.py:202-214 | the hub joins a group that wins the vote of its placed neighbours, or gets the next fresh number when none is placed; its own place counts for the next hub |
| Clustering.SplitCommunity | backend/context_graph/cluster.py:251-266 | the parts partition the community: single nodes without inner edges, one sorted list per group of a second partition, else the community whole |
| Clustering.SplitOversized | backend/context_graph/cluster.py:216-223 | exactly the lists above the size limit are replaced, in place, by their parts; no node is lost |
| Clustering.SplitLoose | backend/context_graph/cluster.py:225-237 | exactly the large lists of low cohesion are replaced by their parts, and one part is no split |
| Clustering.LooseIsSparse | backend/context_graph/cluster.py:269-277 | a community of two or more is loose exactly when its edges are fewer than 0.05 of the possible ones |
| Clustering.CliqueIsNotLoose | backend/context_graph/cluster.py:225-237 | nodes that are all adjacent to each other are never loose |
| Clustering.EndsCountPairs | backend/context_graph/cluster.py:274-275 | the ends inside a community are its adjacent pairs in both directions, loops twice |
| Clustering.EndsAreDegrees | backend/context_graph/cluster.py:274-275 | where no edge leaves, they add up to the degrees |
| Clustering.Grouping | backend/context_graph/cluster.py:167-237 | for every partitioner total on what it is given, the groups are those of the partition, the isolates as single nodes numbered behind it, and each hub in turn where its neighbours vote, cut twice; together they partition all nodes, and it fails only when the partitioner does |
| Clustering.Cluster | backend/context_graph/cluster.py:139-248 | every node is in exactly one nonempty community, numbered by size and then by sorted members; the result is the numbering of the grouping that partition, isolates, hub votes and both splits define; without edges everybody is alone; it fails only when the partitioner does |
| Clustering.SmallGroupsStay | backend/context_graph/cluster.py:176-237 | without hub exclusion and with groups under the split sizes, two connected nodes end up together exactly when the partitioner puts them together |
| Clustering.NumberIsCanonical | backend/context_graph/cluster.py:239-248 | sorting by size and members and then sorting each list is sorting the sorted lists by one total order |
| Clustering.NumberDependsOnGrouping | backend/context_graph/cluster.py:239-248 | two runs that end in the same set of blocks number them identically, in whatever order they were enumerated |
| Clustering.SinglesAreNumbered | backend/context_graph/cluster.py:164-165 | the shortcut for graphs without edges is the same numbering |
| Sorting.SortedUnique | backend/context_graph/cluster.py:245-247 | a total order leaves one sorted list per content |
| Sorting.LexByFirstDifference | backend/context_graph/cluster.py:245-247 | members compare by the first position where they differ, a proper prefix first |
| RunLock.NextKeepsInv | backend/api/native_stream.py:386-463 | every step of every generator, runner, drain, cancellation and lock wake-up keeps the protocol invariant |
| RunLock.RunsKeepInv | backend/api/native_stream.py:348-844 | every state of every interleaving satisfies the invariant |
| RunLock.OneRunPerWorkspace | backend/api/native_stream.py:73-75 | at most one generator of a workspace holds the lock, and at most one engine task of a workspace is unfinished |
| RunLock.ReleasedOnceAfterTheRun | backend/api/native_stream.py:390-404 | each acquisition is released once, by the generator or by the drain and never by both, and not while the engine task runs |
| RunLock.DroppedLockIsIdle | backend/api/native_stream.py:394-397 | a lock dropped from the table is free and has neither holder nor waiter |
| RunLock.FreeLockHasARunnableWaiter | backend/api/native_stream.py:399-401 | no wake-up is lost: if a free lock has waiters, the first can take its next step |
| RunLock.AcquireKeepsInv | backend/api/native_stream.py:399-401 | acquiring takes the lock at once only when it is free and nobody live waits |
| RunLock.ReleaseKeepsInv | backend/api/native_stream.py:390-397 | releasing wakes the first live waiter and drops the lock only when nobody waits |
| RunLock.ReleaseDropsIff | backend/api/native_stream.py:390-397 | in every reachable state a release frees the lock and drops it from the table exactly when nobody waits; else the first in the queue can go on |
| RunLock.AbandonKeepsInv | backend/api/native_stream.py:399-401 | a cancelled waiter that was already woken passes the wake-up on |
| StreamItems.ItemsAreConserved | backend/api/native_stream.py:622-786 | what the client got, the one item the loop has in hand, and what was drained are a prefix of what the engine produced, all of it once a reader saw the sentinel; the partial text is the text of exactly those items, so only a cut between counting and sending leaves text the client never saw |
| StreamItems.NextConserves | backend/api/native_stream.py:632-786 | every step conserves the items: the read already held, the item taken but not sent, and false disconnect alarms included |
| StreamItems.CutBeforeYield | backend/api/native_stream.py:731-786 | such a cut exists: a failure between counting an item and sending it |
| StreamItems.FirstSentinel | backend/api/native_stream.py:588 | the first sentinel ends both views of the sequence at the same place |
| TerminalOutcome.AtMostOneOfEach | backend/api/native_stream.py:151-287 | however often the call is cut off between store calls and retried, there is at most one terminal message and one cancellation, and at most one failure event when the ledger ignores repeated keys or the listing covers the thread |
| TerminalOutcome.CompleteAttemptRecords | backend/api/native_stream.py:206-287 | under the same condition a finished attempt with status failed leaves the message, and the event exactly when it was there, the ledger can be appended to, or it is written with the message |
| TerminalOutcome.CompleteCancelledAttempt | backend/api/native_stream.py:183-231 | after any history a finished attempt with status cancelled leaves exactly one terminal message, the failures as they were, and one cancellation exactly when it was there or is written with the message |
| TerminalOutcome.CompleteAttempt | backend/api/native_stream.py:183-287 | a finished attempt supplies a missing message and adds at most the event of its own outcome |
| TerminalOutcome.CutAttempt | backend/api/native_stream.py:183-287 | an attempt cut short leaves nothing, everything, or the message alone when message and event are written apart |
| TerminalOutcome.OtherOutcomeStays | backend/api/native_stream.py:183-287 | a cancelled attempt, cut anywhere, records no failure, and a failed one no cancellation |
| TerminalOutcome.MessageImpliesClosed | backend/api/native_stream.py:190-204 | in a store that can close runs no terminal message stands beside an open run, however attempts are cut short |
| TerminalOutcome.CompleteAttemptCloses | backend/api/native_stream.py:190-231 | a finished attempt closes an open run with its status if the store can, and the first status stays |
| TerminalOutcome.RetryIsIdempotentIff | backend/api/native_stream.py:163-165 | two full attempts leave exactly one failure event if and only if the store can write one and, with a ledger, ignores a repeated event key or lists events and has fewer than 500 of them |
| TerminalOutcome.RunsKeepInv | backend/api/native_stream.py:151-287 | the pair invariant holds after every sequence of attempts, crashes and foreign events |
| TerminalOutcome.AttemptCommits | backend/api/native_stream.py:193-287 | a crash leaves the effect of a prefix of the attempt's commits, which `TerminalOutcome.CutAttempt` lists |
| TerminalOutcome.ShownIff | backend/api/native_stream.py:262-267 | the listing shows the failure exactly when it lies within its limit of 500 |
| ExprLexer.Tokenize | utils/workflow_sim.py:54-66 | the position loop computes the maximal-munch token list or the syntax fault |
| ExprLexer.TokensReadBack | utils/workflow_sim.py:48-66 | tokens written with any spacing that separates gluing neighbours are read back exactly |
| ExprLexer.LexOne | utils/workflow_sim.py:48-50 | one token in front of text that does not glue to it is read whole |
| ExprLexer.TextEvaluates | utils/workflow_sim.py:188-190 | any text of an expression, with redundant parentheses and any legal spacing, evaluates to the meaning of the expression, faults included |
| ExprLexer.PrintedTextEvaluates | utils/workflow_sim.py:188-190 | printing any well-formed expression with parentheses where precedence asks for them and any legal spacing gives a text of it, which evaluates to its meaning, faults included |
| ExprLexer.TextIff | utils/workflow_sim.py:48-185 | the converse: a text is that of some expression exactly when it splits into tokens, shows no syntax fault, and is tidy: where an operand is due one starts unless an empty call ends, and elsewhere none starts unless a name is called |
| ExprLexer.AcceptedIsTextIff | utils/workflow_sim.py:188-190 | of the texts that evaluate to a value exactly the tidy ones are texts of expressions |
| ExprLexer.LexedIsSpaced | utils/workflow_sim.py:48-66 | every text that splits into tokens is a legal spacing of them |
| ExprLexer.AcceptsLoneOperator | utils/workflow_sim.py:142-162 | a lone operator is accepted as a missing context path and is the text of no expression |
| ExprLexer.AcceptsMissingComma | utils/workflow_sim.py:164-171 | a call may lack the comma between its arguments; such a text is that of no expression |
| ExprLexer.AcceptsTrailingComma | utils/workflow_sim.py:164-171 | a call may have a comma before its closing parenthesis; such a text is that of no expression |
| ExprLexer.Evaluate | utils/workflow_sim.py:188-190 | tokenizing and parsing compute the value of the text, which is that of its expression (`ExprLexer.TextEvaluates`) under the laws of ExprLaws |
| ExprPrinter.PrintedTokensEvaluate | utils/workflow_sim.py:100-105 | parsing the printed tokens evaluates the tree and consumes every token |
| ExprTrees.TreeReads | utils/workflow_sim.py:107-162 | at every precedence level, the text of a proper tree is read as that tree, and reading goes on with the loop of the level |
| ExprTrees.ArgsReads | utils/workflow_sim.py:164-171 | the text of proper arguments is read as those arguments, up to the closing parenthesis |
| ExprTrees.WholeIsMeaning | utils/workflow_sim.py:100-185 | evaluating while reading gives the meaning of the tree read, whatever the values are, and fails when no tree is read |
| ExprTrees.SyntaxFaultsAreSyntax | utils/workflow_sim.py:100-162 | a token list with a tree never shows a syntax fault, and one without a tree never a value |
| ExprTrees.TreeYields | utils/workflow_sim.py:107-162 | the tree read covers exactly the tokens consumed, with operators where their precedence allows, grouped to the left |
| ExprTrees.TreeIsTidy | utils/workflow_sim.py:107-185 | the tree read is one of an expression exactly when the tokens consumed are tidy |
| ExprTrees.RenderedIffTidy | utils/workflow_sim.py:100-185 | token lists that are the text of an expression, redundant parentheses allowed, are exactly the tidy ones without a syntax fault |
| ExprTrees.RenderedEvaluates | utils/workflow_sim.py:100-185 | a token list is the text of one expression at most, a well-formed one, and evaluates to its meaning, faults included |
| ExprParser.Parser.Parse | utils/workflow_sim.py:100-105 | the cursor parser computes the grammar's value, rejects leftovers, and stops on every token list |
| ExprParser.Parser.ParseOr | utils/workflow_sim.py:107-114 | left-associative fallback, both sides evaluated, cursor where the grammar ends; what it computes is `ExprLaws.ConnectivesChoose` |
| ExprParser.Parser.ParseAnd | utils/workflow_sim.py:116-123 | left-associative conjunction, both sides evaluated, cursor where the grammar ends |
| ExprParser.Parser.ParseEquality | utils/workflow_sim.py:125-133 | left-associative case-insensitive comparison, cursor where the grammar ends |
| ExprParser.Parser.ParseUnary | utils/workflow_sim.py:135-140 | tight negation of truthiness |
| ExprParser.Parser.ParsePrimary | utils/workflow_sim.py:142-162 | literals, parentheses, calls and context paths, with the same faults |
| ExprParser.Parser.ParseCall | utils/workflow_sim.py:164-185 | arguments up to the closing parenthesis, then one of the supported functions |
| ExprLaws.ConnectivesChoose | utils/workflow_sim.py:107-123 | a fallback is true exactly when an operand is, a conjunction exactly when both are; each returns one of its operands, and the left one decides which |
| ExprLaws.FalseValues | utils/workflow_sim.py:80-81 | false are exactly the empty string, zero, false and null |
| ExprLaws.ComparisonLaws | utils/workflow_sim.py:125-133 | `==` is symmetric and reflexive, compares lower-cased texts, and `!=` is its negation |
| ExprLaws.LeftmostFaultWins | utils/workflow_sim.py:107-133 | no operator skips an operand: a fault in either is a fault, the left one first |
| ExprLaws.TextFunctions | utils/workflow_sim.py:178-180 | after lower-casing, `contains` finds the second text at some position, `startsWith` at the front, `endsWith` at the end |
| ExprLaws.StartOrEndIsContained | utils/workflow_sim.py:178-180 | what a text starts or ends with, it contains |
| ExprLaws.CallFaults | utils/workflow_sim.py:172-185 | unknown names and wrong numbers of arguments are the only faults of a call; four functions are constants |
| ExprLaws.PathsDescend | utils/workflow_sim.py:69-77 | each name of a path selects a member of what the path before it names, the empty string where there is none |
| ExprLaws.NumbersMeanTheirDigits | utils/workflow_sim.py:156-157 | a number means what its digits say, the digits behind a point as decimal places |
| Affected.AffectedNodes | backend/context_graph/affected.py:102-143 | returns exactly the nodes other than the seed within 1..depth backward hops over allowed relations, each once, with its shortest distance, a relation of a real edge into the previous layer, nearest first |
| Affected.WalkSeen | backend/context_graph/affected.py:120-143 | walks no longer than the layer being expanded lead to visited nodes |
| Affected.DiscoveredAtDistance | backend/context_graph/affected.py:133-141 | a node found from a visit lies exactly one hop beyond it |
| Lsh.MinHash.Update | backend/context_graph/_minhash.py:47-52 | the sketch stays the pointwise minimum over the set of shingles folded in so far |
| Lsh.PermutedSteps | backend/context_graph/_minhash.py:47-52 | the permutation starts at its offset and steps by its factor, modulo the prime and masked to 32 bits |
| Lsh.SketchDependsOnSet | backend/context_graph/_minhash.py:47-52 | the set of shingles determines the sketch: order and repetition do not matter |
| Lsh.OptimalParams | backend/context_graph/_minhash.py:64-86 | the search returns the first least-error cut that fits, so all bands lie inside the sketch |
| Lsh.FewDifferencesShareBand | backend/context_graph/_minhash.py:102-111 | by pigeonhole, sketches that differ in fewer than b positions share a whole band |
| Lsh.Index.Insert | backend/context_graph/_minhash.py:97-104 | a new key goes into one bucket per band; a known key is refused and changes nothing |
| Lsh.Index.Query | backend/context_graph/_minhash.py:106-112 | returns exactly the keys that share at least one whole band |
| Lsh.Index.NearKeysAreFound | backend/context_graph/_minhash.py:106-112 | every inserted sketch that differs from the query in fewer than b positions is found |
| StatIndex.FastPathIsFullHash | backend/context_graph/cache.py:148-203 | over every interleaving of hashing threads, writers, flushes and restarts in which a write always gives a file a new size or time, the fast path equals the full hash |
| StatIndex.RunsStaySound | backend/context_graph/cache.py:162-203 | in such runs everything remembered, saved or about to be stored is right for the stat it goes with |
| StatIndex.QuietStepKeepsSound | backend/context_graph/cache.py:168-201 | lookups, reads, stores, flushes and restarts never break that, because the stat is taken before the read |
| StatIndex.WriteKeepsSoundIff | backend/context_graph/cache.py:82-86 | a write breaks it exactly when some digest kept for the new stat is not the digest of the new content |
| StatIndex.SoundIffNeverWrong | backend/context_graph/cache.py:168-201 | it holds exactly when the fast path is right now, after any pending store and after a restart |
| StatIndex.RestoringAFileFoolsTheIndex | backend/context_graph/cache.py:162-201 | giving back an old stat with its old content is not enough: an interleaved reader leaves a wrong digest |
| StatIndex.Cache.FileHash | backend/context_graph/cache.py:162-203 | one undisturbed call returns the full hash, keeps the index right, touches no other path, marks it dirty when it changes, and is the step system's three steps |
| StatIndex.FlushedSurvivesRestart | backend/context_graph/cache.py:99-135 | after any run, a flush lets the next process answer wherever this one did, with the same digest |
| StatIndex.CallIsRemembered | backend/context_graph/cache.py:168-201 | a call nobody interrupts leaves its file remembered: as it was, else with the full hash |
| GraphBuild.CollectCanonical | backend/context_graph/build.py:219-245 | for any visiting order, a key's stand-in is one of its syntax-tree nodes if it has any, and the collisions are exactly the keys two of them share |
| GraphBuild.FindGhosts | backend/context_graph/build.py:247-261 | at most one ghost per key: the last candidate visited |
| GraphBuild.MergeGhosts | backend/context_graph/build.py:206-271 | keeps all syntax-tree nodes, merges only into surviving stand-ins of the same unambiguous key, one ghost per key that has one: the last one visited besides the stand-in |
| GraphBuild.OneGhostPerKey | backend/context_graph/build.py:247-271 | of the nodes described as ghosts of a single syntax-tree node exactly one is removed, if there are any |
| GraphBuild.EveryGhostGoesIff | backend/context_graph/build.py:206-271 | every node described as a ghost is removed exactly when there is none, or one of them and a single syntax-tree node |
| GraphBuild.SecondGhostStays | backend/context_graph/build.py:247-271 | a table of a syntax-tree node and two others of its name: in any visiting order the one visited last is removed, the other stays |
| GraphBuild.NormIndex | backend/context_graph/build.py:273-280 | the loop computes the map from normalised ids, in which ghosts override survivors and later ones earlier ones |
| GraphBuild.UnclaimedFindsSurvivor | backend/context_graph/build.py:273-276 | an id that no ghost claims stands for the last survivor that normalises to it, and for nothing exactly when there is none |
| GraphBuild.ClaimDecides | backend/context_graph/build.py:277-280 | an id that ghosts claim stands for the twin of the last of them |
| GraphBuild.EndsLand | backend/context_graph/build.py:299-306 | an edge end never goes to a removed node; a ghost's end reaches its own twin exactly when the last ghost claiming its normalised id has that twin |
| GraphBuild.OwnTwin | backend/context_graph/build.py:277-280 | a ghost whose normalised id no other ghost claims hands its edges to its twin |
| GraphBuild.SharedNameMisroutes | backend/context_graph/build.py:277-280 | of two merged ghosts with one normalised id and different twins, one loses its edges to the other's twin, in every merge |
| GraphBuild.NamesakesAreMisrouted | backend/context_graph/build.py:273-280 | a table where every merge, in any visiting order, misroutes a ghost, given two ids that normalise alike |
| GraphBuild.AddEdges | backend/context_graph/build.py:285-372 | the stored edges are, slot by slot, the fold of the surviving arrows in sorted order |
| GraphBuild.ArrowOfIff | backend/context_graph/build.py:294-352 | an edge becomes an arrow exactly when it names two ends, the legacy keys standing in for missing ones, both land on survivors, and it is no cross-language guess |
| GraphBuild.DirectedKeepsLastRelation | backend/context_graph/build.py:359-372 | in a directed graph a slot is filled exactly when an arrow goes that way, and keeps the last relation named |
| GraphBuild.FinalIsAnArrow | backend/context_graph/build.py:355-372 | a slot is filled exactly when some arrow goes there, and its stored ends are those of one such arrow |
| GraphBuild.FirstDirectionWins | backend/context_graph/build.py:359-371 | in an undirected graph the first direction stays between arrows of one relation |
| GraphBuild.FinalIsDecided | backend/context_graph/build.py:359-371 | an undirected slot keeps the direction of the last arrow that is its first or names another relation than the last one named, and the last relation named |
| GraphBuild.FirstDirectionStaysIff | backend/context_graph/build.py:359-371 | for arrows in any order, the first direction stays exactly when every later arrow that sets the other one is followed by one that sets it again |
| GraphBuild.InTurnStaysIff | backend/context_graph/build.py:285-371 | when all arrows of one direction come first, as after sorting, that direction stays exactly when every arrow back names the last relation of the arrows forth |
| GraphBuild.FirstDirectionStaysInGraphIff | backend/context_graph/build.py:285-371 | the same for the built graph, on the sorted edges between two nodes that keep their ends |
| GraphBuild.SecondRelationFlips | backend/context_graph/build.py:285-371 | a sorted edge list whose graph keeps the second direction: a calls and imports b, and b calls a |
| GraphBuild.BuildFromJson | backend/context_graph/build.py:206-372 | a surviving id stands for itself, and one that no ghost claims for a survivor that normalises alike, if there is one; exactly the edges that name two ends landing on survivors are stored, in the slot of those ends, and nothing else is |
| ChangelogLines.NormalizedTwice | utils/release.py:967-992 | under the laws of the line patterns, normalising a list of lines twice is normalising it once |
| ChangelogLines.FillTwice | utils/release.py:932-963 | introductions are not introduced again |
| ChangelogLines.NormalizedIsIntroduced | utils/release.py:908-964 | after normalising, no heading outside fences in the newest section is followed directly by a list |
| ChangelogLines.AllIntroducedIff | utils/release.py:932-946 | introductions are complete exactly when no heading outside fences has a list as its first line that is not blank |
| ChangelogLines.IntroducedTwice | utils/release.py:908-964 | the newest release section is found again after introductions went into it |
| ChangelogLines.MarkedTwice | utils/release.py:977-986 | replacing markers twice is replacing them once, with the same fences |
| ChangelogLines.FencedCodeIsUntouched | utils/release.py:977-986 | fenced lines and fences are never altered, dropped or moved |
| ChangelogLines.ProseIsKept | utils/release.py:908-964 | only blank lines and introductions come and go; every other line stays, in order |
| ChangelogLines.OlderReleasesKeepTheirText | utils/release.py:911-914 | outside the newest release section only list markers change |
| ChangelogLines.MarkLines | utils/release.py:973-986 | the loop with fence state replaces exactly the unfenced markers |
| ChangelogLines.FindSection | utils/release.py:915-930 | the scan with fence state finds the first release heading and the next one |
| ChangelogLines.SectionIs | utils/release.py:915-930 | the section starts at the first release heading outside fences and ends at the next one, or with the text |
| ChangelogLines.MarkedAt | utils/release.py:977-986 | each line is replaced exactly when it stands outside fences and draws none |
| ChangelogLines.FillLoop | utils/release.py:932-962 | the lookahead loop computes the filled section |
| ChangelogLines.EnsureLatestReleaseIntros | utils/release.py:908-964 | introductions go into the newest section only |
| Changelog.RulesAreLawful | utils/release.py:863-905 | the marker, fence, heading and list patterns satisfy those laws for every line (section 4.5 of CommonMark for fences) |
| Changelog.MarkReads | utils/release.py:863 | at most three spaces, a star and white space become the same spaces, a dash and one space |
| Changelog.OthersAreNotMarked | utils/release.py:863 | every other line stays |
| Changelog.FenceTurns | utils/release.py:864-905 | a run of three or more backticks or tildes opens a fence unless a backtick follows backticks, and closes an open one exactly when it has the same sign, is no shorter, and has only white space behind it |
| Changelog.OthersTurnNothing | utils/release.py:864-905 | no other line opens or closes a fence |
| Changelog.IntroOfHeading | utils/release.py:868-879 | a release has its own sentence; a section has that of the first word found in its folded title |
| Changelog.NoMarkerIff | utils/release.py:973-986 | a text has no marker left exactly when no line outside fences, drawing none, starts with one |
| Changelog.NormalizeChangelog | utils/release.py:967-992 | the method computes the normalised text, and reports no change exactly when no unfenced marker is left and the newest release has its introductions |
| Changelog.MarkKeepsBreakIff | utils/release.py:863 | replacing a marker keeps the line break exactly when the marker is not bare |
| Changelog.LinesSurvive | utils/release.py:973-986 | the new text splits into exactly the lines produced if and only if no unfenced bare marker stands before another line |
| Changelog.NormalizingTwiceChangesNothing | utils/release.py:967-992 | without such a marker a second run changes nothing |
| Changelog.UnchangedIff | utils/release.py:967-992 | a text is left alone exactly when its lines are clean: no marker outside fences, no heading of the newest release that waits for an introduction |
| Changelog.SafeToRepeatIff | utils/release.py:967-992 | a second run changes nothing exactly when the text written splits into clean lines, which it does without such a marker |
| Changelog.NormalizingKeepsTheText | utils/release.py:908-992 | without such a marker fenced code is kept exactly, and older releases up to list markers |
| Changelog.BareStarUnfencesCode | utils/release.py:967-992 | the documented safety of repeated runs fails: a bare star in front of an opening fence lets the second run change fenced code |
| Changelog.StarFenceItem | utils/release.py:863 | such a text exists: a lone star, three backticks, a starred item |
| Comments.JsComments | utils/checks.py:106-194 | the explicit-stack scanner computes the comments of a mutually recursive grammar of code, template and interpolation |
| Comments.ReportedComments | utils/checks.py:106-194 | the comments are real, disjoint and ascending, and reported with their whole text; each line is too small by the newlines escaped in quoted strings before the comment, hence right exactly when none escapes one |
| Comments.AllLinesRightIff | utils/checks.py:106-194 | all lines are right exactly when no quoted string before the last comment escapes a newline |
| Comments.ContinuationShiftsLines | utils/checks.py:152-157 | such texts exist: after a backslash-newline in quotes a comment on line 2 is reported on line 1 |
| Comments.AdvanceKeepsScanning | utils/checks.py:129-193 | each step of the scanner keeps stack, line number and output in agreement with the grammar, and the stack alternates with positive depths |
| Comments.ScanToken | utils/checks.py:149-178 | strings and comments end where the grammar ends them, with the same line count |
| Comments.QuotedEndsAtUnescapedQuote | utils/checks.py:149-160 | a string ends at its first quote that no backslash escapes, or with the text |
| Comments.InterpolationEndsAtItsBrace | utils/checks.py:179-193 | plain text with balanced braces does not end an interpolation; the first brace too many does |
| Comments.TemplateTextIsSkipped | utils/checks.py:129-147 | template text is skipped up to an escape, the closing backtick or an interpolation, quotes and slashes in it included |
| Comments.TemplateEndsAtUnescapedBacktick | utils/checks.py:129-147 | a template without interpolations ends at the first backtick that no backslash escapes |
| Comments.TemplateGoesOn | utils/checks.py:143-193 | an interpolation of plain code ends at its own brace, and the template goes on behind it |
| Comments.CodeFindsToken | utils/checks.py:149-178 | in code, everything before the first string or comment is skipped, and that one is found in its place |
| TurnFiles.FinishedIsSound | backend/api/turn_files.py:352-371 | finishing a run keeps at most sixteen results, equal key sets and no dangling pointer, and the run just finished is never the one forgotten |
| TurnFiles.TrimmedIsRetained | backend/api/turn_files.py:364-370 | trimming leaves exactly the memory of the last sixteen runs |
| TurnFiles.ForgetOldest | backend/api/turn_files.py:365-370 | forgetting the oldest run removes its entries and only the pointers to it |
| TurnFiles.LastRunIsLogged | backend/api/turn_files.py:363 | the latest pointer of a context names a retained run of that context |
| TurnFiles.StartKeepsPointedIff | backend/api/turn_files.py:240-241 | starting a run keeps every context pointing to a live snapshot of its own exactly when the run is not the active one of another context |
| TurnFiles.StopKeepsPointedIff | backend/api/turn_files.py:359-362 | so does stopping one |
| TurnFiles.NeverElsewhere | backend/api/turn_files.py:204-242 | when run ids are captured once and finalised with their own snapshot, no call names the active run of another context |
| TurnFiles.ProperIsPointed | backend/api/turn_files.py:204-371 | after every such sequence of calls every context with an active run has a live snapshot of that context |
| TurnFiles.Registry.Capture | backend/api/turn_files.py:204-242 | records the snapshot under its run and its context, and nothing when there is no baseline |
| TurnFiles.Registry.Finalize | backend/api/turn_files.py:352-371 | stores the result, moves the latest pointer, clears only its own active entries, and keeps all of the above |
| TurnFiles.Registry.Latest | backend/api/turn_files.py:374-396 | a run asked for is live exactly when it is active in that context, with its computed files, else told with its stored files if it is retained for that context, else with none; a context asked without a run is live exactly when its active run has a snapshot, after a proper sequence of calls exactly when it has an active run |
| Ids.NormalizeJoinsWords | backend/context_graph/ids.py:33-41 | the pipeline equals: split on separators, drop empty pieces, join with one underscore, fold |
| Ids.IdempotentIff | backend/context_graph/ids.py:33-41 | normalising is idempotent exactly when each word, folded and composed again, has only word characters |
| Ids.NotAlwaysIdempotent | backend/context_graph/ids.py:33-41 | the documented idempotence fails for the dotted capital I |
| Ids.RecomposedIsIdempotent | backend/context_graph/ids.py:33-41 | a letter that folds to two characters is no counterexample when they compose again: the j with caron |
| Ids.MakeIdIsNormalizeId | backend/context_graph/ids.py:44-51 | an id made of parts is the normalised raw join |
| Ids.EdgesAre | backend/context_graph/ids.py:51 | exactly the underscores and dots at both edges of a part are stripped |

## Left out

- `Changelog.NormalizingTwiceChangesNothing`: one direction only; the exact condition, in terms of the text the first run writes, is `Changelog.SafeToRepeatIff`.
- `Ids.IdempotentIff`: assumes what the Unicode tables promise of case folding and composition; the tables themselves are parameters.
- `Ids.MakeIdIsNormalizeId`: assumes that composition works apart on the two sides of an underscore and of a dot.
- `Clustering.Cluster`: assumes a partitioner that assigns every node it is given; a library that drops the isolated nodes left behind by hub removal loses them. The 0.05 cohesion bound is compared in integers, and the order of nodes is a total order in place of the text order of their names.
- `Lsh.OptimalParams`: the error of a cut is an arbitrary function; the numerical integration behind it is not modelled.
- `TerminalOutcome.AtMostOneOfEach`: one writer per run, as the runner and its retries are.
- `TerminalOutcome.RetryIsIdempotentIff`: the event that a store writes for the message itself is not in the ledger of the model.
- `RunLock.RunsKeepInv`: assumes that the drain task itself is not cancelled. Runs without a workspace take no lock and are not in the model. Progress is not claimed: a runner cancelled before its first step never sends the sentinel.
- `StreamItems.ItemsAreConserved`: terminal lines and the closing events of a stream do not pass through the queue and are not counted; when a reader fails, only the prefix property is claimed.
- `StatIndex.FastPathIsFullHash`: one root per process, since the index key omits it; reading a file's stat and looking it up are one step, and so are reading the content and having it.
- `TurnFiles.Registry.Finalize`: the computation of file changes is a parameter; the exact contents and the latest pointers are claimed for unique run ids, the bounds and the key sets for all.
- `Comments.ReportedComments`: regular-expression literals are scanned as code, as the source does; sections 12.4 and 12.9.6 of ECMA-262 are followed only as far as the scanner does.
- `ExprLexer.Tokenize`: word characters and digits are those of ASCII, where the source pattern takes any Unicode letter inside a word and any Unicode digit.
- `ExprLexer.PrintedTextEvaluates`: both operands are always evaluated, as in the code; the text of floating-point numbers and mappings is a parameter.
- `Communities.OptimalWhenWinnersOutweigh`: one direction only; when winning pairs compete with each other, exactness is a question about all chains of exchanges, and only the converse for winners that do not compete is stated (`Communities.OptimalIff`).
- `GraphBuild.BuildFromJson`: starts from the node table after all nodes were added; legacy keys, attribute merging beyond relation and direction, source paths, the language families behind dropped call edges (a parameter), hyperedges and warnings are not modelled.
- Pairwise guards of the deduplication do not carry over to merged components, because unions are transitive; no such claim is made.
- Similarity guards are modelled, but their scores, the entropy and the label normalisation are parameters.
- `deduplicate_by_label` and `dedupe_nodes`, `dedupe_edges` in the graph builder: the first is not called by the pipeline, the others would only add easy members.
- The persistent extraction cache, front-matter stripping and path normalisation around the stat index.
- Release planning, rotation and version arithmetic beside the changelog normaliser.
- Logging, key-value side effects, checkpoints and remember triggers of the stream, which may fire twice by design.
- Graph queries, exporters, command lines, the web application, packaging and user interface code.
