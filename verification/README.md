# A verified model of dib

dib builds a graph of Docker images from Dockerfiles. It gives every image a hash that depends on its files and on
its parents' hashes, asks a registry which hashes are missing, builds those images in parallel, and then moves the
tags of a successful build into place. This project models that pipeline in Dafny 4.11 and proves what it promises.
`dafny verify dfyconfig.toml` checks everything.

## Modules

| file | what it holds |
|---|---|
| `graphs.dfy`, `walks.dfy` | the graph as a value, its unfolding into a forest, and the sequential traversals |
| `dag.dfy` | images, nodes and the DAG as objects, with the recursive walks as methods |
| `construction.dfy` | Dockerfiles to linked nodes |
| `from_lines.dfy`, `dockerfile.dfy` | the lines of a Dockerfile: `FROM`, `LABEL` and `ARG`; the parser |
| `hash_files.dfy`, `hash_propagation.dfy`, `build_hashes.dfy` | the bytes of a hash; the level-by-level computation of all hashes; two builds of the same images |
| `scheduler.dfy`, `scheduler_invariant.dfy`, `scheduler_progress.dfy`, `scheduler_outcome.dfy`, `scheduler_calls.dfy` | the concurrent build as a transition system |
| `async_walk.dfy`, `async_visits.dfy` | the asynchronous walk as a transition system over nested error groups; how often it can visit a node |
| `planning.dfy`, `retagging.dfy`, `pipeline.dfy` | `Plan`, `Retag`, and a whole build followed by another |
| `rewriting.dfy`, `rewriting_laws.dfy`, `build_node.dfy` | replacing references in a Dockerfile and undoing it, also when file accesses fail |
| `line_edits.dfy`, `build_args.dfy` | replacing words without newline, line by line; build arguments around the hashing |
| `printing.dfy` | the tree printer and a reader for its output |
| `pod.dfy` | pod monitoring with its two channels and three goroutines |

## How the code is represented

- Objects that the program updates in place are classes (`Dag.Image`, `Dag.Node`, `Dag.DAG`, `Dag.Visitor`,
  `BuildNode.File`, `Retagging.Tagger`); loops are loops. Each method is proved against a function or relation on
  values, and the theorems are about those.
- Goroutines are program counters. One step is one atomic action (taking or releasing a lock, reading a flag, a
  completed send, a `Load` or a `Store`), and the schedule is arbitrary. A theorem about reachable states or about
  runs therefore covers every interleaving.
- Acyclicity is a rank that grows along every edge, or equivalently for the sequential walks a finite unfolding
  (`Graphs.Forest`). `Graphs.RankedUnfolds` gets the second from the first.
- A node is identified by its number. A walk calls its visitor with that number; where a visitor changes images, the
  changes are applied in the order of the visits.
- The sha256 sum and its rendering as words, the file system, the image builder, the test runners and the registry
  are parameters: functions, fixed answers for each node, or arbitrary choices.

## Where the code does less than it seems to

- `Walk` promises only *one* parent before each non-root (`Walks.WalkBeforeOtherParent`). All parents come first iff they
  all lie above the place where a node first occurs below the roots (`Walks.WalkTopologicalIff`), as when no node has two
  different parents (`Walks.WalkTopological`).
- `WalkAsyncErr` does not stop at the first error, although `pkg/dag/dag.go:54` says so: also then every reachable node is
  entered, and every node without a failure of its own is completed (`AsyncWalk.WalkResult`). Nor does it visit a node
  only once, as line 53 says: two goroutines can both miss the node in `Load` before one of them reaches `Store`
  (`AsyncWalk.DoubleVisit`). A node can be visited as often as it occurs below the roots, and no more; nothing is done
  twice, in any run, iff no node has two parent entries (`AsyncVisits.OnceOnlyGraph`). Everything built on the walk is
  proved for repeated visits.
- `RebuildFailed` is cleared only on images that need neither a build nor tests. If an image with work starts with the
  flag set, its failure can go unreported; that is the only way (`SchedulerOutcome.FailuresSurface`).
- With concurrency 0 the build returns exactly when no image wants the builder (`SchedulerProgress.ReturnsIffPermits`).
- `ReplaceInFile` and `ResetFile` undo each other only when no replacement occurs in the original text
  (`RewritingLaws.RoundTripExact`, `BuildNode.ResetLosesValue`). If `ReplaceInFile` fails half way, `buildNode` returns
  before the reset is deferred and the file keeps the part already replaced (`BuildNode.HalfReplaced`). If every
  reference occurs in the Dockerfile and no replacement does, and the references are independent of each other or stand
  between delimiters, the Dockerfile ends as it was found exactly when one of the first two file accesses fails or none
  does (`BuildNode.FileAsFound`, `BuildNode.ParentsAsFound`).
- A `FROM` with another tag than the placeholder is not always frozen, as `docs/index.md:123-130` promises: with the
  placeholder `latest`, a reference `name:latest-2` is rewritten at its beginning. It is left alone iff the placeholder
  does not begin its tag (`BuildNode.FrozenIff`).
- An `ARG` line is replaced wherever its text occurs. When a line that declares one argument begins the line of another,
  the order of the map decides what is hashed, and the Dockerfile can stay changed (`BuildArgs.OrderMatters`). Whichever
  build arguments are given, exactly their lines are replaced in every order iff no other line contains one of them,
  before or after its own override (`BuildArgs.OverrideIff`); they come back in every order under the like condition on
  the overriding lines (`BuildArgs.RestoreIff`). `computeHashes` has its meaning under these two conditions.
- `docs/index.md:89-91` promises that a change in a parent's context changes the tag. But the hashes of the parents are
  written without a separator, so the bytes hashed determine the files and not always the parents
  (`HashFiles.ParentsNotDetermined`, with hashes that a custom word list can give). For words without dash they do iff
  from two words written one after the other, in whatever way that can be read, one can tell the first
  (`HashFiles.ParentsDeterminedIff`), which can be checked when the list is loaded.
- `buildGraph` keys its nodes by directory, so of two Dockerfiles in one directory the later one wins
  (`Construction.KeptMeans`).
- When the watch stream ends first, `MonitorPod` sends nothing and closes both channels, and `ApplyWithWriters` then
  returns nil, that is success (`Pod.CallerResult`); the comment at `pkg/kubernetes/pod.go:19-24` does not mention this case.
- When the creation of the pod fails, a monitor that has a message for `errChan` waits forever, and the log goroutine
  with it, since `readyChan` is then never closed (`Pod.ReleasedIff`).

- A printed page does not tell a root name that reads like the line of a childless node from such a node; every other
  name it does (`Printing.NameAmbiguousIff`).

## Model

| member | source | states |
|---|---|---|
| Graphs.RankedUnfolds | pkg/dag/node.go:52-58 | a graph with a rank has a finite unfolding from every node list, so the recursive walks terminate |
| Graphs.EveryNodeUnfolded | pkg/dib/generate_dag.go:202-208 | when the roots are the parentless nodes of a ranked graph, no node is missing below them |
| Dag.Node.AddChild | pkg/dag/node.go:35-39 | appends at the end of both link lists and changes nothing else |
| Dag.Visitor.VisitErr | pkg/dag/dag.go:150-164 | a node seen before is skipped without error; a new one is remembered and gives its visitor's error |
| Dag.DAG.Walk | pkg/dag/dag.go:30-35 | on the objects, the visits made are those of the walk specification |
| Dag.DAG.WalkErr | pkg/dag/dag.go:40-50 | on the objects, the visits made and the error returned are those of the specification |
| Dag.DAG.WalkInDepth | pkg/dag/dag.go:70-75 | on the objects, the visits made are those of the in-depth specification |
| Dag.ModelsHang | pkg/dag/node.go:22-23 | objects linked like a graph value unfold as that value does |
| Walks.WalkIsDfs | pkg/dag/node.go:52-58 | re-entering visited nodes is harmless: the exhaustive walk equals the pruned pre-order search, from any closed set of visited nodes |
| Walks.WalkVisits | pkg/dag/dag.go:28-35 | every reachable node exactly once, in pruned pre-order, and at least one parent before every non-root |
| Walks.WalkBeforeOtherParent | pkg/dag/dag.go:30-35 | a graph in which a node is visited before one of its parents |
| Walks.WalkTopological | pkg/dag/dag.go:30-35 | when no node has two different parents, every node is visited after all its parents |
| Walks.WalkTopologicalIff | pkg/dag/dag.go:30-35 | every node is visited after all its parents iff, where it first occurs in the unfolding, all its parents lie above it |
| Walks.WalkErrVisits | pkg/dag/dag.go:37-50 | fails iff some reachable node fails, visits the search order exactly up to and including the first such node, and returns that node's error |
| Walks.CutUnique | pkg/dag/node.go:62-76 | the cut-off used above is the only prefix that has no failing node before its end and is complete unless it ends in one |
| Walks.InDepthExample | pkg/dag/node.go:95-103 | siblings are visited in the order of their list |
| Walks.WalkInDepthVisits | pkg/dag/dag.go:68-75 | every reachable node exactly once, all its descendants before it, with shared children and several roots |
| Construction.NewGraphFromNodes | pkg/dib/generate_dag.go:183-211 | in any map order, p is in c's parents and c in p's children exactly as often as c's FROM lines name p; roots are the parentless nodes, each once |
| Construction.BuiltGraph | pkg/dib/generate_dag.go:183-211 | the linked objects form a valid graph value: edges agree in both directions and the roots are the parentless nodes |
| Construction.BuiltReachable | pkg/dib/generate_dag.go:183-211 | if the FROM relation has no cycle, the roots unfold finitely and reach every node |
| Construction.BuiltBalanced | pkg/dib/generate_dag.go:183-211 | every link is in the children of one node as often as in the parents of the other, and every root is listed once |
| Construction.BuildNodes | pkg/dib/generate_dag.go:47-138 | fails iff some entry is inaccessible, some Dockerfile cannot be parsed, has no name though it is not skipped, has a context that cannot be listed, or has the image name of a node stored before it; otherwise keeps exactly the last unskipped one of each directory |
| Construction.NodesOnLabels | pkg/dib/generate_dag.go:79-98 | the nodes are exactly the last Dockerfiles of each directory that are named and not labelled to be skipped, each under the registry prefix and its name label |
| Construction.KeptMeans | pkg/dib/generate_dag.go:68-72 | an entry is kept iff it is the last unskipped one of its directory |
| Construction.NamesDistinct | pkg/dib/generate_dag.go:61-66 | without a rejection on the way, any two nodes kept have different image names |
| Dockerfiles.ParseDockerfile | pkg/dockerfile/dockerfile.go:56-113 | fails iff the file cannot be read or has a line of 64 KiB; otherwise holds what its lines add, in order |
| Dockerfiles.OneKind | pkg/dockerfile/dockerfile.go:79-101 | no line is of two kinds, so the order of the cases does not matter |
| Dockerfiles.ItemsParsed | pkg/dockerfile/dockerfile.go:56-113 | a file of FROM lines in any layout among any other lines is parsed iff every line fits the buffer, and then to the same references in order |
| Dockerfiles.ArgsKept | pkg/dockerfile/dockerfile.go:46-48 | for each argument the last line that declares it is kept, whole |
| Dockerfiles.ArgNameBack | pkg/dockerfile/dockerfile.go:19 | a name printed after ARG and white space is captured, whatever follows it |
| Dockerfiles.ArgNameIff | pkg/dockerfile/dockerfile.go:19 | a line is an ARG line of this name iff it is ARG, white space, the whole name, and anything that does not go on with it |
| Dockerfiles.MatchLabelIff | pkg/dockerfile/dockerfile.go:18 | a line is a LABEL line saying this iff it is LABEL, white space and a word that splits so at its last possible =" and its last quote |
| Dockerfiles.LabelsKept | pkg/dockerfile/dockerfile.go:95-97 | for each label the value of the last line with it is kept |
| Dockerfiles.LabelBack | pkg/dockerfile/dockerfile.go:18 | a printed label is captured, name and value, before any blank-led rest |
| Dockerfiles.LinesAdded | pkg/dockerfile/dockerfile.go:80-94 | the references of the result are those matched in the lines, in order |
| FromLines.IsFromLine | pkg/dockerfile/dockerfile.go:17 | a line matches iff it is FROM, white space, and a name character |
| FromLines.FromBack | pkg/dockerfile/dockerfile.go:17 | a valid reference printed after any white space and before any blank-led rest is matched back, group by group |
| FromLines.MatchIsValid | pkg/dockerfile/dockerfile.go:80-94 | every captured reference is valid, and printing and matching it again changes nothing |
| FromLines.FileRoundTrip | pkg/dockerfile/dockerfile.go:56-112 | FROM lines in any layout among any other lines, with either line ending, parse back to the same references in order |
| FromLines.LineEnds | pkg/dockerfile/dockerfile.go:75-77 | a line is delivered without its newline, and without a carriage return before that |
| FromLines.LastNewline | pkg/dockerfile/dockerfile.go:75-77 | a missing newline at the end of the file makes no difference |
| HashFiles.HashFiles | pkg/dib/generate_dag.go:280-330 | the result is the hash function of the arguments; the file list is left sorted |
| HashFiles.WriteFiles | pkg/dib/generate_dag.go:285-312 | writes one line per file in the order given, and fails iff the specification of the entries does |
| HashFiles.SortedUnique | pkg/dib/generate_dag.go:283 | a multiset of names has one sorted arrangement, so the sorting algorithm is irrelevant |
| HashFiles.HashEqualIff | pkg/dib/generate_dag.go:280-330 | for a hash without collisions, two calls give the same hash iff they have the same files, by sha256 of the content and relative name, in order, and the same text of sorted parent hashes |
| HashFiles.StreamExample | pkg/dib/generate_dag.go:307-318 | the bytes in full for two files and two parents |
| HashFiles.StreamDeterminesFiles | pkg/dib/generate_dag.go:283-318 | byte streams are equal iff the sorted lists of digest and relative name and the concatenated sorted parent hashes are |
| HashFiles.ParentsNotDetermined | pkg/dib/generate_dag.go:316-324 | two different lists of parent hashes, all of which one word list can give, with the same stream |
| HashFiles.ParentsDetermined | pkg/dib/generate_dag.go:314-318 | whatever the words, also with dashes: when no parent hash is empty or begins another one, equal streams have the same parents up to order |
| HashFiles.ParentsDeterminedIff | pkg/dib/generate_dag.go:314-324 | for every list of words without dash and newline: over all files and all lists of hashes made of these words, equal streams have the same parents up to order iff a join of two words never reads as one of another first word |
| HashFiles.LocationIndependent | pkg/dib/generate_dag.go:280-318 | same relative files and contents under any newline-free directory, files and parents in any order: same hash |
| HashFiles.StreamFails | pkg/dib/generate_dag.go:285-304 | hashing fails iff some file name has a newline or some file cannot be read |
| HashPropagation.ComputeHashes | pkg/dib/generate_dag.go:213-234 | terminates on every acyclic graph; when the Dockerfiles can be accessed and the build arguments put in and taken out again: every Dockerfile ends unchanged, it succeeds iff every node can be hashed, and then every hash is the recursive one over the final hashes of the parents, although nodes were first hashed with stale ones |
| HashPropagation.ComputeNodeHash | pkg/dib/generate_dag.go:236-275 | under the same condition a function of the node and its parents' current hashes, over the files with the Dockerfile overridden, that leaves every Dockerfile as it was |
| HashPropagation.Rehash | pkg/dib/generate_dag.go:216-223 | hashing a node at or below the current level disturbs no other node and settles it if it is exactly at that level |
| HashPropagation.NodeHashFailsAlike | pkg/dib/generate_dag.go:236-275 | whether a node can be hashed does not depend on its parents' hashes |
| HashPropagation.FinalLocationIndependent | pkg/dib/generate_dag.go:213-318 | for the whole graph, final hashes do not depend on where contexts lie, nor on the order of files or of FROM lines |
| HashPropagation.SeenMoved | pkg/dib/generate_dag.go:247-274 | overriding build arguments commutes with moving a context |
| HashPropagation.SeenReads | pkg/dib/generate_dag.go:260-274 | what is hashed reads the Dockerfile with its overrides in place, and every other file as it is |
| HashPropagation.BuildArgsShow | pkg/dib/generate_dag.go:247-274 | build arguments that change the Dockerfile, by its sha256, change the bytes hashed, whatever the parents |
| BuildHashes.FinalEqualIff | pkg/dib/generate_dag.go:213-330 | without collisions, an image has the same final hash in two builds iff it has the same files, with the build arguments in its Dockerfile, and its parents' sorted final hashes are the same text |
| BuildHashes.ParentChangeShows | pkg/dib/generate_dag.go:213-330 | another text of the parents' final hashes gives another final hash, though the image's own files stay |
| BuildHashes.ArgChangeShows | pkg/dib/generate_dag.go:213-330 | so do build arguments that change the image's Dockerfile |
| BuildHashes.HashesReproducible | pkg/dib/generate_dag.go:183-318 | two graphs built from the same images under any map orders, with contexts at other places, files in other orders and the same build arguments, have the same final hashes |
| SchedulerInvariant.ReachableInv | pkg/dag/dag.go:79-110 | the invariant of locks, wait lists, done flags, permits, reports and visits holds in every state of every schedule |
| SchedulerInvariant.StepInv | pkg/dib/build.go:97-171 | every step of every goroutine, of the walk and of the reporter keeps that invariant |
| SchedulerProgress.Progress | pkg/dag/dag.go:83-101 | in every state of the invariant that is not final some step is enabled, given a permit or nobody wanting the builder |
| SchedulerProgress.MeasureDrops | pkg/dib/build.go:56-173 | every step lowers a measure |
| SchedulerProgress.NeverStuck | pkg/dag/dag.go:79-110 | after any schedule the build has returned or can step, and no schedule is longer than the initial measure: no deadlock, no lost wakeup |
| SchedulerProgress.ReturnsIffPermits | pkg/ratelimit/channel.go:9-18 | some run returns iff there is at least one permit or no image wants the builder |
| SchedulerOutcome.SpawnOrder | pkg/dag/dag.go:104-107 | the goroutines started are one for each node |
| SchedulerOutcome.AncestorsEnded | pkg/dag/dag.go:88-98 | in every state of the invariant, hence every reachable one, once a node's visitor has started every ancestor on every path has ended |
| SchedulerOutcome.AtMostConcurrencyBuild | pkg/ratelimit/channel.go:16-23 | in every reachable state the permits taken are the builds going on, and at most the limit |
| SchedulerOutcome.VerdictUnique | pkg/dib/build.go:99-146 | the equation for failed flags has one solution |
| SchedulerOutcome.FailureHasCause | pkg/dib/build.go:107-117 | above every failed image there is one that failed by itself: a build error or a stale flag |
| SchedulerOutcome.FinalOutcome | pkg/dib/build.go:56-173 | every schedule that returns leaves the verdict's flags, exactly the expected report for each image with work and none for others, all permits and locks back, each visitor called once after its parents |
| SchedulerOutcome.FinalFlags | pkg/dib/build.go:97-146 | after every schedule an image without work is clear, and any other marked failed iff it was marked before, a parent is marked, or the builder failed on it |
| SchedulerOutcome.ReportTells | pkg/dib/build.go:104-171 | every report says whether its image was built and tested, or neither below a failed image, with the error of the builder or of the tests |
| SchedulerOutcome.ReportedOnce | pkg/dib/build.go:97-171 | one report for each image with work, and for no other |
| SchedulerOutcome.LogGrows | pkg/dib/build.go:79-81 | reports are kept in the order in which they arrive |
| SchedulerCalls.CallsExact | pkg/dib/build.go:97-171 | on every schedule the builder is called once for exactly the images marked for a rebuild without a failed parent, and the tests run once for exactly those marked for them without a failed parent or builder |
| SchedulerOutcome.ScheduleIndependent | pkg/dib/build.go:79-81 | any two complete schedules end with the same flags and the same multiset of reports |
| SchedulerOutcome.CheckErrorExact | pkg/report/report.go:116-128 | CheckError is non-nil iff some build that was tried failed or some tests that were run failed |
| SchedulerOutcome.CheckErrorFirst | pkg/report/report.go:116-128 | the first report of a failure decides which of the two errors it is |
| SchedulerOutcome.FailuresSurface | pkg/dib/build.go:99-102 | no failed image goes unreported, for all answers of builder and tests, iff no image with work starts with RebuildFailed set |
| AsyncWalk.WalkResult | pkg/dag/dag.go:55-66 | in every complete run the result is nil iff no visitor operation failed, else the error of one that did; even then every reachable node is entered and every one without a failed operation is completed; operations of a node never out of order |
| AsyncWalk.StepInv | pkg/dag/node.go:80-93 | every step keeps the invariant: whoever entered a node into the map is at work, has failed, or the node is complete |
| AsyncWalk.WalkProgress | pkg/dag/node.go:80-93 | a walk that has not returned can always make a step |
| AsyncWalk.WalksAreShort | pkg/dag/node.go:80-93 | no run is longer than a bound given by the unfolded graph |
| AsyncWalk.DoubleVisit | pkg/dag/dag.go:150-164 | a run in which two goroutines visit the same node and perform its operation twice |
| AsyncVisits.EntryCloses | pkg/dag/dag.go:150-164 | once a node is in the map of the unique visitor, only goroutines that had looked it up before can still perform anything on it |
| AsyncVisits.AtMostOccurrences | pkg/dag/dag.go:150-164 | in every run no operation of a node is performed more often than the node occurs below the roots |
| AsyncVisits.OccurrencesReached | pkg/dag/node.go:80-93 | some run performs the first operation of a node once for each of its occurrences |
| AsyncVisits.OnceOnlyIff | pkg/dag/dag.go:52-66 | nothing of a node is done twice in any run iff it occurs once below the roots |
| AsyncVisits.OnceOnlyGraph | pkg/dag/dag.go:52-66 | nothing of any node is done twice in any run iff no node has two parent entries |
| Graphs.OnceIff | pkg/dag/node.go:88-92 | every node occurs once below the roots iff no node has two parent entries |
| Planning.OnlyRegistryFails | pkg/dib/plan.go:76-85 | of the steps of the visitor exactly the call to the registry can fail, with any error |
| Planning.RefMapExact | pkg/dib/plan.go:73-94 | the shared map holds exactly the refs asked for, with the registry's answers, in any order and with repetitions |
| Planning.RefAnswerExact | pkg/dib/plan.go:73-94 | for every run: an error iff some registry call failed, and then such an error; otherwise an answer for every reachable image |
| Planning.CheckNeedsRebuild | pkg/dib/plan.go:50-71 | fails iff the map lacks a reachable ref, naming the first such ref; marks exactly the missing refs visited before that |
| Planning.Plan | pkg/dib/plan.go:13-46 | fails iff some registry call failed, then marks nothing, and never because a ref could not be checked; otherwise marks for a rebuild exactly the reachable images whose name:hash is missing and, when enabled, for tests those marked for a rebuild; with force all reachable images |
| Retagging.RetagImage | pkg/dib/tag.go:11-49 | an image marked done is left alone; otherwise its tag calls are made up to the first failing one, and it is marked done iff none failed; then all its tags stand for what its current ref stood for; placeholder and extra tags are touched on a release only, and no other ref ever |
| Retagging.OnlyTagsFail | pkg/dib/tag.go:16-44 | exactly the tag calls can fail: one for an image to be rebuilt, and on a release one for the placeholder and each extra tag |
| Retagging.DoneTested | pkg/dib/tag.go:12-14 | a goroutine that finds the image marked done, before the walk or by a completed visit, does nothing; any other makes the calls |
| Retagging.OneOwner | pkg/dag/image.go:32-45 | with distinct names, and names or tags without colon, no ref belongs to two images |
| Retagging.ReplayStands | pkg/dib/tag.go:16-44 | under any interleaving of any number of visits, every tag written stands for its own image's content |
| Retagging.RetagResult | pkg/dib/tag.go:10-50 | after nil, every reachable image not marked done before has its final tag and, on release, its placeholder and extra tags, all with its content |
| Retagging.RetagFrame | pkg/dib/tag.go:10-50 | at every moment, refs other than the final ones of reachable images not marked done, and on a release their placeholder and extra tags, keep their content or their absence |
| Pipeline.AllBuilt | pkg/report/report.go:116-128 | CheckError nil from clear flags: every image marked for rebuild was built and none is marked failed |
| Pipeline.BuildIsIncremental | cmd/build.go:172-250 | plan, rebuild and retag succeed, under any schedules: every name:hash exists with the content built or kept, and a second plan marks nothing |
| Pipeline.PlanAgain | pkg/dib/plan.go:13-46 | on new objects with the same names and hashes, a plan against that registry marks no image |
| Refs.CurrentTags | pkg/dag/image.go:31-45 | an image to be rebuilt has the tag dev-hash, another than its final one |
| Refs.RefUnique | pkg/dag/image.go:43-45 | with colon-free names a ref determines name and tag |
| Refs.RefUniqueTags | pkg/dag/image.go:43-45 | so it does with colon-free tags, also when names have colons |
| Refs.RefInside | pkg/dag/image.go:43-45 | with colon-free tags, one ref lies inside another only if its name ends the other's name or the ref lies within that name |
| Rewriting.ReplaceFlips | pkg/dockerfile/dockerfile.go:141-150 | replacing one word of a pair by the other changes exactly the places where the text has it |
| Rewriting.RoundTrip | pkg/dockerfile/dockerfile.go:118-139 | for any number of pairs, replaced text independent of the order, and restored by any other order if the text shows no value |
| RewritingLaws.RoundTripExact | pkg/dockerfile/dockerfile.go:118-150 | for words that neither contain nor overlap each other, where a key may overlap itself: same replacement in all orders, and the round trip restores a text iff no value occurs in it |
| RewritingLaws.RoundTripDelimited | pkg/dockerfile/dockerfile.go:118-150 | words standing between delimiters are restored even if a key is part of its own value or ends overlap |
| BuildNode.ReplaceInFile | pkg/dockerfile/dockerfile.go:118-127 | the pairs replaced are exactly those, in some order, whose two accesses come before the first failing one; succeeds iff all accesses do |
| BuildNode.ResetFile | pkg/dockerfile/dockerfile.go:130-139 | the same for the reverse replacement |
| BuildNode.BuildImage | pkg/dib/build.go:175-229 | if the replacement fails, nothing is reset and its error is returned; otherwise the builder sees the replaced Dockerfile, its answer is returned, and the reset follows, also when the build fails, up to its first failing access |
| BuildNode.ParentPairsApart | pkg/dib/build.go:190-193 | placeholder and current refs of different parents never contain each other, for colon-free tags when no name ends another or contains its refs |
| BuildNode.ColonFreeNames | pkg/dib/build.go:190-193 | colon-free names of which none ends another meet that condition |
| BuildNode.DockerfileRestored | pkg/dib/build.go:190-207 | a Dockerfile with delimited parent references shows every replacement to the builder and is restored exactly |
| BuildNode.ResetLosesValue | pkg/dockerfile/dockerfile.go:130-139 | a text that the round trip does not restore |
| BuildNode.HalfReplaced | pkg/dib/build.go:195-199 | with two pairs and the third access failing, one pair is replaced and nothing reset |
| BuildNode.FileAsFound | pkg/dib/build.go:195-207 | for independent refs that occur and replacements that do not, the Dockerfile ends as found iff one of the first two accesses fails or none of all does |
| BuildNode.ParentsAsFound | pkg/dib/build.go:195-207 | the same for delimited references of parents, whatever letters they begin and end with, when no parent has the placeholder as its tag |
| BuildNode.FrozenIff | pkg/dib/build.go:185-199 | anywhere between delimiters, in every order, a reference of a parent's name with a colon-free tag is left alone iff the placeholder does not begin its tag; otherwise exactly that beginning is replaced |
| BuildArgs.ArgsToReplace | pkg/dib/generate_dag.go:249-258 | in any map order the entries are exactly the declarations of arguments that are also given, with their overriding lines |
| BuildArgs.ArgLineDeclares | pkg/dib/generate_dag.go:254 | an overriding line declares the same argument |
| LineEdits.ReplaceLines | pkg/dockerfile/dockerfile.go:147 | replacing a word without newline in a text is replacing it in each line |
| LineEdits.EditsRowsIff | pkg/dockerfile/dockerfile.go:118-127 | any part of the pairs in any order changes exactly the lines of their owners iff no pair finds its word in another line, before or after |
| BuildArgs.OverrideIff | pkg/dib/generate_dag.go:260-264 | any part of the overrides in any order replaces exactly the lines declaring them iff no declaration is part of another line, before or after that line's override |
| BuildArgs.RestoreIff | pkg/dib/generate_dag.go:266-272 | any part of the reset in any order brings back exactly the lines declaring the overrides iff no overriding line is part of another line, overridden or not |
| BuildArgs.RestorableIff | pkg/dib/generate_dag.go:249-272 | for values without newline the condition of `computeHashes` is just these two |
| BuildArgs.BracketRestores | pkg/dib/generate_dag.go:260-272 | under both conditions all orders of the map give the overridden text and all orders of the reset the original |
| BuildArgs.ComputeNodeHash | pkg/dib/generate_dag.go:247-275 | the hash is taken of the file with all overrides in place, in every order that of the overridden text under the first condition; under both, with all accesses working, the file ends unchanged |
| BuildArgs.OrderMatters | pkg/dib/generate_dag.go:249-272 | two arguments, one declaration beginning the other: the two map orders hash different texts, and a reset leaves a changed Dockerfile |
| Printing.WalkOverTree | pkg/dag/printer.go:59-98 | for every indent, the text is the rendering of the labelled unfolding |
| Printing.Srender | pkg/dag/printer.go:40-57 | root name line if there is a name, then the rendering of the roots |
| Printing.ParseRender | pkg/dag/printer.go:59-98 | for every indent, a reader recovers the forest of newline-free labels from its rendering, at every depth and with any text behind it |
| Printing.PageUnambiguous | pkg/dag/printer.go:40-98 | the printed page determines root name and forest, unless exactly one of two pages has a root name and it reads like a leaf |
| Printing.NameAmbiguousIff | pkg/dag/printer.go:49-54 | a root name makes some page equal to one without root name iff it reads like the line of a leaf |
| Printing.LabelUnique | pkg/dag/printer.go:67 | the labels of two images are equal iff their short names and hashes are, when the hashes have no opening bracket |
| Printing.BelowCells | pkg/dag/printer.go:80-94 | below an item there is a bar iff a later item follows it in its list, and blanks otherwise |
| Printing.Example | pkg/dag/printer.go:13-20 | the page in full for four nodes on three levels with the program's own signs and indent |
| Pod.MonitorPod | pkg/kubernetes/pod.go:25-97 | the event loop sends a ready signal iff a running event comes before the first terminal stimulus, then that stimulus's result |
| Pod.SendsInOrder | pkg/kubernetes/pod.go:25-97 | in every reachable state the sends done are a beginning of that sequence: ready at most once and first, one result at most |
| Pod.CallerResult | pkg/exec/kubernetes.go:83-88 | a caller whose pod was created returns the outcome of the first terminal stimulus, and nil if that was the end of the stream |
| Pod.ResultByPhase | pkg/kubernetes/pod.go:53-88 | by what the pod did: nil only if it succeeded or the stream ended; deletion before phase; else the error of the failure, the timeout or the context |
| Pod.ReadyByPhase | pkg/kubernetes/pod.go:61-72 | the ready signal is sent iff the pod was seen running before, once and first |
| Pod.RunsAreShort | pkg/exec/kubernetes.go:49-88 | no run is longer than a bound given by the stimuli |
| Pod.ReleasedIff | pkg/exec/kubernetes.go:49-88 | where a run ends, monitor, log goroutine and caller are all released iff the pod was created and some stimulus is terminal, or it was not created and no message is due |

## Left out

- Cyclic FROM relations: the walks and the hash computation do not terminate on a reachable cycle, and cycles without a root are dropped; a rank is required instead.
- A second `WalkParallel` on the same graph: `done` is never reset, so the order is only claimed for the first.
- sha256, the word lists and collision freedom: a changed file is not claimed to change its hash.
- The walk over the file system, `.dockerignore` and its pattern matcher: the files of a context and their contents are given.
- Dockerfiles.ParseDockerfile: lengths are counted in characters, where the scanner counts bytes.
- BuildArgs.RestoreIff: overriding lines are single lines; a build argument whose value holds a newline is not covered, nor does `HashPropagation.ComputeHashes` promise anything for it. Like `BuildArgs.OverrideIff` it is exact for every selection in every order together, not for the full reset alone.
- BuildArgs.OverrideIff: exact for every selection of the declared arguments in every order together; that the condition is necessary for the full map alone is not claimed.
- HashFiles.ParentsDetermined: sufficient only; no exact condition is given for words that have a dash in them.
- HashFiles.ParentsDeterminedIff: exact for one list of words; where some images use the custom list and others the default one, its condition on the words of both together is sufficient.
- Rewriting works on one file alone: a build context that contains another image's Dockerfile while that one is rewritten is not modelled.
- BuildNode.File: a write that fails is taken to leave the text as it was; truncation by a failing write is not modelled.
- BuildNode.BuildImage: error texts are shortened, and creating the report directory and file is one yes-or-no answer.
- Planning.Plan: the visitors of the sequential walks run after the walk, in the order of its visits, instead of during it; they do not influence it.
- Retagging.RetagResult: a source ref that is missing from the registry makes a copy that reports success a no-op.
- Pipeline.BuildIsIncremental: a successful build is taken to publish the tag it was given, as it does when images are pushed.
- Printing: the terminal styles are the identity, nodes without an image do not occur, and the sorting of children by name before printing is not modelled.
- Pod: printing the logs is one step that ends; deleting the pod after the result has no effect on the channels.
- Docker, BuildKit and Kubernetes calls, uploads, goss, report templates, image metadata, `cmd/` and configuration: external calls or plumbing without a property worth stating here.
