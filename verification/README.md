# A verified model of the infrastructure platform's index, probe and tree logic

This project models three parts of the platform and proves what they are for.

- **The inverted index and its query engine** (`pkg/inverted`, `cmd/server/indexer`). Hosts are listed under
  label pairs; a query compiles matchers into a tree of stateful iterators (lists, heap merge, leapfrog
  intersection, set difference with lookahead) and drains it. The main results: every iterator, whatever it is
  built from, answers `Next` and `Seek` as a plain list of its ids would; the drained answer of a query is, strictly
  increasing, the set of ids whose label values meet the demand of every matcher; after any run of adds and deletes
  that leaves at most one value per label it is the set selected by `Selector.Matches`; and the index that
  `FlushIndex` builds lists exactly the labels of the host rows, so the answer can be read off the rows.
- **The probe targets and their results** (`cmd/agent/xprober/target.go`, `cmd/server/xprober/data.go`). A step
  system of probes, drains, calls, lost replies, restores, expiry and foreign pushes, in which no latest sample is
  lost; the reconciliation of workers with the targets asked for; and the server's averages.
- **The service tree** (`pkg/model/stree.go`). A three-level tree in one table of rows linked by decimal paths.
  Every operation keeps it sound, and the five queries agree with one meaning of "the tree holds this path".

Smaller parts: the regular-expression prefilter and its failure on case-insensitive literals, the bounded
top-k of the label statistics, and the big-endian postings.

Classes stand for Go structs whose methods change their fields, and methods with loops for Go functions with loops.
Each is proved against a function, a predicate on the state before and after, or a set, and the lemmas are about
those. `IteratorViews` holds the arithmetic of iterators over values only; `Iterators` holds the objects.

Modules, one to a file: `IteratorViews`, `Iterators`, `PostingsOps`, `IteratorRuns`, `BigEndian` (iterators);
`MemIndex`, `Head`, `Literals`, `Matchers`, `Querier`, `Indexer`, `TopCounts`, `Prefilter` (index and queries);
`Collecting`, `ProbePush`, `Reconcile` (probes); `TreePaths`, `Stree`, `ServiceTree` (tree); `Wrappers`.

Run `dafny verify dfyconfig.toml` to check the whole project.

## Findings

- The prefilter of regular expressions ignores the case-folding flag of literals: `(?i)ab.*` refuses `"ab"`
  (`Prefilter.FoldedPrefixExample`). `Prefilter.PrefilterExact` gives the condition for leading, trailing and inner
  literals: none of those that the checks use ignores case while having a character with another case.
- A host with several values under one label can be selected by `{l="a", l="b"}`, which no label set satisfies
  (`Querier.SeveralValuesDiffer`); `Querier.Demand` is the exact meaning in that case.
- `bigEndianPostings.Seek` cuts its target to 32 bits; `BigEndian.WideSeek` says exactly when that shows.
- A query without matchers yields nothing, while `Selector.Matches` with no matcher accepts every host; the two agree
  on an empty index only (`Querier.EmptyQuery`).
- `FlushIndex` asks for the ids up to the number of rows and one. A row with a higher id, as deletions leave behind, is in
  no shard's index (`Indexer.RowsCovered`).

## Model

| member | source | states |
|---|---|---|
| Iterators.Postings.NewList | pkg/inverted/index/postings.go:704-710 | a list iterator starts unread, with the elements of the sorted list (repeats allowed) still to come |
| Iterators.Postings.ListNext | pkg/inverted/index/postings.go:716-724 | Next on a list succeeds iff an id is left, stands on the least one, and changes the two fields as one list step |
| Iterators.Postings.ListSeek | pkg/inverted/index/postings.go:726-746 | Seek on a list stands on the least reachable id at or above the target, or fails and exhausts the list; to 0 before the first answer it says yes and changes nothing; in every case the two fields change as one list step |
| Iterators.Postings.ListLand | pkg/inverted/index/postings.go:734-745 | behind the position, the move is to the first id at or above the target |
| Iterators.SearchList | pkg/inverted/index/postings.go:735-738 | the binary search of Seek finds the first id at or above the target |
| Iterators.Postings.NewIntersect | pkg/inverted/index/postings.go:423-429 | an intersection of iterators of any kind starts unread, with the ids common to all of them to come |
| Iterators.Postings.IntersectDoNext | pkg/inverted/index/postings.go:435-449 | the leapfrog from a position ends at the least id all inputs can reach from there, or fails when there is none; it terminates |
| Iterators.Postings.IntersectNext | pkg/inverted/index/postings.go:451-461 | Next on an intersection stands on the least common id left, and fails when none is left |
| Iterators.Postings.IntersectSeek | pkg/inverted/index/postings.go:463-466 | Seek on an intersection stands on the least common id at or above the target |
| IteratorViews.LeapFound | pkg/inverted/index/postings.go:435-449 | when all inputs stand on the candidate, it is the least common id from the start position on |
| IteratorViews.LeapFailed | pkg/inverted/index/postings.go:435-449 | when one input cannot reach the candidate, no common id is left |
| Iterators.Postings.NewMerged | pkg/inverted/index/postings.go:518-536 | a merge starts unread, with the union of its advanced inputs to come |
| Iterators.Postings.MergedNext | pkg/inverted/index/postings.go:538-572 | Next on a merge stands on the least id of the union left, which no later Next repeats; it terminates |
| Iterators.Postings.MergedSeek | pkg/inverted/index/postings.go:574-602 | Seek on a merge loses no id at or above the target and stands on the least one, strictly below all ids to come |
| Iterators.HeapInit | pkg/inverted/index/postings.go:493-510 | heap.Init permutes the inputs into a heap by position |
| Iterators.HeapDown | pkg/inverted/index/postings.go:493-510 | sifting an entry down restores the heap below it and keeps the entries |
| Iterators.HeapFixTop | pkg/inverted/index/postings.go:493-510 | heap.Fix at the top restores the heap after the top has moved |
| Iterators.HeapPop | pkg/inverted/index/postings.go:493-510 | heap.Pop removes the top and leaves a heap of the others |
| IteratorViews.HeapMin | pkg/inverted/index/postings.go:493-510 | the top of a heap is a minimum of all entries |
| IteratorViews.TopPasses | pkg/inverted/index/postings.go:538-602 | when the top of the heap moves past a bound, the ids above the bound that the heap holds are exactly those of the union |
| Iterators.Postings.NewRemoved | pkg/inverted/index/postings.go:634-639 | a set difference starts unread, with the ids of the full list absent from the other to come |
| Iterators.Postings.RemovedNext | pkg/inverted/index/postings.go:645-676 | Next on a difference stands on the least id of the full list that is not in the other, despite the lookahead of one |
| Iterators.Postings.RemovedSeek | pkg/inverted/index/postings.go:678-688 | Seek on a difference stands on the least remaining id at or above the target, for nested differences on both sides, and after a failed Seek for any target from the failed one on |
| IteratorViews.RemovedSkip | pkg/inverted/index/postings.go:645-676 | stepping over an id that stands in both lists loses no id of the difference |
| IteratorViews.RemovedForward | pkg/inverted/index/postings.go:645-676 | moving the removed list forward to the full list's position loses no id of the difference |
| Iterators.Postings.Next | pkg/inverted/index/postings.go:365-379 | Next of any iterator meets the contract of a plain list |
| Iterators.Postings.Seek | pkg/inverted/index/postings.go:365-379 | Seek of any iterator meets the contract of a plain list, unless the target is 0 before the first answer or a step back behind a Seek that failed |
| IteratorRuns.MergedStrict | pkg/inverted/index/postings.go:538-602 | a merge never has its position among the ids to come |
| IteratorRuns.StepLeast | pkg/inverted/index/postings.go:538-602 | one successful call on a strict iterator stands on the least id left (at or above the target), leaves exactly the greater ones, and rises with every Next |
| IteratorRuns.RunsAlike | pkg/inverted/index/postings.go:538-602 | two strict iterators over the same ids give the same answers and positions on every interleaving of Next and Seek, up to the first false |
| IteratorRuns.NextFollows | pkg/inverted/index/postings.go:538-572 | Next of a strict iterator and of the increasing list of its ids give the same answer and stay together |
| IteratorRuns.SeekFollows | pkg/inverted/index/postings.go:574-602 | Seek to the same target, on a strict iterator and on the increasing list of its ids, gives the same answer and keeps the two together |
| IteratorRuns.Drive | pkg/inverted/index/postings.go:365-379 | an iterator driven through any calls until one answers no takes the steps of the contract; a merge answers exactly as the increasing list of its ids |
| PostingsOps.Intersect | pkg/inverted/index/postings.go:407-421 | the intersection of any number of iterators of any kind yields the ids in all of them; of none, nothing |
| PostingsOps.Merge | pkg/inverted/index/postings.go:478-491 | the merge of any number of iterators of any kind yields the union of their ids |
| PostingsOps.Without | pkg/inverted/index/postings.go:614-623 | the difference yields exactly the ids of the first iterator absent from the second; either may be a chain of differences |
| PostingsOps.ExpandPostings | pkg/inverted/index/postings.go:351-363 | draining gives the ids of the iterator, each once, strictly increasing, though it may repeat ids |
| BigEndian.DecodeEncode | pkg/inverted/index/postings.go:767-774 | four-byte encoding of ids below 2^32 and reading it back is the identity |
| BigEndian.BytesOrder | pkg/inverted/index/postings.go:767-774 | numbers compare as their bytes from the first to the last |
| BigEndian.BigEndianPostings.Next | pkg/inverted/index/postings.go:767-774 | Next reads one number off the stream |
| BigEndian.BigEndianPostings.Seek | pkg/inverted/index/postings.go:776-794 | Seek moves to the first number at or above the target cut to 32 bits |
| BigEndian.RunsAgree | pkg/inverted/index/postings.go:716-794 | over the encoding of a list, every run of Next and Seek with targets below 2^32 gives the answers and ids of the list iterator up to the first false |
| BigEndian.WideSeek | pkg/inverted/index/postings.go:776-794 | for any target the two answers agree iff the target fits 32 bits or no remaining id is at or above its remainder |
| MemIndex.MemPostings.Add | pkg/inverted/index/postings.go:315-348 | adding keeps the store tidy, sorted when ordered, and equal to its history extended by the call |
| MemIndex.MemPostings.AddFor | pkg/inverted/index/postings.go:326-348 | one label gets the id once more, every other list stays |
| MemIndex.SinkLast | pkg/inverted/index/postings.go:338-347 | sinking the appended id sorts the list and permutes it |
| MemIndex.MemPostings.Delete | pkg/inverted/index/postings.go:241-297 | deleting removes every occurrence of the ids, leaves no empty list or name, and matches the history extended by the call |
| MemIndex.MemPostings.DeleteFrom | pkg/inverted/index/postings.go:263-289 | one list is filtered in order, and dropped when nothing is left of it |
| MemIndex.MemPostings.EnsureOrder | pkg/inverted/index/postings.go:206-238 | ordering sorts every list, keeps the multiset of each, and happens once |
| MemIndex.MemPostings.Get | pkg/inverted/index/postings.go:184-197 | a fresh iterator over the sorted list of a label pair, or over nothing |
| MemIndex.StandingMeans | pkg/inverted/index/postings.go:204-348 | an id stands under a label iff some call added it there and no later call deleted it |
| MemIndex.MemPostings.HoldsAll | pkg/inverted/index/postings.go:315-324 | every id of any list is in the list of all postings |
| MemIndex.KeepCounts | pkg/inverted/index/postings.go:277-283 | filtering keeps every occurrence of the ids that are not deleted and none of the others |
| Head.HeadIndexReader.constructor | pkg/inverted/head.go:50-61 | a new reader is empty and its store ordered |
| Head.HeadIndexReader.GetOrCreateWithID | pkg/inverted/head.go:122-139 | values on record stay equal to the values with a list, as the postings grow |
| Head.HeadIndexReader.DeleteWithIDs | pkg/inverted/head.go:141-166 | the values rebuilt after a deletion are those with a list |
| Head.HeadIndexReader.Reset | pkg/inverted/head.go:84-91 | the reader takes over the other's whole state |
| Head.HeadIndexReader.LabelValues | pkg/inverted/head.go:170-179 | for each non-empty name, each value with a non-empty list, once |
| Head.HeadIndexReader.Postings | pkg/inverted/head.go:180-186 | an iterator over the ids under any of the values |
| Head.AddValues | pkg/inverted/head.go:127-135 | the incremental update of the values adds exactly the values of the label set |
| Head.Rebuild | pkg/inverted/head.go:150-164 | the values rebuilt from the lists, in any order, are those of the lists |
| Literals.FindSetMatches | pkg/inverted/querier.go:25-65 | of a wrapped pattern, the non-empty texts of the escaped-literal alternation it is read as, or nothing; nothing for a pattern with a bare metacharacter or an escape such as \d, and nothing without the wrapper |
| Literals.MetaListed | pkg/inverted/querier.go:19-22 | the metacharacters are those of the list in the source |
| Literals.ScanGivesUp | pkg/inverted/querier.go:35-57 | the scan gives up exactly on patterns with one of .+*?()[]{}^$ behind an even run of backslashes, or any other character behind an odd run |
| Literals.ScanRender | pkg/inverted/querier.go:25-65 | scanning an alternation of plain and escaped characters reads back its texts |
| Literals.ScanParses | pkg/inverted/querier.go:25-65 | whatever the scan accepts is such an alternation of the texts read, but for a dangling backslash |
| Literals.FindEscaped | pkg/inverted/querier.go:25-65 | any non-empty list of non-empty strings comes back from its escaped, joined and wrapped pattern |
| Matchers.InverseMatches | pkg/inverted/labels/matcher.go:80-107 | the inverse of a matcher is its complement on every string, an involution, and compiles when the matcher does |
| Matchers.SetMatchesMean | pkg/inverted/querier.go:158-165 | when texts are returned for a pattern that compiles, they are exactly the non-empty strings it matches |
| Matchers.StarEngineSane | pkg/inverted/querier.go:158-165 | an engine in which .* after a literal alternation means any text meets what is asked of engines |
| Matchers.StarEngineMeans | pkg/inverted/querier.go:158-165 | that engine reads web.* as a pattern: it accepts web1 and refuses db1 |
| Querier.PostingsForMatcher | pkg/inverted/querier.go:150-192 | the fast paths and the scan of all values select the same ids: those listed under a matching value (an empty one not, on the literal path) |
| Querier.InversePostingsForMatcher | pkg/inverted/querier.go:195-216 | the ids listed under a value that does not match |
| Querier.PlanMeans | pkg/inverted/querier.go:80-129 | what one matcher adds or takes away is what it demands of the values of a host, for any number of values |
| Querier.DemandByType | pkg/inverted/querier.go:80-129 | type by type, what a matcher demands of the values of a host: some value, no value, or all values, of what text |
| Querier.PartsMean | pkg/inverted/querier.go:80-129 | an id is in everything added and in nothing taken away iff it meets every demand |
| Querier.AnswerOfParts | pkg/inverted/querier.go:131-148 | intersecting what is added, or all ids when nothing is, and subtracting the rest gives the answer |
| Querier.PostingsForMatchers | pkg/inverted/querier.go:69-148 | the iterator tree of a query yields exactly the ids whose values meet all demands, and nothing for no matchers |
| Querier.GetMatchIds | cmd/server/indexer/manager.go:204-223 | the drained answer, strictly increasing; after any run that leaves one value at most per name it is what Selector.Matches selects, iff there is a matcher or the index is empty |
| Querier.GetFinds | pkg/inverted/labels/labels.go:225-232 | with one label per name, Get returns the one value of the name, or "" |
| Querier.SingleValued | pkg/inverted/labels/test_utils.go:23-30 | with at most one value per label, empty values included, the demands together are Selector.Matches |
| Querier.AnswerIsSelector | pkg/inverted/querier.go:69-148 | on a table that lists label sets with one value per name, the answer is the set that Selector.Matches selects |
| Querier.AnswerOfRun | pkg/inverted/querier.go:69-148 | after any run of adds and deletes that leaves one value at most under each name of an id, the answer is the set of ids whose labels left standing Selector.Matches accepts |
| Querier.EmptyQuery | pkg/inverted/index/postings.go:407-409 | what a query yields is what Selector.Matches selects iff there is a matcher or the index is empty |
| Querier.SeveralValuesDiffer | pkg/inverted/querier.go:69-148 | with two values under one label a host can be selected by a query that no label set satisfies |
| Indexer.MapToLsets | cmd/server/indexer/manager.go:150-160 | the label set of a map is its pairs |
| Indexer.AddHost | cmd/server/indexer/manager.go:75-116 | one row adds its id under its columns and addresses, and nothing else |
| Indexer.AskedIds | cmd/server/indexer/manager.go:55-64 | an id is asked for iff it lies from 1 to the number of rows and one and leaves the shard's number when divided by the modulus, or the modulus is 0 |
| Indexer.RowsCovered | cmd/server/indexer/manager.go:51-70 | every row is in the index of some shard, numbered from 0 below the modulus, iff no id lies beyond the number of rows and one |
| Indexer.ShardsApart | cmd/server/indexer/manager.go:55-64 | no row is in the index of two shards |
| Indexer.AddPaths | cmd/server/indexer/manager.go:118-130 | afterwards the tree has group, product and application of every row that names them without dots, and all it had; when every row does, no other application is new |
| Indexer.NodeParts | cmd/server/indexer/manager.go:97 | the path of a row splits into its group, its product and its application, in this order |
| Indexer.Build | cmd/server/indexer/manager.go:70-117 | after the loop over the rows, an id is listed under a label iff a row with that id has the label |
| Indexer.HostIndex.FlushIndex | cmd/server/indexer/manager.go:49-131 | the index swapped in is that of the rows of the shard, and the service tree then has their groups, products and applications; nothing changes when the rows cannot be read or no id is asked for |
| Indexer.AnswerOnHosts | cmd/server/indexer/manager.go:49-131 | on the index of rows with distinct ids, a query selects exactly the hosts whose own values meet the demands |
| Indexer.AddressQuery | cmd/server/indexer/manager.go:102-116 | a query for private_ip or public_ip equal to an address finds exactly the hosts that have it |
| Indexer.SelectorOnHost | pkg/inverted/labels/test_utils.go:23-30 | for a host with at most one address of each kind that is Selector.Matches on its labels |
| TopCounts.MaxHeap.Push | pkg/inverted/index/postingsstats.go:27-50 | after any pushes, kept and dropped items are those pushed, none dropped counts more than one kept, min(k, n) are kept, and minIndex and minValue locate a minimum |
| TopCounts.MaxHeap.Get | pkg/inverted/index/postingsstats.go:52-57 | the kept items in descending count |
| TopCounts.TopWithoutRoom | pkg/inverted/index/postingsstats.go:36-48 | replacing the minimum by an item that counts no less, or dropping an item that counts less, keeps the largest counts |
| TopCounts.TopListSum | pkg/inverted/index/postings.go:99-138 | the listed counts sum to the total of all positive counts iff there are no more of them than the capacity |
| TopCounts.LabelGroupDistribution | pkg/inverted/index/postings.go:99-138 | the twenty values with the most places in their lists that hold a matched id, largest first, each with the number of these places; the counts sum to the number of all such places iff at most twenty values have one |
| TopCounts.HitsCount | pkg/inverted/index/postings.go:119-130 | the count of a value is the number of places in its list that hold a matched id |
| TopCounts.SumMatching | pkg/inverted/index/postings.go:115-135 | the counts of all values sum to the number of pairs of a value and such a place |
| TopCounts.LabelGroup | pkg/inverted/index/postings.go:77-97 | the ten values with the longest lists, with their lengths, largest first |
| Prefilter.OptimizeConcatRegex | pkg/inverted/labels/regexp.go:57-94 | the literals taken are the first and last part and the first literal strictly between them, anchors set aside |
| Prefilter.PrefilterSafe | pkg/inverted/labels/regexp.go:38-49 | when none of the literals used can be spelled otherwise, the matcher answers as the anchored expression alone, whatever the other parts accept |
| Prefilter.FoldedPrefixBreaks | pkg/inverted/labels/regexp.go:76-78 | a leading case-insensitive literal spelled otherwise is refused though the expression accepts it, whatever the other parts are |
| Prefilter.PrefilterExact | pkg/inverted/labels/regexp.go:38-94 | when every part accepts some text wherever it stands, and the empty one around an inner literal that can be spelled otherwise, the checks change no answer iff none of the literals they use can be spelled otherwise |
| Prefilter.LooseFirst | pkg/inverted/labels/regexp.go:76-78 | a leading literal that can be spelled otherwise gives a subject that the expression accepts and the matcher refuses |
| Prefilter.LooseLast | pkg/inverted/labels/regexp.go:79-81 | a trailing literal that can be spelled otherwise gives such a subject |
| Prefilter.LooseInside | pkg/inverted/labels/regexp.go:86-91 | the inner literal that the check takes gives such a subject when it can be spelled otherwise and the other parts accept the empty text |
| Prefilter.DotStarExact | pkg/inverted/labels/regexp.go:38-94 | for a literal before, after or between .* the checks change no answer iff it heeds case or has no character with another case |
| Prefilter.FoldedPrefixExample | pkg/inverted/labels/regexp.go:76-78 | the concrete case of (?i)ab.* and "ab" |
| Collecting.Collector.Store | cmd/server/xprober/data.go:102-118 | every key holds the last accepted result with it, stamped when it had no time, else what it held; the answer counts the accepted ones; when all have a metric name that shows, all are counted and the last of each key is held with its own value and time |
| Collecting.AcceptedMeans | cmd/server/xprober/data.go:107-110 | a result is skipped iff it is nil or its metric name is all white space |
| Collecting.LatestHeld | cmd/server/xprober/data.go:111-114 | of the named results the last with its key is in the store, with the present time where it had none |
| Collecting.Collector.Publish | cmd/server/xprober/data.go:120-166 | exactly the results not older than five minutes stay, each with its own gauge, and each protocol gauge is the mean of its live results, in whatever order the maps are walked |
| Collecting.SeriesLabels | cmd/server/xprober/data.go:27-66 | which metrics have a gauge, and that a series carries the regions of source and target, and for all but a ping the address, in the order of the label names |
| Collecting.SumAny | cmd/server/xprober/data.go:139-161 | the sum does not depend on the order |
| Collecting.CountsAddUp | cmd/server/xprober/data.go:139-161 | the group counts sum to the number of live results with a protocol metric |
| ProbePush.ResultBuffer.Restore | cmd/agent/xprober/target.go:58-66 | drained groups come back except where a newer group waits |
| ProbePush.PushProbeResults | cmd/agent/xprober/target.go:277-290 | one push takes the steps of the system: drain, a call served or not, and a reply or a restore; undisturbed, the groups all wait again unless there was nothing to send or the answer counts every sample |
| ProbePush.FlattenAccepted | cmd/agent/xprober/target.go:279-288 | the answer counts as many as were sent iff every sample of every group is accepted |
| ProbePush.LastOfFlatten | cmd/agent/xprober/target.go:279-282 | of a flattened push, only a target's own group counts for its keys |
| ProbePush.ServedIsApplied | cmd/server/xprober/data.go:102-118 | what the server has handled of a push it holds |
| ProbePush.InvKept | cmd/agent/xprober/target.go:44-66 | every step keeps the invariant of buffer, flight and server |
| ProbePush.NoSampleLost | cmd/agent/xprober/target.go:277-290 | on every run the newest group of each target is in the buffer, in flight, or what the server holds of it until it expires; the buffer never holds an older one |
| ProbePush.AllDelivered | cmd/agent/xprober/target.go:277-290 | when nothing waits and nothing is in flight, the server holds the newest samples of every target |
| ProbePush.ProbeDelivered | cmd/agent/xprober/target.go:277-290 | when nothing waits and nothing is in flight, each named sample of the last probe of a target is at the server as the probe gave it, or is older than five minutes |
| Reconcile.Desired | cmd/agent/xprober/target.go:92-121 | the targets collected are those the groups ask for, by type, region and address: of a supported type in lower case, with a non-blank address, the interval in seconds, or 15 s, the timeout, or 10 s, and region and options of the group; the last to ask for a key decides |
| Reconcile.MakesAsked | cmd/agent/xprober/target.go:98-118 | the target made for an address is the one asked for, said without trimming, lower-casing or normalising functions |
| Reconcile.TrimMeans | cmd/agent/xprober/target.go:98 | trimming leaves what lies between the outer white space, and only that |
| Reconcile.AskedOrdered | cmd/agent/xprober/target.go:94-119 | the targets asked for are met in the order of groups and addresses |
| Reconcile.WantMeans | cmd/agent/xprober/target.go:92-121 | a key is wanted iff some group of a supported type asks for it with a non-blank address, and the last to ask decides |
| Reconcile.LocalTargetManager.Refresh | cmd/agent/xprober/target.go:91-150 | the workers started and not stopped are those of the map, which has exactly the targets that the groups ask for, with their intervals, timeouts, regions and options; a worker stays iff its target is unchanged |
| Reconcile.LocalTargetManager.RefreshAgain | cmd/agent/xprober/target.go:91-150 | the same response again starts and stops nothing |
| Reconcile.LocalTargetManager.Stop | cmd/agent/xprober/target.go:152-167 | every worker ever made is stopped, the map is emptied, once |
| Reconcile.LocalTarget.Schedule | cmd/agent/xprober/target.go:200-241 | a probe is submitted iff none is outstanding and the scheduler accepts; running holds iff exactly one is outstanding |
| Reconcile.LocalTarget.Callback | cmd/agent/xprober/target.go:205-236 | a finished probe stores one result for each sample, with its metric and value, its time or the present one, and the names of agent and target, as the newest group of its target, unless the worker was stopped or nothing was sampled |
| Reconcile.ResultsCarry | cmd/agent/xprober/target.go:216-231 | the results of a probe carry its samples one by one |
| Reconcile.ResultsProduced | cmd/agent/xprober/target.go:216-235 | what a probe stores is a group of its agent and target, as the step system takes it |
| TreePaths.DecimalInjective | pkg/model/stree.go:124-138 | the decimal form of an id determines it |
| TreePaths.DecimalValue | pkg/model/stree.go:124-138 | the decimal form of an id, read as a number, is the id |
| TreePaths.UnderInjective | pkg/model/stree.go:124-138 | a path determines the parent's path and id |
| TreePaths.DottedSplit | pkg/model/stree.go:92-97 | joining the parts of a split gives the node back |
| TreePaths.SplitDotted | pkg/model/stree.go:92-97 | splitting the dotted path of names without dots gives the names back |
| TreePaths.SortStrings | pkg/model/stree.go:293 | sorting gives an ascending permutation |
| TreePaths.AtMostMeans | pkg/model/stree.go:293 | the order of sorting: the strings agree up to where the first ends or has the smaller character |
| Stree.ParentUnique | pkg/model/stree.go:90-212 | a row has one parent |
| Stree.PathForm | pkg/model/stree.go:90-212 | the path of a group is 0, of a product a slash and the id of its group, of an application that and a slash and the id of its product |
| Stree.NamesUnique | pkg/model/stree.go:90-212 | in a sound tree the names from the group down lead to one row |
| Stree.StepKeeps | pkg/model/stree.go:616-629 | every single get-or-insert keeps the tree sound and every row in place |
| Stree.FreshChildless | pkg/model/stree.go:113-149 | nothing hangs under a row just inserted |
| Stree.GrownMeans | pkg/model/stree.go:572-614 | the chain of get-or-inserts keeps the tree sound and adds exactly the path and what leads to it |
| Stree.GrownOnce | pkg/model/stree.go:572-614 | with non-empty parts the chain has one outcome |
| Stree.RemovedMeans | pkg/model/stree.go:433-570 | removing a childless row keeps the tree sound and removes exactly its names |
| ServiceTree.GrownHolds | pkg/model/stree.go:90-212 | after growing by a dotted path the tree holds that path and no other new one |
| ServiceTree.Tree.StreeAdd | pkg/model/stree.go:90-212 | its own chain of inserts changes the table as the get-or-insert chain does and loses nothing; a node without three parts changes nothing; afterwards a path of three non-empty names is there, and nothing else is new |
| ServiceTree.Tree.CheckPathExists | pkg/model/stree.go:572-614 | fails below three parts, else grows the tree by the first three |
| ServiceTree.Tree.GetOrInsert | pkg/model/stree.go:616-629 | a row found, or one inserted under a fresh id |
| ServiceTree.Tree.StreeDelete | pkg/model/stree.go:433-570 | a row goes iff the path names it and nothing hangs under it, and the tree then holds everything but that path; an empty group or product name means any that is there |
| ServiceTree.ReadsPlain | pkg/model/stree.go:22-32 | names that are not empty mean themselves |
| ServiceTree.NotDeleted | pkg/model/stree.go:433-570 | when a part of the path is not found, or there are more than three, nothing is deleted, as required |
| ServiceTree.NamedDeleted | pkg/model/stree.go:489-503 | the row that the path names goes iff nothing hangs under it |
| ServiceTree.WritesGather | pkg/model/stree.go:276-292 | writing down the applications under a prefix gives exactly the paths with that prefix, each once |
| ServiceTree.NextApps | pkg/model/stree.go:276-292 | the applications of the next product are new |
| ServiceTree.ProductNames | pkg/model/stree.go:230-244 | the names of the children of a group are, each once, the products the tree holds for it |
| ServiceTree.NothingUnder | pkg/model/stree.go:228-231 | when a group or product is not found, there is no path under it |
| ServiceTree.Tree.StreeQuery | pkg/model/stree.go:214-431 | type 5 gives, each once, exactly the paths that type 4 accepts; types 2 and 3 give, sorted, those of a group and of a product; type 1 the products of a group, sorted; any other type nothing; an empty name looked up by struct means any that is there |

## Left out

- Locks, goroutines and data races: every operation of the index and the manager is atomic, and the index is not
  changed while a query drains. Iterators hold their own copy of a list, so the swapping of ids inside a shared
  array is not seen. The parallel workers of EnsureOrder sort the lists one after the other, and the goroutine of
  FlushIndex runs at its end.
- The iterator interface is one class with a kind instead of several classes behind an interface.
- `Err()` of the iterators and error returns that no modelled path reaches. A query whose inverse matcher cannot be
  built does not arise, since a matcher that compiles has one that does.
- Iterators.Postings.Seek: nothing is promised for a target of 0 before the first answer, where an intersection answers yes without standing on an id, nor for a target behind that of a Seek that failed, where a set difference may stand on an id it has left. After a failed call an intersection over set differences may only be asked for Next.
- Iterators.Postings.NewRemoved: neither input is an intersection over set differences, whose Seek after a failed Next may be a step back for one of them; queries never build one. Merges over anything are allowed.
- PostingsOps.Without: as for NewRemoved.
- MemIndex.MemPostings.Get: the list is sorted, as all lists of an ordered store are; iterators over unsorted lists are not modelled.
- Querier.PostingsForMatcher: label names are not empty, since the empty name holds the list of all ids.
- Querier.InversePostingsForMatcher: as for PostingsForMatcher.
- Querier.PostingsForMatchers: label names are not empty and patterns compile. The sorting of looked-up values is left out, since it only affects the order in which lists are merged.
- Querier.GetMatchIds: as for PostingsForMatchers.
- The regular-expression engine is a parameter: whether a pattern compiles and what it matches from end to end. It is
  only required to read an alternation of escaped literals as its texts, and not to compile a dangling backslash.
- The bit table of regular-expression metacharacters is a membership test, and strings are sequences of characters,
  so byte-level treatment of non-ASCII text is not modelled.
- Prefilter.PrefilterExact: whether the check for an inner literal shows depends on what the parts around it can be made to spell, so for it the converse is stated where they can all be empty. Case folding is a parameter that names one character of each set folded together. Parsing is not modelled: the parsed parts are the input.
- TopCounts.MaxHeap.Get: the capacity is positive, and nothing is pushed after the items have been sorted.
- BigEndian.BigEndianPostings.Seek: the stream holds sorted numbers, which the binary search needs.
- Indexer.HostIndex.FlushIndex: the JSON columns with the addresses arrive decoded, the rows come in the order of the table, and counters and logs are not modelled.
- Clocks are parameters: one reading for each Store, Publish and Callback, and the saturating difference of times is
  a plain one. Gauge values are real numbers, so rounding is not modelled.
- Keys joined with `|` or byte 255 are tuples, so fields that contain the separators are not modelled.
- ProbePush.NoSampleLost: the results of the agent carry a positive time, which the present time is when a probe gives none.
- Probe execution, the scheduler's queue, RPC encoding, tickers and the agent's own gauge. Submitting a probe is
  answered by a parameter; each push runs without overlap with another push of the same agent, as its ticker loop
  makes it; probes, other agents and expiry may happen at any time.
- `strings.ToLower` is that of ASCII letters, and a nil target response is an empty list of groups.
- Database errors: each lookup, insert and delete of the tree succeeds. Since every single insert keeps the tree sound, a
  failure between two of them leaves a sound tree.
- The other query helpers of the index (statistics over all labels, hashes, pagination), the label builder, cloud sync,
  log handling, task execution and the network probers.
