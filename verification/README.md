# Proofs about the greeg index

greeg answers code searches from an index that must never answer differently from
a plain scan. This project models the parts of `crates/greeg-index` on which that
rests, and proves that they keep the promise. `dafny verify dfyconfig.toml` checks
all of it.

## What is modelled

**From a pattern to candidate files.** `Hir` gives the regex tree a match relation
over a text and two positions, with look-arounds as arbitrary zero-width predicates.
`Plan` is the compiler to trigram queries: per node whether it can be empty, its exact
set, prefix set, suffix set and query, with the 32-string and 24-byte limits.
`PlanSound` proves that a matching file always satisfies the query. `PlanTight` proves
how much the compiler knows: an exact set is the folded language of its node, no set
holds more than 32 strings and no exact string more than 24 bytes, and a pattern tracked
exactly gets the tightest trigram query there is. `Trigrams` is the extractor, `Format`
the serialized gram table, `Segment` the evaluator with its six-rarest and half-density
cut-offs, and `Candidates` puts them together: a live file with a match is a candidate,
a superseded id never is.

**The bounded-memory build.** `Spill` holds varints, records and the buffered reader
with short reads, `Sink` the per-worker maps that spill, `Merge` the heap merge,
`Postings` the two ways to the final entries. Both give one and the same list, for any
pushes, workers, budgets, batches and spill points. A segment damaged where reading
notices is an error of the merge; `Cuts` says exactly which cuts of a written segment
reading notices, and that the others merge as the records still whole.

**Base, deltas and superseded ids.** `Versions` is the index as segments. Over every
history of applied changes the ids stay contiguous, each path has at most one live id,
version links are inverse injections that grow, and the live view is what one plain
table with the same edits would say. `Graph` is the import graph builder: a counting
sort into two tables that are exact transposes, written (`Packed` is the form of the
section) and read back, with the ranks that `Rank` computes: no round of PageRank
creates rank or loses any, except where a file's edges all have weight zero. `Edges` is
the queries across versions: what a file imports and who imports it stay converse
relations. `DeltaGraph` stores each delta's edges and links, and the two queries over
what is read back answer as the recorded edges say.

**End to end.** `Whole` joins the parts: files are extracted, postings built in chunks
or in a delta's map, sections written and read back, and after any history of edits a
search finds every file that a scan of the edited tree would report, and only live
files, even when posting lists no longer decode. `Clean` does the same for imports: over
any history of refreshes, each resolving its own files and extracting again those whose
imports moved, the stored target of every import whose probes the filter looks up leads
where building again from the live files would point it.

**Publication.** `Publish` holds names, manifests and retirement. `Layout` is the shared
directory as a state machine: every file write, manifest rename and removal is a step,
builders, second phases, refreshers and cleanups interleave freely, and a lock holder
may die between any two steps. `Readers` proves what holds over whole runs, up to the
timed guarantee for lock-free readers. `Marker` is the flock protocol of work markers,
one system call a step, with inode numbers that are reused and with markers an older
program left unlocked.

**Smaller algorithms.** `Stamp`: racy timestamps, against a file system where anything
may be written or renamed at any time. `Reach`: which stored imports added and deleted
files can move. `Levenshtein`: the bounded edit distance against shortest edit scripts.
`SymTab`: the symbol table and its name permutation. `Skipped`: the record of skipped
entries.

## Premises

- Builds draw distinct epochs; digests are injective, so a digest is the bytes it is of.
- `Layout`: capturing the publication time and renaming the manifest is one instant.
  Writes, removals and the rest of a locked section take any time. Cleanup is allowed to
  take an orphan of any age, so nothing proved rests on `ORPHAN_MS`.
- `Readers.ReaderFindsAll`: the manifest stays readable, and the clock does not go back.
- `Stamp`: change times lag the clock by less than 20 ms, or by less than 2 s where the
  file system keeps whole seconds, and a rename sets the change time.
- `Marker`: only this protocol touches the file, apart from markers left before.
- `Whole`: a posting list reads back as it was written and takes at most 2^39 bytes; the
  index has fewer than 2^32 ids; what a file is classed as depends on its path and bytes.
- `Clean`: paths are valid UTF-8, and a file's imports depend on its path and bytes.
- `Reach`: no changed file is a resolver configuration file, so the Python search roots
  are the same before and after. `Reach.FilterExactly`: the files are those of a tree, so
  none is a directory another lies in.
- `Graph`, `DeltaGraph`: fewer than 2^32 edges are recorded, and ids stay below the
  reserved 2^32 - 1.
- `Rank`: real numbers stand for single-precision ones; how a rank is rounded to a word is
  any function.

## Where the code needs a condition

- `Skipped`: a record reads back as itself if and only if no child's name holds a slash
  (`Skipped.RoundTrip`).
- `Stamp`: where inode numbers are not compared, an unmarked record with an equal stamp
  holds the bytes on disk if and only if, as the clock is read, the file opened and the
  file the path names have the same bytes (`Stamp.PathRecordHolds`). A file replaced
  between the two passes unnoticed (`Stamp.ReplacedUnnoticed` gives the run). With inode
  numbers the record always holds.
- `Stamp`: a change time lagging by the whole window is too much: the write leaves the
  trusted stamp (`Stamp.LagMustStayBelow` gives the run, for both windows), so the premise
  is "less than", not "at most".
- `Reach`: with the importing file there before and after a change, the filter is right
  about an import if and only if every path probed before the importing file itself is
  one it looks up, or one that cannot be a file beside it (`Reach.FilterExactly`).
- `Reach`: so it is right about a relative script import if and only if the import ends in
  a name, or in a directory whose name resolution would not cut, or names the importing
  file itself, as it is or with `.ts` for its extension, or a path below that file
  (`Reach.RelativeExactly`). In `b.js/a.ts`, `import "."` comes to mean an added `b.ts`
  unnoticed (`Reach.DirectoryEscapes`): the filter looks up `b.js` and not `b`.
- `Reach`: it is right about a Python module if it looks the file name of every segment up,
  and only then where the importing file is apart from what the module probes
  (`Reach.PythonExactly`); it holds of all module text that extraction takes
  (`Reach.IdentAt`).
- `Cuts`: a spilled segment cut at the end of a record, or inside the length of a key,
  reads as a shorter segment without an error; a cut anywhere else is reported
  (`Cuts.CutSegment`). Where keys are shorter than 128 bytes only a cut at the end of a
  record passes (`Cuts.ShortKeys`).
- `Rank`: the ranks add up to one after every round if and only if no file has edges that
  all have weight zero (`Rank.TotalIsOne`); the weights the build gives are positive.
- `Edges`: the guard of `canon` and `latest` cuts a chain exactly when it has more than
  65 steps; an index of at most 65 deltas has no such chain.
- `Readers`: with three builds waiting, retirement hands over the oldest whatever its age
  (`Readers.OldestGoes`), so the reader's bound of two builds is sharp.

## Model

| member | source | states |
|---|---|---|
| Trigrams.FoldIdempotent | crates/greeg-index/src/gram.rs:72-86 | folding case twice is folding once, so planner and extractor agree whichever folded first |
| Trigrams.FoldBuf | crates/greeg-index/src/gram.rs:77-83 | the in-place pass leaves exactly the folded buffer |
| Trigrams.Key3Injective | crates/greeg-index/src/gram.rs:68-70 | different trigrams have different keys |
| Trigrams.LiteralKeysAreWindows | crates/greeg-index/src/gram.rs:87-102 | the groups of a literal hold exactly the trigrams every text holding it has, line by line, whatever the case |
| Trigrams.Dedup.Extract | crates/greeg-index/src/gram.rs:26-66 | the output is the strictly ascending list of exactly the windows without a newline; every bitset index is in range, and the bitset and the touched list are empty again, so calls are independent |
| Trigrams.Dedup.Clear | crates/greeg-index/src/gram.rs:26-66 | clearing the touched words leaves the whole bitset empty |
| Plan.ProductsMembers | crates/greeg-index/src/plan.rs:105-115 | a cross product holds exactly the joined pairs |
| Plan.CrossLoop | crates/greeg-index/src/plan.rs:105-115 | the nested loops compute that product as an ordered set |
| Plan.AndQMeans | crates/greeg-index/src/plan.rs:73-87 | the simplified conjunction holds of a file exactly when both queries do |
| Plan.OrQMeans | crates/greeg-index/src/plan.rs:89-103 | the simplified disjunction holds of a file exactly when either query does |
| Plan.TrigramsOfMeans | crates/greeg-index/src/plan.rs:46-70 | the query of a string set holds of a file exactly when it has every trigram of one of the strings |
| Plan.TrigramsOfLoop | crates/greeg-index/src/plan.rs:46-70 | the loop with its early exits computes that query |
| Plan.SimplifyInPlace | crates/greeg-index/src/plan.rs:129-165 | overwriting the fields one by one gives the simplified knowledge |
| Plan.CharMembersLoop | crates/greeg-index/src/plan.rs:324-360 | a Unicode class gives its folded members, or nothing past the limit |
| Plan.ByteMembersLoop | crates/greeg-index/src/plan.rs:324-360 | a byte class gives its folded members, or nothing past the limit |
| Plan.Flatten | crates/greeg-index/src/plan.rs:362-403 | flattening keeps what the query means and leaves no nested conjunction or disjunction, with keys in order and no repeats |
| PlanSound.SimplifyFits | crates/greeg-index/src/plan.rs:129-165 | simplification keeps every fact about a match: the exact set, some prefix, some suffix and the query |
| PlanSound.ConcatFits | crates/greeg-index/src/plan.rs:259-293 | concatenation keeps every fact, the trigrams across the boundary included |
| PlanSound.AlternateFits | crates/greeg-index/src/plan.rs:295-321 | alternation keeps every fact of whichever side matched |
| PlanSound.CharMembersHold | crates/greeg-index/src/plan.rs:324-360 | the folded text of every character of a class is among its members |
| PlanSound.AnalyzeSound | crates/greeg-index/src/plan.rs:167-257 | at every node of every tree: the exact set holds the folded match, a prefix and a suffix fit it, and the whole file satisfies the query |
| PlanSound.RawPlanSound | crates/greeg-index/src/plan.rs:167-357 | a file in which the pattern matches anywhere satisfies the pattern's query |
| PlanSound.MakePlan | crates/greeg-index/src/plan.rs:406-422 | the published plan is flat, means what the raw query means, and holds of every file with a match |
| PlanTight.AnalyzeBounded | crates/greeg-index/src/plan.rs:129-165 | at every node of every tree: at most 32 strings a set, and exact strings of at most 24 bytes |
| PlanTight.ExactIsLanguage | crates/greeg-index/src/plan.rs:167-257 | an exact set is the folded language of its node, neither more nor less |
| PlanTight.PlanTightest | crates/greeg-index/src/plan.rs:167-357 | a pattern tracked exactly gets the tightest query: it holds exactly of the files with every trigram of some text of the language |
| Format.DecodeEncoded | crates/greeg-index/src/format.rs:492-515 | a table of fixed-width little-endian numbers reads back as itself |
| Format.SerializeGramsLoop | crates/greeg-index/src/format.rs:492-515 | appending table after table gives the section |
| Format.GramsView.Find | crates/greeg-index/src/format.rs:568-583 | binary search finds a key exactly when the table has it |
| Format.SectionRoundTrip | crates/greeg-index/src/format.rs:492-604 | parsing a written gram section gives its keys, counts, offsets and lists |
| Format.EntryReadsBack | crates/greeg-index/src/format.rs:492-604 | each entry's key, count and posting bytes read back at its own position |
| Segment.Posting | crates/greeg-index/src/index.rs:233-243 | looking a key up through the table gives its stored list |
| Segment.IntersectLists | crates/greeg-index/src/index.rs:269-321 | the loop over the rarest lists with both cut-offs and the early end meets exactly the lists kept |
| Segment.Eval | crates/greeg-index/src/index.rs:269-321 | the evaluator with its early exits computes the evaluation it stands for |
| Candidates.EvalKeeps | crates/greeg-index/src/index.rs:269-321 | no file whose trigrams satisfy the query is lost, whatever conjuncts the cut-offs drop |
| Candidates.EvalExact | crates/greeg-index/src/index.rs:269-321 | where no conjunct is dropped the answer is exactly the satisfying files |
| Candidates.PostingsMakeEntries | crates/greeg-index/src/build.rs:578-640 | the posting lists of the build are the entries of the files' trigram sets |
| Candidates.BuiltSegment | crates/greeg-index/src/build.rs:643-790 | a segment read back from what the build wrote describes its files |
| Candidates.CandidatesComplete | crates/greeg-index/src/index.rs:706-723 | the candidates hold every live file whose trigrams satisfy the query and every live file above the cap; an id is dropped exactly when superseded |
| Candidates.FindCandidates | crates/greeg-index/src/index.rs:706-723 | the loop over base and deltas gives exactly those candidates |
| Candidates.CandidatesOwned | crates/greeg-index/src/index.rs:706-723 | a candidate is a file of some segment, and not superseded, whatever lists are damaged |
| Candidates.Search | crates/greeg-index/src/index.rs:706-723 | pattern to candidates: a live searchable file whose text holds a match is found, and only live files are |
| Whole.Extract | crates/greeg-index/src/build.rs:478-530 | a file above the cap, binary or only tracked gives no trigrams; any other exactly those of its folded text, ascending |
| Whole.WriteSegment | crates/greeg-index/src/build.rs:578-640 | the postings of some files, serialized, written and parsed, describe exactly those files; no count or offset overflows its field |
| Whole.BuildBase | crates/greeg-index/src/build.rs:665-745 | for any number of threads and any budget the base segment describes exactly the files built |
| Whole.CollectDelta | crates/greeg-index/src/build.rs:1294-1318 | pushing each file's trigrams in order leaves every list strictly ascending, with exactly the pairs of the files |
| Whole.BuildDelta | crates/greeg-index/src/build.rs:1294-1443 | a delta's in-memory map gives a segment that describes exactly its files, at its first id |
| Whole.Store | crates/greeg-index/src/index.rs:526-593 | base and deltas written and read back are the index of their files, with every retired id gathered |
| Whole.SearchHistory | crates/greeg-index/src/index.rs:706-723 | over every history of edits: every path of the edited tree whose text holds a match has its live id among the candidates, and only live ids are |
| Spill.PutVarint | crates/greeg-index/src/external.rs:118-124 | the loop writes the unsigned LEB128 form of any 64-bit value |
| Spill.VarintRoundTrip | crates/greeg-index/src/external.rs:118-124 | any 64-bit value reads back, and the bytes after it are untouched |
| Spill.RecordRoundTrip | crates/greeg-index/src/external.rs:209-257 | a record of a key and ascending ids reads back from its delta form |
| Spill.SegmentRoundTrip | crates/greeg-index/src/external.rs:209-257 | a whole segment reads back as exactly the records written |
| Cuts.CutRecord | crates/greeg-index/src/external.rs:427-449 | a record cut short reads as a clean end inside the length of its key, and as damage anywhere else |
| Cuts.CutSegment | crates/greeg-index/src/external.rs:384-449 | any prefix of a segment reads as its whole records, and as damaged if and only if the cut is inside a record past the length of its key |
| Cuts.ShortKeys | crates/greeg-index/src/external.rs:427-449 | with keys below 128 bytes, exactly the cuts at the end of a record pass |
| Spill.Reader.Fill | crates/greeg-index/src/external.rs:367-382 | unread bytes and the rest of the file stay the same stream, however short the read, and the buffer grows unless the file is at its end |
| Spill.Reader.ReadVarint | crates/greeg-index/src/external.rs:384-407 | the value, the clean end or the overlong error is that of the stream |
| Spill.Reader.Take | crates/greeg-index/src/external.rs:409-425 | exactly that many bytes of the stream come back, across any number of reads, or the segment is cut short |
| Spill.Reader.Advance | crates/greeg-index/src/external.rs:427-449 | the reader steps to the next record of the stream, its end, or its damage |
| Sink.BigEndianOrder | crates/greeg-index/src/external.rs:91-104 | numeric order is byte order for big-endian keys, and a key reads back |
| Sink.KeysLawful | crates/greeg-index/src/external.rs:91-116 | gram and word keys keep their order and read back |
| Sink.Serialize | crates/greeg-index/src/external.rs:209-257 | a spilled segment is well formed and holds exactly the pairs of the map |
| Sink.Sink.Push | crates/greeg-index/src/external.rs:173-194 | a push adds exactly its pair |
| Sink.Sink.SpillIfFull | crates/greeg-index/src/external.rs:202-207 | spilling changes where pairs are kept, never which |
| Sink.Sink.WriteOut | crates/greeg-index/src/external.rs:209-259 | the map is emptied into one new segment |
| Sink.Sink.Finish | crates/greeg-index/src/external.rs:261-267 | a sink ends as a map or as segments, holding every pair pushed |
| Merge.HeapStep | crates/greeg-index/src/external.rs:454-499 | moving the top reader on keeps the heap in step with what every reader has left |
| Merge.Merger.Add | crates/greeg-index/src/external.rs:461-477 | opening a segment adds the records it can give; an empty one is dropped, and one that reads as damaged before its first record is an error |
| Merge.Merger.NextKey | crates/greeg-index/src/external.rs:479-499 | the least key left, with the ascending union of every id stored under it, and nothing else taken; an error exactly when a segment that has this key reads as damaged right behind it |
| Merge.Merger.TakeAll | crates/greeg-index/src/external.rs:479-499 | every reader at the key gives its record, and all are past it, unless one is damaged there |
| Postings.PostingsUnique | crates/greeg-index/src/build.rs:578-640 | the entries of a set of pairs are unique, so the spilled and the in-memory result are one list |
| Postings.StreamBatches | crates/greeg-index/src/external.rs:503-521 | the merged batches together are the entries of the records the segments give, each batch no longer than asked; an error exactly when some segment reads as damaged |
| Cuts.CutsMerge | crates/greeg-index/src/external.rs:503-521 | the merge of segments cut short is an error if and only if some cut is one reading notices, and merges the records still whole otherwise |
| Postings.MergeMaps | crates/greeg-index/src/external.rs:310-336 | merging the maps in any order of size holds exactly their pairs |
| Postings.FromMemory | crates/greeg-index/src/build.rs:596-640 | the in-memory result is those entries |
| Postings.Worker | crates/greeg-index/src/build.rs:643-790 | a worker's part holds exactly the pairs of its files, spilled or not |
| Postings.EntriesOf | crates/greeg-index/src/build.rs:596-640 | parts in memory, on disk or mixed give those entries |
| Postings.BuildPostings | crates/greeg-index/src/build.rs:643-790 | for any split of the files over workers and any budgets: every distinct key once, ascending, with its sorted distinct ids |
| Graph.SortMergeMeans | crates/greeg-index/src/symtab.rs:803-815 | sorting and merging keeps every edge once, in order, with the sum of its duplicates capped at 65535 |
| Graph.RowOffsets | crates/greeg-index/src/symtab.rs:816-823 | counting and running sums give where each row starts |
| Graph.FillSources | crates/greeg-index/src/symtab.rs:826-836 | the counting sort by target gives each file's sources in order |
| Graph.GraphBuilder.Add | crates/greeg-index/src/symtab.rs:793-797 | an edge is kept unless it leads to the file itself or nowhere |
| Graph.GraphBuilder.Finish | crates/greeg-index/src/symtab.rs:803-887 | the section written reads back as two tables that hold exactly the edges, so they are transposes, each row strictly ascending and each weight the capped sum, and as the ranks of those rows |
| Graph.GraphRoundTrip | crates/greeg-index/src/symtab.rs:873-923 | a graph section reads back table by table |
| Packed.PackReads | crates/greeg-index/src/symtab.rs:131-154 | padded tables of 16-bit and 32-bit numbers, one after the other, read back in turn |
| Rank.RoundMeans | crates/greeg-index/src/symtab.rs:848-869 | a round gives each file the base and, of each importer, its damped rank in proportion to the edge's weight |
| Rank.RoundTotal | crates/greeg-index/src/symtab.rs:848-869 | a round loses the damped ranks of files whose edges all have weight zero, and nothing else |
| Rank.TotalIsOne | crates/greeg-index/src/symtab.rs:837-869 | over all rounds the ranks add up to one, if and only if no such file is there |
| Rank.RoundInto | crates/greeg-index/src/symtab.rs:848-868 | the loops over files and edges compute that round into the other buffer |
| Rank.PageRank | crates/greeg-index/src/symtab.rs:837-873 | twenty rounds, scaled: every rank is above zero and at most one, and the greatest is one |
| Versions.SegmentOf | crates/greeg-index/src/index.rs:630-647 | an id is found in the one segment it belongs to, or in none |
| Versions.Open | crates/greeg-index/src/index.rs:526-593 | opening succeeds exactly when ids are contiguous, and gathers superseded ids and inverse version links |
| Versions.PrevUpToMeans | crates/greeg-index/src/index.rs:560-593 | a file of a delta supersedes another exactly as its entry says |
| Versions.PrevMeans | crates/greeg-index/src/fresh.rs:950-1071 | a version comes after the one it supersedes, which is retired and has the same path |
| Versions.PrevInjective | crates/greeg-index/src/fresh.rs:950-1071 | no id is superseded twice |
| Versions.MakeDelta | crates/greeg-index/src/fresh.rs:983-1001 | the loops over changed, deleted and added files give the delta's rows, links and retired ids |
| Versions.ApplyFollows | crates/greeg-index/src/fresh.rs:950-1071 | the delta of well-formed changes retires live ids only and starts where the index ends |
| Versions.OnePerPathAfter | crates/greeg-index/src/fresh.rs:950-1071 | after a delta each path still has at most one live id |
| Versions.ViewAfter | crates/greeg-index/src/fresh.rs:950-1071 | the live view after a delta is the view before with the changes made |
| Versions.HistoryGood | crates/greeg-index/src/fresh.rs:950-1071 | every history of rounds keeps all of that |
| Versions.ViewIsTable | crates/greeg-index/src/fresh.rs:950-1071 | over every history the live view is what one plain table with every edit made would say |
| Versions.Reopen | crates/greeg-index/src/index.rs:526-593 | whatever rounds were applied, the index opens and is well formed |
| Edges.ChainShort | crates/greeg-index/src/index.rs:1091-1115 | every step back leaves a segment, so a chain has no more steps than there are deltas |
| Edges.Canon | crates/greeg-index/src/index.rs:1094-1104 | the oldest version, exactly unless the guard cuts the chain; at most 65 deltas never do |
| Edges.Latest | crates/greeg-index/src/index.rs:1106-1116 | the newest version, exactly unless the guard cuts the chain; at most 65 deltas never do |
| Edges.SameFile | crates/greeg-index/src/index.rs:1091-1116 | a live id is the newest version of exactly the ids sharing its oldest version |
| Edges.EdgesAreDual | crates/greeg-index/src/index.rs:1117-1176 | for live files: b is among what a imports exactly when a is among b's importers |
| Edges.EdgesKeepPaths | crates/greeg-index/src/index.rs:1117-1141 | an edge leads to the path that was imported, through every edit since |
| Edges.OutEdges | crates/greeg-index/src/index.rs:1120-1141 | strictly ascending live files, each the newest version of something the file's segment recorded; all of them up to 65 deltas, and beyond those whose chain the guard does not cut |
| Edges.InEdges | crates/greeg-index/src/index.rs:1148-1176 | strictly ascending; the live files with a recorded edge to any version of the file up to 65 deltas, and beyond those that agree on what the guard leaves |
| DeltaGraph.Parse | crates/greeg-index/src/symtab.rs:1020-1067 | a delta's section that is read at all has every row within its table, so no lookup goes past it |
| DeltaGraph.SectionRoundTrip | crates/greeg-index/src/symtab.rs:976-1046 | what is written of a delta's graph is what is read |
| DeltaGraph.DeltaGraphBuilder.SetPrev | crates/greeg-index/src/symtab.rs:962-966 | the link of a file of the delta is set, any other passed over |
| DeltaGraph.DeltaGraphBuilder.Add | crates/greeg-index/src/symtab.rs:968-972 | an edge is kept unless it leads nowhere or from a file the delta does not have |
| DeltaGraph.DeltaGraphBuilder.Finish | crates/greeg-index/src/symtab.rs:976-1003 | the section reads back as the links set and exactly the edges kept, each row strictly ascending and each weight the capped sum |
| DeltaGraph.StoreGraph | crates/greeg-index/src/build.rs:1291-1453 | a delta's links and targets written and read back are the same links, and the same targets, sorted and each once |
| DeltaGraph.SameValid | crates/greeg-index/src/index.rs:543-589 | an index whose deltas had their graphs written and read back is as well formed as before |
| DeltaGraph.AnswersFromDisk | crates/greeg-index/src/index.rs:1117-1176 | over such an index both queries list exactly what the recorded edges say |
| Publish.RetireOnly | crates/greeg-index/src/snapshot.rs:146-172 | an entry is handed to cleanup only past its grace period or in a build beyond those kept; the others keep their time |
| Publish.RetireAll | crates/greeg-index/src/snapshot.rs:146-172 | no entry is lost: it is handed over or waits on |
| Layout.WritesAreNew | crates/greeg-index/src/build.rs:792-840 | whatever a locked section writes, no snapshot ever published has a file of that name |
| Layout.WriteStep | crates/greeg-index/src/build.rs:819-836 | writing a file keeps the invariant |
| Layout.RemoveStep | crates/greeg-index/src/snapshot.rs:217-253 | cleanup removes nothing the manifest names |
| Layout.NextNames | crates/greeg-index/src/build.rs:1186-1216 | the digests of a new manifest are of exactly the files it names, for every kind of publication |
| Layout.NextShape | crates/greeg-index/src/fresh.rs:1024-1067 | a new manifest is well formed, and nothing it retires or hands to cleanup is a file it names |
| Layout.DroppedIsRetired | crates/greeg-index/src/build.rs:838-846 | no file leaks: one the new manifest no longer names is retired, on its own or with its build, and waits there or goes to cleanup |
| Layout.NextIsNew | crates/greeg-index/src/fresh.rs:941-943 | publishing a known epoch, sequence and delta count again names the same files |
| Layout.PublishStep | crates/greeg-index/src/build.rs:838-880 | a publication keeps the invariant and every snapshot recorded before |
| Readers.Step | crates/greeg-index/src/snapshot.rs:1-7 | no step rewrites or removes a named file, and none brings a published name back |
| Readers.NamedFilesExist | crates/greeg-index/src/snapshot.rs:77-116 | the manifest names only files on disk with its epoch and their own sequence, and its digests are of exactly those |
| Readers.DeltaBasis | crates/greeg-index/src/fresh.rs:1018-1040 | delta n was computed on a published snapshot of the same build with n - 1 deltas, the very ones named before it |
| Readers.AlwaysSafe | crates/greeg-index/src/build.rs:792-880 | the invariant holds in every state of every run from an empty directory |
| Readers.SameSnapshotSameFiles | crates/greeg-index/src/fresh.rs:940-943 | equal epoch, sequence and delta count mean the same files, however far apart the two manifests were read |
| Readers.PublishedOrGone | crates/greeg-index/src/index.rs:396-430 | however late a file is opened it is the one its manifest named, or gone |
| Readers.CurrentCanPublish | crates/greeg-index/src/build.rs:1160-1229 | a writer that finds its manifest current can publish the snapshot it set out to, so the guarantees are not kept by standing still |
| Readers.OldestGoes | crates/greeg-index/src/snapshot.rs:160-171 | with more retired builds than are kept the oldest is handed over at once |
| Readers.ReaderFindsAll | crates/greeg-index/src/snapshot.rs:16-30 | a reader opening within the grace period, at most two builds published meanwhile, finds every named file as published, in every run |
| Marker.StepInv | crates/greeg-index/src/lock.rs:126-155 | every system call of every process keeps locks and the name in step |
| Marker.OneHolder | crates/greeg-index/src/lock.rs:124-155 | no two live processes hold the marker, and its name means the file held |
| Marker.UnlinksItsOwn | crates/greeg-index/src/lock.rs:89-108 | an unlink removes only the file of the process that unlinks |
| Marker.StaysHeld | crates/greeg-index/src/lock.rs:80-96 | only its own drop or death takes a marker from its holder |
| Marker.ProbeSeesHolder | crates/greeg-index/src/lock.rs:174-189 | a probe opens the very file a holder has locked |
| Marker.AlwaysOneHolder | crates/greeg-index/src/lock.rs:89-155 | at most one holder in every state of every run, whatever file an earlier process left |
| Marker.LeftMarkerIsTaken | crates/greeg-index/src/lock.rs:110-155 | an unlocked marker is taken over in one attempt exactly when no older program wrote it too recently; that one is left as it is |
| Marker.LookIsNeeded | crates/greeg-index/src/lock.rs:142-145 | the run in which two processes would hold the marker without the second look, and in which the look turns one away |
| Stamp.NotTouched | crates/greeg-index/src/build.rs:141-154 | a file whose change time was trusted at some time was not touched from then on |
| Stamp.FreshRecordHolds | crates/greeg-index/src/build.rs:363-395 | with inode numbers, an unmarked record whose stamp equals the file's present stat holds the bytes on disk, around any writes and renames |
| Stamp.PathRecordHolds | crates/greeg-index/src/build.rs:363-395 | without them, exactly when the file opened and the file the path names have the same bytes as the clock is read; so always when the path names the file opened |
| Stamp.SettledRecordHolds | crates/greeg-index/src/build.rs:438-458 | so does one whose doubt the settle re-read cleared |
| Stamp.UnreadRecordHolds | crates/greeg-index/src/build.rs:386-395 | an unread file's unmarked record means it is unchanged since the walk |
| Stamp.QuietFileIsTrusted | crates/greeg-index/src/build.rs:363-395 | a file left alone since the walk, and long enough before the read, is recorded unmarked and found unmodified |
| Stamp.QuietFileSettles | crates/greeg-index/src/build.rs:438-458 | a racy read of a file left alone is cleared by the re-read |
| Stamp.ReplacedUnnoticed | crates/greeg-index/src/build.rs:363-384 | the run in which a replacement passes unnoticed without inode numbers, and is seen with them |
| Stamp.LagMustStayBelow | crates/greeg-index/src/build.rs:145-158 | the run, for either window, in which a change time that lags by the whole window leaves a trusted record wrong and unmarked |
| Levenshtein.LevIsDistance | crates/greeg-index/src/index.rs:1271-1293 | the recurrence is the length of a shortest script of insertions, deletions and replacements |
| Levenshtein.RowStaysAbove | crates/greeg-index/src/index.rs:1286-1288 | once a whole row is above the bound every later row is |
| Levenshtein.LevAtLeastLength | crates/greeg-index/src/index.rs:1273-1275 | the distance is at least the difference in length |
| Levenshtein.FillRow | crates/greeg-index/src/index.rs:1278-1285 | one pass fills the next row and finds its least entry |
| Levenshtein.Bounded | crates/greeg-index/src/index.rs:1272-1293 | the distance when it is at most the bound, and nothing exactly when it is more |
| Reach.Normalize | crates/greeg-index/src/resolve.rs:76-88 | the stack of segments gives the normalized path |
| Reach.BuildReach | crates/greeg-index/src/fresh.rs:820-881 | the loop's names are exactly those some changed file adds, so the order of the changes does not matter |
| Reach.PyHeldExactly | crates/greeg-index/src/fresh.rs:833-843 | the filter holds a Python name exactly when some changed file is named so or is a package's own file |
| Reach.JsHeldExactly | crates/greeg-index/src/fresh.rs:859-874 | the filter holds a script name exactly when some changed file adds it: as named, without its extension, or as its directory |
| Reach.ResolvesFirst | crates/greeg-index/src/resolve.rs:309-330 | an import resolves to the first of its probes that is there, unless the importing file comes before it |
| Reach.MayMoveMeans | crates/greeg-index/src/fresh.rs:827-913 | the filter lets an import through exactly when some changed file has a name it looks up for it |
| Reach.FilterExactly | crates/greeg-index/src/fresh.rs:885-913 | over all changes to trees that hold the importing file, the filter is right about an import if and only if it looks up every path probed before that file which could stand beside it |
| Reach.PythonLooked | crates/greeg-index/src/resolve.rs:339-387 | every path a Python import probes is looked up, if every segment's file name is |
| Reach.PythonExactly | crates/greeg-index/src/fresh.rs:885-913 | the filter is right about every change for those modules, and only for those where the importing file is apart from all they probe |
| Reach.IdentAt | crates/greeg-lang/src/sym.rs:1333-1342 | the longest run of module characters after the blanks, and any such text is a module the filter is right about |
| Reach.ProbeAdds | crates/greeg-index/src/resolve.rs:536-570 | every path a relative import probes is named so that the filter would hold it |
| Reach.RelativeLooked | crates/greeg-index/src/resolve.rs:460-463 | every path a relative JavaScript or TypeScript import probes is looked up, if it ends in a name or in a directory whose name is not cut |
| Reach.RelativeExactly | crates/greeg-index/src/fresh.rs:885-913 | with the importing file there before and after, the filter is right about every change exactly for those imports, for those that name the importing file itself, as it is or with `.ts` for the extension, and for those that name a path below it |
| Reach.DirectoryEscapes | crates/greeg-index/src/fresh.rs:898-903 | the smallest import the filter misses: `.` in the file `b.js/a.ts`, moved by an added `b.ts` |
| Reach.ResolvesToFile | crates/greeg-index/src/resolve.rs:309-330 | an import resolves only to a file there is, and never to the importing file |
| Reach.ImportStays | crates/greeg-index/src/fresh.rs:885-913 | a rejected import whose probes the filter looks up keeps its target, whatever files come and go |
| Reach.TargetUnchanged | crates/greeg-index/src/fresh.rs:885-913 | and that target is not itself among the added and deleted files |
| Reach.LeftAloneIsClean | crates/greeg-index/src/fresh.rs:687-772 | in one round each edge of a file left alone, for an import whose probes the filter looks up, leads where a clean build over the new files would point it |
| Clean.LatestIsLive | crates/greeg-index/src/index.rs:1106-1116 | a target's live version, followed delta by delta, is what `latest` and `is_live` give |
| Clean.PathAfter | crates/greeg-index/src/fresh.rs:755-759 | after a delta a stored target leads where it led, unless its file was deleted |
| Clean.FilesDiffer | crates/greeg-index/src/fresh.rs:687-740 | the resolver's files before and after differ only at paths added or deleted |
| Clean.RoundStaysClean | crates/greeg-index/src/fresh.rs:687-772 | a delta that resolves its own files and those whose imports moved keeps every stored target right |
| Clean.ResolvingIsGood | crates/greeg-index/src/build.rs:1357-1423 | the edges such a delta records are ids it knows, so its history is one of well-formed rounds |
| Clean.HistoryIsClean | crates/greeg-index/src/fresh.rs:687-690 | over every history the stored targets of imports whose probes the filter looks up lead where resolution over the live files points them |
| Clean.SameAsRebuilt | crates/greeg-index/src/fresh.rs:687-690 | which is where building again from the live files would point them |
| SymTab.OrderAscends | crates/greeg-index/src/symtab.rs:281-287 | the name ids come in strictly ascending byte order of their names |
| SymTab.Renamed | crates/greeg-index/src/symtab.rs:288-301 | every id leads to its own name still, through the permutation |
| SymTab.SymBuilder.Intern | crates/greeg-index/src/symtab.rs:231-239 | a name keeps one id, and only a new name adds one |
| SymTab.SymBuilder.AddFile | crates/greeg-index/src/symtab.rs:241-271 | a file's symbols are recorded in order with their names, parents and supertypes; gaps are empty |
| SymTab.SymBuilder.Finish | crates/greeg-index/src/symtab.rs:277-337 | the finished table answers for exactly what was added, whatever order ranks same-named symbols |
| SymTab.ByName | crates/greeg-index/src/symtab.rs:302-337 | each name's row enumerates exactly the symbols of that name, none twice |
| SymTab.SymbolsView.FindName | crates/greeg-index/src/symtab.rs:525-541 | binary search finds a name exactly when the table has it |
| SymTab.Lookup | crates/greeg-index/src/symtab.rs:525-574 | a name is found exactly when some symbol or supertype has it, and leads to exactly the symbols so named |
| SymTab.FileSymbols | crates/greeg-index/src/symtab.rs:499-504 | a file's slice is exactly its symbols, in order |
| SymTab.SymbolSupers | crates/greeg-index/src/symtab.rs:575-578 | the first 255 supertypes keep their names |
| Skipped.JoinParts | crates/greeg-index/src/rel.rs:23-45 | a slash-free name and its directory come back from the joined path, whatever the directory |
| Skipped.SetMeans | crates/greeg-index/src/skipped.rs:40-47 | setting a directory's children replaces exactly those, sorted |
| Skipped.RoundTrip | crates/greeg-index/src/skipped.rs:69-108 | a written record reads back as itself if and only if no child's name holds a slash |
| Skipped.SkippedSet.Set | crates/greeg-index/src/skipped.rs:40-47 | the object keeps its order and changes one directory only |
| Skipped.SkippedSet.Update | crates/greeg-index/src/skipped.rs:49-53 | every directory given ends with the last children given for it, the others as they were |
| Skipped.SkippedSet.Serialize | crates/greeg-index/src/skipped.rs:69-82 | the nested loops write the record's bytes |
| Skipped.Parse | crates/greeg-index/src/skipped.rs:84-108 | the cursor loop reads a record, or rejects one cut short or too long |

## Left out

- Merge.Merger.Add: records are taken to be in order as far as a segment can be read (as in any cut of a segment the program wrote); the source does not check that either.
- Readers.ReaderFindsAll: the retry loop of `Index::open` is not modelled; the theorem is about one attempt.
- Stamp.PathRecordHolds: symbols read in phase 2 and the switch to comparing without inode numbers are not modelled.
- Rank.PageRank: the rounding of single-precision arithmetic is not modelled.
- SymTab.SymBuilder.Finish: the table is modelled as sequences, without its byte layout, name tokens and block digests; the ranking score is an arbitrary order.
- Merge.Merger.Step: the binary heap is modelled by the order in which it pops.
- Trigrams.Dedup.Extract: a bitset word is modelled by the set of its bits.
- Spill.RecordRoundTrip: ids are kept as 32-bit numbers; the addition of a delta is modelled with its wrap.
- Word plans and word postings beyond their keys, the word index and the tree walk.
- Whole.SearchHistory: what makes a file binary or tracked only is an arbitrary function of its path and bytes, and UTF-16 text is taken as already transcoded.
- Regex parsing, tree-sitter extraction, roaring's byte format (a codec that reads back what it wrote), block digests and header checks.
- mmap, fsync, file permissions and links, FSEvents, directory walking and ignore rules.
- Cleanup's cap of 64 removals, the age of orphans, temp files and scratch directories: cleanup may stop anywhere, so they do not matter to what is proved.
- Marker.LeftMarkerIsTaken: how long an older program's unlocked marker counts is any time.
- Clean.HistoryIsClean: Rust, bare JavaScript and Kotlin imports are not modelled, nor imports with a probe the filter does not look up; a target is the one id an import record keeps.
- DeltaGraph.Parse, Graph.ParseGraph: the alignment of a section in memory is not modelled, nor the words of its errors.
- The content of a change check is taken as given: which files were modified, deleted or added, each once, with new paths for additions.
