# Frinet, modelled and proved

Frinet turns an execution trace into an index file and answers time-travel questions on it: what a
byte of memory held at a given time, when an address was last or next touched, what a register held,
and where in memory, and when, a regular expression matched. This project models the path from the
trace to the answers and proves that the answers are right. The main theorems are stated against the
trace alone: the last byte accessed at or before a time, the last value written to a register, the
language of an expression.

The modules, bottom up:

* `Ranges`, `Payload`: bounded integers for addresses (64 bit) and times (32 bit), ranges, rectangles
  in address and time, cutting one rectangle out of another, matchers; the bytes of a leaf, inlined or
  in the shared data section.
* `OrderedKeys`, `Disjoint`: the sweep over memory accesses that keeps the open leaves and emits
  closed, disjoint rectangles. `Streams` shows that the sweep emits the same rectangles whatever payload
  the accesses carry, so the three passes over the trace agree.
* `Sums`: adding up counts. `Zones`, `Partition`, `Hilbert`: clustering leaves into zones, counting and filling partitions,
  keys along the curve. `Layout`, `Views`, `StorageViews`: the sections of the index file, cutting it into views, and
  handing these out.
* `PackedTree` (file `RTree.dfy`), `Build`, `Containment`: packed trees, building them bottom-up, and
  why filters that respect containment lose nothing.
* `Query`, `MultiQuery`, `Nearest`: the lazy traversal, its extension to all zones, and best-first search.
* `MemoryDb`, `Nearby`, `Registers`: fetching memory, stepping to the previous or next access, and
  register history.
* `Automata`, `Utf8`, `Thompson`, `Determine`, `Minimize`, `Brzozowski`, `Execute`: from expressions to
  minimal deterministic automata, and running them. `Languages`: which words an expression stands for.
* `SearchLeaf`, `SearchChain`, `SearchZone`, `SearchMatch`: partial searches in every leaf, stitched
  together across leaves by forking tasks. `SearchStarts`: exactly which starts are reported.
  `SearchMemory`, `Futures`, `ReportedStarts`, `Search`: the same for the whole database, told by the
  history and the language.
* `Passes`, `Index`, `RegisterIndex`, `Trace`, `IndexFile`, `Pipeline`: the passes one after the other over
  one stream of events, with the layout between them, up to statements about a trace and an answer. `History`: what the
  events of a trace say about memory and registers, and that the passes are told just that.

Where the code changes state, the model does: the sweep, the zone list, the partition buffers, the data
section, the traversals, the layout cursor and the automaton builder are classes or methods with loops,
each proved against a specification function; the theorems about those functions are lemmas. Every lemma
switches automatic induction off, so the inductions are the ones written down.

## Where the code does less than it says

* The README of Frinet promises full support for regular expressions. Look-around makes the compiler
  panic (`crates/regex/src/hir_to_nfa.rs:26`), and an expression that matches the empty word reports nothing
  (`crates/db/src/search.rs:149-152`). `Thompson.Supported` and the first `ensures` of `Search.SearchHir`
  state this.
* Search does not report every start of a match. A start is lost for one of two reasons: an earlier byte of its leaf
  reaches the end of the leaf in the same state, or its run stands in the initial state at the end of a leaf, where no
  chain is kept. `SearchStarts.StartsExact` is the exact condition on the results of a zone, and
  `ReportedStarts.StartsAreExact` the same for a database, without automata. `SearchStarts.RepeatIsLost` and
  `SearchStarts.ReturnIsLost` are one lost start for each reason. Every match end is reported.
* Memory queries see nothing after the last memory access, because the sweep is closed at its own last time
  and not at the end of the trace (`crates/index/src/disjoint.rs:178-186`). `Exact` is stated up to that time, and no
  search report goes beyond it.
* The time range that a fetch reports is stable for the bytes it filled, and for the whole answer only when the
  fetch is complete: an unset byte may be written inside that range. `MemoryDb.FetchStaysIff` says exactly when the
  whole answer holds, and `MemoryDb.FetchGoesStale` gives a fetch that goes stale.
* Stitching looks for `addr_max + 1` (`crates/db/src/search.rs:270`), so a database with a leaf that ends at the
  largest address is outside what the search theorems cover (`SearchMemory.Searchable`).

## Model

| member | source | states |
|---|---|---|
| `Ranges.TimeRange.Intersection` | crates/db/src/irange.rs:67-80 | some time range exactly if the two ranges share a time; then it holds exactly the shared times |
| `Ranges.DisjointIsNoCommonPoint` | crates/db/src/memory.rs:40-50 | two rectangles are disjoint exactly if no (address, time) point lies in both |
| `Ranges.FragmentBy` | crates/db/src/memory.rs:77-148 | appends the left, right, before and after fragments, in that order, or the whole rectangle when disjoint, without underflow or overflow at the coordinate limits |
| `Ranges.FragmentsPartition` | crates/db/src/memory.rs:77-148 | the fragments are valid, pairwise disjoint, inside the rectangle and disjoint from the other one, and cover exactly the points of the first that are not in the second |
| `Ranges.MatchRangeIsSomeScalar` | crates/db/src/matcher.rs:3-43 | for a scalar, a range or a list, a range matches exactly if some value in it matches |
| `Ranges.MatchersAgree` | crates/db/src/matcher.rs:8-43 | a scalar is a range of one, a list what one of its items matches, a range what lies neither below nor above; a value matches as the range it makes up |
| `Payload.CutCarries` | crates/index/src/pass/fill.rs:194-213 | a cut payload stands for exactly the surviving bytes, inlined when at most 8 are left, and still names an in-bounds slice of the data section |
| `Payload.PackedRoundTrip` | crates/index/src/pass/fill.rs:82-92 | the 64-bit word written for a payload reads back, together with the data section, as the bytes the payload stands for |
| `Payload.LittleEndianRoundTrip` | crates/db/src/db.rs:196-205 | packing a short byte string into a word and unpacking it is the identity |
| `Payload.DataDedup.Insert` | crates/index/src/pass/fill.rs:237-261 | equal bytes are stored once; what was handed out before is unchanged; the used part never exceeds the total length inserted, for which the first pass reserved room |
| `Disjoint.Temp.MaskIs` | crates/index/src/disjoint.rs:72-91 | masking keeps exactly the addresses of the box, each with its byte |
| `Disjoint.IterInRange` | crates/index/src/disjoint.rs:225-250 | the keys from the open leaf that reaches into the range, if any, up to the end of the range, ascending |
| `Disjoint.IterInRangeExact` | crates/index/src/disjoint.rs:225-250 | these are exactly the open leaves whose addresses meet the range, in address order |
| `Disjoint.IsDuplicateWrite` | crates/index/src/disjoint.rs:188-223 | the cursor walk answers yes exactly if every accessed address is open and holds the accessed byte |
| `Disjoint.DuplicateIsRedundant` | crates/index/src/disjoint.rs:110-114 | and that is exactly when the access repeats, byte for byte, what the history says memory holds |
| `Disjoint.SplitAll` | crates/index/src/disjoint.rs:129-167 | the pieces to add, keys to remove and leaves to emit for all open leaves under a write |
| `Disjoint.EditsGiveOverlay` | crates/index/src/disjoint.rs:169-176 | removing the collected keys, inserting the collected pieces and then the new leaf gives exactly the old working set with the write laid over it |
| `Disjoint.OverlaySeen` | crates/index/src/disjoint.rs:95-176 | a write changes what the working set says about an address inside its range to the new byte and time, and nothing else |
| `Disjoint.StepWritesOver` | crates/index/src/disjoint.rs:95-176 | a step keeps open leaves disjoint, and closes exactly the rectangles from the start of what was open under the write to the instant before it |
| `Disjoint.SweepStep` | crates/index/src/disjoint.rs:95-176 | every access keeps the sweep invariant: open and closed leaves together say, for each address and time, the last byte accessed, and no two overlap |
| `Disjoint.DisjointPass.PushMemoryWrite` | crates/index/src/disjoint.rs:95-176 | the whole new state: working set and emitted leaves are those of the step, the invariant is kept |
| `Disjoint.DisjointPass.WriteOver` | crates/index/src/disjoint.rs:116-176 | the in-place edits of the working set amount to laying the write over it |
| `Disjoint.DisjointPass.Finish` | crates/index/src/disjoint.rs:178-186 | all leaves of the pass are exact: for every address and time up to the last event some leaf covers the point if and only if an access touched the address by then; that leaf is unique and holds the last byte; leaf starts are the times of the accesses not dropped |
| `Disjoint.FinishExact` | crates/index/src/disjoint.rs:178-186 | the same as a statement about the leaves closed so far and those still open |
| `Streams.EraseStep` | crates/index/src/pass.rs:67-86 | the rectangles of a step are the same whatever payload the accesses carry |
| `Streams.EraseOverlay` | crates/index/src/disjoint.rs:129-176 | laying a write over the working set and forgetting payloads commute |
| `Streams.StepStored` | crates/index/src/pass/fill.rs:69-75 | if all payloads name stored bytes before a step, all payloads open or emitted after it do |
| `Passes.MapData` | crates/index/src/pass/fill.rs:69-75 | at most 8 bytes are inlined, longer ones are stored in the section, once; the payload stands for the bytes and names stored bytes |
| `Passes.LongBytesAddUp` | crates/index/src/pass/scout.rs:52-57 | exactly the accesses of more than eight bytes take up room in the data section, and rooms add up |
| `Passes.Normalize` | crates/index/src/pass.rs:55-69 | the memory side of a payload-free pass: the rectangles of the accesses, each exact |
| `Passes.NormalizeWithData` | crates/index/src/pass/fill.rs:65-138 | the third pass emits the same rectangles as the other two, exact for the accesses, all payloads within the used part of a section sized by the first pass |
| `Passes.CountLongBytes` | crates/index/src/pass/scout.rs:52-57 | the reserved room is the total length of all payloads longer than 8 bytes |
| `Passes.ScoutZones` | crates/index/src/pass/scout.rs:118-181 | after any sequence of leaves the zones are apart and own each leaf exactly once |
| `Passes.CountPartitions` | crates/index/src/pass/hilbert_partition.rs:112-122 | the second pass counts, for every partition, the leaves of the tree with that partition key |
| `Passes.FillLeaves` | crates/index/src/pass/fill.rs:143-174 | the filled tree holds a permutation of the routed leaves, sorted as a whole when the partition number is a prefix of the key |
| `Passes.BuildTree` | crates/index/src/lib.rs:150-191 | levels computed from the count alone and nodes written bottom-up fit together: the tree read back has the order asked for, is packed, and every node is the least box around what lies below |
| `Zones.PaddingsDisjoint` | crates/index/src/pass/scout.rs:195-209 | a padded zone misses a box, or two half-padded zones miss each other, exactly if more than the whole padding lies between them, also at the ends of the address space |
| `Zones.ZoneList.InsertNode` | crates/index/src/pass/scout.rs:118-181 | after any insertion sequence the zones are pairwise more than a padding apart and each zone counts and bounds exactly the leaves it owns |
| `Zones.ZoneList.MergeConflicts` | crates/index/src/pass/scout.rs:141-170 | merging stops, with all zones apart again, and loses no leaf; at least one pair is merged |
| `Zones.ZoneList.FindConflict` | crates/index/src/pass/scout.rs:145-156 | finds a pair that is too close, or there is none |
| `Zones.ZoneList.GrowNearZone` | crates/index/src/pass/scout.rs:119-139 | the first near zone takes the leaf; a conflict is signalled exactly when the growth brought two zones too close |
| `Zones.ZoneCount` | crates/index/src/pass/scout.rs:134-135 | the leaf count of a zone is the number of inserted leaves inside its box |
| `Zones.ZonesOfLeaves` | crates/index/src/pass/scout.rs:118-181 | the same leaves give the same zones in whatever order they are inserted: no box is larger than its leaves need, and inside a zone no gap is wider than the padding |
| `Zones.RoutedHome` | crates/index/src/pass/hilbert_partition.rs:78-89 | the first-intersecting lookup of the later passes finds, for every leaf of the first pass, the one zone whose box contains it |
| `Partition.RTreePartitions.PushLeaf` | crates/index/src/pass/hilbert_partition.rs:112-122 | counts stay, for every partition, the number of leaves pushed with that key |
| `Partition.FillTree.PushLeaf` | crates/index/src/pass/fill.rs:143-174 | a partition collects its leaves until the counted number is reached, is then written once, sorted, and left alone |
| `Partition.Conservation` | crates/index/src/pass/fill.rs:130-135 | when all counted leaves have come, every buffer is empty, each non-empty partition was written exactly once, and the slots together are a permutation of the leaves; with the prefix law they are sorted as a whole |
| `Partition.CountsSum` | crates/index/src/pass/hilbert_partition.rs:112-122 | the partition sizes of a tree add up to the number of its leaves |
| `Partition.SortByKeyIs` | crates/index/src/pass/fill.rs:169-172 | the order written is a sorted permutation |
| `Partition.SameKeysSameCounts` | crates/index/src/pass/hilbert_partition.rs:55-58 | partition sizes depend on the keys only, so the payload-free pass counts what the third pass fills |
| `Hilbert.SpreadLossless` | crates/index/src/hilbert_spec.rs:96-113 | spreading a coordinate over the word does not overflow and keeps order, hence distinctness |
| `Hilbert.SpreadFills` | crates/index/src/hilbert_spec.rs:102-110 | the spread value is the offset in the box shifted left by a power of two for which the largest value of the box has the top bit of the word set and still fits |
| `Hilbert.SpreadSteps` | crates/index/src/hilbert_spec.rs:102-110 | spreading starts at zero and neighbouring values are 2^(width - bits of the box) apart, so every spread value is a multiple of that power |
| `Hilbert.MidpointIsCentre` | crates/index/src/hilbert_spec.rs:100-101 | the value spread lies in the range of the leaf, as far from one end as from the other up to one |
| `Hilbert.KeysOfCentres` | crates/index/src/hilbert_spec.rs:40-53 | the sort key is the curve at the spread centres of addresses and times, in this order, the partition the coarse curve at the four top bits of both |
| `Hilbert.PartitionBits` | crates/index/src/hilbert_spec.rs:45-53 | the four bits taken fit the partition number, and the largest value of the box has the top one set |
| `Hilbert.MemHilbertCoordinates` | crates/index/src/hilbert_spec.rs:96-113 | the word arithmetic gives, for addresses and for times, the centre of the range shifted so far that the largest value of the box just fits 64 bits, no bit lost |
| `Hilbert.RegHilbertCoordinates` | crates/index/src/hilbert_spec.rs:162-179 | the same for a register leaf: its value itself and the centre of its times, each filling the word |
| `Hilbert.PartitionsAligned` | crates/index/src/hilbert_spec.rs:40-53 | with a curve that satisfies the prefix law, leaves of a lower partition never sort after leaves of a higher one |
| `Layout.BuildStorageLayout` | crates/index/src/layout.rs:21-72 | header first, data section last; every section is aligned and has exactly the room asked for; heads, levels and bodies of each list lie in regions of their own, in order |
| `Layout.LayoutBuilder.PlaceSection` | crates/index/src/layout.rs:91-96 | the section starts at the next aligned position, and no later, and ends at the new position |
| `Views.PushListRanges` | crates/index/src/layout.rs:246-266 | whatever was asked for before: next the headers, then the boxes, then tree by tree its levels, at every 257th place, followed by the 256 partitions of its leaves |
| `Views.DisjointViews` | crates/index/src/layout.rs:268-289 | cutting succeeds if and only if the non-empty ranges lie in the storage and do not overlap; then each view is the slice that was asked for |
| `Views.LayoutSeparate` | crates/index/src/layout.rs:153-195 | for partition sizes that add up to the scouted leaf counts, all ranges of all trees lie in the storage and no two overlap |
| `Views.DataLast` | crates/index/src/lib.rs:75-105 | the data section ends the storage: header, metadata and every section of every list end before it, so dropping its unused tail cuts into nothing else |
| `Views.PartHolds` | crates/index/src/layout.rs:258-264 | every partition starts aligned for leaves and has room for exactly the leaves counted for it |
| `Views.PartsMakeLeaves` | crates/index/src/layout.rs:255-265 | the views of a tree's partitions, one after the other, are its whole leaf section |
| `StorageViews.BuildStorageViews` | crates/index/src/layout.rs:153-244 | cutting never fails, and handed out one by one the views are the sections they are named after: header, metadata, data; for each list its headers and boxes; for each tree its levels and 256 partitions that together make up its leaf section, each with room for the leaves counted |
| `StorageViews.NextTreeList` | crates/index/src/layout.rs:207-226 | takes the next views of a list: headers, boxes, then the trees |
| `PackedTree.FirstLeafAncestor` | crates/db/src/query.rs:97-121 | the first leaf below a node is at or before a leaf exactly if the node is at or before the leaf's ancestor on that level |
| `Build.BboxOfNodes` | crates/index/src/hilbert_spec.rs:31-38 | the box grown over a group contains every member |
| `Build.BboxIsLeast` | crates/index/src/hilbert_spec.rs:31-38 | and is contained in every box that contains all members |
| `Build.ComputeLevels` | crates/index/src/pass/scout.rs:212-226 | terminates; node count and, root first, offsets and sizes of the levels are those of repeatedly rounding up the division by the group size |
| `Build.BuildNodes` | crates/index/src/lib.rs:150-191 | terminates; fills the node section exactly with the levels built bottom-up |
| `Build.ReadBack` | crates/index/src/lib.rs:81-102 | slicing the written nodes by the scouted levels gives back the built levels, root first, in bounds |
| `Build.BuiltTree` | crates/index/src/lib.rs:150-191 | the built tree is packed: each level is the rounded-up quotient of the one below, which does not fit one group; the root level does; every node is the least box around its children |
| `Build.TreeCounts` | crates/index/src/pass/scout.rs:212-226 | a packed tree without needless levels has exactly the levels and the number of nodes that are scouted for its leaves |
| `Build.AncestorContains` | crates/index/src/lib.rs:150-191 | each node bounds all leaves beneath it |
| `Query.QueryIter.Next` | crates/db/src/query.rs:66-138 | each call takes the head of what is left: the leaves passing the filter, in leaf order; at the end the position is back at 0 |
| `Query.QueryIter.constructor` | crates/db/src/query.rs:39-55 | a new traversal has all leaves that pass the filter still to yield |
| `Query.PassingMember` | crates/db/src/query.rs:15-21 | the leaves still to yield are exactly those from the frontier on that pass the filter |
| `Query.PassingInOrder` | crates/db/src/query.rs:15-21 | each of them is yielded once, and in leaf order |
| `Containment.MonotoneKeeps` | crates/db/src/query.rs:102-104 | a node filter monotone along containment never skips an ancestor of a passing leaf of a built tree |
| `Nearest.NearestNeighbor` | crates/db/src/nearest_neighbor.rs:6-48 | terminates; returns a kept leaf of least key, or nothing exactly if no leaf is kept |
| `Nearest.PopFirst` | crates/db/src/nearest_neighbor.rs:112-144 | the entry taken from the heap is one that no other entry comes before |
| `Containment.MonotoneAdmissible` | crates/db/src/nearest_neighbor.rs:50-106 | visitors whose node key never exceeds the key of a kept leaf inside are admissible on a built tree |
| `MultiQuery.MultiQueryIter.Next` | crates/db/src/db.rs:379-391 | takes the head of what is left over all visited zones, last zone first |
| `MultiQuery.HitsAreFilter` | crates/db/src/db.rs:354-391 | a query over all zones yields exactly the leaves of the database that pass the filter, each once |
| `MemoryDb.MeetingIs` | crates/db/src/db.rs:395-406 | the leaves meeting a rectangle are disjoint, exact, and cover every point of the rectangle that any leaf covers |
| `MemoryDb.MemWriteIntersects` | crates/db/src/db.rs:127-132 | the iterator yields exactly the leaves that meet the rectangle |
| `MemoryDb.FetchAt` | crates/db/src/db.rs:141-194 | each slot is the last byte accessed by that time, or unset; complete exactly if all slots are set; every filled byte keeps its value over the whole reported time range |
| `MemoryDb.LeafSpan` | crates/db/src/db.rs:161-162 | a leaf is live at exactly the times between which and a point in it no access that is not dropped touches the address |
| `MemoryDb.FetchStaysIff` | crates/db/src/db.rs:188-193 | inside the reported time range the whole answer holds at a time exactly if no access up to then touches an address the fetch left unset; so always when complete |
| `MemoryDb.FetchGoesStale` | crates/db/src/db.rs:188-193 | a concrete trace of two accesses and a fetch that is not complete, whose reported range contains a time with other content |
| `MemoryDb.StepCount` | crates/db/src/db.rs:180-187 | copying a leaf that overlaps none of those copied before fills slots that were all unset, so the running count is the number of filled slots |
| `Nearby.PrevMemWrite` | crates/db/src/memory.rs:208-218 | the latest time strictly before the given one at which an access that was not dropped touched a matching address, or none |
| `Nearby.NextMemWrite` | crates/db/src/memory.rs:220-230 | the earliest such time strictly after |
| `Nearby.PrevOverZones` | crates/db/src/memory.rs:257-271 | for any kind of leaf: the latest matching start before the time, over all zones, skipping zones whose box cannot match |
| `Nearby.NextOverZones` | crates/db/src/memory.rs:273-284 | the earliest matching start after the time |
| `Nearby.TouchedIsStart` | crates/db/src/memory.rs:296-352 | an access touched a matching address at a time exactly if a leaf with matching addresses starts then, however the access was fragmented |
| `Registers.RegisterPass.PushRegister` | crates/index/src/pass.rs:87-120 | the per-register interval automaton: the writes so far are tiled, the last of several writes at one time wins |
| `Registers.RegisterPass.Finish` | crates/index/src/pass.rs:113-123 | emitted leaves tile the time from the first write to the last event of the trace, without gap or overlap, each with the value of the last write |
| `Registers.RegValueAt` | crates/db/src/register.rs:31-38 | the value last written at or before the time; nothing before the first write or after the end of the trace |
| `Registers.PrevTimeWith` | crates/db/src/register.rs:41-44 | the latest time before the given one whose last write matches |
| `Registers.NextTimeWith` | crates/db/src/register.rs:47-50 | the earliest such time after |
| `Registers.FirstTimeWith` | crates/db/src/register.rs:53-56 | the earliest such time of all |
| `Registers.LastTimeWith` | crates/db/src/register.rs:59-62 | the latest such time of all |
| `Registers.NearestOverTime` | crates/db/src/register.rs:65-95 | the start, nearest to the target, of a leaf in the time range whose value matches |
| `RegisterIndex.NormalizeRegisters` | crates/index/src/pass.rs:80-123 | for every trace, each register's leaves tile its writes up to the end of the trace |
| `RegisterIndex.ScoutRegister` | crates/index/src/pass/scout.rs:71-79 | the number of the leaves of a register and the least box around them |
| `RegisterIndex.RegisterCountsAddUp` | crates/index/src/pass/hilbert_partition.rs:112-122 | for every register, the partition sizes add up to the scouted leaf count |
| `RegisterIndex.FillRegisters` | crates/index/src/pass/fill.rs:105-128 | each register's tree indexes exactly its writes, in key order under the prefix law |
| `RegisterIndex.WritesInOrder` | crates/index/src/pass.rs:50-52 | the writes to a register come in time order |
| `Index.SameRouting` | crates/index/src/pass/fill.rs:54-63 | leaves with the same rectangles are routed to the same zone in the same order in the second and third pass |
| `Index.LeafCountIs` | crates/index/src/pass/fill.rs:164-167 | the scouted leaf count of a zone is the number of leaves the later passes route to it |
| `Index.CountsAddUp` | crates/index/src/pass/hilbert_partition.rs:112-122 | for every zone, the partition sizes counted by the second pass add up to the leaf count of the first |
| `Index.BuildZone` | crates/index/src/lib.rs:107-134 | filling and building one zone gives a built tree over exactly the leaves routed to it, in key order under the prefix law |
| `Index.FillMemory` | crates/index/src/pass/fill.rs:65-138 | the database filled by the third pass describes the accesses exactly: all leaves readable, disjoint, exact and complete, every tree built and in key order under the prefix law; the data in use fits the room scouted |
| `Index.LeavesPermute` | crates/index/src/pass/fill.rs:79-104 | over all zones the trees hold every leaf of the trace, each exactly once |
| `Index.PackHolds` | crates/index/src/pass/fill.rs:82-92 | a packed leaf reads back, over its whole rectangle, as the last byte accessed |
| `Index.ZonesApart` | crates/index/src/pass/scout.rs:186-209 | leaves of different zones are never adjacent in the address space |
| `Trace.AccessesInOrder` | crates/index/src/pass.rs:50-69 | the accesses of a well-formed trace come in time order |
| `Trace.ReadsAre` | crates/index/src/pass.rs:71-78 | there is a read leaf for an address and time exactly if an event read the address then |
| `Trace.ReadsInOrder` | crates/index/src/pass.rs:71-78 | each event that reads, and no other, has one read leaf, in trace order, over its bytes and at its time |
| `History.AccessesTraced` | crates/index/src/pass.rs:55-69 | on the events of the trace: the byte the sweep calls last is that of the last memory event of any mode to reach the address, or none; an address counts as touched exactly by events that write it, or read it together with some byte that differs from what memory held; the end is the last memory event |
| `History.RegistersTraced` | crates/index/src/pass.rs:80-108 | on the events of the trace: the value of a register at a time is that of the last register event with its number by then, or none; its write times are the times of those events; the registers set are numbered from zero; the clock ends with the last event |
| `IndexFile.ScoutPass` | crates/index/src/pass/scout.rs:26-116 | the first pass over the whole stream of events: zones of writes and of reads, register leaves and boxes, room for payloads |
| `IndexFile.PartitionPass` | crates/index/src/pass/hilbert_partition.rs:23-76 | the second pass counts all partitions of all trees; for every tree the counts add up to what the first pass scouted |
| `IndexFile.AllAddUp` | crates/index/src/layout.rs:255-265 | what the second pass counts for every tree adds up to what the first pass scouted |
| `IndexFile.CutUp` | crates/index/src/layout.rs:153-244 | for the layout of any trace and the counts of its second pass, cutting the storage succeeds and every view is the section of the layout it is named after |
| `IndexFile.FillReads` | crates/index/src/pass/fill.rs:79-138 | the read trees hold exactly the reads of the trace and can be searched |
| `IndexFile.PrevMemRead` | crates/db/src/memory.rs:232-242 | the latest time strictly before the given one at which the trace reads a matching address, or none |
| `IndexFile.NextMemRead` | crates/db/src/memory.rs:244-254 | the earliest such time strictly after |
| `IndexFile.BuildIndex` | crates/index/src/lib.rs:24-105 | for every trace: memory, reads and registers are indexed exactly, as the events themselves tell them; the file is laid out and cut up without fail, the sections have room for exactly the levels, nodes and leaves of each tree, and cutting off the unused data cuts into nothing else |
| `Pipeline.IndexAndFetch` | crates/db/src/db.rs:141-194 | indexing any trace and fetching answers with the bytes of the last memory events to reach the addresses, over exactly the times at which no filled byte is touched by the events of the trace |
| `Pipeline.IndexAndStep` | crates/db/src/memory.rs:208-230 | indexing and stepping to the nearest time before and after at which an event of the trace writes a matching address, or reads it and finds something new |
| `Pipeline.IndexAndStepReads` | crates/db/src/memory.rs:232-254 | indexing and stepping to the nearest read before and after |
| `Pipeline.IndexAndValueAt` | crates/db/src/register.rs:31-38 | indexing and asking for a register: the value of the last event of the trace to set it by the time, nothing after the end of the trace |
| `Pipeline.IndexAndRegisterTimes` | crates/db/src/register.rs:41-62 | indexing and stepping to the nearest times before and after, and the first and last, at which the trace sets the register and the value set last matches |
| `Pipeline.SortedAlongCurve` | crates/index/src/lib.rs:127-130 | with keys along a curve that satisfies the prefix law, all leaves of the built index, of memory and of registers, are sorted |
| `Pipeline.IndexAndSearch` | crates/db/src/search.rs:130-189 | indexing and searching: nothing if the empty word matches; else every report is a shortest match at each of its times, none after the last access; every match end has a report; a start has one exactly under the condition of StartsAreExact |
| `Automata.Chain` | crates/regex/src/hir_to_nfa.rs:91-97 | gluing two automata with disjoint states by one link reads the concatenation |
| `Automata.Loop` | crates/regex/src/hir_to_nfa.rs:107-111 | linking the end back to the start reads one or more rounds |
| `Thompson.StarFragment` | crates/regex/src/hir_to_nfa.rs:106-112 | the fragment for an unbounded repetition reads at least the minimum number of copies |
| `Thompson.ClassFragment` | crates/regex/src/hir_to_nfa.rs:83-89 | parallel links read exactly one byte of the class |
| `Utf8.EncodeDecodes` | crates/regex/src/hir_to_nfa.rs:42-47 | in front of anything, the encoding of a character decodes to that character: encodings differ and none is a prefix of another |
| `Utf8.ShortestForm` | crates/regex/src/hir_to_nfa.rs:42-47 | no word that decodes to the character is shorter than its encoding |
| `Utf8.AsciiStandsAlone` | crates/regex/src/hir_to_nfa.rs:42-47 | a byte below 0x80 occurs only as the whole encoding of the character with that number |
| `Utf8.Utf8Exact` | crates/regex/src/hir_to_nfa.rs:42-47 | the encodings are exactly the words of the grammar in section 4 of RFC 3629 |
| `Utf8.EncodeKeepsOrder` | crates/regex/src/hir_to_nfa.rs:42-47 | greater characters have lexicographically greater encodings, which with the grammar leaves one encoding only |
| `Thompson.NfaBuilder.AddWord` | crates/regex/src/hir_to_nfa.rs:57-80 | adding a word along the states of the word before, as far as the bytes agree, adds exactly that word to what the tree reads |
| `Thompson.NfaBuilder.CompileUnicodeClass` | crates/regex/src/hir_to_nfa.rs:40-82 | the tree with shared prefixes reads exactly the encodings of the characters in the class, surrogates skipped; which words these are is `Languages.CharacterWords` |
| `Thompson.NfaBuilder.Compile` | crates/regex/src/hir_to_nfa.rs:20-139 | for every expression without look-around: fresh states, only links among them are added, and start to end reads exactly the language |
| `Thompson.NfaBuilder.CompileRepetition` | crates/regex/src/hir_to_nfa.rs:91-113 | bounded and unbounded repetition read exactly the allowed numbers of copies |
| `Thompson.HirToNfa` | crates/regex/src/hir_to_nfa.rs:6-13 | the automaton accepts exactly the language of the expression |
| `Languages.ConcatWords` | crates/regex/src/hir_to_nfa.rs:120-128 | a concatenation stands for the words that can be cut into one word of each part, in the order of the parts |
| `Languages.RepetitionWords` | crates/regex/src/hir_to_nfa.rs:91-113 | a repetition stands for the words that can be cut into an allowed number of words of its expression |
| `Languages.AlternationWords` | crates/regex/src/hir_to_nfa.rs:129-135 | an alternation stands for the words of its parts |
| `Languages.LeafWords` | crates/regex/src/hir_to_nfa.rs:27-38 | the empty expression and a literal stand for one word, a byte class for single bytes in one of its ranges, ends included |
| `Languages.CharacterWords` | crates/regex/src/hir_to_nfa.rs:40-82 | a character class stands for the words of UTF-8 that decode to a character in one of its ranges |
| `Determine.NormalizeMultiState` | crates/regex/src/determine.rs:99-121 | the worklist ends with exactly the epsilon closure |
| `Determine.AfterStep` | crates/regex/src/determine.rs:57-76 | the states after one more symbol are the closure of one move |
| `Determine.DetermineNfa` | crates/regex/src/determine.rs:23-97 | terminates; the result is the subset automaton: states name distinct reached multi-states, links and acceptance are theirs, all of them explored |
| `Determine.Expand` | crates/regex/src/determine.rs:52-92 | after expanding a multi-state all its links are there, and exactly the newly named targets are queued |
| `Minimize.SameLanguage` | crates/regex/src/determine.rs:23-97 | determinizing keeps the language |
| `Minimize.SubsetDeterministic` | crates/regex/src/determine.rs:23-97 | the result has at most one link per state and symbol |
| `Brzozowski.Invert` | crates/regex/src/automata.rs:94-99 | swaps initial and accepting states and turns every link around, in place |
| `Brzozowski.InvertedReads` | crates/regex/src/automata.rs:94-99 | an inverted automaton accepts exactly the reversed words |
| `Brzozowski.ReverseIsMinimal` | crates/regex/src/determine.rs:12-21 | determinizing the reverse of a deterministic automaton with all states reachable gives a minimal one |
| `Brzozowski.DetermineAndMinimizeNfa` | crates/regex/src/determine.rs:12-21 | same language; deterministic, every state reachable and live (but for the start of an empty language), any two distinct states with different residual languages |
| `Brzozowski.NoneSmaller` | crates/regex/src/determine.rs:11-21 | no deterministic automaton of the same language has fewer useful states |
| `Brzozowski.CompileHir` | crates/db/src/search.rs:130-137 | from an expression to a minimal deterministic automaton of exactly its language |
| `Execute.ExecuteDfa` | crates/regex/src/execute.rs:4-26 | the length of the shortest accepted prefix, or none if no prefix is accepted |
| `Execute.BuildTable` | crates/db/src/search.rs:154-158 | the transition table is the link relation |
| `Execute.StepsIs` | crates/db/src/search.rs:406-407 | stepping through the table is reaching over the links |
| `Execute.TipIsShortest` | crates/db/src/search.rs:395-415 | the machine stops at a tip exactly on words accepted with no accepted non-empty proper prefix |
| `Execute.GoConcat` | crates/db/src/search.rs:395-415 | running over two pieces one after the other is running over the whole |
| `Futures.SameStateIsSameFuture` | crates/regex/src/determine.rs:12-21 | two runs of the minimal automaton stand in the same state exactly if the same words complete both to a match |
| `Futures.StandsOpen` | crates/db/src/search.rs:395-415 | wherever a run stands without having stopped, a match can still follow |
| `SearchLeaf.ExecuteOnBytes` | crates/db/src/search.rs:395-415 | the first acceptance, or the state at the end of the bytes, or stuck |
| `SearchLeaf.NonSpecialStates` | crates/db/src/search.rs:147 | every linked state but the initial and accepting ones, each once |
| `SearchLeaf.PartialSearch` | crates/db/src/search.rs:321-392 | from one leaf: every match inside it and, per state, the first start that reaches its end; from every ordinary state at its first byte, the match or the state at its end |
| `SearchLeaf.TryStart` | crates/db/src/search.rs:337-368 | one start position adds at most one stretch, none if its end state has been reached from an earlier start |
| `SearchLeaf.KeptIff` | crates/db/src/search.rs:353-358 | exactly which starts are kept: those that match inside the leaf, and those that reach its end in a state no earlier start reaches it in |
| `SearchLeaf.NotEveryStartKept` | crates/db/src/search.rs:353-358 | a concrete leaf and machine for which the start of a match is not kept in the leaf |
| `SearchChain.RankIsOrder` | crates/db/src/search.rs:108-128 | the key order is by state, start address, then start time |
| `SearchChain.SortChains` | crates/db/src/search.rs:239 | the same chains, strictly ascending, because all keys differ |
| `SearchChain.FindChains` | crates/db/src/search.rs:272-299 | the two binary searches delimit exactly the chains with the wanted state and start address |
| `SearchChain.Connect` | crates/db/src/search.rs:66-75 | connects exactly if the time ranges meet, to their common times |
| `SearchChain.Continue` | crates/db/src/search.rs:270-302 | the continuations are those of all chains that start where the stretch ended, in its state, at a common time |
| `SearchChain.TaskStep` | crates/db/src/search.rs:252-318 | one step of one task reports or forks, and changes the total of what all live tasks will report by exactly what it reported |
| `SearchChain.RunTasks` | crates/db/src/search.rs:241-250 | terminates; under every interleaving of task steps the same results are reported, each equally often |
| `SearchZone.Gather` | crates/db/src/search.rs:199-237 | what all leaves contribute: chain keys are unique and starts with one address have disjoint times, because leaves are disjoint |
| `SearchZone.KeysOfLeaves` | crates/db/src/search.rs:56-64 | chains of different leaves never have the same key |
| `SearchMatch.NextLeafStarts` | crates/db/src/search.rs:270-271 | at a fixed time the leaf that holds the next address starts exactly there |
| `SearchMatch.TallyEnds` | crates/db/src/search.rs:252-318 | every report of a task is the end of a stretch whose memory, at each of its times, drives the machine there |
| `SearchMatch.TotalAtMostOne` | crates/db/src/search.rs:241-250 | for one start address and time at most one result is reported |
| `SearchMatch.FollowTask` | crates/db/src/search.rs:252-318 | a task with the rest of a match before it reports the match end, or the run passes the initial state and a shorter match ends there |
| `SearchMatch.MatchReported` | crates/db/src/search.rs:252-392 | wherever a match ends some report ends for that time, although duplicate starts are dropped and no chain is kept for the initial state |
| `SearchStarts.TaskIff` | crates/db/src/search.rs:252-318 | a task with the rest of a match before it reports its start exactly if its run never stands in the initial state where a leaf ends |
| `SearchStarts.ReportedSurvives` | crates/db/src/search.rs:252-392 | a start with a report either matches inside its leaf, or is the first byte to leave the leaf in its state and its run never stands in the initial state where a leaf ends |
| `SearchStarts.SurvivorReported` | crates/db/src/search.rs:252-392 | every such start has a report |
| `SearchStarts.RepeatIsLost` | crates/db/src/search.rs:353-358 | two concrete leaves and the machine of one or more a and a b: the second start has no report in any result of the search |
| `SearchStarts.ReturnIsLost` | crates/db/src/search.rs:147-147 | two concrete leaves and the machine of any number of a and a b: the first start has no report, as no chain is kept for the initial state |
| `SearchStarts.SearchInZone` | crates/db/src/search.rs:191-250 | for one zone: every result sound, results with one start address for disjoint times, every match end found, and exactly the surviving starts found |
| `SearchMemory.WordInZone` | crates/db/src/search.rs:174-188 | a word in memory lies in one zone |
| `ReportedStarts.StaysIsSurvives` | crates/db/src/search.rs:252-392 | the condition on states is a condition on the language: the match fits into the leaf, or no earlier byte leaves the leaf with the same future and nowhere at the end of a leaf is the future that of the start |
| `ReportedStarts.ExactMeans` | crates/db/src/search.rs:174-188 | exact in every zone is exact in the whole database |
| `Search.SearchDfa` | crates/db/src/search.rs:139-189 | the whole promise for the minimal automaton of a language: sound, apart, complete for match ends, exact for starts, nothing after the last access |
| `Search.SearchHir` | crates/db/src/search.rs:130-189 | nothing if the expression matches the empty word; otherwise the whole promise for its language |
| `Search.SearchBytes` | crates/db/src/search.rs:29-32 | the same for a byte string |

## Left out

- Trace parsing, time stamps, register names and the slide of the address space: the model starts from a time-ordered list of memory and register events.
- Memory mapping, casts of byte slices to records, metadata and the errors on opening a file. The layout arithmetic is modelled, with unbounded offsets.
- The space-filling curve itself: partition and sort keys are any functions, and sortedness assumes that the partition number is a prefix of the key. No query depends on leaf order.
- Rayon and channels: search tasks take steps in any order, partitions are written one at a time.
- `Passes.Normalize`: takes the memory events on their own, `RegisterIndex.NormalizeRegisters` the register events and `Trace.Reads` the reads, where the source handles each event as it comes; each sees the same events in the same order.
- Read leaves have the type of write leaves, with no payload and a single time.
- Callbacks: the sweep and the register automaton return the leaves they emit instead of calling back.
- Filling of several trees at once: the model fills one tree after the other. The source sizes its read buffers by the number of write zones (`crates/index/src/pass/fill.rs:42-46`); this is not modelled.
- `Partition.RTreePartitions.PushLeaf`: does not keep the time range of a partition, which nothing reads.
- `Pipeline.IndexAndSearch`: does not cover traces that touch the largest address, as the code adds 1 to the last address of a leaf (`crates/db/src/search.rs:270`), which overflows there.
- `Search.SearchHir`: does not cover databases with a leaf that ends at the largest address, for the same reason.
- `SearchStarts.SearchInZone`: does not cover zones with such a leaf; `SearchZone.Gather`, which adds nothing, does.
- Machine limits of counters, sizes and automaton states: they are unbounded. Addresses and times are not, and the room for payloads must fit 64 bits.
- `Partition.FillTree.PushLeaf`: slots are kept per partition, not written into one byte array; `Views.PartsMakeLeaves` shows that their views make up the leaf section.
- `Payload.LittleEndianRoundTrip`: the byte order of the machine, which the source uses, is taken to be little-endian.
- `Determine.NormalizeMultiState`: a set of states stands for the sorted vector that the source uses as a map key, so that sorting and removing duplicates are not modelled.
- `Disjoint.DisjointPass.PushMemoryWrite`: a map and its sorted keys stand for the B-tree map.
- `Query.QueryIter.Next`: filters are pure functions, where the source allows closures with state.
- `Registers.RegValueAt`: register boxes share the type of memory boxes, with values in the place of addresses.
- `Nearest.NearestNeighbor`: the two visitors are one function each, and the heap is a sequence from which a greatest item is taken.
- `SearchChain.SortChains` and `Partition.SortByKeyIs`: insertion sorts stand for those of the standard library.
- Look-around, which makes the compiler panic, and the parser of regular expressions.
- The tracer, the user interface, the Python bindings, the command line and statistics.
