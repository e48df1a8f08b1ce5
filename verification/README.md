# pergrep, modelled and proved

pergrep searches a corpus through a lossy index. The index may only say "maybe": a
file, chunk, block or region it rules out must hold no match, and what is left is
verified exactly. The promise is that the answer is the one a naive scan of every
byte would give. This project states that promise for the three connected parts of
the program and proves it with Dafny 4.11 (`dafny verify dfyconfig.toml`).

**The pattern engines.** `RegexAst` defines pattern trees and one relation, "this tree
matches these bytes in this context". `NfaCode`, `NfaCompiler` and `NfaMeaning` are the
Thompson compiler with its patch lists, the code it leaves, and the proof that this code
accepts exactly the relation; `NfaProgram` puts a whole program together. `NfaExpand`
and `NfaThreads` are the ordered expansion of instructions under generation stamps, by
explicit stack or by the precomputed table, and the proof that both give the same
ordered list. `NfaSearch` is the simulation, as a loop over arrays and as a function on
values; `NfaPriority` and `NfaOneStart` prove that on one start it picks the end ordered
backtracking picks; `NfaWindow` proves it sound and complete on windows of many starts,
prefix jumps included; `NfaWide` shows exactly which windows report the leftmost match,
and `NfaFixed` a family of patterns for which every window does. `EvalVm` is the second
engine: what it returns is described exactly, for every tree, and with it where it
equals the first. `Filter`, `QueryIr` and `Width` are the static analyses, each proved a
necessary condition of the same relation. `MatchList`, `RegexSearch` and `FixedList`
list the matches of a record, exactly so for patterns of fixed width.

**The index and the searches over it.** `IndexModel` and `IndexBuild` are the chunk
layout, the bitmap per size class, the positional filter per block and the planner's
statistics, built in place and proved exact. `IndexQuery`, `IndexPlan` and `Candidates`
turn a literal into the chunks and blocks that may hold it, with no false negatives for
any choice of rows. `FixedScan` and `FixedSearch` prove that the whole-file, chunk and
positional operators return the same list as the naive scan, cut at the result bound;
`EmptyLiteral` settles what they do for the empty literal, and `FixedDispatch` puts them
together. `Planner` proves that the selectivity estimate bounds the real number of
candidates. `RegexFiles` and `RegexFind` prove that a pruned regex search returns what
the same search over every file returns, that a listed hit is a match in its own record,
and that a file is listed exactly when a record of it has a match; `NfaLiteral`,
`LiteralScan` and `LiteralRewrite` settle when a pure-literal regex may be answered by a
fixed search.

**Regions and snapshots.** `Regions`, `RegionPlan` and `RegionSearch` are the bounded
regions planned around literals, the join of interval lists, and the proof that every
match is covered; `RegionLists` and `RegionOverlap` say when they list what the whole
record would. `Codec`, `SnapshotFormat`, `SnapshotRead`, `SnapshotChecks`,
`SnapshotFits`, `Snapshot` and `SnapshotRoundTrip` are the version 7 snapshot: every
number of a built index fits its field, a saved index loads again exactly within the
loader's limits and comes back field for field, a streaming validator accepts exactly
the well-formed structures, whatever it accepts can be searched without reading a bit
that is not there, and an index that is saved and opened again is the index that was
built.

Conventions. A text unit is a byte, so a rune is one byte. A machine word of a bitmap is
the set of its one bits. `hash4`, the checksum, the positional budget and the bytes of
source files are parameters: the proofs use only that they are functions. The source's
exceptions are `Err` results, its resource caps are the source's constants, and
arithmetic that saturates or wraps in the source does so here. Loops and objects that
change state in the source are methods and classes; each is proved against a function
or predicate about which the lemmas speak.

Seven properties one might expect of the code do not hold of it as written. For each,
the code is modelled as it is and the exact condition is proved:

- *Leftmost choice.* Starts keep being seeded after a match is known
  (`src/regex.cpp:746`), and a later start may then replace an earlier match: `ab|` on
  "ac" reports the empty match at 1. A window is safe for every pattern exactly when it
  has at most one start (`NfaWide.LeftmostWindows`); a pattern whose form fixes how many
  units it takes, such as a pure literal, is safe in every window
  (`NfaFixed.FixedReportsLeftmost`).
- *Equal engines.* The virtual machine drops empty rounds of a repeat
  (`src/regex.cpp:826`) and with them the matches of mandatory nullable bodies. A
  mandatory repeat is exact over a record if and only if its body matches nothing empty
  there (`EvalVm.RepeatExactIff`). Rounds beyond the 10000th are dropped in silence
  (`EvalVm.CapLost`). What the machine returns is stated for every tree
  (`EvalVm.EvalPlays`).
- *Pure-literal rewriting.* The guard at `src/search.cpp:2171-2172` does not look at
  `crlf`. With it, records drop the carriage return before their line feed, so the
  literal "a" + CR is found by the fixed search and not by the record loop. The
  rewriting keeps every list if and only if the literal does not end in such a carriage
  return (`LiteralScan.RewriteExact`).
- *Filter simplification.* An Or without branches rejects every text and simplifies to
  True (`src/regex.cpp:1018`). The simplified filter accepts exactly what the filter
  accepts with each such Or read as True (`Filter.Simplified`); it never rejects more,
  and the filters of parsed patterns contain no such Or (`QueryIr.QueryFilterSolid`).
- *Snapshots of built indexes.* Building accepts a positional ratio that is not a number
  (`src/index.cpp:297`), and saving checks neither it nor the lengths of names and lists;
  loading refuses all of these (`src/index.cpp:749-755`). A saved index loads if and only
  if it is within the limits of the loader (`SnapshotRoundTrip.SaveThenLoad`).
- *One list by regions and by records.* The region loop does not carry the end of the last
  match from one region to the next (`src/search.cpp:2303`), so `a.b.` on "axbaxbx" lists
  two matches that overlap (`RegionOverlap.OverlapListed`). For patterns of fixed width
  both lists are the same if and only if the spans the regions list do not overlap
  (`RegionLists.RegionsAgree`).
- *The empty literal.* The operators of the fixed search disagree on it: a place between
  two chunks is listed twice when hits may overlap, and the positional operator visits only
  the first block of a chunk (`src/search.cpp:623`). Which of them list every place, and
  when, is `EmptyLiteral.EveryPlaceListed`.

## Model

| member | source | states |
|---|---|---|
| `RegexAst.MatchSpan` | src/regex.cpp:655-672 | a match never runs backwards and never leaves the record or the execution region |
| `RegexAst.ViewMatch` | src/internal.hpp:212-236 | invocations over one record that differ only in region and candidate window match a span alike when they can read the same bytes of it |
| `RegexAst.ClipMatch` | src/internal.hpp:231-236 | so clipping an invocation to a region changes no match that ends inside the region; assertions still see the record |
| `RegexAst.TimesSplit` | src/regex.cpp:447-471 | an iterated match divides after any number of rounds, the fact behind separating mandatory from optional copies |
| `NfaCompiler.Compiler.Compile` | src/regex.cpp:429-431 | compilation fails exactly when the program would exceed the instruction cap, and otherwise leaves the finished code of the tree, patched throughout |
| `NfaCompiler.Compiler.Build` | src/regex.cpp:472-501 | every construct emits a fragment whose open slots, filled with any continuation, give the code of the construct; earlier code is untouched |
| `NfaCompiler.Compiler.BuildLiteral` | src/regex.cpp:442-446 | one consuming instruction a unit behind an unused jump, or a jump alone for the empty literal |
| `NfaCompiler.Compiler.SpellUnits` | src/regex.cpp:443-445 | the units are chained one to the next and only the last slot stays open |
| `NfaCompiler.Compiler.BuildGroup` | src/regex.cpp:487-490 | the body between a start and an end marker, entered at the start marker |
| `NfaCompiler.Compiler.BuildConcat` | src/regex.cpp:491 | children follow each other, each patched to the entry of the next |
| `NfaCompiler.Compiler.BuildAlt` | src/regex.cpp:492-496 | a left-deep chain of splits that prefers earlier branches |
| `NfaCompiler.Compiler.BuildRepeat` | src/regex.cpp:447-471 | mandatory copies, then nothing, a loop, or a chain of optional copies |
| `NfaCompiler.Compiler.BuildCopies` | src/regex.cpp:448-449 | a leading jump and the mandatory copies |
| `NfaCompiler.Compiler.BuildStar` | src/regex.cpp:451-455 | the loop body and the copies before it lead to the branch; greedy prefers the body, lazy the exit |
| `NfaCompiler.Compiler.BuildOptional` | src/regex.cpp:456-470 | every optional copy can be skipped to the common exit, and nothing else is open |
| `NfaCompiler.Compiler.AddOptional` | src/regex.cpp:457-468 | one more optional copy and branch keep the chain open in exactly the collected slots |
| `NfaCompiler.Compiler.Patch` | src/regex.cpp:436 | every named slot, and no other, gets the target |
| `NfaCompiler.Compiler.Emit` | src/regex.cpp:434 | the instruction is appended, or the cap is reported and nothing changes |
| `NfaCompiler.CodeFrame` | src/regex.cpp:435-436 | code patched outside a section leaves the code of that section as it was |
| `NfaCode.CodeClosed` | src/regex.cpp:426-502 | the code of a tree branches only within itself or to its continuation |
| `NfaProgram.BuildProgram` | src/regex.cpp:1174-1184 | compiling, closing and reading off prefixes gives a program to which all results about searching apply, if and only if it is within the instruction cap |
| `NfaCode.RunThrough` | src/regex.cpp:426-502 | a run through closed code leaves it at the continuation, so it can be cut there |
| `NfaMeaning.CodeSound` | src/regex.cpp:426-502 | whatever the code of a tree lets through, the tree matches |
| `NfaMeaning.CodeComplete` | src/regex.cpp:426-502 | whatever the tree matches, its code lets through |
| `NfaMeaning.LoopSound` | src/regex.cpp:451-455 | a run round an unbounded loop is some number of matches of the body, nullable bodies included |
| `NfaMeaning.OptionalSound` | src/regex.cpp:456-470 | a run through an optional chain is between min and max matches of the body |
| `NfaMeaning.BranchesComplete` | src/regex.cpp:456-470 | any allowed number of matches has a run through the optional chain, skipping the rest |
| `NfaMeaning.CompiledMeaning` | src/regex.cpp:426-502 | the compiled program has an accepting run over [i, j) if and only if the tree matches (i, j) |
| `NfaExpand.ExpandAppend` | src/regex.cpp:623-642 | the explicit stack is ordered: its upper part is expanded before its lower part, under shared marks |
| `NfaExpand.ExpandLeaves` | src/regex.cpp:623-642 | expansion lists exactly the newly reached waiting instructions, each once, also round epsilon cycles |
| `NfaExpand.ExpandCloses` | src/regex.cpp:623-642 | expansion marks everything reachable without consuming, whatever was marked before |
| `NfaExpand.ExpandRelative` | src/regex.cpp:607-622 | marks left by an earlier seed only delete entries from a later seed's list; they never reorder or add |
| `NfaThreads.PlainExpand` | src/regex.cpp:559-571 | without assertions and groups, expansion is the same at every position of every text |
| `NfaThreads.BuildClosures` | src/regex.cpp:555-606 | the table is built for exactly the small, group-free, assertion-free programs within the entry cap, and holds every row of the expansion |
| `NfaThreads.ListRow` | src/regex.cpp:577-603 | one row is the leaves of one source in preference order, and the cap is detected exactly |
| `NfaThreads.TableRow` | src/regex.cpp:608-622 | walking a row past marked entries gives the list, and the marks on leaves, that the stack would give |
| `NfaThreads.AddThread` | src/regex.cpp:607-643 | with or without the table, adding a seed appends the same ordered threads and leaves the same marks |
| `NfaThreads.AddRow` | src/regex.cpp:608-622 | the table path meets the specification of the stack path |
| `NfaThreads.AddByStack` | src/regex.cpp:623-642 | the explicit stack computes the ordered expansion under generation stamps |
| `NfaSearch.Step` | src/regex.cpp:764-772 | the next list is every consuming thread moved on, in order, deduplicated by stamps |
| `NfaSearch.Seed` | src/regex.cpp:746-752 | a start inside the window joins the list behind every thread already there |
| `NfaSearch.Renew` | src/regex.cpp:773-780 | generations alternate, and when the 32-bit counter wraps all stamps are cleared so none is mistaken for a current one |
| `NfaSearch.CutAndConsume` | src/regex.cpp:753-782 | the first accepting thread cuts every lower priority; the loop ends exactly when nothing can improve the result |
| `NfaSearch.TakeTurn` | src/regex.cpp:727-783 | one turn of the loop is one turn of the simulation on values |
| `NfaSearch.Search` | src/regex.cpp:686-787 | the stamped array loop computes the simulation, and an invalid invocation reports nothing |
| `NfaSearch.SteppedComplete` | src/regex.cpp:764-772 | marks and list agree after a step: every marked waiting instruction has its thread |
| `NfaPriority.DfsIsExpand` | src/regex.cpp:607-643 | backtracking from an instruction is expanding it and backtracking from the listed leaves in order |
| `NfaPriority.DfsByLevel` | src/regex.cpp:764-772 | backtracking leaf after leaf, each to its end, finds what level-by-level simulation finds |
| `NfaPriority.ListByLevel` | src/regex.cpp:753-772 | cutting a list at its first accepting thread keeps exactly the ends backtracking would prefer |
| `NfaPriority.PikeIsDfs` | src/regex.cpp:719-786 | with no start left to seed, the simulation reports the end ordered backtracking finds first |
| `NfaOneStart.SearchFirst` | src/regex.cpp:719-786 | on a one-start window the simulation reports the end of the first accepting path of the depth-first search that tries x before y and visits no (pc, pos) twice |
| `NfaOneStart.DfsSound` | src/regex.cpp:719-786 | an end found by backtracking belongs to an accepting run |
| `NfaOneStart.BacktrackExact` | src/regex.cpp:719-786 | backtracking with memory finds an end if and only if the tree matches at the start, and that end is a match |
| `NfaWindow.HeadZoned` | src/regex.cpp:1092-1120 | the instructions that wait for a prefix are never re-entered after consuming, for every tree that has prefixes |
| `NfaWindow.FreshZone` | src/regex.cpp:729-745 | stamps left over when the position jumps to a prefix cannot hide a start there |
| `NfaWindow.JumpKeeps` | src/regex.cpp:729-745 | the jump to the next prefix skips no start that has a match |
| `NfaWindow.ExpandSound` | src/regex.cpp:623-642 | every listed leaf was reachable from the seeds |
| `NfaWindow.LeafOnTheWay` | src/regex.cpp:623-642 | every accepting run from a closed set passes a listed leaf of the set |
| `NfaWindow.PikeSound` | src/regex.cpp:719-786 | every turn keeps: threads and result stem from starts of the window and can be completed to accepting runs |
| `NfaWindow.PikeComplete` | src/regex.cpp:719-786 | every turn keeps the hope of a match alive until one is reported |
| `NfaWindow.SearchSound` | src/regex.cpp:719-786 | a reported span starts in the candidate window and is a match of the tree |
| `NfaWindow.SearchComplete` | src/regex.cpp:719-786 | a match from any start the region lets the search reach makes it report something |
| `NfaWindow.SearchExact` | src/regex.cpp:719-786 | the search succeeds if and only if some start of the window has a match |
| `NfaWide.OneStartLeftmost` | src/regex.cpp:746-752 | a window of at most one start reports the leftmost match |
| `NfaWide.LeftmostLost` | src/regex.cpp:746-752 | in any wider window whose first byte is an `a` without `b` behind it, `ab|` matches at the first start and is reported at the second, because starts are seeded after a match is known |
| `NfaWide.LeftmostWindows` | src/regex.cpp:746-752 | leftmost choice holds for every pattern and text of a window if and only if the window has at most one start |
| `NfaFixed.RankStep` | src/regex.cpp:426-502 | when the form of a pattern fixes how many units a match takes, every instruction of its code leads where exactly the units it does not take are still needed |
| `NfaFixed.ExpandUnits` | src/regex.cpp:623-642 | so expansion keeps the number of units still to read |
| `NfaFixed.SteppedInStep` | src/regex.cpp:764-772 | threads stay in the order of their starts, each as far along as its start lies back |
| `NfaFixed.FixedLeftmost` | src/regex.cpp:719-786 | the search of a pattern of fixed width reports its leftmost match, in windows of any width |
| `NfaFixed.FixedReportsLeftmost` | src/regex.cpp:719-786 | so no window, however wide, makes such a pattern lose its leftmost match |
| `NfaLiteral.LiteralLeftmost` | src/regex.cpp:719-786 | the search of a pure literal reports its leftmost occurrence, in windows of any width |
| `NfaLiteral.LiteralAbsent` | src/regex.cpp:719-786 | without an occurrence in the window nothing is reported |
| `MatchList.ListIsListing` | src/regex.cpp:1204-1210 | whatever does the searching, listed spans are matches in ascending order, and do not overlap unless asked to |
| `RegexSearch.FindAll` | src/regex.cpp:1204-1210 | the loop lists the matches of repeated searches, cut at the bound |
| `RegexSearch.SearchesMatch` | src/regex.cpp:1204-1210 | every repeated search reports a match that starts in what is left of the window |
| `RegexSearch.FindAllSound` | src/regex.cpp:1204-1210 | everything listed is a match of the tree, ascending and progressing past empty matches |
| `RegexSearch.FindAllComplete` | src/regex.cpp:1204-1210 | for every match from a reachable start the list holds a span that leads past that start: it never ends before a match |
| `MatchList.GreedyAlone` | src/regex.cpp:1204-1210 | among spans of one width, the list from left to right is the only one that neither overlaps nor passes a start over |
| `FixedList.FindAllGreedy` | src/regex.cpp:1204-1210 | for a pattern of fixed width the matches listed are exactly the greedy choice from left to right |
| `FixedList.FindAllOverlapping` | src/regex.cpp:1204-1210 | and with overlapping exactly all matches that start in the window |
| `RegexSearch.SameMatches` | src/internal.hpp:212-217 | the candidate window restricts where matches start, never what matches |
| `EvalVm.EvalPlays` | src/regex.cpp:804-829 | where the engine returns at all, for every tree, the ends are exactly those of the matches whose repeats take at most 10000 rounds, each of which consumes something |
| `EvalVm.PlaysMatch` | src/regex.cpp:804-829 | such a match is a match of the tree: the engine never returns a wrong end |
| `EvalVm.ConcatPlays` | src/regex.cpp:820 | ends of a concatenation are exactly those reached through ends of each child |
| `EvalVm.RoundsExact` | src/regex.cpp:826 | the k-th level of a repeat holds exactly the ends of k advancing rounds, up to the iteration cap |
| `EvalVm.SelectPlays` | src/regex.cpp:826 | a repeat returns exactly the ends of an allowed number of advancing rounds, up to the cap |
| `EvalVm.MatchPlays` | src/regex.cpp:826 | advancing rounds suffice for every match when mandatory bodies are not nullable and the cap cannot be reached |
| `EvalVm.CapLost` | src/regex.cpp:826 | the cap cuts silently: a run of more bytes than the cap is a match of the starred byte, and its end is not returned |
| `EvalVm.EvalExact` | src/regex.cpp:804-829 | when mandatory repeat bodies are not nullable and the cap cannot be reached, the ends returned are exactly the ends the tree matches |
| `EvalVm.EmptyLost` | src/regex.cpp:826 | a mandatory repeat whose body matches empty at a position matches there too, and the virtual machine loses that end |
| `EvalVm.RepeatExactIff` | src/regex.cpp:826 | over a record, a mandatory repeat returns exactly its matches if and only if its body never matches empty in the record |
| `EvalVm.EnginesAgree` | src/regex.cpp:804-829 | the ends eval returns are exactly the ends the compiled program accepts |
| `Width.SolidIsEmptyFree` | src/regex.cpp:863 | the width analysis can certify the condition under which the engines agree |
| `Filter.FilterEqual` | src/regex.cpp:873-900 | equality that marks used terms decides equality up to the order of terms at every depth |
| `Filter.TermsEqual` | src/regex.cpp:886-899 | greedy pairing with the first unused equal term succeeds if and only if the terms are equal as multisets |
| `Filter.MissingTerm` | src/regex.cpp:887-898 | a term left without partner by the greedy pairing has none under any pairing |
| `Filter.FilterSubsumes` | src/regex.cpp:910-921 | the test decides equality, literal containment, or membership in a conjunction |
| `Filter.SubsumesMeaning` | src/regex.cpp:910-921 | where the absorbed filter holds, the absorbing one holds |
| `Filter.CanonMeaning` | src/regex.cpp:936-952 | a filter's meaning does not depend on the order of its terms |
| `Filter.Unique` | src/regex.cpp:971-978 | duplicates go, and nothing else |
| `Filter.Absorb` | src/regex.cpp:1007-1017 | the in-place loop with its index adjustment terminates, leaves no term that another absorbs, and keeps the meaning |
| `Filter.AbsorbStep` | src/regex.cpp:1010-1013 | erasing an absorbed term, and stepping the outer index back when it lay before it, keeps all that was established |
| `Filter.Simplified` | src/regex.cpp:954-1021 | the result is in normal form and accepts exactly the texts the filter accepts when an Or without branches is read as True |
| `Filter.SimplifiedMeaning` | src/regex.cpp:954-1021 | simplifying never rejects more; it changes nothing on a text exactly where reading empty alternatives as True does not, and nowhere for trees without an empty Or |
| `Filter.EmptyOrWidened` | src/regex.cpp:1018 | an Or without branches admits nothing, and its simplification everything |
| `Filter.SimplifiedAnd` | src/regex.cpp:959-982 | flattening and deduplication keep a conjunction's meaning |
| `Filter.SimplifiedOr` | src/regex.cpp:984-1021 | flattening, deduplication and absorption keep a disjunction's meaning; a trivial child makes it trivial |
| `QueryIr.FilterNecessary` | src/regex.cpp:1023-1052 | the query filter holds of every text that contains a match |
| `QueryIr.QueryFilterSolid` | src/regex.cpp:1023-1052 | the query filter of a parsed pattern has no empty Or, so simplifying it keeps its meaning |
| `QueryIr.MandatoryNecessary` | src/regex.cpp:1057-1091 | every mandatory literal stands inside every match |
| `QueryIr.RunsNecessary` | src/regex.cpp:1070-1078 | literals joined across neighbouring children stand inside every match of the concatenation |
| `QueryIr.BranchMatches` | src/search.cpp:133-140 | a match of the pattern is a match of one of its top-level branches |
| `QueryIr.BranchNecessary` | src/regex.cpp:1121-1135 | every match holds all literals of some branch |
| `QueryIr.PrefixNecessary` | src/regex.cpp:1092-1120 | every match begins with one of the prefixes |
| `QueryIr.PureLiteralMeaning` | src/regex.cpp:1136-1155 | a pure literal matches exactly where its text stands |
| `Width.WidthSound` | src/regex.cpp:844-869 | every match is as wide as the finite byte and rune bounds say, and a node known not to be nullable matches nothing empty |
| `Width.WidthSoundTimes` | src/regex.cpp:863 | repeated matches are bounded by the multiplied bounds |
| `Width.OffsetsSound` | src/search.cpp:257-320 | every match realises every literal constraint of its summary, within saturating arithmetic |
| `Width.OffsetsSoundRepeat` | src/search.cpp:300-316 | a repeat's constraints, widened to the whole repeat, are realised by its first copy |
| `Width.ShiftRealised` | src/search.cpp:276-287 | prefix widths shift a constraint soundly even when the sums saturate |
| `Regions.MergeAllCovers` | src/search.cpp:370-378 | merging regions in order of their begin covers everything that was covered |
| `Regions.MergeAllWithin` | src/search.cpp:370-378 | and stays inside the record |
| `Regions.Merged` | src/search.cpp:370-378 | the in-place loop computes the merging |
| `Regions.RegionsAroundCover` | src/search.cpp:205-237 | every span of bounded width around an occurrence starts in a candidate interval of a region that holds all of it; regions are ordered and inside the record |
| `Regions.LiteralRegions` | src/search.cpp:205-237 | the scan with its merging loop computes these regions |
| `Regions.AllStartsExact` | src/search.cpp:328-346 | one constraint's intervals are ordered and hold exactly the starts it allows |
| `Regions.AllowedStarts` | src/search.cpp:328-346 | the scan computes them |
| `Regions.JoinFromExact` | src/search.cpp:349-356 | the two-pointer join of ordered, possibly overlapping interval lists holds exactly the starts in both |
| `Regions.JoinFromOrdered` | src/search.cpp:349-356 | and is ordered again, so it can be joined with the next list |
| `Regions.Join` | src/search.cpp:349-356 | the loop over two pointers computes the join |
| `Regions.JoinStep` | src/search.cpp:351-355 | advancing the pointer of the interval that ends first loses no common start |
| `Regions.JoinedExact` | src/search.cpp:327-359 | joined over all constraints, the intervals are ordered and hold exactly the starts that every constraint allows |
| `Regions.JoinedStarts` | src/search.cpp:327-359 | the loop with its early ends computes the join of all lists: stopping at an empty one loses nothing |
| `Regions.RegionsJoinedCover` | src/search.cpp:321-380 | every short enough span from a start that all constraints allow is covered |
| `RegionPlan.TakeConstraints` | src/search.cpp:2226-2243 | each required literal gets its own summary constraint, or the branch is not joined |
| `RegionPlan.OffsetsOrdered` | src/search.cpp:257-320 | constraint intervals and width bounds are never inverted |
| `RegionPlan.BranchDemands` | src/search.cpp:2217-2245 | a match of a branch meets the demands of every plan made for it |
| `RegionPlan.PlanIsUsable` | src/search.cpp:2208-2245 | every branch that has a literal gets a usable plan |
| `RegionPlan.PlanBranches` | src/search.cpp:2208-2245 | the loop over the branches computes the plan |
| `RegionPlan.PlanRegionsCover` | src/search.cpp:2277-2302 | sorting and merging over all branches lose no span that any branch asks for |
| `RegionPlan.RegionsCover` | src/search.cpp:171-203 | for every eligible pattern and every match in the record, some merged region has the start among its candidates and holds the whole match |
| `RegionSearch.RegionFinds` | src/search.cpp:2303-2314 | a match that a region covers is found by searching the region |
| `RegionSearch.RegionSound` | src/search.cpp:2303-2314 | what a region's search lists are matches of the unclipped record |
| `RegionSearch.ClippedIsMatch` | src/internal.hpp:231-236 | a match under clipping is a match without it |
| `RegionSearch.VerifyRegions` | src/search.cpp:2303-2323 | what the regions list one after the other, cut at the matches that remain |
| `RegionSearch.SearchByRegions` | src/search.cpp:2273-2325 | planning the regions of a record and searching them lists the spans of the regions in order, cut at the bound |
| `RegionSearch.RegionSpansSound` | src/search.cpp:2273-2325 | every span the regions of a record list is a match of the unclipped record |
| `RegionSearch.RegionSpansComplete` | src/search.cpp:2273-2325 | for every match of the record the regions list a span that leads past its start: the search never ends before a match |
| `RegionSearch.RegionSpansExact` | src/search.cpp:2273-2325 | the regions list something if and only if the record has a match |
| `Regions.MergeAllSeparated` | src/search.cpp:2292-2302 | merged candidate windows never touch |
| `Regions.RegionsJoinedTry` | src/search.cpp:321-380 | joined regions try only starts that every constraint allows |
| `RegionLists.RegionsAgree` | src/search.cpp:2303-2323 | for a pattern of fixed width, regions list what the search of the whole record lists if and only if no span they list overlaps an earlier one |
| `RegionLists.OverlappingAgree` | src/search.cpp:2303-2323 | so with overlapping both lists are the same |
| `RegionLists.RegionsAscend` | src/search.cpp:2303-2323 | for every pattern, what regions list with overlapping ascends |
| `RegionLists.RegionsDiffer` | src/search.cpp:2303-2323 | without it the lists differ when a match at the first place overlaps a later one and a start between them is not tried |
| `RegionOverlap.OverlapListed` | src/search.cpp:2303-2323 | which happens: `a.b.` on "axbaxbx" lists two spans that overlap when searched by regions |
| `IndexModel.OccurrenceRows` | src/internal.hpp:25-30 | text that holds a literal has every row the literal's four-byte grams hash to |
| `IndexModel.CoreOf` | src/index.cpp:305-317 | every byte of every file lies in the core of exactly one chunk |
| `IndexModel.ChunksAscend` | src/index.cpp:305-317 | chunks are ordered by file and position without overlap of cores |
| `IndexModel.ComputeLg` | src/index.cpp:22 | the loop computes the size class |
| `IndexModel.GidsExact` | src/index.cpp:330-335 | each group lists exactly the chunks of its class, in order |
| `IndexModel.Places` | src/index.cpp:341 | no two (row, word) places of a bitmap coincide |
| `IndexModel.TileInside` | src/index.cpp:354-361 | every chunk's positional range lies inside the table |
| `IndexModel.ChunkKeeps` | src/index.cpp:331-344 | the chunk whose core holds the start of an occurrence has every row of the literal |
| `IndexModel.BlockKeeps` | src/index.cpp:362-376 | so has the block that holds the start, for literals no longer than the padding |
| `IndexBuild.IndexData.LayChunks` | src/index.cpp:306-317 | cores partition every file, each exactly chunkBytes long unless its file ends first; an empty file gets one chunk, and each chunk reads on by the overlap |
| `IndexBuild.IndexData.RebuildStats` | src/index.cpp:217-286 | statistics are ready if and only if the corpus and its distinct grams are within their caps; then the frequencies and the lists of chunks and documents of every gram, and the bucket lists, are exact |
| `IndexBuild.IndexData.FillGroups` | src/index.cpp:320-344 | a bit of a group is set if and only if its chunk has the row |
| `IndexBuild.IndexData.FillPositional` | src/index.cpp:346-376 | ranges tile the table, and a bit is set if and only if its padded block has the row |
| `IndexBuild.IndexData.Materialize` | src/index.cpp:305-377 | all derived structures are exactly what the files determine, statistics ready exactly within the caps |
| `IndexBuild.FillColumn` | src/index.cpp:338-343 | one chunk's column gets exactly its rows; every other bit stands |
| `IndexBuild.FillBlock` | src/index.cpp:369-374 | one block's column gets exactly its rows; every other bit stands |
| `IndexBuild.ChooseRows` | src/index.cpp:349-353 | the largest power of two from 64 to 1024 that the budget admits |
| `IndexBuild.CollectGrams` | src/index.cpp:262-273 | the distinct grams and hash buckets of a stretch of text, exactly |
| `IndexBuild.AddFileGrams` | src/index.cpp:225-243 | fails if and only if the table's grams and the file's together exceed the cap; otherwise the counts of the file are added exactly |
| `IndexBuild.CollectCorpus` | src/index.cpp:222-250 | fails if and only if the distinct grams of all files exceed the cap; otherwise their occurrences and documents are exact |
| `IndexModel.GramsInIs` | src/index.cpp:227-236 | the grams of a stretch of text are those that stand at one of its places |
| `IndexBuild.CountChunks` | src/index.cpp:251-284 | the chunk lists of every gram and of every bucket, and their lengths, are exact |
| `IndexBuild.LitSet` | src/index.cpp:341 | setting one bit changes that bit alone |
| `IndexBuild.AddChunk` | src/index.cpp:331-344 | a chunk joins the group of its class as the next column and leaves all other groups unchanged |
| `IndexBuild.DescribeChunks` | src/index.cpp:354-360 | descriptors follow each other without gap or overlap |
| `IndexBuild.FillChunk` | src/index.cpp:362-376 | one chunk's positional table is exact, and nothing outside its range changes |
| `IndexQuery.CompileClass` | src/index.cpp:40-48 | the word masks probe exactly the rows the selected hashes fold to |
| `IndexQuery.Drain` | src/search.cpp:441-451 | reading lowest bits first gives the set bits in ascending order, below the limit |
| `IndexQuery.AndRow` | src/search.cpp:430-434 | a column stays alive if and only if it was alive and has the row |
| `IndexQuery.Intersect` | src/search.cpp:426-440 | the running intersection is exact, and stopping early is right: nothing survives |
| `IndexQuery.GroupCandidates` | src/search.cpp:416-453 | exactly the eligible columns with every probed row are kept, in order; none probed keeps all |
| `IndexPlan.AdaptiveK` | src/search.cpp:544-555 | the number of distinct rows, cut to the budget |
| `IndexPlan.PlannedHashes` | src/search.cpp:562-603 | the plan is computed as specified |
| `IndexPlan.PlannedRows` | src/search.cpp:562-603 | the plan is distinct rows of the literal, as many as the budget allows, never none |
| `IndexPlan.PlannedCheapest` | src/search.cpp:578-602 | every row left out ranks behind every row kept |
| `Candidates.BuiltSearchable` | src/index.cpp:320-361 | every freshly built index satisfies what the search relies on |
| `Candidates.BuiltSurvives` | src/search.cpp:416-453 | over a built index, surviving a group is having every probed row |
| `Candidates.ChunkCandidates` | src/search.cpp:457-482 | candidates are exactly the eligible chunks that survive the plan, in file order without duplicates; short and long literals keep every chunk |
| `Candidates.EarlierIsLess` | src/search.cpp:473-480 | sorting by file and position is sorting by chunk id |
| `Candidates.OccurrenceIsCandidate` | src/search.cpp:457-482 | no false negatives: the chunk whose core holds the start of an occurrence is a candidate |
| `Candidates.AnyRowsKeep` | src/search.cpp:416-453 | the same for every choice of the literal's rows |
| `Candidates.ChunkBlocks` | src/search.cpp:638-671 | exactly the blocks of the chunk with every planned row, in order |
| `Candidates.AndMask` | src/search.cpp:650-658 | a block stays alive if and only if it was alive and has the row; every byte read exists |
| `FixedScan.FindByte` | src/search.cpp:527 | the first place of the byte in the range |
| `FixedScan.ChooseRareByte` | src/search.cpp:485-497 | the anchor is the first rarest byte |
| `FixedScan.AnchorFind` | src/search.cpp:499-537 | the anchored scan finds the first occurrence that begins below the bound, whatever the anchor |
| `FixedScan.ScanGreedy` | src/search.cpp:1947-1985 | the scan lists non-overlapping occurrences, and every occurrence is listed or begins inside a listed one |
| `FixedScan.ScanAll` | src/search.cpp:1947-1985 | with overlap the scan lists exactly all occurrences |
| `FixedScan.ScanWindow` | src/search.cpp:2098-2122 | one window yields exactly the naive hits that begin in it, remembering the end of the last hit of the file |
| `FixedSearch.CandidateBlocks` | src/search.cpp:618-674 | exactly the blocks of candidate chunks that have every planned row, in order |
| `FixedSearch.AnyRowsKeepBlock` | src/search.cpp:618-674 | no false negatives in the positional layer, for every choice of the literal's rows |
| `FixedSearch.OccurrenceBlock` | src/search.cpp:618-674 | so the rows that are planned lose none |
| `FixedSearch.BlocksComplete` | src/search.cpp:2080-2093 | every searched occurrence begins in the window of a candidate block |
| `FixedSearch.NaiveGap` | src/search.cpp:1917-2168 | stretches without occurrences can be passed over without changing the naive list |
| `FixedSearch.Visit` | src/search.cpp:2096-2122 | verifying the next window in order neither loses nor repeats a hit across the boundary |
| `FixedSearch.CandidateFiles` | src/search.cpp:1935-1940 | the distinct files of sorted candidates, ascending |
| `FixedSearch.SearchFiles` | src/search.cpp:1924-1986 | for a literal that is not empty, the whole-file operator returns the naive list, cut at the bound |
| `FixedSearch.SearchChunks` | src/search.cpp:2130-2168 | for a literal that is not empty, the chunk operator returns the naive list, cut at the bound |
| `FixedSearch.VisitChunks` | src/search.cpp:2009-2071 | candidate chunks in order, with the end of the last hit carried across, give the naive list |
| `FixedSearch.SearchBlocks` | src/search.cpp:2080-2123 | for a literal that is not empty, the positional operator returns the naive list, cut at the bound |
| `FixedSearch.VisitBlock` | src/search.cpp:2085-2122 | one block, clipped to its core and padding, is verified exactly |
| `FixedDispatch.Search` | src/search.cpp:1917-2169 | whatever operator the guard or the length selects, the result is the first max_matches hits of the naive search, so all operators agree and a bounded search is a prefix; for the empty literal it is what the selected operator visits |
| `EmptyLiteral.EmptyFiles` | src/search.cpp:1945-1985 | for the empty literal the whole-file operator lists every place of every searched file |
| `EmptyLiteral.EmptyChunks` | src/search.cpp:2007-2070 | the chunk operator lists the places of each chunk up to its end, remembering what is listed unless hits may overlap |
| `EmptyLiteral.EmptyBlocks` | src/search.cpp:2080-2122 | the positional operator lists the places of the first block of each chunk |
| `EmptyLiteral.EveryPlaceListed` | src/search.cpp:2007-2122 | either of them lists every place exactly when, in every searched file, each chunk is visited up to where the next one begins and the last one up to its end, no place twice |
| `EmptyLiteral.ChunksSeamless` | src/search.cpp:2007-2070 | so the chunk operator agrees with the whole-file one when hits may not overlap |
| `EmptyLiteral.ChunksOverlap` | src/search.cpp:2007-2070 | and when they may, if and only if no searched file has two chunks |
| `EmptyLiteral.BlocksLost` | src/search.cpp:2080-2122 | and the positional operator loses places whenever the last chunk of a searched file is longer than a block |
| `Planner.BucketsAreRows` | src/search.cpp:723-738 | a chunk has a row of its class if and only if it has a 16-bit bucket that folds onto it |
| `Planner.ScopedHashChunks` | src/search.cpp:718-747 | the count equals the number of chunks in scope whose size-class bitmap has the row |
| `Planner.CountClass` | src/search.cpp:727-745 | generation stamps count every chunk of a class once |
| `Planner.CandidatesBounded` | src/search.cpp:760-776 | the candidates of a literal are at most the chunks that have any one planned row |
| `Planner.EstimateSelectivity` | src/search.cpp:760-776 | the estimate is the least share of any planned row, and 1 without statistics |
| `Planner.EstimateBounds` | src/search.cpp:760-776 | the estimate bounds the number of candidates |
| `RegexFiles.RegexCandidates` | src/search.cpp:2179-2201 | the chunk candidates of a pattern hold a chunk of every file in which it matches |
| `RegexFiles.BranchKeepsFile` | src/search.cpp:2181-2193 | the union over branches of each branch's longest literal keeps every file with a match |
| `RegexFiles.MatchKeepsFile` | src/search.cpp:2194-2200 | so do the candidates of the longest mandatory literal, or of none |
| `RegexFiles.FilesToVerify` | src/search.cpp:2348-2387 | every file with a match is visited, once and in order, also when a region plan was turned down |
| `RegexFiles.SkipFile` | src/search.cpp:2392-2393 | a file skipped for lack of its short literal holds no match |
| `RegexFind.FindRecord` | src/search.cpp:2414-2419 | a record ends at its separator, before a carriage return that belongs to it |
| `RegexFind.RecordsComplete` | src/search.cpp:2411-2437 | what any record lists, the file lists: no record is passed over |
| `RegexFind.FileSound` | src/search.cpp:2388-2440 | every hit listed for a file is a match of the pattern in a record of it, between that record's own bounds |
| `RegexFind.FileExact` | src/search.cpp:2388-2440 | a file lists something if and only if some record of it has a match |
| `RegexFind.FileComplete` | src/search.cpp:2388-2440 | a match in any record puts a hit of the file on the list |
| `Basics.CutFurther` | src/search.cpp:2395 | bounding each record by what is left bounds the whole list by max_matches |
| `RegexFind.AddRecord` | src/search.cpp:2420-2433 | one record adds its hits, up to the bound |
| `RegexFind.AddLines` | src/search.cpp:2411-2437 | the record loop adds the hits of all records, up to the bound |
| `RegexFind.VisitFile` | src/search.cpp:2388-2440 | a file is skipped only when it is out of scope or lists nothing |
| `RegexFind.BruteForceExact` | src/search.cpp:2382-2447 | the unpruned search lists something of a file if and only if it is in scope and one of its records has a match |
| `RegexFind.SearchRecords` | src/search.cpp:2382-2447 | the pruned search returns the list an unpruned search of every file would, cut at the bound, whether records are searched as a whole or by regions |
| `LiteralScan.SearchFindsFirst` | src/regex.cpp:1204-1210 | in a record that contains its occurrences, each search of a pure literal finds the first one left |
| `LiteralScan.RecordIsScan` | src/regex.cpp:1204-1210 | listing a record and scanning on behind it is scanning |
| `LiteralScan.RecordHolds` | src/search.cpp:2414-2419 | records cut no occurrence of a literal without separator and without trailing carriage return |
| `LiteralScan.FileIsScan` | src/search.cpp:2171-2178 | record by record or in one go, a pure literal lists the same hits |
| `LiteralScan.ReturnLost` | src/search.cpp:2171-2178 | with crlf, a literal that ends in a carriage return is found by the fixed search and by no record |
| `LiteralScan.RewriteExact` | src/search.cpp:2171-2178 | under its guard the rewriting keeps the hits of every text if and only if records do not drop the literal's last byte |
| `LiteralRewrite.BruteIsNaive` | src/search.cpp:2171-2178 | over the corpus, the regex search of a pure literal is the naive fixed search |
| `LiteralRewrite.Find` | src/search.cpp:2170-2201 | rewritten to a fixed search, by regions or record by record, the search returns the unpruned list, cut at the bound; a literal that should not have been rewritten gets the list of the fixed search |
| `Codec.ValueIs` | src/index.cpp:771-776 | a fixed-width field reads back as the value written |
| `Codec.LittleEndian` | src/index.cpp:774-776 | shifting bytes into place computes the little-endian value |
| `Codec.Writer.Scalar` | src/index.cpp:792-801 | a field is appended in its width; bytes already written stand |
| `Codec.Writer.Fields` | src/index.cpp:803 | fields are appended one after the other |
| `Codec.Reader.Scalar` | src/index.cpp:813-822 | reading succeeds if and only if enough bytes remain, and yields the field that stands there |
| `Codec.Reader.Scalars` | src/index.cpp:831-841 | a run of fields reads back in order |
| `Codec.Reader.Bytes` | src/index.cpp:823-830 | a run of bytes reads back as it stands |
| `SnapshotChecks.ChunkChecker.Take` | src/index.cpp:1254-1275 | a chunk is accepted if and only if the list stays well streamed |
| `SnapshotChecks.ChunkChecker.Finish` | src/index.cpp:1276-1278 | the list is accepted if and only if its cores partition every file within the option limits |
| `SnapshotChecks.StreamedPartition` | src/index.cpp:1254-1278 | the step checks, every file seen to its end, imply that cores partition the files in order |
| `SnapshotChecks.PartitionStreamed` | src/index.cpp:1254-1278 | a valid list passes every step check |
| `SnapshotChecks.GroupChecker.Take` | src/index.cpp:1286-1296 | a group is accepted if and only if its shape fits and it claims only unclaimed chunks of its class |
| `SnapshotChecks.GroupChecker.Finish` | src/index.cpp:1298-1299 | eight groups are accepted if and only if every chunk is in exactly one column of a group of its class |
| `SnapshotChecks.StreamedGroups` | src/index.cpp:1279-1299 | accepted groups place no chunk twice |
| `SnapshotChecks.ValidStreamed` | src/index.cpp:1279-1299 | valid groups pass every step check |
| `SnapshotChecks.CheckDescriptors` | src/index.cpp:1313-1328 | descriptors are accepted if and only if they tile the positional bytes |
| `SnapshotFormat.WordRoundTrip` | src/index.cpp:341 | a word's bits survive its number |
| `SnapshotFormat.PayloadFits` | src/index.cpp:896-906 | the payload check is exact |
| `SnapshotFormat.Save` | src/index.cpp:891-1035 | saving succeeds exactly within the corpus limit and writes the frame, the fields in order, and the checksum |
| `SnapshotRead.ReadString` | src/index.cpp:823-830 | a string that was written reads back, and is refused exactly when it is too long |
| `SnapshotRead.ReadVector` | src/index.cpp:831-841 | a vector that was written reads back, and is refused exactly when it is too long |
| `SnapshotRead.ReadManifest` | src/index.cpp:1108-1165 | a manifest that was written reads back exactly, and is refused exactly for a long root, invalid options or a source that changed |
| `SnapshotRead.ReadHeader` | src/index.cpp:1179-1204 | a header that was written reads back exactly, and is refused exactly when its options are invalid or disagree with the manifest |
| `SnapshotRead.ReadInfos` | src/index.cpp:1216-1233 | file records that were written read back exactly, and are refused exactly for their number or an unsafe or too long path |
| `SnapshotRead.CheckTotal` | src/index.cpp:1234-1245 | the sum check is exact, without overflow |
| `SnapshotRead.ReadChunks` | src/index.cpp:1246-1278 | chunks that were written read back, and are refused exactly when they are too many or do not partition the files |
| `SnapshotRead.ReadGroups` | src/index.cpp:1279-1299 | groups that were written read back, and are refused exactly when they are too large or do not hold every chunk once |
| `SnapshotRead.ReadDescs` | src/index.cpp:1300-1311 | descriptors that were written read back exactly when there is one for each chunk |
| `SnapshotRead.ReadCorpus` | src/index.cpp:1343-1363 | persisted files read back, and are refused exactly when a length is not the recorded one |
| `Snapshot.CheckFrame` | src/index.cpp:1061-1102 | magic, version and checksum of every saved file are accepted, and its size exactly within the limit |
| `Snapshot.ReadLayers` | src/index.cpp:1246-1328 | chunks, groups and descriptors that were written are accepted if and only if they satisfy all structural conditions and limits |
| `Snapshot.Load` | src/index.cpp:1058-1387 | only well-formed snapshots are accepted; a file that was saved is accepted if and only if it is within size and its snapshot is loadable, and is then given back field for field |
| `SnapshotRoundTrip.BuiltChunksValid` | src/index.cpp:305-317 | the chunks of every built index pass the geometry checks |
| `SnapshotRoundTrip.BuiltLayers` | src/index.cpp:305-377 | the structural checks of the loader accept the chunks, groups and positional layer of every built index |
| `SnapshotFits.BodyFits` | src/index.cpp:792-803 | when the parts of a snapshot are no larger than their types, every field of its file holds its value |
| `SnapshotRoundTrip.BuiltRepresentable` | src/index.cpp:305-377 | every number of a built index fits its field: the 16-bit row counts, 32-bit ids, words and blocks, 64-bit offsets |
| `SnapshotRoundTrip.BuiltLoadable` | src/index.cpp:1108-1363 | a built index is loadable if and only if its ratio is a number, its root, paths, lists and counts are within the declared limits, no path leaves the root, and the source is there |
| `SnapshotRoundTrip.NanRefused` | src/index.cpp:288-299 | a ratio that is not a number passes the checks of building and fails those of loading; nothing else separates them |
| `SnapshotRoundTrip.SaveThenLoad` | src/index.cpp:891-1387 | a built index that is saved loads again if and only if its file is within size and it is within these limits, and then everything comes back |
| `SnapshotRoundTrip.Restore` | src/index.cpp:1376-1387 | whatever snapshot is accepted, the restored index can be searched: every bitmap place the search computes exists, and its statistics are exact |
| `SnapshotRoundTrip.Reopen` | src/index.cpp:891-1387 | a built index that is saved and opened again, its source unchanged, is the same index with statistics computed anew, and every search over it is exact |

## Left out

- Character decoding: one unit is one byte. UTF-8 sequences, the fallback to raw bytes on malformed input, ICU properties and Unicode case folding are not part of this model; class and word membership are sets of bytes, and case folding is the ASCII one.
- The parser and its inline flags: trees start from what it guarantees (an alternation has a branch, a repeat has min <= max). Patterns wrapped by the line and word options, whose prefixes stem from the unwrapped tree, are not modelled.
- Captures, named groups, backreferences and lookaround, and the extended engine's search loop around eval.
- The fast path for case-insensitive literals at src/regex.cpp:688-718.
- NfaWindow.SearchExact: states existence and validity of the reported span on wide windows, not which span; `NfaWide.LeftmostWindows` says why, and `NfaFixed.FixedLeftmost` says which for patterns of fixed width.
- RegexSearch.FindAllComplete: for patterns that are not of fixed width, states that the list never ends before a match, not which of several matches at or behind a start is listed, for the same reason.
- RegionSearch.RegionSpansComplete: for patterns that are not of fixed width, the spans listed by regions are not compared with those of the full search, since both then depend on the windows; both are shown to list matches only, and something exactly when there is a match.
- EvalVm.EvalPlays: speaks of the set of ends, not of the order in which eval returns them; where a recursion depth or state limit is hit the engine returns an error.
- FixedDispatch.Search: word, line and case-insensitive fixed searches are not modelled, since a rejected hit still advances the scan and the operators then differ.
- LiteralRewrite.Find: an empty pure literal, and one for which `LiteralScan.RewriteExact` shows the rewriting to be wrong, get the hits of the fixed search; how these differ from the records' hits is not stated further.
- Invert mode, first-hit searches, cancellation, timing and all search statistics.
- Which operator the cost model selects: costs, regret, gates and calibration are not modelled; the proofs hold for every selection.
- Filter.Simplified: normal form says flat, distinct and free of absorbed terms; it does not claim the smallest equivalent filter.
- Width.WidthSound: covers width bounds and nullability; look-ahead and look-behind bounds of assertions enter regions only as finite margins.
- IndexBuild.IndexData.Materialize: the floating-point product that sizes positional rows is a parameter function, and file ids, chunk ids and sizes are unbounded where the source's widths cannot overflow within its own limits.
- Planner.EstimateSelectivity: the ratio is a real number, not a rounded double.
- Snapshot.Load: versions 5 and 6, the comparison with a caller's expected manifest, and the reading of files and their identities from a file system are not modelled; attached file contents and the source identity are parameters.
- SnapshotRoundTrip.SaveThenLoad: the manifest is the one written by default; lengths of vectors are 64-bit numbers and chunk ids 32-bit numbers, as their types have it.
- Temporary files, renaming, permissions, memory mapping, appending, compaction, rollout, tuned caches, profiles, reports, command line, glob and ignore files, C interface: input and output, or members with no property as hard as those above.
