# A verified model of embassy-supervisor

The repository turns a declarative graph of embedded tasks into Rust with
procedural macros, and ships a firmware and a set of command line tools around
it. This project models the parts whose correctness is hard to see from one
function and proves what they promise. `dafny verify dfyconfig.toml` checks
everything.

| file | what it models |
|---|---|
| `Tokens.dfy`, `Cfg.dfy` | token trees; `#[cfg]` predicates, evaluated in any build; cfg-aware lengths |
| `Walker.dfy` | the `#[dataflow]` body walker, as a class over a callback, against a declarative cut of a body into steps and segments |
| `WalkLaws.dfy` | what the walker reports, as laws on the shape of the tokens |
| `Splice.dfy` | what a walk's output is: the body with one filling per reported call |
| `Dataflow.dfy` | table derivation, index baking and bundles, for every `#[cfg]` valuation at once |
| `Fragment.dfy` | `$crate` normalization, validation and substitution |
| `NodeParser.dfy` | parsing a node clause by clause into a mutable accumulator |
| `NodeRules.dfy` | the rules a node declaration keeps, said of its written clauses, and that the parser accepts exactly what breaks none |
| `Machine.dfy` | machine integers and their casts |
| `Slots.dfy`, `Layout.dfy` | budget claimant slots, veto contributor slots, graph slots and dependency rows |
| `TopoSort.dfy` | the dependency order a graph is compiled with |
| `Shell.dfy` | the generated spawn glue and the resident task shell, as interleaved steps |
| `Relay.dfy` | the cross-core interrupt relay, as interleaved steps |
| `Scratch.dfy` | the lazily erasing flash writer and the download loop |
| `EventRing.dfy` | the ring of lifecycle events |
| `Lint.dfy` | the one-sided-signal lint |
| `Markdown.dfy`, `Base64.dfy` | the managed markdown block and the base64url link |

A *build* assigns truth to every raw predicate, with no relation assumed
between them, so what is proved for every build holds for every set of flags.
Two predicates are the same when their token streams are; where the source
compares their text with the spaces removed, so does the model.

## What the proofs found

- An item name is checked for repeats only after the slots are emitted, so a
  pool of 200 and a later node of the same name, each naming one budget once,
  plan successfully and then panic in the pool's 200th claim
  (`Slots.SameNamePanics`). `Slots.PanicsExactly` says when no `expect` fires;
  distinct item names are enough (`Slots.DistinctNamesNeverPanic`).
- A pool's `resources:` list is not checked for repeats
  (supervisor-syntax/src/lib.rs:1587-1772), and a pool that names one budget
  twice holds fewer slots than the budget counts
  (`Slots.NamedTwiceMissesSlots`). Slots tile exactly when no owner names one
  again after a naming that has holders (`Slots.TilingExactly`).
- A pool may be declared with no member, and its dependents then depend on
  whatever item comes next (`Layout.EmptyPoolMisdirects`); an index is right
  exactly when the named item has a slot (`Layout.DepIndexExactly`).
- The documentation of `dataflow_attr` (supervisor-syntax/src/lib.rs:2205-2210)
  says that a `#[cfg_attr(pred, dataflow)]` wrapper's predicate keeps a bundled
  fn's accesses conditional; `bundle_expand`
  (supervisor-macros/src/lib.rs:3010-3042) drops it. `Dataflow.WrapperIsIgnored`
  is a bundle and a build whose table lists a path no `#[dataflow]` fn of the
  build accesses, `Dataflow.BundleMeetsDocs` says exactly when a table is as
  documented, and `Dataflow.RepeatedWrappersMeetDocs` that writing each wrapper
  predicate as a `#[cfg]` too, or none at all, is enough.
  `Dataflow.AlwaysCoveredExactly` says of the source alone when every build is
  as documented.
- `beat_window:` is compared with its `beat_timeout:` by the text of their
  `#[cfg]`s without any space, so `#[cfg(x = "a b")]` passes for
  `#[cfg(x = "ab")]` and a build can have the window without the budget
  (`NodeParser.SameTextAccepted`, `NodeParser.SpacedLiterals`).
  `NodeParser.BeatBudgetIsActive` says when none can.
- A row may list one dependency under two `#[cfg]`s, and a build where both
  hold fails to compile, reporting a cycle that is not there
  (`TopoSort.TwoGatesPanic`). `TopoSort.PanicsExactly` and
  `TopoSort.GraphPanicsExactly` say when the sort panics. The count of a row of
  256 entries truncates to zero, and the sort then misses a node that depends
  on itself (`TopoSort.FullRowUnseen`).
- `exit:` may be written twice and the last wins; `provides:` may be written
  twice and accumulates, an empty list being refused only when it comes first.
  `NodeParser.OrderMattersExactly` says when clause order shows,
  `NodeParser.TwoExits` and `NodeParser.TwoProvides` are nodes where it does.
- The comment at supervisor-macros/src/lib.rs:1058-1062 says an aborted worker
  leaves its exit slot empty. It leaves the slot as it was
  (`Shell.AbortLeavesExit`), and an earlier value nobody took is still there
  (`Shell.AbortOverFullSlot`): the slot is empty afterwards exactly when it was
  at the launch of the aborted activation or a waiter has taken its value since
  (`Shell.AbortedExitExactly`).
- Where a build lets `u32` sums wrap, a scratch write whose end wraps may be
  accepted and then lands outside the region (`Scratch.LandsInRegion`); the
  download never makes one.
- The lint merges element and whole-array accesses link by link, so of two
  elements of one array only the later noted sees the other's accesses
  (`Lint.LaterSiblingUnseen`).
- Markdown updates are last-write-wins exactly when the overwritten block holds
  no end marker (`Markdown.LastWriteWins`).
- Resolving a fragment to `crate` and normalizing it again gives the fragment
  back exactly when no `$` stands right before a `$crate`
  (`Fragment.RelayRoundTrip`); `validate_dollars` refuses all such trees and
  some harmless ones.

## Model

| member | source | states |
|---|---|---|
| `Cfg.CfgPredicateMeaning` | supervisor-macros/src/lib.rs:390-403 | the combined predicate of several `#[cfg]`s holds in a build exactly when all of them do; none means unconditional |
| `Cfg.CfgAwareLenCounts` | supervisor-macros/src/lib.rs:98-119 | in every build an emitted array length is the number of entries the build keeps |
| `Walker.InForceExactly` | supervisor-syntax/src/lib.rs:2022-2055 | a predicate is in force at a step exactly when an attribute before it carries it and no segment ended in between |
| `Walker.InForceNext` | supervisor-syntax/src/lib.rs:2100-2118 | how one step moves the predicates in force: cleared at a segment's end, extended by an attribute, else kept |
| `Walker.StepsTile` | supervisor-syntax/src/lib.rs:2024-2120 | the steps of a level cover its tokens in order, without gap or overlap |
| `Walker.Rewriter.RewriteVerbCallsIn` | supervisor-syntax/src/lib.rs:2010-2122 | the walk tells the callback exactly the sites of the declarative cut, in order, stops at the first refusal, and on completion returns the declared output |
| `Walker.Rewriter.RewriteFirstArg` | supervisor-syntax/src/lib.rs:2124-2169 | one call is reported with its target and predicates, then the calls in its remaining arguments; an unreadable first argument is refused |
| `Walker.Rewriter.CopyFn` | supervisor-syntax/src/lib.rs:2040-2055 | a nested fn is copied unread up to its body or semicolon |
| `WalkLaws.AfterSemicolon` | supervisor-syntax/src/lib.rs:2113-2116 | no predicate passes a `;`: the calls of a body with one are those up to it and those behind it, each as if alone |
| `WalkLaws.AfterComma` | supervisor-syntax/src/lib.rs:2113-2116 | the same for `,`, outside the head of a nested fn |
| `WalkLaws.AfterBlock` | supervisor-syntax/src/lib.rs:2093-2112 | the same for a brace group without `else`, `.` or `?` right behind it |
| `WalkLaws.PastBlock` | supervisor-syntax/src/lib.rs:2100-2112 | what follows a block is reported under the statement's `#[cfg]` exactly when `else`, `.` or `?` comes right behind the block |
| `WalkLaws.UnderAttribute` | supervisor-syntax/src/lib.rs:2025-2039 | a `#[cfg]` governs the calls of the statement it stands before, as one around the body would |
| `WalkLaws.OtherAttribute` | supervisor-syntax/src/lib.rs:1994-2008 | any other attribute governs nothing |
| `WalkLaws.NestedFnUnread` | supervisor-syntax/src/lib.rs:2040-2055 | a nested fn is not read, up to its body or its `;`, and a `#[cfg]` before it governs nothing behind it |
| `WalkLaws.CallRead` | supervisor-syntax/src/lib.rs:2056-2090 | the node, a dot, a known verb and its arguments are a call |
| `WalkLaws.NotTheNode` | supervisor-syntax/src/lib.rs:2056-2058 | behind a `.` or a `:` the node's name is none |
| `WalkLaws.NotACall` | supervisor-syntax/src/lib.rs:2059-2078 | nor is it without a known verb and its arguments right behind it |
| `WalkLaws.Skipped` | supervisor-syntax/src/lib.rs:2113-2119 | any other word, literal or punctuation reports nothing |
| `WalkLaws.GroupEntered` | supervisor-syntax/src/lib.rs:2093-2099 | a group's calls come first, then those behind it |
| `WalkLaws.FirstArgument` | supervisor-syntax/src/lib.rs:2124-2169 | a call is reported for its first argument, up to the first comma, then the calls in the others under the same predicates |
| `WalkLaws.BuiltinVerbs` | supervisor-syntax/src/lib.rs:1863-1895 | the ten built-in verbs and their directions, whatever is registered |
| `WalkLaws.OtherVerbs` | supervisor-syntax/src/lib.rs:1884-1895 | any other verb has its first registration's direction, or none |
| `Walker.DriveAppend` | supervisor-syntax/src/lib.rs:2010-2122 | driving a callback over two stretches of sites is driving it over the first, then, if it went on, over the second |
| `Walker.DriveReports` | supervisor-syntax/src/lib.rs:2145-2168 | whatever the callback answers, it is told a prefix of the body's calls, and all of them on completion |
| `Walker.SameReports` | supervisor-macros/src/lib.rs:3201-3275 | two passes over one body with any two callbacks are told the same call sequence |
| `Walker.DriveAccepts` | supervisor-syntax/src/lib.rs:2010-2169 | a callback that accepts each of a readable body's calls completes the walk |
| `Walker.KeepIsIdentity` | supervisor-syntax/src/lib.rs:2010-2169 | with a callback that always answers `None` the output is the input |
| `Splice.OutputIsSpliced` | supervisor-syntax/src/lib.rs:2010-2169 | input and output are one template whose k-th hole holds the k-th reported call's first argument and the callback's answer to the k-th report; nothing else differs |
| `Dataflow.EntryKept` | supervisor-macros/src/lib.rs:3093-3111 | a derived entry is compiled in exactly when one of its alternative predicate lists holds |
| `Dataflow.PrefixExprCounts` | supervisor-macros/src/lib.rs:3113-3122 | in every build a table's length expression is the number of its surviving entries |
| `Dataflow.PrefixIsPlace` | supervisor-macros/src/lib.rs:3257-3274 | the prefix expression over `list[..k]` is the place of entry k in the surviving table, whenever entry k survives |
| `Dataflow.Derived.Record` | supervisor-macros/src/lib.rs:3139-3166 | the table keeps one entry a path, for the target of its first access, with exactly the predicate lists seen, each once; entries never move and their alternatives only grow |
| `Dataflow.TableIsExact` | supervisor-macros/src/lib.rs:3139-3175 | in every build a derived table lists a path exactly when a live access names it |
| `Dataflow.SurvivingDistinct` | supervisor-macros/src/lib.rs:3139-3175 | ... and each path once |
| `Dataflow.RecordAll` | supervisor-macros/src/lib.rs:3048-3055 | recording a walk's calls puts each in the table of its direction, under the fn's and its own predicates |
| `Dataflow.BakedIndexIsRight` | supervisor-macros/src/lib.rs:3254-3275 | for every body, build and live call, the baked index is in bounds of the surviving table and the entry there carries that call's path |
| `Dataflow.SecondPassCompletes` | supervisor-macros/src/lib.rs:3264-3268 | the second pass finds every path: its `expect` cannot fire and the walk completes |
| `Dataflow.CollectAccepts` | supervisor-macros/src/lib.rs:3207-3253 | the first pass accepts exactly the bodies with readable targets and no ungated call of a verb whose feature is off |
| `Dataflow.RefusalsExactly` | supervisor-macros/src/lib.rs:3207-3243 | a body is refused exactly for an ungated call of a verb that neither `TaskNode` has with these features nor the attribute registers |
| `Dataflow.OneCallAccepted` | supervisor-macros/src/lib.rs:3225-3243 | a body of one ungated call of a built-in verb is accepted exactly with the features that add the verb |
| `Dataflow.SitesAreKnown` | supervisor-syntax/src/lib.rs:2059-2078 | every call told is of a built-in or registered verb, in its direction |
| `Dataflow.EmittedBodyIsRight` | supervisor-macros/src/lib.rs:3254-3300 | the emitted body is the fn's own but for its calls' first arguments; the k-th is the `Sig` of the k-th call's direction and target, and its index reaches that call's path in every build where the call is live |
| `Dataflow.DataflowExpand` | supervisor-macros/src/lib.rs:3177-3300 | the expansion succeeds exactly with the feature on, a node parameter, registrations that repeat no verb, readable targets and no ungated call of a verb that is neither `TaskNode`'s nor registered, and its tables and body are then right in every build |
| `Dataflow.BundleTableIsExact` | supervisor-macros/src/lib.rs:3035-3084 | in every build a bundle's table holds exactly the paths that members whose `#[cfg]`s hold access at live calls, each once, under the emitted length |
| `Dataflow.BundleMeetsDocs` | supervisor-syntax/src/lib.rs:2205-2210 | that table is the documented one, wrapper predicates counting as `#[cfg]`s, exactly when every path reached by a member with a false wrapper is also reached by a live one |
| `Dataflow.RepeatedWrappersMeetDocs` | supervisor-syntax/src/lib.rs:2205-2210 | which holds in every build of a bundle whose wrapper predicates, if any, are also `#[cfg]`s of their fns |
| `Dataflow.AlwaysCoveredExactly` | supervisor-syntax/src/lib.rs:2205-2210 | and which holds in every build exactly when each call has a call of its direction and path whose wrapper, fn and call predicates are all among that call's own and its fn's |
| `Dataflow.WrappedTable` | supervisor-macros/src/lib.rs:3043-3075 | the write table of a bundle of one wrapped member |
| `Dataflow.WrapperIsIgnored` | supervisor-macros/src/lib.rs:3010-3042 | with the wrapper's flag off that table lists a path though no live member accesses any |
| `Dataflow.BundleExpand` | supervisor-macros/src/lib.rs:2978-3091 | a bundle expands exactly with the feature on, a name that parses, an inline module, at least one member and every member walkable with readable targets; both tables are then exact, as documented in a build exactly when every wrapped path is covered there, and in all builds exactly when every call has a stand-in |
| `Dataflow.WalkMember` | supervisor-macros/src/lib.rs:3043-3057 | one member's pass collects its calls, exactly when its targets are readable |
| `Dataflow.KeepCompletes` | supervisor-macros/src/lib.rs:3043-3057 | the bundle's pass over a member completes exactly on readable targets |
| `Fragment.ValidateDollars` | supervisor-macros/src/lib.rs:3365-3385 | accepts exactly the trees in which every `$` stands right before a `crate`, at every depth |
| `Fragment.NormalizeFragmentCrate` | supervisor-syntax/src/lib.rs:1774-1804 | the loop computes the normalization |
| `Fragment.SubstituteDollarCrate` | supervisor-syntax/src/lib.rs:1810-1836 | the loop computes the substitution |
| `Fragment.NormalizeDollars` | supervisor-syntax/src/lib.rs:1774-1804 | after normalization every `crate` is preceded by `$`, for every tree |
| `Fragment.NormalizeFixes` | supervisor-syntax/src/lib.rs:1774-1804 | normalization changes nothing exactly when every `crate` already has its `$` |
| `Fragment.NormalizeIdempotent` | supervisor-syntax/src/lib.rs:1774-1804 | normalizing twice is normalizing once |
| `Fragment.SubstituteAfterNormalize` | supervisor-syntax/src/lib.rs:1810-1836 | on accepted trees, substitution after normalization is one token-by-token replacement of `crate` and `$crate` alike |
| `Fragment.RelayRoundTrip` | supervisor-syntax/src/lib.rs:1774-1836 | for every tree, resolving to `crate` and normalizing again gives back the relayed form exactly when no `$` stands right before a `$crate`, at any depth |
| `Fragment.AcceptedIsUnstacked` | supervisor-macros/src/lib.rs:3365-3385 | which every accepted tree meets |
| `Fragment.StrayDollarIsLost` | supervisor-macros/src/lib.rs:3371-3379 | a concrete tree whose round trip loses a `$` |
| `NodeParser.CommonClauses.constructor` | supervisor-syntax/src/lib.rs:881-907 | the accumulator starts with nothing written |
| `NodeParser.CommonClauses.ParseOne` | supervisor-syntax/src/lib.rs:995-1154 | a common clause is taken exactly when well-formed and not written before, and sets its field and no other; any other clause is left alone |
| `NodeParser.HasExactly` | supervisor-syntax/src/lib.rs:1028-1044 | the duplicate test on each field sees exactly the clauses written, which for `reads:` and `writes:` rests on an empty list being refused |
| `NodeParser.TakeSlots` | supervisor-syntax/src/lib.rs:1317-1349 | one `provides:` clause is accepted exactly when its gates are `cfg` lists and the accumulated slots are non-empty and distinct |
| `NodeParser.TakeOwn` | supervisor-syntax/src/lib.rs:1205-1350 | a node-only clause is taken exactly when well-formed and, `exit:` and `provides:` aside, not written before |
| `NodeParser.ParseClauses` | supervisor-syntax/src/lib.rs:1199-1357 | the clause loop accepts exactly the lists whose clauses are each well-formed and gated only where allowed, without repeats but `exit:` and `provides:`, and fills the fields with what was written |
| `NodeParser.ParseNode` | supervisor-syntax/src/lib.rs:1182-1584 | with the cross-clause checks, the parser computes its specification |
| `NodeRules.AloneExactly` | supervisor-syntax/src/lib.rs:941-1154 | a clause is well-formed on its own exactly when it breaks none of eleven rules, gates, literals and entries included |
| `NodeRules.CrossExactly` | supervisor-syntax/src/lib.rs:1374-1558 | the checks after the loop refuse exactly the lists that break a rule between clauses |
| `NodeRules.AcceptedExactly` | supervisor-syntax/src/lib.rs:1182-1584 | a declaration is accepted exactly when its clauses, as written, break no rule |
| `NodeRules.ItemIsWritten` | supervisor-syntax/src/lib.rs:1558-1584 | every clause of an accepted declaration is in the item's field for it |
| `NodeRules.CommonIsWritten` | supervisor-syntax/src/lib.rs:995-1154 | a common field that is filled holds a written clause of its kind |
| `NodeRules.OwnIsWritten` | supervisor-syntax/src/lib.rs:1205-1350 | ... and so do the node's own |
| `NodeRules.ReadyTried` | supervisor-syntax/src/lib.rs:1468-1490 | beside a beat budget `ready_on_write` is accepted exactly for one entry that is both observed and a beat |
| `NodeRules.ReadyExamples` | supervisor-syntax/src/lib.rs:1468-1490 | `[S beat]`, `[S observed]` and `[S beat, T observed]` are refused, `[S observed beat]` is accepted |
| `NodeParser.OrderIndependent` | supervisor-syntax/src/lib.rs:1182-1584 | any permutation of clauses is accepted or refused alike and as the same node, when no two `exit:` clauses differ and `provides:` is written at most once |
| `NodeParser.OrderMattersExactly` | supervisor-syntax/src/lib.rs:1313-1349 | for an accepted node that condition is also necessary |
| `NodeParser.ExitOrderShows` | supervisor-syntax/src/lib.rs:1313-1316 | two different `exit:` clauses can be swapped to another node |
| `NodeParser.ProvidesOrderShows` | supervisor-syntax/src/lib.rs:1317-1349 | so can two `provides:` clauses, or the swap is refused |
| `NodeParser.TwoExits` | supervisor-syntax/src/lib.rs:1313-1316 | a node with a worker and two `exit:` clauses is accepted in both orders, as the same node only when they agree |
| `NodeParser.TwoProvides` | supervisor-syntax/src/lib.rs:1317-1349 | two `provides:` clauses are accepted in both orders as different nodes; an empty one is accepted second and refused first |
| `NodeParser.BeatBudgetIsActive` | supervisor-syntax/src/lib.rs:1374-1425 | on acceptance the gates compared have one text, and no build has `beat_window` (or `ready_on_write`) without `beat_timeout` exactly when each predicate on the budget is also on it |
| `NodeParser.NeverWithoutExactly` | supervisor-syntax/src/lib.rs:1374-1425 | of two gated clauses the first is never compiled in without the second exactly when the second carries no further predicate |
| `NodeParser.SameTextAccepted` | supervisor-syntax/src/lib.rs:1402-1414 | two different predicates of one text, on a window and its budget, are accepted, and some build has the window alone |
| `NodeParser.SpacedLiterals` | supervisor-syntax/src/lib.rs:921-930 | string literals that differ by a space are such predicates |
| `Slots.PlanBudgets` | supervisor-macros/src/lib.rs:2333-2460 | planning succeeds exactly when every use fits 256 slots, and records each owner's base as the total handed out before |
| `Slots.PlanVetoes` | supervisor-macros/src/lib.rs:2617-2690 | planning succeeds exactly when every use fits 32 slots and no two spellings share a last segment |
| `Slots.SlotIsExact` | supervisor-macros/src/lib.rs:470-480 | a holder is emitted with the base of its owner's last naming plus its offset, untruncated, or else the `expect` fires |
| `Slots.PanicsExactly` | supervisor-macros/src/lib.rs:462-480 | no `expect` fires exactly when every use has room in 256 after its owner's last naming |
| `Slots.EvenCountsNeverPanic` | supervisor-macros/src/lib.rs:462-480 | with equal holder counts per owner and name none fires and every slot is within the total, names repeated or not |
| `Slots.DistinctNamesNeverPanic` | supervisor-macros/src/lib.rs:2333-2460 | with distinct item names a successful plan never panics |
| `Slots.SmallLimitsNeverPanic` | supervisor-macros/src/lib.rs:188-192 | a gate's limit of 32 leaves no room for a panic at all |
| `Slots.SameNamePanics` | supervisor-macros/src/lib.rs:2441-2455 | a pool of 200 and a node of one name naming a budget once each: the plan fits, the pool's last member panics |
| `Slots.TilesWhenLast` | supervisor-macros/src/lib.rs:430-493 | when every use with holders is its owner's last, the holders of a budget or gate get distinct slots that cover exactly 0..K |
| `Slots.TilingExactly` | supervisor-macros/src/lib.rs:2438-2456 | every budget and gate is tiled exactly when no owner names one again after a naming with holders, empty pools included |
| `Slots.LeavesAGap` | supervisor-macros/src/lib.rs:2454-2454 | otherwise the first overwritten naming's own slot is nobody's |
| `Slots.SharedSlot` | supervisor-macros/src/lib.rs:2454-2454 | two uses by one owner share their first slot |
| `Slots.NamedTwiceMissesSlots` | supervisor-macros/src/lib.rs:2454-2455 | a pool of two naming a budget twice: four slots counted, base two recorded for both uses |
| `Layout.DepRow` | supervisor-macros/src/lib.rs:2088-2115 | a row is accepted exactly when its names are known and no (index, cfg) pair repeats |
| `Layout.SlotTables` | supervisor-macros/src/lib.rs:2070-2118 | ... for every slot's row |
| `Layout.Expand` | supervisor-macros/src/lib.rs:2710-2803 | layout succeeds exactly with distinct names, known executors, the pool feature where a pool needs it, items that can be emitted, at most 256 slots and good rows, and names map to first slots |
| `Layout.PlacedExactly` | supervisor-macros/src/lib.rs:2710-2782 | every item can be placed exactly when the executor it names is declared, a pool has its feature and its definition can be emitted |
| `Layout.ItemsTile` | supervisor-macros/src/lib.rs:2725-2782 | items occupy consecutive ranges of slots, member by member |
| `Layout.SlotHasItem` | supervisor-macros/src/lib.rs:2725-2782 | every slot belongs to one item's member |
| `Layout.DepIndexExactly` | supervisor-macros/src/lib.rs:2091-2092 | a dependency index denotes the named node or floor member, untruncated, exactly when that item has a slot |
| `Layout.RowsAreRight` | supervisor-macros/src/lib.rs:2088-2114 | every entry of an accepted row denotes its dependency exactly then, and no row repeats a pair |
| `Layout.EmptyPoolMisdirects` | supervisor-macros/src/lib.rs:2091-2092 | an empty pool's index is the next item's |
| `TopoSort.Degrees` | supervisor/src/lib.rs:4741-4747 | each count is its row's length as a `u8` |
| `TopoSort.Seed` | supervisor/src/lib.rs:4749-4759 | the queue starts with the nodes that count nothing, in index order |
| `TopoSort.Release` | supervisor/src/lib.rs:4770-4791 | producing a node leaves each count as if computed anew, and queues, in index order, the nodes whose count it brings to zero |
| `TopoSort.TopoSortConst` | supervisor/src/lib.rs:4734-4801 | the in-place algorithm computes the declarative queue, and panics exactly with more than 256 nodes or an incomplete queue |
| `TopoSort.QueueIs` | supervisor/src/lib.rs:4764-4792 | at every round the queue holds exactly the nodes that are ready, each once |
| `TopoSort.QueueKept` | supervisor/src/lib.rs:4764-4792 | whatever the rows, a node is queued only behind as many of its dependencies as its row counts |
| `TopoSort.PanicsWhenBlocked` | supervisor/src/lib.rs:4794-4800 | for all rows, truncated counts included, the sort panics exactly when some nodes each count more dependencies than they have outside their set |
| `TopoSort.PanicsExactly` | supervisor/src/lib.rs:4794-4800 | with rows of fewer than 256 entries, exactly when there is a cycle, a repeated index in a row or an index of no node |
| `TopoSort.OrderIsPermutation` | supervisor/src/lib.rs:3203-3217 | otherwise the order holds every node once |
| `TopoSort.DependenciesFirst` | supervisor/src/lib.rs:3303-3308 | ... and before a node every one of its dependencies |
| `TopoSort.FullRowUnseen` | supervisor/src/lib.rs:4741-4747 | a node that lists all 256 nodes is sorted, its cycle with itself unseen |
| `TopoSort.CompiledIsGood` | supervisor-macros/src/lib.rs:2088-2114 | the row a build compiles is free of repeats and stray indices exactly when the live entries of the emitted row are |
| `TopoSort.GraphPanicsExactly` | supervisor-macros/src/lib.rs:2088-2114 | a build of a graph's emitted rows panics exactly when its slots form a cycle, a dependency is live under two gates, or an index names no slot |
| `TopoSort.TwoGatesAccepted` | supervisor-macros/src/lib.rs:2088-2114 | a dependency may be listed under two gates |
| `TopoSort.TwoGatesPanic` | supervisor/src/lib.rs:4782-4799 | and where both hold the sort panics though there is no cycle |
| `Shell.StepKeepsInv` | supervisor-macros/src/lib.rs:652-707 | every step of glue, shell or application keeps the protocol's invariant |
| `Shell.NeverLost` | supervisor-macros/src/lib.rs:923-964 | whatever the shell reads next, the glue's probe still holds |
| `Shell.RunInv` | supervisor-macros/src/lib.rs:1187-1207 | the invariant holds in every state of every interleaving |
| `Shell.ResourcesNeverLost` | supervisor-macros/src/lib.rs:933-960 | the lost-resource branch is unreachable over any number of activations |
| `Shell.HomeIsFixed` | supervisor-macros/src/lib.rs:979-994 | the instance lent from a slot never changes |
| `Shell.LentInstanceIsConserved` | supervisor-macros/src/lib.rs:979-994 | a lent instance is in its slot or held by the one activation, never both, and back in that slot whenever the shell is parked |
| `Shell.ConsumedOncePerRun` | supervisor-macros/src/lib.rs:943-961 | the worker runs at most as often as a consumed resource was provided |
| `Shell.ConsumedStaysEmpty` | supervisor-macros/src/lib.rs:943-961 | from the step that takes a consumed value its slot is empty until it is provided again, whatever was provided before |
| `Shell.BusyUntilProvided` | supervisor-macros/src/lib.rs:655-662 | a glue call that starts over an empty slot with nothing lent out of it fails Busy, and so does every later one, until a value is provided |
| `Shell.ConsumedThenBusy` | supervisor-macros/src/lib.rs:655-662 | so after an activation takes a consumed value no call that starts launches anything until it is provided anew |
| `Shell.ProvidedCounts` | supervisor-macros/src/lib.rs:943-961 | the worker of a consumed resource runs at most as often as somebody provided it |
| `Shell.OutsideAlone` | supervisor/src/lib.rs:1852-1940 | a value can be provided at any time, a lent one once, and is then in its slot; an exit value is taken by one waiter |
| `Shell.LostAlone` | supervisor-macros/src/lib.rs:933-961 | were a slot empty when it is read, the shell would count it, let go of all it holds and park |
| `Shell.StaleWake` | supervisor/src/lib.rs:2995-3011 | a parked shell sleeps until resumed, and goes back to sleep after a resume that starts nothing |
| `Shell.SharedStays` | supervisor-macros/src/lib.rs:926-942 | a shared or divisible resource keeps its value over any run, until it is provided again |
| `Shell.SharedNeverBusy` | supervisor-macros/src/lib.rs:655-662 | so once provided it never makes a start fail |
| `Shell.GlueAlone` | supervisor-macros/src/lib.rs:652-707 | a call by itself over filled slots succeeds, and leaves a fresh box for the shell and nothing else changed |
| `Shell.SpawnFails` | supervisor-macros/src/lib.rs:690-707 | a call whose spawn fails leaves its box to be replaced by the next call's |
| `Shell.GlueRefuses` | supervisor-macros/src/lib.rs:652-690 | a call over a running shell, without memory or over an empty slot fails and leaves everything as it was |
| `Shell.ShellAlone` | supervisor-macros/src/lib.rs:923-1207 | an activation by itself ends idle, with its lends back, its consumed values gone, its box dropped and a returned value in the exit slot |
| `Shell.BoxesAreConserved` | supervisor-macros/src/lib.rs:665-707 | at most one state box is live at rest, none once the shell parks, never more than two: a failed probe or spawn strands none |
| `Shell.ExitIsRecordedLast` | supervisor-macros/src/lib.rs:1194-1206 | when an exit is recorded the box is dropped, the lends are back and a returned value is in the exit slot or taken from it |
| `Shell.AbortLeavesExit` | supervisor-macros/src/lib.rs:1058-1062 | after an abort, until a worker next ends, the exit slot holds what it held before or a waiter took that: it is empty exactly when it was |
| `Shell.AbortedExitExactly` | supervisor-macros/src/lib.rs:1058-1062 | from the launch of an aborted activation until a worker next ends, the exit slot is empty exactly when it was at the launch or a waiter has taken since |
| `Shell.AbortOverFullSlot` | supervisor-macros/src/lib.rs:1058-1062 | a run whose abort finds, and leaves, a value in the exit slot |
| `Shell.StartReachesShell` | supervisor/src/lib.rs:2995-3011 | a start is never lost to a stale or missing wake |
| `Relay.OrSetsOneBit` | firmware/src/main.rs:71-79 | the 32-bit `fetch_or` sets one tier's bit and no other |
| `Relay.StaysInFlight` | firmware/src/main.rs:78-97 | a relayed wake stays in the word or the handler's copy until the step that pends it |
| `Relay.InFlightOrPended` | firmware/src/main.rs:56-112 | ... along every interleaving |
| `Relay.CompletedRelay` | firmware/src/main.rs:78-97 | a completed relay is in `RELAY` with the doorbell set or the handler about to swap, in the handler's bits, or pended since |
| `Relay.NoWakeLost` | firmware/src/main.rs:85-97 | once every handler is idle and the doorbell clear, every relayed bit has been pended since |
| `Relay.PendedUntilServed` | firmware/src/main.rs:91-96 | a pended interrupt stays pended until it is served |
| `Relay.WakeReachesExecutor` | firmware/src/main.rs:56-62 | quiet with nothing pended means the executor polled after the wake |
| `Relay.NoSpuriousPend` | firmware/src/main.rs:90-96 | a tier's bit is carried only after a relay of that tier |
| `Relay.PendedExactly` | firmware/src/main.rs:90-96 | a tier is pended exactly when the handler or a wake on core 0 pended it and it was not served since |
| `Relay.PendedHasCause` | firmware/src/main.rs:85-97 | so only after a relay of that tier or a wake of it on core 0 |
| `Relay.DeliveredOnce` | firmware/src/main.rs:78-97 | the handler never pends a tier more often than it was relayed, and a tier's handler on core 1 rings once for each bit it sets |
| `Relay.HandlersSettle` | firmware/src/main.rs:78-97 | with no new wakes every handler step comes nearer to rest and one can always be taken until then |
| `Scratch.Flash.BlockingErase` | firmware/src/ota.rs:245-247 | the device: an erase sets every bit of its range and nothing else |
| `Scratch.Flash.BlockingWrite` | firmware/src/ota.rs:250-252 | the device: a write ANDs its bytes in and changes nothing else |
| `Scratch.Scratch.EraseUpTo` | firmware/src/ota.rs:243-249 | the sectors not erased yet, up to the needed one, are erased in order, each once; no other cell changes |
| `Scratch.Scratch.Write` | firmware/src/ota.rs:234-253 | a write at any offset, wrapping or not: every cell, the erased count and the device log afterwards, for success, refusal, overflow and device failure |
| `Scratch.LandsInRegion` | firmware/src/ota.rs:238-252 | an accepted write lands in the region exactly when its end fits a `u32` |
| `Scratch.Append` | firmware/src/ota.rs:202-217 | a write at the running total appends its bytes or leaves the device used in order; it is refused exactly when the region is too small |
| `Scratch.AppendHolds` | firmware/src/ota.rs:234-253 | a write at the running total appends: the region holds what it held and the new bytes, and no cell before them changes |
| `Scratch.ErasesInOrder` | firmware/src/ota.rs:243-249 | the lazy erases keep the device log in order |
| `Scratch.FailedWrite` | firmware/src/ota.rs:239-252 | a failed write leaves the device used in order and the cells before the region alone |
| `Scratch.OrderlyBounds` | firmware/src/ota.rs:238-252 | every device operation stays inside the 128 KiB region |
| `Scratch.NeverErasedAfter` | firmware/src/ota.rs:243-249 | no sector is erased twice, or once anything in it is written |
| `Scratch.DivCeil` | firmware/src/ota.rs:242-242 | the number of sectors that just hold the bytes |
| `Scratch.DownloadToScratch` | firmware/src/ota.rs:202-217 | the region holds exactly the concatenated chunks, the `u32` count never wraps, and every failure is the one the body calls for |
| `Events.EventRing.constructor` | firmware/src/http.rs:415-418 | the ring starts as an empty log |
| `Events.EventRing.Record` | firmware/src/http.rs:438-468 | recording appends to the unbounded log, with the kind's code and a 32-bit tick |
| `Events.KindsAreTold` | firmware/src/http.rs:420-458 | every kind's code has that kind's wire name, and no two kinds share one |
| `Events.EventRing.NewestFirst` | firmware/src/http.rs:479-482 | the read yields the last min(n, 16) events, newest first |
| `Events.ReadableForSixteen` | firmware/src/http.rs:400-405 | an event is read, behind all later ones, for exactly the next fifteen recordings |
| `Lint.Collect` | supervisor-tools/src/lint.rs:76-97 | keys in order of first note, with each side's nodes and the monitor flag |
| `Lint.NamesAreNoted` | supervisor-tools/src/lint.rs:78-97 | a node is on a side exactly when some note puts it there |
| `Lint.LinkedToWhole` | supervisor-tools/src/lint.rs:141-149 | only elements are linked, and only to whole arrays that were noted |
| `Lint.LinkedExactly` | supervisor-tools/src/lint.rs:141-149 | an element `BASE [..]`, with any white space, belongs to the first noted non-element that is BASE or shares its path's tail |
| `Lint.Merge` | supervisor-tools/src/lint.rs:138-170 | every element noted is linked to its array, and the links are merged both ways, one by one |
| `Lint.MergedExactly` | supervisor-tools/src/lint.rs:152-170 | what a key's sides come to: its own notes, its array's, its elements', and those of earlier elements of its array; the monitor flag is not merged |
| `Lint.FinalExactly` | supervisor-tools/src/lint.rs:76-170 | the merged sides name exactly the nodes whose accesses count for a key |
| `Lint.WholeExactly` | supervisor-tools/src/lint.rs:141-147 | a key is a base's whole array exactly when it is no element and the segments of one path end in those of the other |
| `Lint.TailsMatchExactly` | supervisor-tools/src/lint.rs:230-234 | two paths match exactly when the `::`-separated segments of one end in the other's |
| `Lint.AllowMatchesExactly` | supervisor-tools/src/lint.rs:230-234 | an allow entry matches a key exactly when, a leading `crate` aside, that holds of their segments |
| `Lint.PartialNameUnmatched` | supervisor-tools/src/lint.rs:230-234 | `TEMP` matches `crate::TEMP` and not `crate::OVERTEMP` |
| `Lint.AllowIgnoresCrate` | supervisor-tools/src/lint.rs:230-234 | a leading `crate::` makes no difference to an allow match |
| `Lint.AllowMatchesTail` | supervisor-tools/src/lint.rs:230-234 | a path matches any `::`-separated tail of itself, either way round |
| `Lint.Report` | supervisor-tools/src/lint.rs:171-197 | the verdicts in key order, with each suppressed one marking the first matching allow entry |
| `Lint.LintGraph` | supervisor-tools/src/lint.rs:74-198 | one graph's warnings and allow hits |
| `Lint.DataflowLints` | supervisor-tools/src/lint.rs:65-207 | all graphs' warnings, then the stale entries |
| `Lint.AllExactly` | supervisor-tools/src/lint.rs:74-207 | every graph's warnings are reported, and no others but the stale entries |
| `Lint.OrphanExactly` | supervisor-tools/src/lint.rs:171-190 | an orphan read is reported exactly when a counting access reads, none writes and no allow entry matches; it names exactly the readers |
| `Lint.DeadExactly` | supervisor-tools/src/lint.rs:171-196 | the same for dead writes not consumed by the monitor |
| `Lint.OrphanSound` | supervisor-tools/src/lint.rs:171-190 | an orphan read means no write on the key, its whole array or its elements |
| `Lint.OrphanComplete` | supervisor-tools/src/lint.rs:171-190 | a read key with no write anywhere around its array and no allow entry is reported |
| `Lint.DeadSound` | supervisor-tools/src/lint.rs:171-196 | a dead write means no read on the key, its whole array or its elements, and no monitor |
| `Lint.DeadComplete` | supervisor-tools/src/lint.rs:171-196 | a written key, unmonitored, with no read anywhere around its array and no allow entry is reported |
| `Lint.LaterSiblingUnseen` | supervisor-tools/src/lint.rs:152-170 | of two elements of one array only the later noted counts the other's accesses |
| `Lint.StaleExactly` | supervisor-tools/src/lint.rs:181-205 | an allow entry is called stale exactly when it was never the first match of a would-be finding |
| `Markdown.LastWriteWins` | supervisor-tools/src/out.rs:123-149 | updating with x then y is updating with y, in both cases, exactly when x holds no end marker |
| `Markdown.OutsideUnchanged` | supervisor-tools/src/out.rs:128-142 | text before and after the markers is kept; an append adds only line breaks, a blank line before the block |
| `Markdown.UpdateFrames` | supervisor-tools/src/out.rs:128-142 | where the block goes does not depend on the block, and no marker stands before it |
| `Markdown.UpdateFramed` | supervisor-tools/src/out.rs:128-132 | an update of a managed document replaces up to the block's first end marker |
| `Markdown.NoStraddle` | supervisor-tools/src/out.rs:124-126 | no marker overlaps a boundary: one that begins before a `<` or a line break ends there |
| `Base64.Base64Url` | supervisor-tools/src/out.rs:24-43 | the loop computes the encoding |
| `Base64.Debase64Url` | supervisor-tools/src/out.rs:223-245 | the loop computes the decoding |
| `Base64.RoundTrip` | supervisor-tools/src/out.rs:24-245 | decoding undoes encoding, for every byte sequence |
| `Base64.EncodesAsRfc4648` | supervisor-tools/src/out.rs:24-43 | the output is the padded encoding of section 5 of RFC 4648: 4*ceil(n/3) characters, each group naming its 24 bits in the URL-safe alphabet |

## Left out

- Scratch.Flash.BlockingErase: a refused device operation leaves the flash as it was; what a real device leaves after a fault is unknown.
- Walker.Rewriter.RewriteFirstArg: the Rust expression grammar is a parameter (`Scan.parse`), assumed only to be a function of the tokens.
- Walker.Rewriter.RewriteVerbCallsIn: a callback is a function of the calls it has been told, so its own side effects are the caller's to replay; the tables are filled from that record after the walk.
- NodeParser.ParseNode: works on clauses whose list entries are already parsed, so entry markers (`observed`, `beat`, `consume`, ...) and which error is reported first are not covered.
- NodeParser.CommonClauses.ParseOne: a field keeps the whole written clause, where the source keeps its keyword, gate and value.
- Dataflow.DataflowExpand: the emitted body is assumed to parse as a block again.
- Dataflow.BundleExpand: what the attribute's argument parses to, a name or nothing, is a parameter.
- Slots.PlanBudgets: the items name their `divisible` resources only; the other checks on resource names (shadowed executors, repeated, `shared`, `serialized` and `local` slots) can refuse a graph too.
- Slots.PlanVetoes: the last segment of a spelling is a parameter, any function of its text.
- Layout.Expand: whether an item's own definition can be emitted is a parameter.
- Shell.Step: nobody outside takes or clears a resource slot, a lent resource is provided once, and entries a build leaves out are dropped from the list; a pool member is this machine with its own slot elements. Injected faults (the `fault-inject` feature) are not modelled.
- Relay.Step: each atomic operation and register write is one sequentially consistent step; weaker memory orderings are not modelled.
- Lint.DataflowLints: starts from the notes of declared and discovered accesses; how a discovered path is matched to a declared key is not part of this model, nor is the public-gate lint.
- Markdown.LastWriteWins: about the text; reading and writing the file is left out.
- Base64.Base64Url: shifts and ORs of disjoint bit fields are written as sums, products and quotients.
- Token spans, spacing and hygiene, and the wording of error messages.
- The lifecycle waves, activation cascades, pool policy, liveness monitor, gates and budgets at run time.
- The mermaid and HTML rendering, file discovery, HTTP serving, network and boot code, decompression: I/O and plumbing.
