# Permission scope trie (Grafana access control)

This project models the scope trie in `pkg/services/accesscontrol` and its
metadata-map helpers, and proves properties of the model in Dafny.

The trie (`trie.go`) indexes granted `(action, scope)` pairs. It has one node
per colon-delimited scope segment. Each node holds the actions granted exactly
at that node, and the trie also keeps a set of every action it has seen.

- **Insertion** (`addNode`) splits the remaining path at the first `:`. It marks
  the action when the remaining path is the node's own segment or `*`. It stops
  early when the node already holds the action.
- **Queries.** One path-descent walk, with a stop callback, serves two queries:
  - `HasAccess` stops at the first node on the path that holds the action;
  - `Metadata` collects the actions of every node on the path.

A second, divergent trie in `tree.go` has its own module. Its insertion has no
empty-path guard, and its `HasAccess` only reads the root. The helpers in
`metadata.go` merge, extend and build per-resource action maps. The benchmark
in `trie_bench_test.go` also has a model, together with the property its
assertions check.

Modules:

| file | module | models |
|---|---|---|
| `wrappers.dfy` | `Wrappers` | the `Option` type: a nil Go map, or an insertion that marks no node |
| `scopes.dfy` | `Scopes` | the `:` delimiter, `strings.Index` and the head/tail split, with its quirks; `MarkPath`, `QueryPath` and `Covers`, the descent of insertion and of the walk computed on the scope strings alone |
| `nodes.dfy` | `ScopeNodes` | the `Node` shape both tries share, and the reference relations on nodes: well-formedness, extension, action bounds, and `HasMark` (the node at a key path holds an action) |
| `trie.dfy` | `ScopeTrie` | `trie.go`: the builders with their loop bodies (`Insert` is one pass of the `TrieFromPermissions` loop, lines 13-14), `addNode`, `walk` with its two callbacks (`HoldsAction` for `HasAccess`, lines 52-58, and `NeverStop` for `Metadata`, lines 64-69), `HasAccess`, `Metadata` |
| `trie_bounds.dfy` | `ScopeTrieBounds` | exactly which scopes a built trie grants, in terms of the permission strings (`Covers`), and worked examples |
| `trie_fixed.dfy` | `SegmentTrie` | a corrected trie that consumes one segment per level, with the same exactness theorem (see "Findings") |
| `tree.dfy` | `PermissionTree` | `tree.go`: `BuildPermissionTrie` (with `Insert`, the loop body at line 8), `NewTree`, `addNode`, `HasAccess`, `hasAccess` |
| `metadata.dfy` | `ResourceMetadata` | `metadata.go`: `Metadata`, `MergeMeta`, `addActionToMetadata` (`AddActionToMetadata`, specified by `AddActionRecords`), `GetResourcesMetadata` |
| `trie_bench.dfy` | `TrieBench` | `generatePermissions` (with `Decimal`, the `%v` rendering of a number, and `Named`, the `fmt.Sprintf` names it builds) and one pass of `benchGetTrieMetadata` |

How Go maps out to Dafny:

- **Nodes are values.** Go keeps children by value in `map[string]Node` but
  shares their inner `Actions`/`Children` maps. Recursing into the copy `c`
  therefore updates the stored child. So `AddNode` is a function that returns
  the updated node, and the parent stores the updated child under the head
  segment.
- **Action maps.** An `Actions` map only ever holds `true`, so it is a
  `set<string>`. `Metadata` stays a `map<string, bool>`.
- **The reference meaning of a grant** is `ScopeTrie.Granted`: the action is
  held on the node for the path or on one of its ancestors. Both queries are
  proved against it.
- **The reference relation** for "insertion only extends" is
  `ScopeNodes.Sub`. It holds when every action and every child of one node is
  also in the other, recursively.
- **Exactly what is granted.** `Scopes.MarkPath(own, path)` lists the child
  keys insertion descends through before it marks a node, and
  `Scopes.QueryPath(own, path)` the keys the walk follows. A permission's scope
  covers a query (`Scopes.Covers`) when its mark's keys are a prefix of the
  query's. `ScopeTrieBounds.BuildExact` proves that a built trie grants a
  non-empty scope exactly when some input permission for the action covers it.

Behaviours of the split worth knowing:

- With no delimiter in the remaining path, the tail is the whole path, not the
  empty string (`path[idx+1:]` with `idx == -1`). The recursion stops at once
  because the child's segment equals the path.
- The wildcard applies only when the remaining path is exactly `*`. A `*`
  segment followed by more segments is an ordinary segment.
- A scope that ends with `:` (such as `folders:`) creates its child node but
  grants nothing on that scope (`ScopeTrie.TrailingDelimiterIgnored`). The
  action still joins the trie-wide set, so only the scope-less check sees it.
- Marking compares the whole remaining path with the node's own segment, so a
  scope that repeats a segment, such as `x:x`, marks node `x` itself (see
  "Findings").

## Model

| member | source | states |
|---|---|---|
| Scopes.Index | pkg/services/accesscontrol/trie.go:96 | the result is -1 or a valid position in the string |
| Scopes.IndexIsFirst | pkg/services/accesscontrol/trie.go:96 | `strings.Index` is -1 exactly when the delimiter is absent; otherwise it is the first position holding the delimiter |
| Scopes.Split | pkg/services/accesscontrol/trie.go:95-99 | the tail is strictly shorter than the path, unless head and tail are both the whole path |
| Scopes.SplitCases | pkg/services/accesscontrol/trie.go:95-111 | a delimiter after the first character splits the path into the first segment, `:` and the rest. With no delimiter, head and tail are both the path. With a leading `:`, the head is the path and the tail drops the `:`. These are the only cases where the head is the whole path |
| Scopes.TailKeepsShape | pkg/services/accesscontrol/trie.go:111 | the tail of a non-empty scope that does not end with `:` is again non-empty and does not end with `:` |
| ScopeTrie.NewTrie | pkg/services/accesscontrol/trie.go:30-40 | the new trie has a well-formed root with the empty path and grants no action on any scope |
| ScopeTrie.AddNode | pkg/services/accesscontrol/trie.go:80-112 | an empty path, or a node that already holds the action, is left unchanged. The node keeps its segment and root flag, gains at most `action`, and gains at most the child for the head segment |
| ScopeTrie.AddNodeMarks | pkg/services/accesscontrol/trie.go:85-93 | the marking rule: afterwards the node holds the action exactly when it held it before, or the path is non-empty and equals the node's segment or is `*`. In that case no child changes |
| ScopeTrie.AddNodeExtends | pkg/services/accesscontrol/trie.go:80-112 | insertion never removes an action or a child, at any depth |
| ScopeTrie.AddNodeGrants | pkg/services/accesscontrol/trie.go:80-112 | after inserting `(a, s)`, with `s` non-empty and not ending in `:`, `a` is granted on `s` below that node |
| ScopeTrie.AddNodeWellFormed | pkg/services/accesscontrol/trie.go:101-109 | insertion keeps every child stored under its own segment and not marked as a root |
| ScopeTrie.AddNodeWithin | pkg/services/accesscontrol/trie.go:85-87 | insertion marks no action other than the one inserted |
| ScopeTrie.AddNodeIdempotent | pkg/services/accesscontrol/trie.go:80-112 | inserting the same action and path twice gives the same node as inserting it once |
| ScopeTrie.AddNodeAbsorbed | pkg/services/accesscontrol/trie.go:90-93 | inserting into any extension of a node that already received `(a, s)` changes nothing |
| ScopeTrie.Walk | pkg/services/accesscontrol/trie.go:114-133 | the walk visits the start node first, and the stop callback asks to stop at most once, on the last node visited |
| ScopeTrie.AnyHoldsCons | pkg/services/accesscontrol/trie.go:52-58 | the `hasAccess` flag is set on a node list exactly when its first node holds the action or the rest sets it |
| ScopeTrie.WalkFindsGrant | pkg/services/accesscontrol/trie.go:51-59 | the early-stopping walk meets a node holding the action exactly when the action is granted on the path |
| ScopeTrie.PathNodesFindGrant | pkg/services/accesscontrol/trie.go:64-69 | the union of the actions on the full descent contains the action exactly when the action is granted on the path |
| ScopeTrie.HasAccess | pkg/services/accesscontrol/trie.go:47-60 | the empty scope answers from the trie-wide action set. Any other scope is answered true exactly when the action is held on that scope's node or on an ancestor |
| ScopeTrie.Metadata | pkg/services/accesscontrol/trie.go:62-71 | the keys are exactly the actions of every node on the descent, and every value is true |
| ScopeTrie.ActionsOnSnoc | pkg/services/accesscontrol/trie.go:65-67 | adding one more visited node adds exactly its actions to the union |
| ScopeTrie.HasAccessIffMetadata | pkg/services/accesscontrol/trie.go:47-71 | for a non-empty scope, `HasAccess(a, s)` holds exactly when `a` is in `Metadata(s)` |
| ScopeTrie.PathNodesWithin | pkg/services/accesscontrol/trie.go:62-71 | the metadata of any scope holds only actions that occur in the tree |
| ScopeTrie.GrantedMono | pkg/services/accesscontrol/trie.go:114-133 | a grant on a path survives any extension of the tree |
| ScopeTrie.AccessMono | pkg/services/accesscontrol/trie.go:47-60 | `HasAccess` stays true when the action set and the tree only grow |
| ScopeTrie.InsertKeepsAccess | pkg/services/accesscontrol/trie.go:12-15 | one more insertion preserves every access that was granted |
| ScopeTrie.BuildFromKeepsAccess | pkg/services/accesscontrol/trie.go:12-15 | any number of further insertions preserve every access that was granted |
| ScopeTrie.BuildFromSub | pkg/services/accesscontrol/trie.go:12-15 | building only extends the tree and the action set |
| ScopeTrie.TrieFromPermissions | pkg/services/accesscontrol/trie.go:10-17 | the loop computes `Build(perms)`, the front-to-back fold of the insertion step |
| ScopeTrie.BuildFromAppend | pkg/services/accesscontrol/trie.go:12-15 | building from a concatenation is building from the first part and then from the second |
| ScopeTrie.BuildAt | pkg/services/accesscontrol/trie.go:12-15 | the build splits around any position: build the prefix, insert the element, then build the rest |
| ScopeTrie.BuildFromActions | pkg/services/accesscontrol/trie.go:13 | after building, the trie-wide set holds exactly the old actions plus every input action |
| ScopeTrie.BuildFromShape | pkg/services/accesscontrol/trie.go:10-17 | building keeps the root well formed, with the empty path, and holding only actions from the trie-wide set |
| ScopeTrie.BuildShape | pkg/services/accesscontrol/trie.go:10-17 | after `TrieFromPermissions`, the trie-wide set is exactly the set of input actions, and the root is a well-formed root with the empty path |
| ScopeTrie.BuildGrants | pkg/services/accesscontrol/trie.go:10-17 | every input permission whose scope does not end in `:` is granted afterwards; an empty scope is granted through the action set |
| ScopeTrie.BuildAbsorbs | pkg/services/accesscontrol/trie.go:10-17 | re-inserting any input permission into the built trie changes nothing |
| ScopeTrie.BuildDropsDuplicate | pkg/services/accesscontrol/trie.go:10-17 | a permission that occurs earlier in the list can be dropped without changing the trie that is built |
| ScopeTrie.AddScopes | pkg/services/accesscontrol/trie.go:23-25 | the inner loop keeps the action set and the trie's shape, only extends the tree, and grants the action on each of its scopes that does not end in `:`. The result is the insertion fold over the pairs `(action, scope)`, in list order |
| ScopeTrie.PairsStep | pkg/services/accesscontrol/trie.go:24 | one inner-loop insertion is one more step of that fold |
| ScopeTrie.AddScopeStep | pkg/services/accesscontrol/trie.go:24 | one inner-loop insertion keeps the root well formed with the empty path and its actions within the trie-wide set. It only extends the tree, and it grants the action on its scope unless that scope ends in `:` |
| ScopeTrie.GrantsFirstStep | pkg/services/accesscontrol/trie.go:23-25 | after one more inner-loop insertion, the action is still granted on every earlier scope and is now granted on the new one |
| ScopeTrie.TrieFromMap | pkg/services/accesscontrol/trie.go:19-28 | the trie-wide set is every key, including keys with no scopes. The root stays well formed, and every listed scope not ending in `:` is granted for its action. The tree is the one `TrieFromPermissions` builds from a list `q` that holds exactly the map's `(key, scope)` pairs. No visiting order is assumed |
| ScopeTrie.MapStep | pkg/services/accesscontrol/trie.go:21-26 | one pass of the outer loop keeps every earlier grant, grants the new key's scopes, and extends the flattened list by exactly the new key's pairs |
| ScopeTrie.FlattenStep | pkg/services/accesscontrol/trie.go:21-25 | appending one key's pairs to a flattening of some keys gives a flattening of those keys and that key |
| ScopeTrie.BuildFromSameRoot | pkg/services/accesscontrol/trie.go:12-15 | the tree the loop builds depends only on the starting tree, not on the starting action set |
| ScopeTrie.SplitAtSegment | pkg/services/accesscontrol/trie.go:95-99 | a path that is `p` or starts with `p:`, for a single segment `p`, splits into head `p` and the rest after `p:` |
| ScopeTrie.AddNodeWildcard | pkg/services/accesscontrol/trie.go:85-87 | below a node with the empty path, inserting `p:*` grants the action on `p` and on every scope that starts with `p:` |
| ScopeTrie.BuildWildcard | pkg/services/accesscontrol/trie.go:85-87 | after building from a list containing `(a, "p:*")`, `HasAccess(a, q)` holds for `q == p` and for every `q` starting with `p:` |
| ScopeTrie.RootTrailing | pkg/services/accesscontrol/trie.go:101-111 | below an empty root, `seg:` adds a bare child `seg` and grants nothing on `seg:` |
| ScopeTrie.TrailingDelimiterIgnored | pkg/services/accesscontrol/trie.go:10-17 | building from the single permission `(a, "seg:")` yields a root whose only change is a bare child `seg`. The trie-wide set is `{a}`, and `HasAccess(a, "seg:")` is false |
| ScopeNodes.HasMarkSub | pkg/services/accesscontrol/trie.go:80-112 | a mark, an action held at the node a key path reaches, survives any extension of the tree |
| ScopeTrieBounds.AddNodeMarksOnly | pkg/services/accesscontrol/trie.go:80-112 | the only mark one insertion of `(a, path)` can add is `a` at the keys `MarkPath` gives for `path` |
| ScopeTrieBounds.AddNodeMarksOnPath | pkg/services/accesscontrol/trie.go:80-112 | when `MarkPath` gives keys for `path`, the insertion leaves `a` marked at those keys or at a prefix of them, where it stopped at a node already holding `a` |
| ScopeTrieBounds.MarkFoundByWalk | pkg/services/accesscontrol/trie.go:114-133 | a mark whose keys are a prefix of the keys the walk for `q` follows grants `q` |
| ScopeTrieBounds.MarkOfGrant | pkg/services/accesscontrol/trie.go:114-133 | every grant on `q` comes from a mark whose keys are a prefix of the walk's keys for `q` |
| ScopeTrieBounds.BuildFromMarksOnly | pkg/services/accesscontrol/trie.go:12-15 | every mark after the loop was there before or is `(p.action, MarkPath(p.scope))` for an input permission `p` |
| ScopeTrieBounds.BuildFromMarksOnPath | pkg/services/accesscontrol/trie.go:12-15 | each input permission leaves its action marked at its `MarkPath` keys or at a prefix of them |
| ScopeTrieBounds.BuildExact | pkg/services/accesscontrol/trie.go:10-17 | after `TrieFromPermissions`, `HasAccess(a, s)` for a non-empty `s` holds exactly when some input permission `(a, p)` covers `s`, both directions |
| ScopeTrieBounds.BuildOne | pkg/services/accesscontrol/trie.go:10-17 | a trie built from one permission grants a non-empty scope exactly when that permission covers it |
| ScopeTrieBounds.TrieFromMapExact | pkg/services/accesscontrol/trie.go:19-28 | after `TrieFromMap`, `HasAccess(a, s)` for a non-empty `s` holds exactly when `a` is a key and one of its scopes covers `s` |
| ScopeTrieBounds.SingleGrantExample | pkg/services/accesscontrol/trie.go:80-133 | a single grant of `x:y:z` (single segments, `z` not `*`, `y != z`) grants `x:y:z` but neither `x` nor a sibling `x:y:w` |
| ScopeTrieBounds.RepeatedSegmentOverGrant | pkg/services/accesscontrol/trie.go:85-87 | as written, a grant of `x:x` grants `x` and every `x:other` |
| ScopeTrieBounds.RepeatedWildcardUnderGrant | pkg/services/accesscontrol/trie.go:120-122 | as written, a grant of `x:x:*` does not grant `x:x` |
| SegmentTrie.AddSegsExtends | pkg/services/accesscontrol/trie.go:80-112 | the corrected insertion never removes an action or a child |
| SegmentTrie.AddSegsMarksOnly | pkg/services/accesscontrol/trie.go:80-112 | the corrected insertion adds only the mark of the action at the scope's segments, less a final `*` |
| SegmentTrie.AddSegsMarksOnPath | pkg/services/accesscontrol/trie.go:90-93 | the corrected insertion marks the action at those segments or at a prefix of them, where it stopped early |
| SegmentTrie.MarkFound | pkg/services/accesscontrol/trie.go:114-133 | in the corrected walk, any mark on the query's segments grants the query |
| SegmentTrie.MarkOfGrant | pkg/services/accesscontrol/trie.go:114-133 | in the corrected walk, every grant comes from a mark on the query's segments |
| SegmentTrie.BuildExact | pkg/services/accesscontrol/trie.go:10-17 | the corrected build grants a non-empty scope exactly when some permission for the action names a node at or above it (its segments, less a final `*`, are a prefix of the query's) |
| SegmentTrie.RepeatedSegmentFixed | pkg/services/accesscontrol/trie.go:85-87 | corrected, a grant of `x:x` grants `x:x` and neither `x` nor a sibling `x:y` |
| SegmentTrie.RepeatedWildcardFixed | pkg/services/accesscontrol/trie.go:120-122 | corrected, a grant of `x:x:*` grants `x:x` |
| ScopeNodes.ReplaceChildIsSub | pkg/services/accesscontrol/trie.go:111 | storing an extension of a child under its key extends the parent |
| ScopeNodes.WellFormedReplace | pkg/services/accesscontrol/trie.go:101-109 | storing a well-formed child under its own segment keeps the parent well formed |
| PermissionTree.NewTree | pkg/services/accesscontrol/tree.go:13-22 | the new tree has a well-formed root with the empty path and grants nothing |
| PermissionTree.AddNode | pkg/services/accesscontrol/tree.go:32-60 | the node gains the action exactly when it held it, the path ends at it, or the path is `*`. No child is created in those cases, and the node keeps its segment and root flag |
| PermissionTree.AddNodeExtends | pkg/services/accesscontrol/tree.go:32-60 | insertion never removes an action or a child |
| PermissionTree.AddNodeWellFormed | pkg/services/accesscontrol/tree.go:49-57 | insertion keeps every child stored under its own segment |
| PermissionTree.NoDelimiterMarksLeaf | pkg/services/accesscontrol/tree.go:43-59 | with no `:` left, the child is keyed by the whole remaining path; that child is marked, and nothing else changes |
| PermissionTree.NodeHasAccess | pkg/services/accesscontrol/tree.go:69-79 | both branches answer whether the node itself holds the action |
| PermissionTree.HasAccess | pkg/services/accesscontrol/tree.go:28-30 | the answer is whether the root holds the action, for every scope |
| PermissionTree.BuildPermissionTrie | pkg/services/accesscontrol/tree.go:5-11 | the loop computes `Build(perms)`, the front-to-back fold of `addNode` on the root |
| PermissionTree.BuildFromRoot | pkg/services/accesscontrol/tree.go:5-11 | after building, the root holds an action exactly when it held it before or some permission grants it on `""` or `*` |
| PermissionTree.BuildRootHolds | pkg/services/accesscontrol/tree.go:5-11 | after `BuildPermissionTrie`, `HasAccess(a, s)` holds exactly when the list contains `(a, "")` or `(a, "*")` |
| PermissionTree.BuildFromGrows | pkg/services/accesscontrol/tree.go:7-9 | building keeps the tree well formed and only extends it |
| PermissionTree.AccessKept | pkg/services/accesscontrol/tree.go:28-30 | an access that holds stays true after any further insertions |
| ResourceMetadata.MergedMeaning | pkg/services/accesscontrol/metadata.go:38-49 | the merge maps every prefixed key of `second` to true and keeps every other key of `first` with its value. It adds nothing else |
| ResourceMetadata.MergeMeta | pkg/services/accesscontrol/metadata.go:38-49 | the result is `first`, or a fresh empty map when `first` is nil, with every prefixed key of `second` set to true, whatever its value in `second` |
| ResourceMetadata.MergeIdempotent | pkg/services/accesscontrol/metadata.go:43-47 | merging the same `second` twice gives the same map as merging it once |
| ResourceMetadata.MergeIntoNil | pkg/services/accesscontrol/metadata.go:39-41 | merging into a nil map yields exactly the prefixed keys of `second`, all true |
| ResourceMetadata.AddActionRecords | pkg/services/accesscontrol/metadata.go:26-35 | afterwards `m[id][a]` is true and `id` is a key. Earlier actions under `id` keep their values, only `a` is added there, and every other id is unchanged |
| ResourceMetadata.AddActionIdempotent | pkg/services/accesscontrol/metadata.go:26-35 | recording the same action under the same id twice is the same as recording it once |
| ResourceMetadata.GetResourcesMetadata | pkg/services/accesscontrol/metadata.go:15-24 | the result has exactly the keys of `resourceIDs`, whatever their values, and maps each id to the user's metadata for `prefix + id` |
| TrieBench.DecimalShape | pkg/services/accesscontrol/trie_bench_test.go:17 | a `%v` rendering of a number is non-empty and ends with a digit |
| TrieBench.DecimalInjective | pkg/services/accesscontrol/trie_bench_test.go:15-17 | distinct numbers have distinct `%v` renderings |
| TrieBench.NamedInjective | pkg/services/accesscontrol/trie_bench_test.go:15-17 | distinct numbers yield distinct action names and distinct scope names |
| TrieBench.ScopeNameShape | pkg/services/accesscontrol/trie_bench_test.go:17 | every generated scope is non-empty and does not end in `:` |
| TrieBench.IndexOfName | pkg/services/accesscontrol/trie_bench_test.go:16-17 | every generated name is the name of some index below the bound |
| TrieBench.NamesBelowCount | pkg/services/accesscontrol/trie_bench_test.go:14-16 | `n` indices give exactly `n` distinct names |
| TrieBench.NameListAt | pkg/services/accesscontrol/trie_bench_test.go:18 | the scope list of an action has length `n`, and its `r`-th entry is the scope for `r` |
| TrieBench.NameListLength | pkg/services/accesscontrol/trie_bench_test.go:18 | the scope list of an action has length `n` |
| TrieBench.AppendScopes | pkg/services/accesscontrol/trie_bench_test.go:16-20 | the inner loop gives a new action the full list of scopes, in order, and marks every scope as an id |
| TrieBench.GeneratePermissions | pkg/services/accesscontrol/trie_bench_test.go:10-24 | the actions are the names for the indices below `permissionPerResource`, each with the full scope list. The ids are every scope, all true. Both are empty when the other count is 0 |
| TrieBench.MetadataIsAllActions | pkg/services/accesscontrol/trie.go:62-71 | a scope on which every action of the trie is granted has metadata equal to the full action set |
| TrieBench.IdMetadata | pkg/services/accesscontrol/trie_bench_test.go:26-41 | in the benchmark trie, the metadata of each generated scope is the whole action set, of size `k` |
| TrieBench.AllIdsMetadata | pkg/services/accesscontrol/trie_bench_test.go:36-39 | each id's metadata has `k` entries, and there are `resourceCount` ids, or none when `k` is 0 |
| TrieBench.MetadataOfEach | pkg/services/accesscontrol/trie_bench_test.go:33-35 | the loop stores, for every id, the keys `Metadata(id)` reports |
| TrieBench.BenchTrieMetadata | pkg/services/accesscontrol/trie_bench_test.go:26-41 | what the benchmark asserts: `metas` has `resourceCount` entries, each with exactly `permissionPerResource` actions. With 0 actions there are no ids and no entries |

## Findings

| source | as written | input that shows it | evidently intended | confidence | as-written member | corrected member |
|---|---|---|---|---|---|---|
| pkg/services/accesscontrol/trie.go:85-87 | a node is marked when the remaining path equals its own segment, even when that remaining path is a further segment | `(A, "x:x")` makes `HasAccess(A, "x")` and `HasAccess(A, "x:other")` true | `x:x` grants `x:x` and the scopes below it, and nothing above | not executed | ScopeTrieBounds.RepeatedSegmentOverGrant | SegmentTrie.RepeatedSegmentFixed |
| pkg/services/accesscontrol/trie.go:120-122 | the walk stops when the remaining path equals the node's segment, so it never reaches child `x` of node `x` | `(A, "x:x:*")` leaves `HasAccess(A, "x:x")` false | `x:x:*` grants `x:x` and everything below it | not executed | ScopeTrieBounds.RepeatedWildcardUnderGrant | SegmentTrie.RepeatedWildcardFixed |

Both rows come from one cause: marking and stopping compare the whole remaining
path with the node's segment. The corrected trie (`SegmentTrie`) cuts the scope
into segments and consumes one per level. `SegmentTrie.BuildExact` proves the
intended property for it: a scope is granted exactly when some permission names
a node at or above it. The rest of the model keeps the code's behaviour, since
`Metadata` and the benchmark are stated about the code as written.

## Left out

- The `delim` parameter of `Node.addNode` is fixed to `:`. Every call site passes `":"`, and `walk` and `tree.go` hard-code it.
- The unused `pathDelim` constant (`trie.go:6`) is not modelled.
- Go map aliasing is not modelled:
  - `MergeMeta` returns the very map it was given when `first` is non-nil;
  - `addActionToMetadata` updates `allMetadata` and the inner map in place;
  - children share their inner maps with the stored copies.
  The model uses values, so it captures the resulting contents but not the sharing.
- The panic on a nil `allMetadata` in `addActionToMetadata` is not modelled, because the model's maps are never nil. Only `first` in `MergeMeta` has a nil case (`Option`).
- `GetResourcesMetadata`: the unused `ctx` is dropped. `user.Permissions.Metadata` is a parameter `metadataOf`, because its body is outside this model.
- `TrieFromMap` and the map loops visit keys in no fixed order, and no claim about order is made. The same goes for `MergeMeta`, `GetResourcesMetadata`, `Metadata` and the benchmark loop.
- ScopeTrie.BuildWildcard: covers a wildcard directly under a single segment (`p:*`), not one under a deeper prefix such as `a:b:*`.
- TrieBench.BenchTrieMetadata: models one pass of the `b.N` timing loop. Timing, `b.ResetTimer` and the `assert` library are left out. The fixed name prefixes `resources:action` and `resources:id:` are parameters, and the property holds for any prefixes.
- TrieBench.AppendScopes: requires an action not yet in the map. The generator's action names are distinct (`TrieBench.NamedInjective`), so appending to an existing list never happens.
- The JSON fixtures and file reading of `tree_test.go` are not modelled; neither is `evaluator_bench_test.go` (it needs evaluator code outside this model) or `pkg/services/user/userimpl/user.go` (storage and services).
- The two tries share one node shape (`ScopeNodes.Node`). In Go the two files declare clashing types of the same name.
