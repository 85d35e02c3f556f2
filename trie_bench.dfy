/** The metadata benchmark of pkg/services/accesscontrol/trie_bench_test.go.

    `generatePermissions` grants each of `permissionPerResource` actions
    (`resources:action0`, `resources:action1`, ...) on each of `resourceCount`
    scopes (`resources:id:0`, `resources:id:1`, ...), the trie is built with
    `TrieFromMap`, and the benchmark asserts that every scope's metadata
    holds exactly `permissionPerResource` actions. The timing loop over `b.N`
    repeats an identical pass; one pass is modelled. */
module TrieBench {
  import opened Scopes
  import opened ScopeNodes
  import opened ScopeTrie
  import ResourceMetadata

  // ---------------------------------------------------------------- names

  /** The decimal digit for `d`. */
  function Digit(d: nat): (c: char)
    requires d < 10
    ensures '0' <= c <= '9'
  {
    ('0' as int + d) as char
  }

  /** `fmt.Sprintf("%v", n)` for a non-negative int: its decimal digits. */
  function Decimal(n: nat): string
    decreases n
  {
    if n < 10 then [Digit(n)] else Decimal(n / 10) + [Digit(n % 10)]
  }

  /** `fmt.Sprintf(prefix + "%v", n)`. */
  function Named(prefix: string, n: nat): string {
    prefix + Decimal(n)
  }

  /** The names `prefix + i` for every `i < n`. */
  function NamesBelow(prefix: string, n: nat): set<string>
    decreases n
  {
    if n == 0 then {} else NamesBelow(prefix, n - 1) + {Named(prefix, n - 1)}
  }

  /** The names `prefix + 0`, ..., `prefix + (n - 1)`, in order. */
  function NameList(prefix: string, n: nat): seq<string>
    decreases n
  {
    if n == 0 then [] else NameList(prefix, n - 1) + [Named(prefix, n - 1)]
  }

  /** Decimal strings are non-empty and end with a digit. */
  lemma {:induction false} DecimalShape(n: nat)
    decreases n
    ensures |Decimal(n)| > 0 && '0' <= Decimal(n)[|Decimal(n)| - 1] <= '9'
    ensures n >= 10 ==> |Decimal(n)| >= 2
  {
    if n >= 10 {
      DecimalShape(n / 10);
    }
  }

  /** Different numbers print differently. */
  lemma {:induction false} DecimalInjective(n: nat, m: nat)
    requires Decimal(n) == Decimal(m)
    decreases n
    ensures n == m
  {
    DecimalShape(n);
    DecimalShape(m);
    var s := Decimal(n);
    assert Digit(n % 10) == s[|s| - 1] == Digit(m % 10);
    if n >= 10 && m >= 10 {
      assert Decimal(n / 10) == s[..|s| - 1] == Decimal(m / 10);
      DecimalInjective(n / 10, m / 10);
    }
  }

  lemma NamedInjective(prefix: string, n: nat, m: nat)
    requires Named(prefix, n) == Named(prefix, m)
    ensures n == m
  {
    assert Decimal(n) == Named(prefix, n)[|prefix|..] == Decimal(m);
    DecimalInjective(n, m);
  }

  /** A generated scope is non-empty and does not end with the delimiter. */
  lemma ScopeNameShape(scopePrefix: string, n: nat)
    ensures Named(scopePrefix, n) != "" && !EndsWithDelim(Named(scopePrefix, n))
  {
    DecimalShape(n);
    var s := Named(scopePrefix, n);
    assert s[|s| - 1] == Decimal(n)[|Decimal(n)| - 1];
  }

  /** Every name below `n` is the name of some number below `n`. */
  lemma {:induction false} IndexOfName(prefix: string, n: nat, name: string) returns (i: nat)
    requires name in NamesBelow(prefix, n)
    decreases n
    ensures i < n && Named(prefix, i) == name
  {
    if name == Named(prefix, n - 1) {
      i := n - 1;
    } else {
      i := IndexOfName(prefix, n - 1, name);
    }
  }

  /** There are exactly `n` distinct names below `n`. */
  lemma {:induction false} NamesBelowCount(prefix: string, n: nat)
    decreases n
    ensures |NamesBelow(prefix, n)| == n
  {
    if n > 0 {
      NamesBelowCount(prefix, n - 1);
      if Named(prefix, n - 1) in NamesBelow(prefix, n - 1) {
        var i := IndexOfName(prefix, n - 1, Named(prefix, n - 1));
        NamedInjective(prefix, i, n - 1);
      }
    }
  }

  /** Position `i` of the list holds the name for `i`. */
  lemma {:induction false} NameListAt(prefix: string, n: nat, i: nat)
    requires i < n
    decreases n
    ensures |NameList(prefix, n)| == n && NameList(prefix, n)[i] == Named(prefix, i)
  {
    NameListLength(prefix, n);
    if i < n - 1 {
      NameListAt(prefix, n - 1, i);
    }
  }

  lemma {:induction false} NameListLength(prefix: string, n: nat)
    decreases n
    ensures |NameList(prefix, n)| == n
  {
    if n > 0 {
      NameListLength(prefix, n - 1);
    }
  }

  // ---------------------------------------------------------------- generatePermissions

  /** `generatePermissions(b, resourceCount, permissionPerResource)`: every
      action maps to the full list of scopes, in order. An action is only
      entered into the map by an `append`, so with no resources there are no
      actions; the id set is filled inside both loops, so with no actions there
      are no ids. */
  method GeneratePermissions(actionPrefix: string, scopePrefix: string, resourceCount: nat, permissionPerResource: nat)
    returns (res: map<string, seq<string>>, ids: map<string, bool>)
    ensures res.Keys == if resourceCount == 0 then {} else NamesBelow(actionPrefix, permissionPerResource)
    ensures forall a :: a in res ==> res[a] == NameList(scopePrefix, resourceCount)
    ensures ids.Keys == if permissionPerResource == 0 then {} else NamesBelow(scopePrefix, resourceCount)
    ensures forall id :: id in ids ==> ids[id]
  {
    res := map[];
    ids := map[];
    var p := 0;
    while p < permissionPerResource
      invariant 0 <= p <= permissionPerResource
      invariant res.Keys == if resourceCount == 0 then {} else NamesBelow(actionPrefix, p)
      invariant forall a :: a in res ==> res[a] == NameList(scopePrefix, resourceCount)
      invariant ids.Keys == if p == 0 then {} else NamesBelow(scopePrefix, resourceCount)
      invariant forall id :: id in ids ==> ids[id]
    {
      var action := Named(actionPrefix, p);
      if action in NamesBelow(actionPrefix, p) {
        var q := IndexOfName(actionPrefix, p, action);
        NamedInjective(actionPrefix, q, p);
      }
      res, ids := AppendScopes(res, ids, action, scopePrefix, resourceCount);
      p := p + 1;
    }
  }

  /** The inner loop of `generatePermissions`: append every scope to the list
      of a new action and record each scope as an id. */
  method AppendScopes(res0: map<string, seq<string>>, ids0: map<string, bool>, action: string, scopePrefix: string, resourceCount: nat)
    returns (res: map<string, seq<string>>, ids: map<string, bool>)
    // every action the generator uses is new
    requires action !in res0
    requires forall id :: id in ids0 ==> ids0[id]
    ensures res == if resourceCount == 0 then res0 else res0[action := NameList(scopePrefix, resourceCount)]
    ensures ids.Keys == ids0.Keys + NamesBelow(scopePrefix, resourceCount)
    ensures forall id :: id in ids ==> ids[id]
  {
    res, ids := res0, ids0;
    var r := 0;
    while r < resourceCount
      invariant 0 <= r <= resourceCount
      invariant res == if r == 0 then res0 else res0[action := NameList(scopePrefix, r)]
      invariant ids.Keys == ids0.Keys + NamesBelow(scopePrefix, r)
      invariant forall id :: id in ids ==> ids[id]
    {
      var scope := Named(scopePrefix, r);
      assert (if action in res then res[action] else []) == NameList(scopePrefix, r);
      res := res[action := (if action in res then res[action] else []) + [scope]];
      ids := ids[scope := true];
      r := r + 1;
    }
  }

  /** When every action the trie holds is granted on `scope`, the metadata for
      `scope` is exactly the trie-wide action set. */
  lemma MetadataIsAllActions(t: Trie, scope: string)
    requires scope != ""
    requires ActionsWithin(t.root, t.actions)
    requires forall a :: a in t.actions ==> HasAccess(t, a, scope)
    ensures MetadataOf(t, scope) == t.actions
  {
    PathNodesWithin(t.root, scope, t.actions);
    forall a | a in t.actions
      ensures a in MetadataOf(t, scope)
    {
      HasAccessIffMetadata(t, a, scope);
    }
  }

  /** Every generated id carries all `k` generated actions. */
  lemma IdMetadata(actionPrefix: string, scopePrefix: string, perms: map<string, seq<string>>, t: Trie,
                   resourceCount: nat, k: nat, id: string)
    requires id in NamesBelow(scopePrefix, resourceCount)
    requires perms.Keys == NamesBelow(actionPrefix, k)
    requires forall a :: a in perms ==> perms[a] == NameList(scopePrefix, resourceCount)
    requires t.actions == perms.Keys && ActionsWithin(t.root, t.actions)
    requires forall a, j :: a in perms && 0 <= j < |perms[a]| && !EndsWithDelim(perms[a][j]) ==>
      HasAccess(t, a, perms[a][j])
    ensures MetadataOf(t, id) == t.actions
    ensures |MetadataOf(t, id)| == k
  {
    var r := IndexOfName(scopePrefix, resourceCount, id);
    ScopeNameShape(scopePrefix, r);
    NameListAt(scopePrefix, resourceCount, r);
    forall a | a in t.actions
      ensures HasAccess(t, a, id)
    {
      assert perms[a][r] == id;
    }
    MetadataIsAllActions(t, id);
    NamesBelowCount(actionPrefix, k);
  }

  /** Every generated id carries all `k` generated actions, once the trie has
      been built from the generated map. */
  lemma AllIdsMetadata(actionPrefix: string, scopePrefix: string, perms: map<string, seq<string>>,
                       ids: map<string, bool>, t: Trie, resourceCount: nat, k: nat)
    requires perms.Keys == if resourceCount == 0 then {} else NamesBelow(actionPrefix, k)
    requires forall a :: a in perms ==> perms[a] == NameList(scopePrefix, resourceCount)
    requires ids.Keys == if k == 0 then {} else NamesBelow(scopePrefix, resourceCount)
    requires t.actions == perms.Keys && ActionsWithin(t.root, t.actions)
    requires forall a, j :: a in perms && 0 <= j < |perms[a]| && !EndsWithDelim(perms[a][j]) ==>
      HasAccess(t, a, perms[a][j])
    ensures forall id :: id in ids ==> |MetadataOf(t, id)| == k
    ensures |ids| == if k == 0 then 0 else resourceCount
  {
    forall id | id in ids
      ensures |MetadataOf(t, id)| == k
    {
      IdMetadata(actionPrefix, scopePrefix, perms, t, resourceCount, k, id);
    }
    NamesBelowCount(scopePrefix, resourceCount);
    assert |ids| == |ids.Keys|;
  }

  /** One pass of `benchGetTrieMetadata`: the metadata of every generated id.
      The benchmark asserts `len(metas) == resourceCount` and that every entry
      has `permissionPerResource` actions; both hold whenever there is at
      least one action (with none, no id is generated at all). */
  method BenchTrieMetadata(actionPrefix: string, scopePrefix: string, resourceCount: nat, permissionPerResource: nat)
    returns (metas: map<string, ResourceMetadata.Metadata>)
    ensures |metas| == if permissionPerResource == 0 then 0 else resourceCount
    ensures forall id :: id in metas ==> |metas[id]| == permissionPerResource
  {
    var permissions, ids := GeneratePermissions(actionPrefix, scopePrefix, resourceCount, permissionPerResource);
    var trie;
    ghost var flat;
    trie, flat := TrieFromMap(permissions);
    AllIdsMetadata(actionPrefix, scopePrefix, permissions, ids, trie, resourceCount, permissionPerResource);
    metas := MetadataOfEach(trie, ids);
    assert metas.Keys == ids.Keys;
    assert |metas| == |metas.Keys| && |ids| == |ids.Keys|;
    forall id | id in metas
      ensures |metas[id]| == permissionPerResource
    {
      assert |metas[id]| == |metas[id].Keys|;
    }
  }

  /** The `for id := range ids { metas[id] = trie.Metadata(id) }` loop. */
  method MetadataOfEach(t: Trie, ids: map<string, bool>) returns (metas: map<string, ResourceMetadata.Metadata>)
    ensures metas.Keys == ids.Keys
    ensures forall id :: id in metas ==> metas[id].Keys == MetadataOf(t, id)
  {
    metas := map[];
    var todo := ids.Keys;
    while todo != {}
      invariant todo <= ids.Keys
      invariant metas.Keys == ids.Keys - todo
      invariant forall id :: id in metas ==> metas[id].Keys == MetadataOf(t, id)
      decreases todo
    {
      var id :| id in todo;
      var m := Metadata(t, id);
      metas := metas[id := m];
      todo := todo - {id};
    }
  }
}
