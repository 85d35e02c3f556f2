/** The permission scope trie of pkg/services/accesscontrol/trie.go.

    One node per colon-delimited scope segment; each node holds the actions
    granted exactly at it, and the trie also keeps the set of every action it
    was given. Insertion stops at a node that already holds the action, so an
    ancestor grant subsumes every longer scope for that action. Queries follow
    one path from the root (the path-descent walk) and look at the actions of
    every node on it.

    Go keeps children by value in `map[string]Node`, but a node's `Actions` and
    `Children` maps are references shared by every copy, so updating the copy
    that `addNode` recurses into updates the stored child. The functional
    update below (rebuild the parent around the updated child) computes the
    same tree. */
module ScopeTrie {
  import opened Wrappers
  import opened Scopes
  import opened ScopeNodes
  import ResourceMetadata

  /** The root node and the set of every action inserted through a builder. */
  datatype Trie = Trie(root: Node, actions: set<string>)

  /** An empty trie: a root with the empty path and no actions anywhere. */
  function NewTrie(): (t: Trie)
    ensures WellFormed(t.root) && t.root.isRoot && t.root.path == ""
    ensures forall a, s :: !HasAccess(t, a, s)
  {
    Trie(NewRoot(), {})
  }

  // ---------------------------------------------------------------- insertion

  /** `n.addNode(action, path, ":")`: grant `action` on the remaining `path`
      below `n`, creating the children it passes through. */
  function AddNode(n: Node, action: string, path: string): (r: Node)
    decreases |path|, if n.path == path then 0 else 1, n
    // the node keeps its segment and root flag
    ensures r.path == n.path && r.isRoot == n.isRoot
    // an empty path, or a node already holding the action, changes nothing
    ensures path == "" || action in n.actions ==> r == n
    // at this node it grants at most `action` and adds at most the head segment
    ensures r.actions <= n.actions + {action}
    ensures r.children.Keys <= n.children.Keys + {Split(path).0}
  {
    if path == "" then n
    else if n.path == path || path == "*" then n.(actions := n.actions + {action})
    else if action in n.actions then n
    else
      var (head, tail) := Split(path);
      var child := if head in n.children then n.children[head] else NewChild(head);
      n.(children := n.children[head := AddNode(child, action, tail)])
  }

  /** The marking rule of `addNode`: a non-empty path that equals the node's own
      segment, or is `*`, grants the action at this node and touches no child;
      otherwise the action is held here afterwards only if it was before. */
  lemma AddNodeMarks(n: Node, action: string, path: string)
    ensures action in AddNode(n, action, path).actions <==>
      action in n.actions || (path != "" && (n.path == path || path == "*"))
    ensures path != "" && (n.path == path || path == "*") ==> AddNode(n, action, path).children == n.children
  {
  }

  /** Insertion only ever extends a node: it never removes an action or a child. */
  lemma {:induction false} AddNodeExtends(n: Node, action: string, path: string)
    decreases |path|, if n.path == path then 0 else 1, n
    ensures Sub(n, AddNode(n, action, path))
  {
    SubRefl(n);
    if !(path == "" || n.path == path || path == "*" || action in n.actions) {
      var (head, tail) := Split(path);
      var child := if head in n.children then n.children[head] else NewChild(head);
      AddNodeExtends(child, action, tail);
      ReplaceChildIsSub(n, head, AddNode(child, action, tail));
    }
  }

  // ---------------------------------------------------------------- the walk

  /** `n.walk(path, walkFn)`: the nodes on which the callback is called, in
      order. The walk stops after a node for which `stop` holds, at a node whose
      segment equals the remaining path, or when the next segment has no child. */
  function Walk(n: Node, path: string, stop: Node -> bool): (visited: seq<Node>)
    decreases n
    ensures |visited| > 0 && visited[0] == n
    // the callback asked to stop at most once, on the last node visited
    ensures forall i :: 0 <= i < |visited| - 1 ==> !stop(visited[i])
  {
    if stop(n) then [n]
    else if n.path == path then [n]
    else
      var (head, tail) := Split(path);
      if head in n.children then [n] + Walk(n.children[head], tail, stop) else [n]
  }

  /** The callback of `HasAccess`: stop at the first node holding `action`. */
  function HoldsAction(action: string): Node -> bool {
    (m: Node) => action in m.actions
  }

  /** The callback of `Metadata`: never stop. */
  function NeverStop(): Node -> bool {
    (m: Node) => false
  }

  /** Every node on the descent for `path`: the walk with a callback that never stops. */
  function PathNodes(n: Node, path: string): seq<Node> {
    Walk(n, path, NeverStop())
  }

  /** The union of the actions held by `nodes`. */
  function ActionsOn(nodes: seq<Node>): set<string> {
    set i, a | 0 <= i < |nodes| && a in nodes[i].actions :: a
  }

  /** Reference meaning of a grant: `action` is held by the node for `path` or
      by one of its ancestors on the descent from `n`. */
  ghost predicate Granted(n: Node, action: string, path: string)
    decreases n
  {
    || action in n.actions
    || (&& n.path != path
        && Split(path).0 in n.children
        && Granted(n.children[Split(path).0], action, Split(path).1))
  }

  // ---------------------------------------------------------------- queries

  /** `t.HasAccess(action, scope)`: the scope-less check against the trie-wide
      action set, or a walk that stops at the first node holding the action. */
  function HasAccess(t: Trie, action: string, scope: string): (r: bool)
    ensures scope == "" ==> (r <==> action in t.actions)
    ensures scope != "" ==> (r <==> Granted(t.root, action, scope))
  {
    if scope == "" then action in t.actions
    else
      var visited := Walk(t.root, scope, HoldsAction(action));
      WalkFindsGrant(t.root, action, scope);
      AnyHolds(visited, action)
  }

  /** Some node of `nodes` holds `action`: what the `hasAccess` flag records. */
  predicate AnyHolds(nodes: seq<Node>, action: string) {
    exists i | 0 <= i < |nodes| :: action in nodes[i].actions
  }

  /** The set `t.Metadata(scope)` reports: every action on the descent. */
  function MetadataOf(t: Trie, scope: string): set<string> {
    ActionsOn(PathNodes(t.root, scope))
  }

  /** `t.Metadata(scope)`: walk without stopping and copy each visited node's
      actions into the result. */
  method Metadata(t: Trie, scope: string) returns (metadata: ResourceMetadata.Metadata)
    ensures metadata.Keys == MetadataOf(t, scope)
    ensures forall a :: a in metadata ==> metadata[a]
  {
    metadata := map[];
    var visited := PathNodes(t.root, scope);
    var i := 0;
    while i < |visited|
      invariant 0 <= i <= |visited|
      invariant metadata.Keys == ActionsOn(visited[..i])
      invariant forall a :: a in metadata ==> metadata[a]
    {
      var rest := visited[i].actions;
      while rest != {}
        invariant rest <= visited[i].actions
        invariant metadata.Keys == ActionsOn(visited[..i]) + (visited[i].actions - rest)
        invariant forall a :: a in metadata ==> metadata[a]
        decreases rest
      {
        var a :| a in rest;
        metadata := metadata[a := true];
        rest := rest - {a};
      }
      ActionsOnSnoc(visited, i);
      i := i + 1;
    }
    assert visited[..i] == visited;
  }

  lemma ActionsOnSnoc(nodes: seq<Node>, i: nat)
    requires i < |nodes|
    ensures ActionsOn(nodes[..i + 1]) == ActionsOn(nodes[..i]) + nodes[i].actions
  {
    var l, r := ActionsOn(nodes[..i + 1]), ActionsOn(nodes[..i]) + nodes[i].actions;
    forall a | a in l ensures a in r {
      var j :| 0 <= j < i + 1 && a in nodes[..i + 1][j].actions;
      if j < i { assert nodes[..i][j] == nodes[j]; }
    }
    forall a | a in r ensures a in l {
      if a in nodes[i].actions {
        assert nodes[..i + 1][i] == nodes[i];
      } else {
        var j :| 0 <= j < i && a in nodes[..i][j].actions;
        assert nodes[..i + 1][j] == nodes[j];
      }
    }
  }

  // ---------------------------------------------------------------- builders

  /** One iteration of the `TrieFromPermissions` loop. */
  function Insert(t: Trie, p: Permission): Trie {
    Trie(AddNode(t.root, p.action, p.scope), t.actions + {p.action})
  }

  /** The trie reached from `t` by running the loop body over `perms`, first to last. */
  function BuildFrom(t: Trie, perms: seq<Permission>): Trie
    decreases |perms|
  {
    if perms == [] then t else BuildFrom(Insert(t, perms[0]), perms[1..])
  }

  /** The trie `TrieFromPermissions` builds. */
  function Build(perms: seq<Permission>): Trie {
    BuildFrom(NewTrie(), perms)
  }

  /** `TrieFromPermissions(permissions)`. */
  method TrieFromPermissions(perms: seq<Permission>) returns (t: Trie)
    ensures t == Build(perms)
  {
    t := NewTrie();
    var i := 0;
    while i < |perms|
      invariant 0 <= i <= |perms|
      invariant BuildFrom(t, perms[i..]) == Build(perms)
    {
      assert perms[i..][0] == perms[i] && perms[i..][1..] == perms[i + 1..];
      t := t.(actions := t.actions + {perms[i].action});
      t := t.(root := AddNode(t.root, perms[i].action, perms[i].scope));
      i := i + 1;
    }
  }

  /** `TrieFromMap(permissions)`: every key becomes a trie-wide action (even one
      with no scopes), then each of its scopes is inserted. Go visits the keys
      in an unspecified order, so the loop picks them in any order; the ghost
      `q` lists the (action, scope) pairs in the order they were inserted, and
      the tree is the one `TrieFromPermissions` builds from that list. */
  method TrieFromMap(perms: map<string, seq<string>>) returns (t: Trie, ghost q: seq<Permission>)
    ensures t.actions == perms.Keys
    ensures WellFormed(t.root) && t.root.isRoot && t.root.path == ""
    ensures ActionsWithin(t.root, t.actions)
    ensures forall a, j :: a in perms && 0 <= j < |perms[a]| && !EndsWithDelim(perms[a][j]) ==>
      HasAccess(t, a, perms[a][j])
    ensures t.root == Build(q).root
    ensures forall p :: p in q <==> p.action in perms && p.scope in perms[p.action]
  {
    t := NewTrie();
    q := [];
    var todo := perms.Keys;
    while todo != {}
      invariant todo <= perms.Keys
      invariant t.actions == perms.Keys - todo
      invariant WellFormed(t.root) && t.root.isRoot && t.root.path == ""
      invariant ActionsWithin(t.root, t.actions)
      invariant MapGranted(t, perms, perms.Keys - todo)
      invariant t.root == Build(q).root
      invariant Flattens(q, perms, perms.Keys - todo)
      decreases todo
    {
      var action :| action in todo;
      ghost var before := t;
      t := t.(actions := t.actions + {action});
      ActionsWithinGrow(t.root, before.actions, t.actions);
      t := AddScopes(t, action, perms[action]);
      MapStep(before, t, q, perms, perms.Keys - todo, action);
      q := q + Pairs(action, perms[action]);
      assert perms.Keys - (todo - {action}) == (perms.Keys - todo) + {action};
      todo := todo - {action};
    }
  }

  /** Every scope listed under a key in `done` that does not end in `:` is granted. */
  ghost predicate MapGranted(t: Trie, perms: map<string, seq<string>>, done: set<string>)
    requires done <= perms.Keys
  {
    forall a, j :: a in done && 0 <= j < |perms[a]| && !EndsWithDelim(perms[a][j]) ==>
      HasAccess(t, a, perms[a][j])
  }

  /** One pass of the outer `TrieFromMap` loop keeps its invariants about
      grants and about the flattened list. */
  lemma MapStep(before: Trie, t: Trie, q: seq<Permission>, perms: map<string, seq<string>>,
                done: set<string>, action: string)
    requires done <= perms.Keys && action in perms && action !in done
    requires before.actions <= t.actions && Sub(before.root, t.root)
    requires MapGranted(before, perms, done) && Flattens(q, perms, done)
    requires forall k :: 0 <= k < |perms[action]| && !EndsWithDelim(perms[action][k]) ==>
      HasAccess(t, action, perms[action][k])
    requires before.root == Build(q).root
    requires t == BuildFrom(before.(actions := before.actions + {action}), Pairs(action, perms[action]))
    ensures MapGranted(t, perms, done + {action})
    ensures Flattens(q + Pairs(action, perms[action]), perms, done + {action})
    ensures t.root == Build(q + Pairs(action, perms[action])).root
  {
    forall a, k | a in done + {action} && 0 <= k < |perms[a]| && !EndsWithDelim(perms[a][k])
      ensures HasAccess(t, a, perms[a][k])
    {
      if a != action { AccessMono(before, t, a, perms[a][k]); }
    }
    FlattenStep(q, perms, done, action);
    BuildFromSameRoot(before.(actions := before.actions + {action}), Build(q), Pairs(action, perms[action]));
    BuildFromAppend(NewTrie(), q, Pairs(action, perms[action]));
  }

  /** The permissions `(action, scope)`, one per scope, in order. */
  function Pairs(action: string, scopes: seq<string>): seq<Permission> {
    seq(|scopes|, k requires 0 <= k < |scopes| => Permission(action, scopes[k]))
  }

  /** `q` lists exactly the (action, scope) pairs of the keys in `done`. */
  ghost predicate Flattens(q: seq<Permission>, perms: map<string, seq<string>>, done: set<string>)
    requires done <= perms.Keys
  {
    forall p :: p in q <==> p.action in done && p.scope in perms[p.action]
  }

  /** Appending the pairs of one more key extends the flattening by that key. */
  lemma FlattenStep(q: seq<Permission>, perms: map<string, seq<string>>, done: set<string>, action: string)
    requires done <= perms.Keys && action in perms && action !in done
    requires Flattens(q, perms, done)
    ensures Flattens(q + Pairs(action, perms[action]), perms, done + {action})
  {
    var ps := Pairs(action, perms[action]);
    forall p
      ensures p in q + ps <==> p.action in done + {action} && p.scope in perms[p.action]
    {
      if p.action == action && p.scope in perms[action] {
        var k :| 0 <= k < |perms[action]| && perms[action][k] == p.scope;
        assert ps[k] == p;
      }
    }
  }

  /** The loop's result depends on the starting trie's root only through that root. */
  lemma {:induction false} BuildFromSameRoot(t: Trie, u: Trie, perms: seq<Permission>)
    requires t.root == u.root
    decreases |perms|
    ensures BuildFrom(t, perms).root == BuildFrom(u, perms).root
  {
    if perms != [] {
      BuildFromSameRoot(Insert(t, perms[0]), Insert(u, perms[0]), perms[1..]);
    }
  }

  /** The inner loop of `TrieFromMap`: insert `action` at every scope in turn. */
  method AddScopes(t0: Trie, action: string, scopes: seq<string>) returns (t: Trie)
    requires action in t0.actions
    requires WellFormed(t0.root) && t0.root.isRoot && t0.root.path == ""
    requires ActionsWithin(t0.root, t0.actions)
    ensures t.actions == t0.actions
    ensures WellFormed(t.root) && t.root.isRoot && t.root.path == ""
    ensures ActionsWithin(t.root, t.actions)
    ensures Sub(t0.root, t.root)
    ensures forall k :: 0 <= k < |scopes| && !EndsWithDelim(scopes[k]) ==> HasAccess(t, action, scopes[k])
    ensures t == BuildFrom(t0, Pairs(action, scopes))
  {
    t := t0;
    SubRefl(t.root);
    var j := 0;
    while j < |scopes|
      invariant 0 <= j <= |scopes|
      invariant t.actions == t0.actions
      invariant WellFormed(t.root) && t.root.isRoot && t.root.path == ""
      invariant ActionsWithin(t.root, t.actions)
      invariant Sub(t0.root, t.root)
      invariant GrantsFirst(t, action, scopes, j)
      invariant t == BuildFrom(t0, Pairs(action, scopes[..j]))
    {
      ghost var prev := t;
      t := t.(root := AddNode(t.root, action, scopes[j]));
      AddScopeStep(t0, prev, action, scopes[j]);
      GrantsFirstStep(prev, t, action, scopes, j);
      PairsStep(t0, prev, action, scopes, j);
      j := j + 1;
    }
    assert scopes[..j] == scopes;
  }

  /** One step of the `AddScopes` loop is one more step of `BuildFrom`. */
  lemma PairsStep(t0: Trie, prev: Trie, action: string, scopes: seq<string>, j: nat)
    requires j < |scopes| && action in prev.actions
    requires prev == BuildFrom(t0, Pairs(action, scopes[..j]))
    ensures prev.(root := AddNode(prev.root, action, scopes[j])) == BuildFrom(t0, Pairs(action, scopes[..j + 1]))
  {
    var p := Permission(action, scopes[j]);
    assert Pairs(action, scopes[..j + 1]) == Pairs(action, scopes[..j]) + [p];
    BuildFromAppend(t0, Pairs(action, scopes[..j]), [p]);
    BuildFromOne(prev, p);
  }

  /** `action` is granted on each of the first `j` scopes that does not end in `:`. */
  ghost predicate GrantsFirst(t: Trie, action: string, scopes: seq<string>, j: nat)
    requires j <= |scopes|
  {
    forall k :: 0 <= k < j && !EndsWithDelim(scopes[k]) ==> HasAccess(t, action, scopes[k])
  }

  /** One more insertion keeps the earlier grants and adds the new one. */
  lemma GrantsFirstStep(prev: Trie, t: Trie, action: string, scopes: seq<string>, j: nat)
    requires j < |scopes|
    requires prev.actions <= t.actions && Sub(prev.root, t.root)
    requires GrantsFirst(prev, action, scopes, j)
    requires !EndsWithDelim(scopes[j]) ==> HasAccess(t, action, scopes[j])
    ensures GrantsFirst(t, action, scopes, j + 1)
  {
    forall k | 0 <= k < j + 1 && !EndsWithDelim(scopes[k])
      ensures HasAccess(t, action, scopes[k])
    {
      if k < j { AccessMono(prev, t, action, scopes[k]); }
    }
  }

  /** One step of the `AddScopes` loop keeps the trie's shape, extends it, and
      grants the action on the inserted scope. */
  lemma AddScopeStep(t0: Trie, prev: Trie, action: string, scope: string)
    requires action in prev.actions
    requires WellFormed(prev.root) && prev.root.isRoot && prev.root.path == ""
    requires ActionsWithin(prev.root, prev.actions)
    requires Sub(t0.root, prev.root)
    ensures var t := prev.(root := AddNode(prev.root, action, scope));
      && WellFormed(t.root) && t.root.isRoot && t.root.path == ""
      && ActionsWithin(t.root, t.actions)
      && Sub(prev.root, t.root) && Sub(t0.root, t.root)
      && (!EndsWithDelim(scope) ==> HasAccess(t, action, scope))
  {
    var t := prev.(root := AddNode(prev.root, action, scope));
    AddNodeExtends(prev.root, action, scope);
    AddNodeWellFormed(prev.root, action, scope);
    AddNodeWithin(prev.root, action, scope, t.actions);
    SubTrans(t0.root, prev.root, t.root);
    if !EndsWithDelim(scope) && scope != "" {
      AddNodeGrants(prev.root, action, scope);
    }
  }

  // ---------------------------------------------------------------- lemmas

  /** The early-stopping walk of `HasAccess` finds the action exactly when some
      node on the descent holds it. */
  lemma {:induction false} WalkFindsGrant(n: Node, action: string, path: string)
    decreases n
    ensures AnyHolds(Walk(n, path, HoldsAction(action)), action) <==> Granted(n, action, path)
  {
    var stop := HoldsAction(action);
    var w := Walk(n, path, stop);
    assert stop(n) == (action in n.actions);
    if action in n.actions {
      assert w[0] == n && action in w[0].actions;
      assert Granted(n, action, path);
    } else if n.path == path {
      assert w == [n];
    } else {
      var (head, tail) := Split(path);
      if head in n.children {
        var rest := Walk(n.children[head], tail, stop);
        WalkFindsGrant(n.children[head], action, tail);
        assert w == [n] + rest;
        AnyHoldsCons(n, rest, action);
      } else {
        assert w == [n];
      }
    }
  }

  /** A node followed by more nodes holds the action when the first does or the
      rest do. */
  lemma AnyHoldsCons(n: Node, rest: seq<Node>, action: string)
    ensures AnyHolds([n] + rest, action) <==> action in n.actions || AnyHolds(rest, action)
  {
    var w := [n] + rest;
    assert w[0] == n;
    if AnyHolds(rest, action) {
      var i :| 0 <= i < |rest| && action in rest[i].actions;
      assert w[i + 1] == rest[i];
    }
    if AnyHolds(w, action) && action !in n.actions {
      var i :| 0 <= i < |w| && action in w[i].actions;
      assert i > 0 && w[i] == rest[i - 1];
    }
  }

  /** The never-stopping walk of `Metadata` passes a node holding the action
      exactly when the action is granted on the path. */
  lemma {:induction false} PathNodesFindGrant(n: Node, action: string, path: string)
    decreases n
    ensures action in ActionsOn(PathNodes(n, path)) <==> Granted(n, action, path)
  {
    var w := PathNodes(n, path);
    if action in n.actions {
      assert action in w[0].actions;
    } else if n.path == path {
      assert w == [n];
    } else {
      var (head, tail) := Split(path);
      if head in n.children {
        var rest := PathNodes(n.children[head], tail);
        PathNodesFindGrant(n.children[head], action, tail);
        assert w == [n] + rest;
        if Granted(n, action, path) {
          var i :| 0 <= i < |rest| && action in rest[i].actions;
          assert w[i + 1] == rest[i];
        }
        if action in ActionsOn(w) {
          var i :| 0 <= i < |w| && action in w[i].actions;
          assert i > 0 && w[i] == rest[i - 1];
        }
      } else {
        assert w == [n];
      }
    }
  }

  /** For a non-empty scope the two queries agree: `HasAccess` merely stops at
      the first grant on the path that `Metadata` walks to the end. */
  lemma HasAccessIffMetadata(t: Trie, action: string, scope: string)
    requires scope != ""
    ensures HasAccess(t, action, scope) <==> action in MetadataOf(t, scope)
  {
    PathNodesFindGrant(t.root, action, scope);
  }

  /** Inserting a non-empty scope that does not end with the delimiter grants it. */
  lemma {:induction false} AddNodeGrants(n: Node, action: string, path: string)
    requires path != "" && !EndsWithDelim(path)
    decreases |path|, if n.path == path then 0 else 1, n
    ensures Granted(AddNode(n, action, path), action, path)
  {
    if n.path == path || path == "*" || action in n.actions {
    } else {
      var (head, tail) := Split(path);
      var child := if head in n.children then n.children[head] else NewChild(head);
      TailKeepsShape(path);
      AddNodeGrants(child, action, tail);
    }
  }

  /** Extending a tree keeps every grant. */
  lemma {:induction false} GrantedMono(n: Node, m: Node, action: string, path: string)
    requires Sub(n, m) && Granted(n, action, path)
    decreases n
    ensures Granted(m, action, path)
  {
    if action !in n.actions {
      var (head, tail) := Split(path);
      GrantedMono(n.children[head], m.children[head], action, tail);
    }
  }

  /** A trie whose action set and tree both extend another's answers yes to
      every query the other answered yes to. */
  lemma AccessMono(t: Trie, t': Trie, action: string, scope: string)
    requires t.actions <= t'.actions && Sub(t.root, t'.root)
    requires HasAccess(t, action, scope)
    ensures HasAccess(t', action, scope)
  {
    if scope != "" {
      GrantedMono(t.root, t'.root, action, scope);
    }
  }

  /** Insertion never revokes access. */
  lemma InsertKeepsAccess(t: Trie, p: Permission, action: string, scope: string)
    requires HasAccess(t, action, scope)
    ensures HasAccess(Insert(t, p), action, scope)
  {
    AddNodeExtends(t.root, p.action, p.scope);
    AccessMono(t, Insert(t, p), action, scope);
  }

  /** Running the loop over more permissions never revokes access. */
  lemma {:induction false} BuildFromKeepsAccess(t: Trie, perms: seq<Permission>, action: string, scope: string)
    requires HasAccess(t, action, scope)
    decreases |perms|
    ensures HasAccess(BuildFrom(t, perms), action, scope)
  {
    if perms != [] {
      InsertKeepsAccess(t, perms[0], action, scope);
      BuildFromKeepsAccess(Insert(t, perms[0]), perms[1..], action, scope);
    }
  }

  /** Running the loop over `ps + rs` is running it over `ps`, then over `rs`. */
  lemma {:induction false} BuildFromAppend(t: Trie, ps: seq<Permission>, rs: seq<Permission>)
    decreases |ps|
    ensures BuildFrom(t, ps + rs) == BuildFrom(BuildFrom(t, ps), rs)
  {
    if ps == [] {
      assert ps + rs == rs;
    } else {
      assert (ps + rs)[0] == ps[0] && (ps + rs)[1..] == ps[1..] + rs;
      BuildFromAppend(Insert(t, ps[0]), ps[1..], rs);
    }
  }

  /** The build runs the permissions before `j`, inserts `perms[j]`, then runs the rest. */
  lemma BuildAt(perms: seq<Permission>, j: nat)
    requires j < |perms|
    ensures Build(perms) == BuildFrom(Insert(Build(perms[..j]), perms[j]), perms[j + 1..])
  {
    assert perms == perms[..j] + perms[j..];
    BuildFromAppend(NewTrie(), perms[..j], perms[j..]);
    assert perms[j..][0] == perms[j] && perms[j..][1..] == perms[j + 1..];
  }

  /** After the loop the action set is the old one plus every listed action. */
  lemma {:induction false} BuildFromActions(t: Trie, perms: seq<Permission>)
    decreases |perms|
    ensures BuildFrom(t, perms).actions == t.actions + set p | p in perms :: p.action
  {
    if perms != [] {
      var p := perms[0];
      BuildFromActions(Insert(t, p), perms[1..]);
      assert (set q | q in perms :: q.action) == {p.action} + set q | q in perms[1..] :: q.action by {
        assert perms == [p] + perms[1..];
      }
    }
  }

  /** The loop keeps the tree well formed under a root with the empty path, and
      every held action in the trie-wide set. */
  lemma {:induction false} BuildFromShape(t: Trie, perms: seq<Permission>)
    requires WellFormed(t.root) && t.root.isRoot && t.root.path == ""
    requires ActionsWithin(t.root, t.actions)
    decreases |perms|
    ensures WellFormed(BuildFrom(t, perms).root)
    ensures BuildFrom(t, perms).root.isRoot && BuildFrom(t, perms).root.path == ""
    ensures ActionsWithin(BuildFrom(t, perms).root, BuildFrom(t, perms).actions)
  {
    if perms != [] {
      var p := perms[0];
      var next := Insert(t, p);
      AddNodeWellFormed(t.root, p.action, p.scope);
      ActionsWithinGrow(t.root, t.actions, next.actions);
      AddNodeWithin(t.root, p.action, p.scope, next.actions);
      BuildFromShape(next, perms[1..]);
    }
  }

  /** After a build the trie-wide action set is exactly the set of listed
      actions, the tree is well formed under a root with the empty path, and
      it holds no other action. */
  lemma BuildShape(perms: seq<Permission>)
    ensures Build(perms).actions == set p | p in perms :: p.action
    ensures WellFormed(Build(perms).root) && Build(perms).root.isRoot && Build(perms).root.path == ""
    ensures ActionsWithin(Build(perms).root, Build(perms).actions)
  {
    BuildFromActions(NewTrie(), perms);
    BuildFromShape(NewTrie(), perms);
  }

  /** Soundness of the build: every permission whose scope does not end with the
      delimiter is granted afterwards (the empty scope through the action set). */
  lemma BuildGrants(perms: seq<Permission>, j: nat)
    requires j < |perms| && !EndsWithDelim(perms[j].scope)
    ensures HasAccess(Build(perms), perms[j].action, perms[j].scope)
  {
    var p := perms[j];
    BuildAt(perms, j);
    if p.scope != "" {
      AddNodeGrants(Build(perms[..j]).root, p.action, p.scope);
    }
    BuildFromKeepsAccess(Insert(Build(perms[..j]), p), perms[j + 1..], p.action, p.scope);
  }

  /** The first segment of a scope `p:...` is `p`. */
  lemma SplitAtSegment(q: string, p: string)
    requires p != "" && Delim !in p
    requires q == p || p + [Delim] <= q
    ensures Split(q) == (p, if q == p then p else q[|p| + 1..])
  {
    SplitCases(q);
    if q != p {
      var (head, tail) := Split(q);
      assert q[|p|] == Delim && q[0] == p[0];
      assert q == head + [Delim] + tail;
      assert forall i :: 0 <= i < |p| ==> q[i] == p[i] && q[i] != Delim;
      assert forall i :: 0 <= i < |head| ==> q[i] == head[i] && q[i] != Delim;
      assert q[|head|] == Delim;
      assert head == q[..|head|] == p;
    }
  }

  /** Inserting `p:*` below a root grants `p` and every scope under `p:`. */
  lemma AddNodeWildcard(n: Node, action: string, p: string, q: string)
    requires n.path == "" && p != "" && Delim !in p
    requires q == p || p + [Delim] <= q
    ensures Granted(AddNode(n, action, p + [Delim, '*']), action, q)
  {
    var path := p + [Delim, '*'];
    if action !in n.actions {
      SplitAtSegment(path, p);
      assert path[|p| + 1..] == "*";
      SplitAtSegment(q, p);
    }
  }

  /** Wildcard: after a build that contains `(action, p:*)` with `p` a single
      segment, the action is granted on `p` and on every scope under `p:`. */
  lemma BuildWildcard(perms: seq<Permission>, j: nat, p: string, q: string)
    requires j < |perms| && perms[j].scope == p + [Delim, '*']
    requires p != "" && Delim !in p
    requires q == p || p + [Delim] <= q
    ensures HasAccess(Build(perms), perms[j].action, q)
  {
    var before := Build(perms[..j]);
    BuildAt(perms, j);
    BuildShape(perms[..j]);
    AddNodeWildcard(before.root, perms[j].action, p, q);
    BuildFromKeepsAccess(Insert(before, perms[j]), perms[j + 1..], perms[j].action, q);
  }

  /** Once a grant has been inserted, inserting it again into any extension of
      the result changes nothing. */
  lemma {:induction false} AddNodeAbsorbed(n: Node, m: Node, action: string, path: string)
    requires Sub(AddNode(n, action, path), m)
    decreases |path|, if n.path == path then 0 else 1, n, 1
    ensures AddNode(m, action, path) == m
  {
    var r := AddNode(n, action, path);
    if path == "" {
    } else if n.path == path || path == "*" || action in n.actions {
      assert action in r.actions;
      assert action in m.actions;
      assert m.actions + {action} == m.actions;
    } else {
      assert r.path == n.path;
      AbsorbedStep(n, m, action, path);
    }
  }

  lemma AbsorbedStep(n: Node, m: Node, action: string, path: string)
    requires path != "" && n.path != path && path != "*" && action !in n.actions
    requires Sub(AddNode(n, action, path), m)
    decreases |path|, 1, n, 0
    ensures AddNode(m, action, path) == m
  {
    var (head, tail) := Split(path);
    if action !in m.actions {
      var child := if head in n.children then n.children[head] else NewChild(head);
      var r := AddNode(n, action, path);
      assert r == n.(children := n.children[head := AddNode(child, action, tail)]);
      assert head in m.children && Sub(AddNode(child, action, tail), m.children[head]);
      AddNodeAbsorbed(child, m.children[head], action, tail);
      assert m.children[head := m.children[head]] == m.children;
    }
  }

  /** Inserting the same grant twice is inserting it once. */
  lemma AddNodeIdempotent(n: Node, action: string, path: string)
    ensures AddNode(AddNode(n, action, path), action, path) == AddNode(n, action, path)
  {
    SubRefl(AddNode(n, action, path));
    AddNodeAbsorbed(n, AddNode(n, action, path), action, path);
  }

  /** The loop only ever extends the trie. */
  lemma {:induction false} BuildFromSub(t: Trie, perms: seq<Permission>)
    decreases |perms|
    ensures Sub(t.root, BuildFrom(t, perms).root) && t.actions <= BuildFrom(t, perms).actions
  {
    if perms == [] {
      SubRefl(t.root);
    } else {
      var next := Insert(t, perms[0]);
      AddNodeExtends(t.root, perms[0].action, perms[0].scope);
      BuildFromSub(next, perms[1..]);
      SubTrans(t.root, next.root, BuildFrom(next, perms[1..]).root);
    }
  }

  /** Idempotent build: a permission that already occurred earlier in the list
      can be dropped without changing the trie at all. */
  lemma BuildDropsDuplicate(ps: seq<Permission>, p: Permission, rs: seq<Permission>)
    requires p in ps
    ensures Build(ps + [p] + rs) == Build(ps + rs)
  {
    var j :| 0 <= j < |ps| && ps[j] == p;
    calc {
      Build(ps + [p] + rs);
    == { assert ps + [p] + rs == ps + ([p] + rs); BuildFromAppend(NewTrie(), ps, [p] + rs); }
      BuildFrom(Build(ps), [p] + rs);
    == { assert ([p] + rs)[0] == p && ([p] + rs)[1..] == rs; }
      BuildFrom(Insert(Build(ps), p), rs);
    == { BuildAbsorbs(ps, j); }
      BuildFrom(Build(ps), rs);
    == { BuildFromAppend(NewTrie(), ps, rs); }
      Build(ps + rs);
    }
  }

  /** Inserting any listed permission again after the build changes nothing. */
  lemma BuildAbsorbs(ps: seq<Permission>, j: nat)
    requires j < |ps|
    ensures Insert(Build(ps), ps[j]) == Build(ps)
  {
    var p := ps[j];
    var built := Build(ps);
    var reached := Insert(Build(ps[..j]), p);
    BuildAt(ps, j);
    BuildFromSub(reached, ps[j + 1..]);
    AddNodeAbsorbed(Build(ps[..j]).root, built.root, p.action, p.scope);
    assert built.actions + {p.action} == built.actions;
  }

  /** Insertion keeps every child stored under its own segment. */
  lemma {:induction false} AddNodeWellFormed(n: Node, action: string, path: string)
    requires WellFormed(n)
    decreases |path|, if n.path == path then 0 else 1, n
    ensures WellFormed(AddNode(n, action, path))
  {
    if !(path == "" || n.path == path || path == "*" || action in n.actions) {
      var (head, tail) := Split(path);
      var child := if head in n.children then n.children[head] else NewChild(head);
      AddNodeWellFormed(child, action, tail);
      WellFormedReplace(n, head, AddNode(child, action, tail));
    }
  }

  /** Insertion of an action from `acts` keeps every held action in `acts`. */
  lemma {:induction false} AddNodeWithin(n: Node, action: string, path: string, acts: set<string>)
    requires ActionsWithin(n, acts) && action in acts
    decreases |path|, if n.path == path then 0 else 1, n
    ensures ActionsWithin(AddNode(n, action, path), acts)
  {
    if !(path == "" || n.path == path || path == "*" || action in n.actions) {
      var (head, tail) := Split(path);
      var child := if head in n.children then n.children[head] else NewChild(head);
      AddNodeWithin(child, action, tail, acts);
      WithinReplace(n, head, AddNode(child, action, tail), acts);
    }
  }

  lemma {:induction false} ActionsWithinGrow(n: Node, acts: set<string>, more: set<string>)
    requires ActionsWithin(n, acts) && acts <= more
    decreases n
    ensures ActionsWithin(n, more)
  {
    forall k | k in n.children {
      ActionsWithinGrow(n.children[k], acts, more);
    }
  }

  /** The metadata of any scope only holds actions that occur in the tree. */
  lemma {:induction false} PathNodesWithin(n: Node, path: string, acts: set<string>)
    requires ActionsWithin(n, acts)
    decreases n
    ensures ActionsOn(PathNodes(n, path)) <= acts
  {
    var w := PathNodes(n, path);
    if n.path != path {
      var (head, tail) := Split(path);
      if head in n.children {
        PathNodesWithin(n.children[head], tail, acts);
        var rest := PathNodes(n.children[head], tail);
        assert w == [n] + rest;
        forall a | a in ActionsOn(w) ensures a in acts {
          var i :| 0 <= i < |w| && a in w[i].actions;
          if i > 0 { assert w[i] == rest[i - 1]; }
        }
      }
    }
  }

  // ---------------------------------------------------------------- a trailing delimiter

  /** One recursive step of `AddNode` below a node that does not end the path. */
  lemma Descends(n: Node, action: string, path: string)
    requires path != "" && n.path != path && path != "*" && action !in n.actions
    ensures AddNode(n, action, path) ==
      var (head, tail) := Split(path);
      var child := if head in n.children then n.children[head] else NewChild(head);
      n.(children := n.children[head := AddNode(child, action, tail)])
  {
  }

  /** Building from a single permission is one insertion. */
  lemma BuildFromOne(t: Trie, p: Permission)
    ensures BuildFrom(t, [p]) == Insert(t, p)
  {
    assert [p][0] == p && [p][1..] == [];
  }

  /** A node without actions or children grants nothing. */
  lemma NotGrantedBare(n: Node, action: string, path: string)
    requires action !in n.actions && n.children == map[]
    ensures !Granted(n, action, path)
  {
  }

  /** One unfolding of `Granted`. */
  lemma GrantedStep(n: Node, action: string, path: string)
    ensures Granted(n, action, path) <==>
      (|| action in n.actions
       || (n.path != path && Split(path).0 in n.children && Granted(n.children[Split(path).0], action, Split(path).1)))
  {
  }

  /** Below an empty root, `seg:` creates the child `seg`, whose recursive call
      gets the empty tail and returns at once: no node is marked. */
  lemma RootTrailing(seg: string, action: string)
    requires seg != "" && Delim !in seg
    ensures AddNode(NewRoot(), action, seg + [Delim]) == NewRoot().(children := map[seg := NewChild(seg)])
    ensures !Granted(AddNode(NewRoot(), action, seg + [Delim]), action, seg + [Delim])
  {
    var path := seg + [Delim];
    SplitAtSegment(path, seg);
    assert path[|seg| + 1..] == "";
    assert Split(path) == (seg, "");
    Descends(NewRoot(), action, path);
    var leaf := NewChild(seg);
    assert AddNode(leaf, action, "") == leaf;
    var root := AddNode(NewRoot(), action, path);
    assert root == NewRoot().(children := map[][seg := leaf]);
    NotGrantedBare(leaf, action, "");
    GrantedStep(root, action, path);
  }

  /** A scope ending in the delimiter, such as `folders:`, adds an empty child
      and grants nothing on that scope, although its action joins the
      trie-wide set. */
  lemma TrailingDelimiterIgnored(seg: string, action: string)
    requires seg != "" && Delim !in seg
    ensures Build([Permission(action, seg + [Delim])]).root == NewRoot().(children := map[seg := NewChild(seg)])
    ensures Build([Permission(action, seg + [Delim])]).actions == {action}
    ensures !HasAccess(Build([Permission(action, seg + [Delim])]), action, seg + [Delim])
  {
    BuildFromOne(NewTrie(), Permission(action, seg + [Delim]));
    RootTrailing(seg, action);
  }
}
