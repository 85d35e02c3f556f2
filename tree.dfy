/** The second scope trie of pkg/services/accesscontrol/tree.go.

    It shares the node shape of pkg/services/accesscontrol/trie.go but differs
    in three ways: insertion has no guard for an empty path (so an empty scope
    grants at the root, whose path is empty), there is no trie-wide action set,
    and the access check looks only at the root's own actions, whatever the
    scope. As with the other trie, Go keeps children by value but shares their
    inner maps, so the functional update below computes the same tree as the
    recursion through the copy `c`. */
module PermissionTree {
  import opened Scopes
  import opened ScopeNodes

  /** A trie is just its root. */
  datatype Trie = Trie(root: Node)

  /** `NewTree()`: an empty root with the empty path; it grants nothing. */
  function NewTree(): (t: Trie)
    ensures WellFormed(t.root) && t.root.isRoot && t.root.path == ""
    ensures forall a, s :: !HasAccess(t, a, s)
  {
    Trie(NewRoot())
  }

  // ---------------------------------------------------------------- insertion

  /** `t.addNode(n, action, path)`: grant `action` on the remaining `path` below
      `n`, creating the children it passes through. */
  function AddNode(n: Node, action: string, path: string): (r: Node)
    decreases |path|, if n.path == path then 0 else 1, n
    // the node keeps its segment and root flag
    ensures r.path == n.path && r.isRoot == n.isRoot
    // the node itself gains the action exactly when the path ends at it or is "*"
    ensures action in r.actions <==> action in n.actions || n.path == path || path == "*"
    ensures r.actions <= n.actions + {action}
    // no child is created when the path ends here or the action is already held
    ensures n.path == path || path == "*" || action in n.actions ==> r.children == n.children
  {
    if n.path == path || path == "*" then n.(actions := n.actions + {action})
    else if action in n.actions then n
    else
      var (head, tail) := Split(path);
      var child := if head in n.children then n.children[head] else NewChild(head);
      n.(children := n.children[head := AddNode(child, action, tail)])
  }

  /** Insertion only ever extends a node: it never removes an action or a child. */
  lemma {:induction false} AddNodeExtends(n: Node, action: string, path: string)
    decreases |path|, if n.path == path then 0 else 1, n
    ensures Sub(n, AddNode(n, action, path))
  {
    SubRefl(n);
    if !(n.path == path || path == "*" || action in n.actions) {
      var (head, tail) := Split(path);
      var child := if head in n.children then n.children[head] else NewChild(head);
      AddNodeExtends(child, action, tail);
      ReplaceChildIsSub(n, head, AddNode(child, action, tail));
    }
  }

  // ---------------------------------------------------------------- queries

  /** `n.hasAccess(action, path)`: both branches read the node's own actions. */
  function NodeHasAccess(n: Node, action: string, path: string): (r: bool)
    ensures r <==> action in n.actions
  {
    if n.path == path then action in n.actions
    else if action in n.actions then true
    else false
  }

  /** `t.HasAccess(action, scope)`: only the root is consulted. */
  function HasAccess(t: Trie, action: string, scope: string): (r: bool)
    ensures r <==> action in t.root.actions
  {
    NodeHasAccess(t.root, action, scope)
  }

  // ---------------------------------------------------------------- building

  /** One iteration of the `BuildPermissionTrie` loop. */
  function Insert(t: Trie, p: Permission): Trie {
    Trie(AddNode(t.root, p.action, p.scope))
  }

  /** The trie reached from `t` by inserting `perms`, first to last. */
  function BuildFrom(t: Trie, perms: seq<Permission>): Trie
    decreases |perms|
  {
    if perms == [] then t else BuildFrom(Insert(t, perms[0]), perms[1..])
  }

  /** The trie `BuildPermissionTrie` builds. */
  function Build(perms: seq<Permission>): Trie {
    BuildFrom(NewTree(), perms)
  }

  /** `BuildPermissionTrie(permissions)`. */
  method BuildPermissionTrie(perms: seq<Permission>) returns (t: Trie)
    ensures t == Build(perms)
  {
    t := NewTree();
    var i := 0;
    while i < |perms|
      invariant 0 <= i <= |perms|
      invariant BuildFrom(t, perms[i..]) == Build(perms)
    {
      assert perms[i..][0] == perms[i] && perms[i..][1..] == perms[i + 1..];
      t := t.(root := AddNode(t.root, perms[i].action, perms[i].scope));
      i := i + 1;
    }
  }

  // ---------------------------------------------------------------- lemmas

  /** A permission that marks the root: its scope is empty (the root's own path)
      or the wildcard. */
  predicate MarksRoot(p: Permission, action: string) {
    p.action == action && (p.scope == "" || p.scope == "*")
  }

  /** Building from a trie whose root has the empty path: the root ends up
      holding `action` exactly when it already did or some permission marks it. */
  lemma {:induction false} BuildFromRoot(t: Trie, perms: seq<Permission>, action: string)
    requires t.root.path == ""
    decreases |perms|
    ensures BuildFrom(t, perms).root.path == ""
    ensures action in BuildFrom(t, perms).root.actions <==>
      action in t.root.actions || exists p | p in perms :: MarksRoot(p, action)
  {
    if perms != [] {
      var t' := Insert(t, perms[0]);
      assert action in t'.root.actions <==> action in t.root.actions || MarksRoot(perms[0], action);
      BuildFromRoot(t', perms[1..], action);
      assert forall p :: p in perms <==> p == perms[0] || p in perms[1..];
    }
  }

  /** After `BuildPermissionTrie`, the root holds `action` (and so every
      `HasAccess(action, s)` is true) exactly when the list grants `action` on
      the empty scope or on "*". */
  lemma BuildRootHolds(perms: seq<Permission>, action: string, scope: string)
    ensures HasAccess(Build(perms), action, scope) <==>
      exists p | p in perms :: MarksRoot(p, action)
  {
    BuildFromRoot(NewTree(), perms, action);
  }

  /** With no delimiter left, the child is keyed by the whole remaining path,
      and the recursive call marks that child and stops there. */
  lemma NoDelimiterMarksLeaf(n: Node, action: string, path: string)
    requires Delim !in path && n.path != path && path != "*" && action !in n.actions
    // holds in a well-formed tree
    requires path in n.children ==> n.children[path].path == path
    ensures var child := if path in n.children then n.children[path] else NewChild(path);
      AddNode(n, action, path) == n.(children := n.children[path := child.(actions := child.actions + {action})])
  {
    SplitCases(path);
    var child := if path in n.children then n.children[path] else NewChild(path);
    assert child.path == path;
    MarksHere(child, action, path);
  }

  lemma MarksHere(n: Node, action: string, path: string)
    requires n.path == path
    ensures AddNode(n, action, path) == n.(actions := n.actions + {action})
  {
  }

  /** Insertion keeps every child stored under its own segment. */
  lemma {:induction false} AddNodeWellFormed(n: Node, action: string, path: string)
    requires WellFormed(n)
    decreases |path|, if n.path == path then 0 else 1, n
    ensures WellFormed(AddNode(n, action, path))
  {
    if !(n.path == path || path == "*" || action in n.actions) {
      var (head, tail) := Split(path);
      var child := if head in n.children then n.children[head] else NewChild(head);
      AddNodeWellFormed(child, action, tail);
      WellFormedReplace(n, head, AddNode(child, action, tail));
    }
  }

  /** Building keeps the trie well formed and only extends it. */
  lemma {:induction false} BuildFromGrows(t: Trie, perms: seq<Permission>)
    requires WellFormed(t.root)
    decreases |perms|
    ensures WellFormed(BuildFrom(t, perms).root)
    ensures Sub(t.root, BuildFrom(t, perms).root)
  {
    if perms == [] {
      SubRefl(t.root);
    } else {
      var t' := Insert(t, perms[0]);
      AddNodeExtends(t.root, perms[0].action, perms[0].scope);
      AddNodeWellFormed(t.root, perms[0].action, perms[0].scope);
      BuildFromGrows(t', perms[1..]);
      SubTrans(t.root, t'.root, BuildFrom(t, perms).root);
    }
  }

  /** A grant the root holds survives any later inserts. */
  lemma AccessKept(t: Trie, perms: seq<Permission>, action: string, scope: string)
    requires WellFormed(t.root) && HasAccess(t, action, scope)
    ensures HasAccess(BuildFrom(t, perms), action, scope)
  {
    BuildFromGrows(t, perms);
  }
}
