/** The node shape shared by both scope tries.

    A node holds the path segment it stands for, whether it is the root, the set
    of actions granted exactly at it, and its children keyed by segment. The Go
    source declares this struct twice, once per trie file, with the same four
    fields (`Root`, `Path`, `Actions`, `Children`); its `Actions` map only ever
    holds `true`, so it is a set here. */
module ScopeNodes {

  datatype Node = Node(isRoot: bool, path: string, actions: set<string>, children: map<string, Node>)

  /** The node both tries start from: the root, with the empty path. */
  function NewRoot(): Node {
    Node(true, "", {}, map[])
  }

  /** A fresh, empty child for segment `segment`. */
  function NewChild(segment: string): Node {
    Node(false, segment, {}, map[])
  }

  /** Every child is stored under its own segment and is not a root. */
  ghost predicate WellFormed(n: Node)
    decreases n
  {
    forall k :: k in n.children ==>
      n.children[k].path == k && !n.children[k].isRoot && WellFormed(n.children[k])
  }

  /** `m` extends `n`: same segment and root flag, at least the same actions, and
      every child of `n` is still there, itself extended. Insertion only ever
      moves a node to an extension of itself. */
  ghost predicate Sub(n: Node, m: Node)
    decreases n
  {
    && n.path == m.path
    && n.isRoot == m.isRoot
    && n.actions <= m.actions
    && forall k :: k in n.children ==> k in m.children && Sub(n.children[k], m.children[k])
  }

  /** Every action held anywhere in the tree belongs to `acts`. */
  ghost predicate ActionsWithin(n: Node, acts: set<string>)
    decreases n
  {
    n.actions <= acts && forall k :: k in n.children ==> ActionsWithin(n.children[k], acts)
  }

  lemma {:induction false} SubRefl(n: Node)
    decreases n
    ensures Sub(n, n)
  {
    forall k | k in n.children {
      SubRefl(n.children[k]);
    }
  }

  lemma {:induction false} SubTrans(a: Node, b: Node, c: Node)
    requires Sub(a, b) && Sub(b, c)
    decreases a
    ensures Sub(a, c)
  {
    forall k | k in a.children
      ensures k in c.children && Sub(a.children[k], c.children[k])
    {
      SubTrans(a.children[k], b.children[k], c.children[k]);
    }
  }

  /** Storing `child` under `key` extends `n` when `child` extends the child
      that was stored there (or there was none). */
  lemma ReplaceChildIsSub(n: Node, key: string, child: Node)
    requires key in n.children ==> Sub(n.children[key], child)
    ensures Sub(n, n.(children := n.children[key := child]))
  {
    SubRefl(n);
  }

  /** Storing a well-formed non-root child under its own segment keeps a tree
      well formed. */
  lemma WellFormedReplace(n: Node, key: string, child: Node)
    requires WellFormed(n) && WellFormed(child) && child.path == key && !child.isRoot
    ensures WellFormed(n.(children := n.children[key := child]))
  {
  }

  /** Storing a child that holds only actions from `acts` keeps the bound. */
  lemma WithinReplace(n: Node, key: string, child: Node, acts: set<string>)
    requires ActionsWithin(n, acts) && ActionsWithin(child, acts)
    ensures ActionsWithin(n.(children := n.children[key := child]), acts)
  {
  }

  /** The node reached from `n` through the child keys `keys` exists and holds
      `action`. */
  ghost predicate HasMark(n: Node, action: string, keys: seq<string>)
    decreases |keys|
  {
    if keys == [] then action in n.actions
    else keys[0] in n.children && HasMark(n.children[keys[0]], action, keys[1..])
  }

  /** A node without actions or children marks nothing. */
  lemma BareHasNoMark(n: Node, action: string, keys: seq<string>)
    requires n.actions == {} && n.children == map[]
    ensures !HasMark(n, action, keys)
  {
  }

  /** Marks survive any extension. */
  lemma {:induction false} HasMarkSub(n: Node, m: Node, action: string, keys: seq<string>)
    requires Sub(n, m) && HasMark(n, action, keys)
    decreases |keys|
    ensures HasMark(m, action, keys)
  {
    if keys != [] {
      HasMarkSub(n.children[keys[0]], m.children[keys[0]], action, keys[1..]);
    }
  }

  /** Adding `action` at `n` adds only that mark. */
  lemma MarkedHere(n: Node, action: string, b: string, keys: seq<string>)
    requires HasMark(n.(actions := n.actions + {action}), b, keys)
    ensures HasMark(n, b, keys) || (b == action && keys == [])
  {
  }

  /** Storing `r` under `key` adds only the marks of `r`. */
  lemma ReplacedMarks(n: Node, key: string, r: Node, b: string, keys: seq<string>)
    requires HasMark(n.(children := n.children[key := r]), b, keys)
    ensures HasMark(n, b, keys) || (keys != [] && keys[0] == key && HasMark(r, b, keys[1..]))
  {
  }
}
