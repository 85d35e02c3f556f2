/** A corrected scope trie: insertion and lookup on the list of segments.

    `addNode` in pkg/services/accesscontrol/trie.go decides to mark a node by
    comparing the whole remaining path with the node's own segment
    (`n.Path == path`), and the walk stops on the same comparison. Both then
    confuse "the remaining path is one more segment equal to mine" with "the
    path ends here", so a scope that repeats a segment marks a node too high:
    `x:x` grants `x` and everything under it, and `x:x:*` does not grant `x:x`
    (see `ScopeTrieBounds.RepeatedSegmentOverGrant` and
    `ScopeTrieBounds.RepeatedWildcardUnderGrant`). Cutting the scope into its
    segments first and consuming one segment per level removes the confusion;
    this module builds such a trie and proves that it grants exactly the
    scopes at or below each permission's scope. */
module SegmentTrie {
  import opened Scopes
  import opened ScopeNodes
  import ScopeTrie

  /** A scope cut at every delimiter: `a:b:c` gives `["a", "b", "c"]`, the
      empty scope gives `[""]`. */
  function Segments(s: string): (r: seq<string>)
    decreases |s|
    ensures |r| > 0
  {
    if s == "" then [""]
    else if s[0] == Delim then [""] + Segments(s[1..])
    else
      var rest := Segments(s[1..]);
      [[s[0]] + rest[0]] + rest[1..]
  }

  /** A scope made of one segment and a delimiter starts with that segment. */
  lemma {:induction false} SegmentsCons(x: string, rest: string)
    requires Delim !in x
    decreases |x|
    ensures Segments(x + [Delim] + rest) == [x] + Segments(rest)
  {
    if x == "" {
      assert ([Delim] + rest)[1..] == rest;
    } else {
      SegmentsCons(x[1..], rest);
      assert (x + [Delim] + rest)[1..] == x[1..] + [Delim] + rest;
      assert [x[0]] + x[1..] == x;
    }
  }

  /** A delimiter-free scope is a single segment. */
  lemma {:induction false} SegmentsOne(x: string)
    requires Delim !in x
    decreases |x|
    ensures Segments(x) == [x]
  {
    if x != "" {
      SegmentsOne(x[1..]);
      assert [x[0]] + x[1..] == x;
    }
  }

  /** The keys of the node a scope's segments name: all of them, less a final
      `*`, which stands for that node's whole subtree. */
  function Target(segs: seq<string>): seq<string> {
    if |segs| > 0 && segs[|segs| - 1] == "*" then segs[..|segs| - 1] else segs
  }

  /** A non-empty scope covers a query when the node it names lies on the
      query's path: every query at or below it. */
  predicate Covers(scope: string, query: string) {
    scope != "" && Target(Segments(scope)) <= Segments(query)
  }

  /** Mark `action` at the node `segs` names, stopping early (as `addNode`
      does) at a node that already holds it. */
  function AddSegs(n: Node, action: string, segs: seq<string>): (r: Node)
    decreases |segs|
    ensures r.path == n.path && r.isRoot == n.isRoot
  {
    if segs == [] || segs == ["*"] then n.(actions := n.actions + {action})
    else if action in n.actions then n
    else
      var child := if segs[0] in n.children then n.children[segs[0]] else NewChild(segs[0]);
      n.(children := n.children[segs[0] := AddSegs(child, action, segs[1..])])
  }

  /** The walk on segments: some node on the query's path holds the action. */
  ghost predicate GrantedSegs(n: Node, action: string, segs: seq<string>)
    decreases |segs|
  {
    action in n.actions
    || (segs != [] && segs[0] in n.children && GrantedSegs(n.children[segs[0]], action, segs[1..]))
  }

  /** One permission: the action becomes trie-wide, and a non-empty scope is
      marked along its segments. */
  function Insert(t: ScopeTrie.Trie, p: Permission): ScopeTrie.Trie {
    ScopeTrie.Trie(if p.scope == "" then t.root else AddSegs(t.root, p.action, Segments(p.scope)),
                   t.actions + {p.action})
  }

  function BuildFrom(t: ScopeTrie.Trie, perms: seq<Permission>): ScopeTrie.Trie
    decreases |perms|
  {
    if perms == [] then t else BuildFrom(Insert(t, perms[0]), perms[1..])
  }

  /** The corrected `TrieFromPermissions`. */
  function Build(perms: seq<Permission>): ScopeTrie.Trie {
    BuildFrom(ScopeTrie.NewTrie(), perms)
  }

  /** The corrected `HasAccess`: the empty scope asks for the action anywhere. */
  ghost predicate HasAccess(t: ScopeTrie.Trie, action: string, scope: string) {
    if scope == "" then action in t.actions else GrantedSegs(t.root, action, Segments(scope))
  }

  // ---------------------------------------------------------------- one insertion

  /** Dropping the first segment commutes with `Target` unless it is the last one. */
  lemma TargetCons(segs: seq<string>)
    requires segs != [] && segs != ["*"]
    ensures Target(segs) == [segs[0]] + Target(segs[1..])
  {
    if |segs| > 1 {
      assert segs[1..][..|segs| - 2] == segs[1..|segs| - 1];
    }
  }

  /** Insertion only ever extends a node. */
  lemma {:induction false} AddSegsExtends(n: Node, action: string, segs: seq<string>)
    decreases |segs|
    ensures Sub(n, AddSegs(n, action, segs))
  {
    SubRefl(n);
    if !(segs == [] || segs == ["*"] || action in n.actions) {
      var child := if segs[0] in n.children then n.children[segs[0]] else NewChild(segs[0]);
      AddSegsExtends(child, action, segs[1..]);
      ReplaceChildIsSub(n, segs[0], AddSegs(child, action, segs[1..]));
    }
  }

  /** The only mark one insertion adds is `action` at `Target(segs)`. */
  lemma {:induction false} AddSegsMarksOnly(n: Node, action: string, segs: seq<string>, b: string, keys: seq<string>)
    requires HasMark(AddSegs(n, action, segs), b, keys)
    decreases |segs|
    ensures HasMark(n, b, keys) || (b == action && keys == Target(segs))
  {
    if segs == [] || segs == ["*"] {
      MarkedHere(n, action, b, keys);
    } else if action !in n.actions && !HasMark(n, b, keys) {
      var child := if segs[0] in n.children then n.children[segs[0]] else NewChild(segs[0]);
      ReplacedMarks(n, segs[0], AddSegs(child, action, segs[1..]), b, keys);
      AddSegsMarksOnly(child, action, segs[1..], b, keys[1..]);
      TargetCons(segs);
      assert [segs[0]] + keys[1..] == keys;
    }
  }

  /** One insertion leaves `action` marked at `Target(segs)` or above it. */
  lemma {:induction false} AddSegsMarksOnPath(n: Node, action: string, segs: seq<string>)
    returns (got: seq<string>)
    decreases |segs|
    ensures got <= Target(segs) && HasMark(AddSegs(n, action, segs), action, got)
  {
    if segs == [] || segs == ["*"] || action in n.actions {
      got := [];
    } else {
      var child := if segs[0] in n.children then n.children[segs[0]] else NewChild(segs[0]);
      var rest := AddSegsMarksOnPath(child, action, segs[1..]);
      TargetCons(segs);
      got := [segs[0]] + rest;
    }
  }

  // ---------------------------------------------------------------- the walk

  /** A mark on the query's path grants the query. */
  lemma {:induction false} MarkFound(n: Node, action: string, keys: seq<string>, q: seq<string>)
    requires HasMark(n, action, keys) && keys <= q
    decreases |keys|
    ensures GrantedSegs(n, action, q)
  {
    if keys != [] {
      assert keys[1..] <= q[1..];
      MarkFound(n.children[keys[0]], action, keys[1..], q[1..]);
    }
  }

  /** A grant comes from a mark on the query's path. */
  lemma {:induction false} MarkOfGrant(n: Node, action: string, q: seq<string>) returns (keys: seq<string>)
    requires GrantedSegs(n, action, q)
    decreases |q|
    ensures HasMark(n, action, keys) && keys <= q
  {
    if action in n.actions {
      keys := [];
    } else {
      var rest := MarkOfGrant(n.children[q[0]], action, q[1..]);
      keys := [q[0]] + rest;
    }
  }

  // ---------------------------------------------------------------- building

  lemma {:induction false} BuildFromSub(t: ScopeTrie.Trie, perms: seq<Permission>)
    decreases |perms|
    ensures Sub(t.root, BuildFrom(t, perms).root)
  {
    if perms == [] {
      SubRefl(t.root);
    } else {
      var t' := Insert(t, perms[0]);
      if perms[0].scope == "" { SubRefl(t.root); } else { AddSegsExtends(t.root, perms[0].action, Segments(perms[0].scope)); }
      BuildFromSub(t', perms[1..]);
      SubTrans(t.root, t'.root, BuildFrom(t', perms[1..]).root);
    }
  }

  /** Every mark of a built trie was there before or is some permission's target. */
  lemma {:induction false} BuildFromMarksOnly(t: ScopeTrie.Trie, perms: seq<Permission>, b: string, keys: seq<string>)
    requires HasMark(BuildFrom(t, perms).root, b, keys)
    decreases |perms|
    ensures HasMark(t.root, b, keys)
      || exists p | p in perms :: p.action == b && p.scope != "" && keys == Target(Segments(p.scope))
  {
    if perms != [] {
      var p := perms[0];
      var t' := Insert(t, p);
      BuildFromMarksOnly(t', perms[1..], b, keys);
      if HasMark(t'.root, b, keys) {
        if p.scope != "" { AddSegsMarksOnly(t.root, p.action, Segments(p.scope), b, keys); }
      } else {
        var r :| r in perms[1..] && r.action == b && r.scope != "" && keys == Target(Segments(r.scope));
        assert r in perms;
      }
    }
  }

  /** Each permission with a non-empty scope leaves its action marked at its
      target or above it. */
  lemma {:induction false} BuildFromMarksOnPath(t: ScopeTrie.Trie, perms: seq<Permission>, j: nat) returns (got: seq<string>)
    requires j < |perms| && perms[j].scope != ""
    decreases |perms|
    ensures got <= Target(Segments(perms[j].scope)) && HasMark(BuildFrom(t, perms).root, perms[j].action, got)
  {
    var t' := Insert(t, perms[0]);
    if j == 0 {
      got := AddSegsMarksOnPath(t.root, perms[0].action, Segments(perms[0].scope));
      BuildFromSub(t', perms[1..]);
      HasMarkSub(t'.root, BuildFrom(t', perms[1..]).root, perms[0].action, got);
    } else {
      assert perms[1..][j - 1] == perms[j];
      got := BuildFromMarksOnPath(t', perms[1..], j - 1);
    }
  }

  /** The corrected build grants a non-empty scope exactly when some permission
      for the action covers it. */
  lemma BuildExact(perms: seq<Permission>, action: string, scope: string)
    requires scope != ""
    ensures HasAccess(Build(perms), action, scope) <==>
      exists p | p in perms :: p.action == action && Covers(p.scope, scope)
  {
    var t := Build(perms);
    var q := Segments(scope);
    if HasAccess(t, action, scope) {
      var keys := MarkOfGrant(t.root, action, q);
      BuildFromMarksOnly(ScopeTrie.NewTrie(), perms, action, keys);
      BareHasNoMark(ScopeTrie.NewTrie().root, action, keys);
      var p :| p in perms && p.action == action && p.scope != "" && keys == Target(Segments(p.scope));
      assert Covers(p.scope, scope);
    }
    if exists p | p in perms :: p.action == action && Covers(p.scope, scope) {
      var p :| p in perms && p.action == action && Covers(p.scope, scope);
      var j :| 0 <= j < |perms| && perms[j] == p;
      var got := BuildFromMarksOnPath(ScopeTrie.NewTrie(), perms, j);
      MarkFound(t.root, action, got, q);
    }
  }

  /** A trie built from one permission grants a non-empty scope exactly when
      that permission covers it. */
  lemma BuildOne(p: Permission, action: string, scope: string)
    requires scope != ""
    ensures HasAccess(Build([p]), action, scope) <==> p.action == action && Covers(p.scope, scope)
  {
    BuildExact([p], action, scope);
  }

  /** With segments, `x:x` grants `x:x` but neither `x` nor a sibling `x:y`. */
  lemma RepeatedSegmentFixed(action: string, x: string, y: string)
    requires x != "" && x != "*" && Delim !in x && Delim !in y && y != x
    ensures HasAccess(Build([Permission(action, x + [Delim] + x)]), action, x + [Delim] + x)
    ensures !HasAccess(Build([Permission(action, x + [Delim] + x)]), action, x)
    ensures !HasAccess(Build([Permission(action, x + [Delim] + x)]), action, x + [Delim] + y)
  {
    var p := Permission(action, x + [Delim] + x);
    SegmentsOne(x);
    SegmentsCons(x, x);
    SegmentsCons(x, y);
    SegmentsOne(y);
    assert Target([x, x]) == [x, x];
    BuildOne(p, action, x + [Delim] + x);
    BuildOne(p, action, x);
    BuildOne(p, action, x + [Delim] + y);
  }

  /** The segments of `x:x:*`. */
  lemma RepeatedWildcardSegments(x: string)
    requires Delim !in x
    ensures Segments(x + [Delim] + (x + [Delim, '*'])) == [x, x, "*"]
  {
    var rest: string := x + [Delim] + ['*'];
    assert x + [Delim, '*'] == rest;
    SegmentsCons(x, rest);
    SegmentsCons(x, ['*']);
    SegmentsOne(['*']);
    assert [x] + ([x] + ["*"]) == [x, x, "*"];
  }

  /** With segments, `x:x:*` grants `x:x`. */
  lemma RepeatedWildcardFixed(action: string, x: string)
    requires x != "" && Delim !in x
    ensures HasAccess(Build([Permission(action, x + [Delim] + (x + [Delim, '*']))]), action, x + [Delim] + x)
  {
    RepeatedWildcardSegments(x);
    SegmentsOne(x);
    SegmentsCons(x, x);
    assert Target([x, x, "*"]) == [x, x];
    BuildOne(Permission(action, x + [Delim] + (x + [Delim, '*'])), action, x + [Delim] + x);
  }
}
