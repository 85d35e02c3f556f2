/** Exactly which scopes a built trie of pkg/services/accesscontrol/trie.go
    grants.

    The marks of a tree are the (action, key path) pairs `HasMark` relates; an
    insertion adds at most the mark `MarkPath` computes, and at least a mark on
    that key path; the walk finds a mark exactly when its key path is a prefix
    of `QueryPath`. Together these give `HasAccess` as a property of the
    permission strings alone (`Covers`). */
module ScopeTrieBounds {
  import opened Wrappers
  import opened Scopes
  import opened ScopeNodes
  import opened ScopeTrie

  // ---------------------------------------------------------------- one insertion

  /** The only mark one insertion can add is `action` at the keys `MarkPath`
      gives. */
  lemma {:induction false} AddNodeMarksOnly(n: Node, action: string, path: string, b: string, keys: seq<string>)
    requires WellFormed(n) && HasMark(AddNode(n, action, path), b, keys)
    decreases |path|, if n.path == path then 0 else 1, n
    ensures HasMark(n, b, keys) || (b == action && MarkPath(n.path, path) == Some(keys))
  {
    if path == "" || action in n.actions {
    } else if n.path == path || path == "*" {
      MarkedHere(n, action, b, keys);
    } else if !HasMark(n, b, keys) {
      var (head, tail) := Split(path);
      var child := if head in n.children then n.children[head] else NewChild(head);
      DescendedMark(n, action, path, b, keys);
      AddNodeMarksOnly(child, action, tail, b, keys[1..]);
      assert child.path == head;
      if b == action && MarkPath(head, tail) == Some(keys[1..]) {
        MarkPathStep(n.path, path, keys[1..]);
        assert [head] + keys[1..] == keys;
      }
    }
  }

  /** A mark that a descending insertion adds lies below the head segment. */
  lemma DescendedMark(n: Node, action: string, path: string, b: string, keys: seq<string>)
    requires path != "" && n.path != path && path != "*" && action !in n.actions
    requires HasMark(AddNode(n, action, path), b, keys) && !HasMark(n, b, keys)
    ensures var (head, tail) := Split(path);
      var child := if head in n.children then n.children[head] else NewChild(head);
      keys != [] && keys[0] == head && HasMark(AddNode(child, action, tail), b, keys[1..])
  {
    var (head, tail) := Split(path);
    var child := if head in n.children then n.children[head] else NewChild(head);
    Descends(n, action, path);
    ReplacedMarks(n, head, AddNode(child, action, tail), b, keys);
  }

  /** One step of `MarkPath` below a node that does not end the path. */
  lemma MarkPathStep(own: string, path: string, keys: seq<string>)
    requires path != "" && own != path && path != "*"
    requires MarkPath(Split(path).0, Split(path).1) == Some(keys)
    ensures MarkPath(own, path) == Some([Split(path).0] + keys)
  {
  }

  /** One insertion leaves `action` marked on the keys `MarkPath` gives, or on a
      prefix of them (where it stopped at a node already holding it). */
  lemma {:induction false} AddNodeMarksOnPath(n: Node, action: string, path: string, keys: seq<string>)
    returns (got: seq<string>)
    requires WellFormed(n) && MarkPath(n.path, path) == Some(keys)
    decreases |path|, if n.path == path then 0 else 1, n
    ensures got <= keys && HasMark(AddNode(n, action, path), action, got)
  {
    if n.path == path || path == "*" {
      got := [];
    } else if action in n.actions {
      got := [];
    } else {
      var (head, tail) := Split(path);
      var child := if head in n.children then n.children[head] else NewChild(head);
      Descends(n, action, path);
      assert child.path == head;
      var rest := AddNodeMarksOnPath(child, action, tail, keys[1..]);
      got := [head] + rest;
    }
  }

  // ---------------------------------------------------------------- the walk

  /** A mark whose keys lie on the walk for `q` grants `q`. */
  lemma {:induction false} MarkFoundByWalk(n: Node, action: string, keys: seq<string>, q: string)
    requires WellFormed(n) && HasMark(n, action, keys) && keys <= QueryPath(n.path, q)
    decreases |keys|
    ensures Granted(n, action, q)
  {
    if keys != [] {
      var (head, tail) := Split(q);
      var child := n.children[head];
      assert child.path == head;
      assert keys[1..] <= QueryPath(head, tail);
      MarkFoundByWalk(child, action, keys[1..], tail);
    }
  }

  /** A grant comes from a mark on the walk for `q`. */
  lemma {:induction false} MarkOfGrant(n: Node, action: string, q: string) returns (keys: seq<string>)
    requires WellFormed(n) && Granted(n, action, q)
    decreases n
    ensures HasMark(n, action, keys) && keys <= QueryPath(n.path, q)
  {
    if action in n.actions {
      keys := [];
    } else {
      var (head, tail) := Split(q);
      var child := n.children[head];
      assert child.path == head;
      var rest := MarkOfGrant(child, action, tail);
      keys := [head] + rest;
    }
  }

  // ---------------------------------------------------------------- building

  /** Every mark of a built trie was there before or comes from an input
      permission, at the keys `MarkPath` gives for its scope. */
  lemma {:induction false} BuildFromMarksOnly(t: Trie, perms: seq<Permission>, b: string, keys: seq<string>)
    requires WellFormed(t.root) && t.root.path == ""
    requires HasMark(BuildFrom(t, perms).root, b, keys)
    decreases |perms|
    ensures HasMark(t.root, b, keys) || exists p | p in perms :: p.action == b && MarkPath("", p.scope) == Some(keys)
  {
    if perms != [] {
      var t' := Insert(t, perms[0]);
      AddNodeWellFormed(t.root, perms[0].action, perms[0].scope);
      BuildFromMarksOnly(t', perms[1..], b, keys);
      if HasMark(t'.root, b, keys) {
        AddNodeMarksOnly(t.root, perms[0].action, perms[0].scope, b, keys);
      } else {
        var p :| p in perms[1..] && p.action == b && MarkPath("", p.scope) == Some(keys);
        assert p in perms;
      }
    }
  }

  /** Each input permission leaves its action marked on the keys `MarkPath`
      gives for its scope, or on a prefix of them. */
  lemma {:induction false} BuildFromMarksOnPath(t: Trie, perms: seq<Permission>, j: nat, keys: seq<string>)
    returns (got: seq<string>)
    requires WellFormed(t.root) && t.root.path == ""
    requires j < |perms| && MarkPath("", perms[j].scope) == Some(keys)
    decreases |perms|
    ensures got <= keys && HasMark(BuildFrom(t, perms).root, perms[j].action, got)
  {
    if j == 0 {
      got := FirstMarksOnPath(t, perms[0], perms[1..], keys);
      assert perms == [perms[0]] + perms[1..];
    } else {
      var t' := Insert(t, perms[0]);
      AddNodeWellFormed(t.root, perms[0].action, perms[0].scope);
      assert perms[1..][j - 1] == perms[j];
      got := BuildFromMarksOnPath(t', perms[1..], j - 1, keys);
    }
  }

  /** The first permission's mark survives the insertions after it. */
  lemma FirstMarksOnPath(t: Trie, p: Permission, rest: seq<Permission>, keys: seq<string>)
    returns (got: seq<string>)
    requires WellFormed(t.root) && t.root.path == ""
    requires MarkPath("", p.scope) == Some(keys)
    ensures got <= keys && HasMark(BuildFrom(t, [p] + rest).root, p.action, got)
  {
    var t' := Insert(t, p);
    got := AddNodeMarksOnPath(t.root, p.action, p.scope, keys);
    assert ([p] + rest)[1..] == rest;
    BuildFromSub(t', rest);
    HasMarkSub(t'.root, BuildFrom(t', rest).root, p.action, got);
  }

  /** After `TrieFromPermissions`, a non-empty scope is granted exactly when
      some input permission for the action covers it. */
  lemma BuildExact(perms: seq<Permission>, action: string, scope: string)
    requires scope != ""
    ensures HasAccess(Build(perms), action, scope) <==>
      exists p | p in perms :: p.action == action && Covers(p.scope, scope)
  {
    var t := Build(perms);
    BuildShape(perms);
    if HasAccess(t, action, scope) {
      var keys := MarkOfGrant(t.root, action, scope);
      BuildFromMarksOnly(NewTrie(), perms, action, keys);
      BareHasNoMark(NewTrie().root, action, keys);
    }
    if exists p | p in perms :: p.action == action && Covers(p.scope, scope) {
      var p :| p in perms && p.action == action && Covers(p.scope, scope);
      var j :| 0 <= j < |perms| && perms[j] == p;
      var got := BuildFromMarksOnPath(NewTrie(), perms, j, MarkPath("", p.scope).value);
      MarkFoundByWalk(t.root, action, got, scope);
    }
  }

  /** After `TrieFromMap`, a non-empty scope is granted exactly when one of the
      scopes listed under the action covers it. */
  lemma TrieFromMapExact(perms: map<string, seq<string>>, t: Trie, q: seq<Permission>, action: string, scope: string)
    requires t.root == Build(q).root
    requires forall p :: p in q <==> p.action in perms && p.scope in perms[p.action]
    requires scope != ""
    ensures HasAccess(t, action, scope) <==> action in perms && exists sc | sc in perms[action] :: Covers(sc, scope)
  {
    BuildExact(q, action, scope);
    if action in perms && exists sc | sc in perms[action] :: Covers(sc, scope) {
      var sc :| sc in perms[action] && Covers(sc, scope);
      assert Permission(action, sc) in q;
    }
  }

  /** A trie built from one permission grants a non-empty scope exactly when
      that permission covers it. */
  lemma BuildOne(p: Permission, action: string, scope: string)
    requires scope != ""
    ensures HasAccess(Build([p]), action, scope) <==> p.action == action && Covers(p.scope, scope)
  {
    BuildExact([p], action, scope);
  }

  // ---------------------------------------------------------------- single segments

  /** Splitting `x:rest` at a single segment `x`. */
  lemma SplitSegment(x: string, rest: string)
    requires x != "" && Delim !in x
    ensures Split(x + [Delim] + rest) == (x, rest)
  {
    var path := x + [Delim] + rest;
    assert x + [Delim] <= path;
    SplitAtSegment(path, x);
    assert path != x by { assert |path| > |x|; }
    assert path[|x| + 1..] == rest;
  }

  /** `MarkPath` and `QueryPath` on a last segment `z` below a node `own`. */
  lemma LastSegment(own: string, z: string)
    requires z != "" && Delim !in z && own != z
    ensures z != "*" ==> MarkPath(own, z) == Some([z])
    ensures QueryPath(own, z) == [z]
  {
    SplitCases(z);
    assert Split(z) == (z, z);
    assert MarkPath(z, z) == Some([]);
    assert QueryPath(z, z) == [];
    assert [z] + [] == [z];
  }

  /** `MarkPath` and `QueryPath` on `x:rest` below a delimiter-free node `own`. */
  lemma FirstSegment(own: string, x: string, rest: string)
    requires x != "" && Delim !in x && Delim !in own
    ensures MarkPath(x, rest).Some? ==> MarkPath(own, x + [Delim] + rest) == Some([x] + MarkPath(x, rest).value)
    ensures QueryPath(own, x + [Delim] + rest) == [x] + QueryPath(x, rest)
  {
    var path := x + [Delim] + rest;
    SplitSegment(x, rest);
    assert path[|x|] == Delim;
    assert own != path;
    assert path != "*" by { assert |path| > 1; }
  }

  // ---------------------------------------------------------------- examples

  /** The keys that inserting and walking `x:y:z` follow. */
  lemma ThreeSegments(x: string, y: string, z: string)
    requires x != "" && y != "" && z != "" && Delim !in x && Delim !in y && Delim !in z
    ensures z != "*" && y != z ==> MarkPath("", x + [Delim] + (y + [Delim] + z)) == Some([x, y, z])
    ensures QueryPath("", x + [Delim] + (y + [Delim] + z)) == if y == z then [x, y] else [x, y, z]
  {
    if y != z {
      LastSegment(y, z);
      assert [y] + [z] == [y, z] && [x] + [y, z] == [x, y, z];
    } else {
      assert QueryPath(y, z) == [];
      assert [y] + [] == [y] && [x] + [y] == [x, y];
    }
    FirstSegment(x, y, z);
    FirstSegment("", x, y + [Delim] + z);
  }

  /** `x:y:z` covers itself, and neither `x` nor `x:y:w`. */
  lemma ThreeSegmentsCover(x: string, y: string, z: string, w: string)
    requires x != "" && y != "" && z != "" && w != ""
    requires Delim !in x && Delim !in y && Delim !in z && Delim !in w
    requires z != "*" && y != z && z != w
    ensures Covers(x + [Delim] + (y + [Delim] + z), x + [Delim] + (y + [Delim] + z))
    ensures !Covers(x + [Delim] + (y + [Delim] + z), x)
    ensures !Covers(x + [Delim] + (y + [Delim] + z), x + [Delim] + (y + [Delim] + w))
  {
    ThreeSegments(x, y, z);
    ThreeSegments(x, y, w);
    LastSegment("", x);
    var keys := [x, y, z];
    assert !(keys <= [x]) by { assert |keys| > |[x]|; }
    if y == w {
      assert !(keys <= [x, y]) by { assert |keys| > |[x, y]|; }
    } else {
      assert !(keys <= [x, y, w]) by { assert keys[2] != [x, y, w][2]; }
    }
  }

  /** A single grant of `x:y:z` grants `x:y:z` and neither its ancestor `x`
      nor its sibling `x:y:w`. */
  lemma SingleGrantExample(action: string, x: string, y: string, z: string, w: string)
    requires x != "" && y != "" && z != "" && w != ""
    requires Delim !in x && Delim !in y && Delim !in z && Delim !in w
    requires z != "*" && y != z && z != w
    ensures HasAccess(Build([Permission(action, x + [Delim] + (y + [Delim] + z))]), action, x + [Delim] + (y + [Delim] + z))
    ensures !HasAccess(Build([Permission(action, x + [Delim] + (y + [Delim] + z))]), action, x)
    ensures !HasAccess(Build([Permission(action, x + [Delim] + (y + [Delim] + z))]), action, x + [Delim] + (y + [Delim] + w))
  {
    var scope := x + [Delim] + (y + [Delim] + z);
    ThreeSegmentsCover(x, y, z, w);
    BuildOne(Permission(action, scope), action, scope);
    BuildOne(Permission(action, scope), action, x);
    BuildOne(Permission(action, scope), action, x + [Delim] + (y + [Delim] + w));
  }

  /** `x:x` covers `x` and every `x:other`. */
  lemma RepeatedSegmentCovers(x: string, other: string)
    requires x != "" && Delim !in x
    ensures Covers(x + [Delim] + x, x)
    ensures Covers(x + [Delim] + x, x + [Delim] + other)
  {
    FirstSegment("", x, x);
    FirstSegment("", x, other);
    LastSegment("", x);
    assert MarkPath(x, x) == Some([]) && [x] + [] == [x];
    assert [x] <= [x] + QueryPath(x, other);
  }

  /** Below node `x`, insertion of `x:*` stops at child `x`. */
  lemma WildcardBelow(x: string)
    requires x != "" && Delim !in x
    ensures MarkPath(x, x + [Delim, '*']) == Some([x])
  {
    var q := x + [Delim, '*'];
    SplitAtSegment(q, x);
    assert q[|x| + 1..] == "*";
    assert q != x && q != "*" by { assert |q| > |x| && |q| > 1; }
    assert MarkPath(x, "*") == Some([]) && [x] + [] == [x];
  }

  /** `x:x:*` does not cover `x:x`. */
  lemma RepeatedWildcardMisses(x: string)
    requires x != "" && Delim !in x
    ensures !Covers(x + [Delim] + (x + [Delim, '*']), x + [Delim] + x)
  {
    WildcardBelow(x);
    FirstSegment("", x, x + [Delim, '*']);
    FirstSegment("", x, x);
    assert QueryPath(x, x) == [];
    assert [x] + [x] == [x, x] && [x] + [] == [x];
    assert !([x, x] <= [x]) by { assert |[x, x]| > |[x]|; }
  }

  /** As written, a scope that repeats its segment, `x:x`, marks node `x`
      itself: the walk then grants `x` and everything under it. */
  lemma RepeatedSegmentOverGrant(action: string, x: string, other: string)
    requires x != "" && Delim !in x
    ensures HasAccess(Build([Permission(action, x + [Delim] + x)]), action, x)
    ensures HasAccess(Build([Permission(action, x + [Delim] + x)]), action, x + [Delim] + other)
  {
    RepeatedSegmentCovers(x, other);
    BuildOne(Permission(action, x + [Delim] + x), action, x);
    BuildOne(Permission(action, x + [Delim] + x), action, x + [Delim] + other);
  }

  /** As written, `x:x:*` does not grant `x:x`: insertion marks child `x` of
      node `x`, but the walk for `x:x` stops at node `x`. */
  lemma RepeatedWildcardUnderGrant(action: string, x: string)
    requires x != "" && Delim !in x
    ensures !HasAccess(Build([Permission(action, x + [Delim] + (x + [Delim, '*']))]), action, x + [Delim] + x)
  {
    RepeatedWildcardMisses(x);
    BuildOne(Permission(action, x + [Delim] + (x + [Delim, '*'])), action, x + [Delim] + x);
  }
}
