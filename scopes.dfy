/** Scope strings, permissions and the segment split shared by both tries.

    A scope is a colon-delimited string such as `datasources:uid:123`. Both
    insertion routines and the path-descent walk split the remaining path with
    `strings.Index` on ":" followed by `path[idx+1:]`; `Split` models that pair
    of expressions exactly, including its two quirks (no delimiter, and a
    leading delimiter). */
module Scopes {
  import opened Wrappers

  /** The scope delimiter ":" that every call site passes. */
  const Delim: char := ':'

  /** An (action, scope) grant. */
  datatype Permission = Permission(action: string, scope: string)

  /** Go's `strings.Index(s, string(c))`: the first position of `c`, or -1. */
  function Index(s: string, c: char): (i: int)
    ensures -1 <= i < |s|
  {
    if |s| == 0 then -1
    else if s[0] == c then 0
    else
      var j := Index(s[1..], c);
      if j == -1 then -1 else j + 1
  }

  /** `Index` finds the first occurrence, and -1 exactly when there is none. */
  lemma {:induction false} IndexIsFirst(s: string, c: char)
    ensures Index(s, c) == -1 <==> c !in s
    ensures 0 <= Index(s, c) ==> s[Index(s, c)] == c && c !in s[..Index(s, c)]
  {
    if |s| > 0 && s[0] != c {
      IndexIsFirst(s[1..], c);
      var j := Index(s[1..], c);
      if j == -1 {
        assert forall k | 0 < k < |s| :: s[k] == s[1..][k - 1];
      } else {
        assert s[..j + 1] == [s[0]] + s[1..][..j];
      }
    }
  }

  /** The head segment and the remaining tail of `path`, as computed by
      `prefix := path; if idx > 0 { prefix = path[:idx] }` and `path[idx+1:]`.
      The tail is shorter than the path unless both are the whole path. */
  function Split(path: string): (r: (string, string))
    ensures |r.1| < |path| || r == (path, path)
  {
    var idx := Index(path, Delim);
    (if idx > 0 then path[..idx] else path, path[idx + 1..])
  }

  /** The three shapes of a split. */
  lemma SplitCases(path: string)
    // a delimiter after the first character: head is the first segment, tail the rest
    ensures Split(path).0 != path ==>
      Split(path).0 != "" && Delim !in Split(path).0 && path == Split(path).0 + [Delim] + Split(path).1
    // no delimiter: head and tail are both the whole path
    ensures Delim !in path ==> Split(path) == (path, path)
    // a leading delimiter: head is the whole path, tail drops the delimiter
    ensures |path| > 0 && path[0] == Delim ==> Split(path) == (path, path[1..])
    // and the head is the whole path only in those two cases
    ensures Split(path).0 == path ==> Delim !in path || (|path| > 0 && path[0] == Delim)
  {
    IndexIsFirst(path, Delim);
    var idx := Index(path, Delim);
    if idx > 0 {
      var head, tail := path[..idx], path[idx + 1..];
      assert Split(path) == (head, tail);
      assert path == head + [Delim] + tail;
    }
  }

  /** True when the scope's last character is the delimiter (such as `x:`). */
  predicate EndsWithDelim(s: string) {
    |s| > 0 && s[|s| - 1] == Delim
  }

  /** The tail of a non-empty scope that does not end with the delimiter is again
      non-empty and does not end with it. */
  lemma TailKeepsShape(path: string)
    requires path != "" && !EndsWithDelim(path)
    ensures Split(path).1 != "" && !EndsWithDelim(Split(path).1)
  {
    SplitCases(path);
    var (head, tail) := Split(path);
    if head != path {
      assert path == head + [Delim] + tail;
      assert path[|path| - 1] == ([Delim] + tail)[|tail|];
    }
  }

  // ---------------------------------------------------------------- descent on strings

  /** The child keys that `addNode` descends through before it marks a node,
      starting at a node whose own segment is `own` with remaining `path`, or
      `None` when the remaining path runs out (`path == ""`) and nothing is
      marked. It follows the branches of `addNode` on the strings alone, without
      the early return at a node that already holds the action. */
  function MarkPath(own: string, path: string): Option<seq<string>>
    decreases |path|, if own == path then 0 else 1
  {
    if path == "" then None
    else if own == path || path == "*" then Some([])
    else
      var (head, tail) := Split(path);
      match MarkPath(head, tail)
      case None => None
      case Some(keys) => Some([head] + keys)
  }

  /** The child keys the path-descent walk for `path` follows from a node whose
      own segment is `own`, as far as the children exist: it stops when the
      remaining path equals the node's segment. */
  function QueryPath(own: string, path: string): seq<string>
    decreases |path|, if own == path then 0 else 1
  {
    if own == path then []
    else
      var (head, tail) := Split(path);
      [head] + QueryPath(head, tail)
  }

  /** Granting `scope` from the root covers `query`: the node `addNode` marks for
      `scope` lies on the walk for `query` (it is the root, an ancestor of the
      query's node, or that node itself). */
  predicate Covers(scope: string, query: string) {
    MarkPath("", scope).Some? && MarkPath("", scope).value <= QueryPath("", query)
  }
}
