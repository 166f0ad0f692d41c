/** Structural chunk extraction of the Rust ingester (src/main.rs):
    the newline-counting line number (get_line) and the stop-on-match
    depth-first walk over a parsed syntax tree (walk_tree) that pushes each
    outermost declaration node into the pending document and metadata
    buffers.

    The tree is an input value: it stands for what the tree-sitter parser
    returned for the file's bytes. */
module ChunkExtractor {
  import opened Common

  /** A syntax-tree node: its grammar kind, its byte range [start, end) in
      the file, and its children in source order. */
  datatype SyntaxNode = SyntaxNode(kind: string, start: nat, end: nat, children: seq<SyntaxNode>)

  /** The metadata stored with every chunk: the file's path and the value
      get_line computed for the chunk's first byte. */
  datatype Meta = Meta(path: string, line: nat)

  /** The node kinds that are emitted whole. */
  const TargetKinds: set<string> :=
    {"function_definition", "struct_specifier", "class_specifier", "enum_specifier"}

  predicate IsTarget(kind: string) {
    kind in TargetKinds
  }

  // ---------------------------------------------------------------------
  // get_line
  // ---------------------------------------------------------------------

  /** get_line: the number of newline bytes in text[..=offset], the byte at
      offset included. Slicing with ..=offset panics unless offset < |text|. */
  function GetLine(text: seq<byte>, offset: nat): (r: nat)
    requires offset < |text|
    ensures r <= offset + 1
  {
    Count(text[..offset + 1], NewlineByte)
  }

  /** The 0-based row of the byte at offset: newlines strictly before it. */
  function Row(text: seq<byte>, offset: nat): nat
    requires offset <= |text|
  {
    Count(text[..offset], NewlineByte)
  }

  /** get_line is the 0-based row of the byte, except that a node starting
      on a newline byte counts that newline too. */
  lemma GetLineIsRow(text: seq<byte>, offset: nat)
    requires offset < |text|
    ensures text[offset] != NewlineByte ==> GetLine(text, offset) == Row(text, offset)
    ensures text[offset] == NewlineByte ==> GetLine(text, offset) == Row(text, offset) + 1
  {
    assert text[..offset + 1][..offset] == text[..offset];
  }

  /** get_line never decreases as the offset grows. */
  lemma GetLineMonotonic(text: seq<byte>, a: nat, b: nat)
    requires a <= b < |text|
    ensures GetLine(text, a) <= GetLine(text, b)
  {
    assert text[..b + 1] == text[..a + 1] + text[a + 1..b + 1];
    CountAppend(text[..a + 1], text[a + 1..b + 1], NewlineByte);
  }

  // ---------------------------------------------------------------------
  // The stop-on-match traversal, as a specification on values
  // ---------------------------------------------------------------------

  /** The nodes walk_tree emits, in the order it emits them: the node itself
      when it is a target, otherwise the emitted nodes of each child in
      turn. */
  function Targets(n: SyntaxNode): (r: seq<SyntaxNode>)
    ensures forall i :: 0 <= i < |r| ==> IsTarget(r[i].kind)
    decreases n, |n.children| + 1
  {
    if IsTarget(n.kind) then [n] else TargetsOfChildren(n, |n.children|)
  }

  /** The emitted nodes of the first k children of n, in child order. */
  function TargetsOfChildren(n: SyntaxNode, k: nat): (r: seq<SyntaxNode>)
    requires k <= |n.children|
    ensures forall i :: 0 <= i < |r| ==> IsTarget(r[i].kind)
    decreases n, k
  {
    if k == 0 then [] else TargetsOfChildren(n, k - 1) + Targets(n.children[k - 1])
  }

  /** What walk_tree needs so that it does not panic: every node it emits
      lies inside the buffer and starts before its end (get_line slices up
      to and including the start byte). Children of an emitted node are not
      visited, so nothing is asked of them. */
  predicate InBounds(n: SyntaxNode, len: nat) {
    if IsTarget(n.kind) then Emittable(n, len)
    else forall i :: 0 <= i < |n.children| ==> InBounds(n.children[i], len)
  }

  predicate Emittable(t: SyntaxNode, len: nat) {
    t.start <= t.end <= len && t.start < len
  }

  predicate AllEmittable(ts: seq<SyntaxNode>, len: nat) {
    forall i :: 0 <= i < |ts| ==> Emittable(ts[i], len)
  }

  lemma {:induction false} TargetsEmittable(n: SyntaxNode, len: nat)
    requires InBounds(n, len)
    ensures AllEmittable(Targets(n), len)
    decreases n, |n.children| + 1
  {
    if !IsTarget(n.kind) {
      ChildrenTargetsEmittable(n, |n.children|, len);
    }
  }

  lemma {:induction false} ChildrenTargetsEmittable(n: SyntaxNode, k: nat, len: nat)
    requires k <= |n.children|
    requires !IsTarget(n.kind) && InBounds(n, len)
    ensures AllEmittable(TargetsOfChildren(n, k), len)
    decreases n, k
  {
    if k > 0 {
      ChildrenTargetsEmittable(n, k - 1, len);
      TargetsEmittable(n.children[k - 1], len);
    }
  }

  /** The document text of each emitted node: exactly its byte range. */
  function Docs(text: seq<byte>, ts: seq<SyntaxNode>): (r: seq<seq<byte>>)
    requires AllEmittable(ts, |text|)
    ensures |r| == |ts|
    ensures forall i :: 0 <= i < |ts| ==> r[i] == text[ts[i].start..ts[i].end]
  {
    seq(|ts|, i requires 0 <= i < |ts| => text[ts[i].start..ts[i].end])
  }

  /** The metadata of each emitted node: the path and get_line of its first
      byte. */
  function Metas(path: string, text: seq<byte>, ts: seq<SyntaxNode>): (r: seq<Meta>)
    requires AllEmittable(ts, |text|)
    ensures |r| == |ts|
    ensures forall i :: 0 <= i < |ts| ==> r[i] == Meta(path, GetLine(text, ts[i].start))
  {
    seq(|ts|, i requires 0 <= i < |ts| => Meta(path, GetLine(text, ts[i].start)))
  }

  // ---------------------------------------------------------------------
  // Independent characterisation by paths: an emitted node is exactly a
  // target node none of whose proper ancestors is a target, and the nodes
  // come out in preorder.
  // ---------------------------------------------------------------------

  /** p names a node of n by the child index taken at each level. */
  predicate ValidPath(n: SyntaxNode, p: seq<nat>)
    decreases |p|
  {
    p == [] || (p[0] < |n.children| && ValidPath(n.children[p[0]], p[1..]))
  }

  function At(n: SyntaxNode, p: seq<nat>): SyntaxNode
    requires ValidPath(n, p)
    decreases |p|
  {
    if p == [] then n else At(n.children[p[0]], p[1..])
  }

  /** p leads to a target node and passes through no target before it. */
  predicate Outermost(n: SyntaxNode, p: seq<nat>)
    decreases |p|
  {
    if p == [] then IsTarget(n.kind)
    else !IsTarget(n.kind) && p[0] < |n.children| && Outermost(n.children[p[0]], p[1..])
  }

  /** Preorder ("document order") between two nodes neither of which
      contains the other: p leaves the common ancestor by an earlier child. */
  predicate LexLess(p: seq<nat>, q: seq<nat>)
    decreases |p|
  {
    |p| > 0 && |q| > 0 && (p[0] < q[0] || (p[0] == q[0] && LexLess(p[1..], q[1..])))
  }

  predicate StrictlyOrdered(ps: seq<seq<nat>>) {
    forall i, j :: 0 <= i < j < |ps| ==> LexLess(ps[i], ps[j])
  }

  /** The paths of the nodes Targets emits, in the same order. */
  function TargetPaths(n: SyntaxNode): seq<seq<nat>>
    decreases n, |n.children| + 1
  {
    if IsTarget(n.kind) then [[]] else PathsOfChildren(n, |n.children|)
  }

  function PathsOfChildren(n: SyntaxNode, k: nat): seq<seq<nat>>
    requires k <= |n.children|
    decreases n, k
  {
    if k == 0 then [] else PathsOfChildren(n, k - 1) + Prefixed(k - 1, TargetPaths(n.children[k - 1]))
  }

  function Prefixed(c: nat, ps: seq<seq<nat>>): (r: seq<seq<nat>>)
    ensures |r| == |ps|
    ensures forall j :: 0 <= j < |ps| ==> r[j] == [c] + ps[j]
  {
    seq(|ps|, j requires 0 <= j < |ps| => [c] + ps[j])
  }

  /** Targets(n)[j] is the node at TargetPaths(n)[j]. */
  lemma {:induction false} TargetPathsLocate(n: SyntaxNode)
    ensures |TargetPaths(n)| == |Targets(n)|
    ensures forall j :: 0 <= j < |Targets(n)| ==>
      ValidPath(n, TargetPaths(n)[j]) && At(n, TargetPaths(n)[j]) == Targets(n)[j]
    decreases n, |n.children| + 1
  {
    if !IsTarget(n.kind) {
      ChildrenPathsLocate(n, |n.children|);
    }
  }

  lemma {:induction false} ChildrenPathsLocate(n: SyntaxNode, k: nat)
    requires k <= |n.children|
    ensures |PathsOfChildren(n, k)| == |TargetsOfChildren(n, k)|
    ensures forall j :: 0 <= j < |TargetsOfChildren(n, k)| ==>
      ValidPath(n, PathsOfChildren(n, k)[j]) && At(n, PathsOfChildren(n, k)[j]) == TargetsOfChildren(n, k)[j]
    decreases n, k
  {
    if k > 0 {
      var c := n.children[k - 1];
      ChildrenPathsLocate(n, k - 1);
      TargetPathsLocate(c);
      var front, back := PathsOfChildren(n, k - 1), Prefixed(k - 1, TargetPaths(c));
      forall j | 0 <= j < |back|
        ensures ValidPath(n, back[j]) && At(n, back[j]) == Targets(c)[j]
      {
        assert back[j][1..] == TargetPaths(c)[j];
      }
    }
  }

  /** A path is among TargetPaths(n) exactly when it is outermost: one
      entry per target node without a target ancestor, the node itself
      included. */
  lemma {:induction false} TargetPathsExact(n: SyntaxNode, p: seq<nat>)
    ensures p in TargetPaths(n) <==> Outermost(n, p)
    decreases n
  {
    if !IsTarget(n.kind) {
      ChildPathMembers(n, |n.children|, p);
      if p != [] && p[0] < |n.children| {
        TargetPathsExact(n.children[p[0]], p[1..]);
      }
    }
  }

  lemma {:induction false} ChildPathMembers(n: SyntaxNode, k: nat, p: seq<nat>)
    requires k <= |n.children|
    ensures p in PathsOfChildren(n, k) <==>
      (|p| > 0 && p[0] < k && p[1..] in TargetPaths(n.children[p[0]]))
  {
    if k > 0 {
      ChildPathMembers(n, k - 1, p);
      var ps := TargetPaths(n.children[k - 1]);
      if |p| > 0 && p[0] == k - 1 && p[1..] in ps {
        var j :| 0 <= j < |ps| && ps[j] == p[1..];
        assert p == [k - 1] + ps[j];
        assert p in Prefixed(k - 1, ps);
      }
      if p in Prefixed(k - 1, ps) {
        var j :| 0 <= j < |ps| && Prefixed(k - 1, ps)[j] == p;
        assert p[1..] == ps[j];
      }
    }
  }

  lemma LexLessUnderPrefix(c: nat, p: seq<nat>, q: seq<nat>)
    ensures LexLess([c] + p, [c] + q) <==> LexLess(p, q)
  {
    assert ([c] + p)[1..] == p;
    assert ([c] + q)[1..] == q;
  }

  /** The emitted paths are in strict preorder: no repeats, no path inside
      another, earlier children first. */
  lemma {:induction false} TargetPathsOrdered(n: SyntaxNode)
    ensures StrictlyOrdered(TargetPaths(n))
    decreases n, |n.children| + 1
  {
    if !IsTarget(n.kind) {
      ChildrenPathsOrdered(n, |n.children|);
    }
  }

  lemma {:induction false} ChildrenPathsOrdered(n: SyntaxNode, k: nat)
    requires k <= |n.children|
    ensures StrictlyOrdered(PathsOfChildren(n, k))
    ensures forall j :: 0 <= j < |PathsOfChildren(n, k)| ==>
      |PathsOfChildren(n, k)[j]| > 0 && PathsOfChildren(n, k)[j][0] < k
    decreases n, k
  {
    if k > 0 {
      ChildrenPathsOrdered(n, k - 1);
      TargetPathsOrdered(n.children[k - 1]);
      var front, ps := PathsOfChildren(n, k - 1), TargetPaths(n.children[k - 1]);
      var back := Prefixed(k - 1, ps);
      forall i, j | 0 <= i < j < |back| ensures LexLess(back[i], back[j]) {
        LexLessUnderPrefix(k - 1, ps[i], ps[j]);
      }
      var all := front + back;
      forall i, j | 0 <= i < j < |all| ensures LexLess(all[i], all[j]) {
        if j < |front| {
          assert LexLess(front[i], front[j]);
        } else if i >= |front| {
          assert LexLess(back[i - |front|], back[j - |front|]);
        } else {
          assert all[i][0] < k - 1 == all[j][0];
        }
      }
    }
  }

  /** Neither of two preorder-ordered paths is a prefix of the other: an
      emitted node is never inside another emitted node. */
  lemma {:induction false} LexLessNotNested(p: seq<nat>, q: seq<nat>)
    requires LexLess(p, q)
    ensures !(p <= q) && !(q <= p)
    decreases |p|
  {
    if p[0] == q[0] {
      LexLessNotNested(p[1..], q[1..]);
    }
  }

  /** What tree-sitter guarantees of byte ranges: each node's range is
      well-formed and contains its children's, and siblings come in order
      without overlapping. */
  predicate Nested(n: SyntaxNode) {
    && n.start <= n.end
    && (forall i :: 0 <= i < |n.children| ==>
          n.start <= n.children[i].start && n.children[i].end <= n.end && Nested(n.children[i]))
    && (forall i, j :: 0 <= i < j < |n.children| ==> n.children[i].end <= n.children[j].start)
  }

  lemma {:induction false} AtWithin(n: SyntaxNode, p: seq<nat>)
    requires Nested(n) && ValidPath(n, p)
    ensures Nested(At(n, p)) && n.start <= At(n, p).start && At(n, p).end <= n.end
    decreases |p|
  {
    if p != [] {
      AtWithin(n.children[p[0]], p[1..]);
    }
  }

  /** A node earlier in preorder ends before a later one begins. */
  lemma {:induction false} LexLessDisjoint(n: SyntaxNode, p: seq<nat>, q: seq<nat>)
    requires Nested(n) && ValidPath(n, p) && ValidPath(n, q) && LexLess(p, q)
    ensures At(n, p).end <= At(n, q).start
    decreases |p|
  {
    if p[0] < q[0] {
      AtWithin(n.children[p[0]], p[1..]);
      AtWithin(n.children[q[0]], q[1..]);
    } else {
      LexLessDisjoint(n.children[p[0]], p[1..], q[1..]);
    }
  }

  /** The chunks of a file never overlap and come in source order. */
  lemma TargetsDisjoint(n: SyntaxNode)
    requires Nested(n)
    ensures forall i, j :: 0 <= i < j < |Targets(n)| ==> Targets(n)[i].end <= Targets(n)[j].start
  {
    TargetPathsLocate(n);
    TargetPathsOrdered(n);
    var ts, ps := Targets(n), TargetPaths(n);
    forall i, j | 0 <= i < j < |ts| ensures ts[i].end <= ts[j].start {
      LexLessDisjoint(n, ps[i], ps[j]);
    }
  }

  // ---------------------------------------------------------------------
  // walk_tree over the two pending buffers
  // ---------------------------------------------------------------------

  /** The pending batch: the parallel `docs` and `meta` vectors that
      walk_tree pushes into and the index loop clears after a flush. */
  class Pending {
    var docs: seq<seq<byte>>
    var meta: seq<Meta>

    constructor ()
      ensures docs == [] && meta == []
    {
      docs, meta := [], [];
    }

    method Clear()
      modifies this
      ensures docs == [] && meta == []
    {
      docs, meta := [], [];
    }
  }

  lemma DocsAppend(text: seq<byte>, a: seq<SyntaxNode>, b: seq<SyntaxNode>)
    requires AllEmittable(a, |text|) && AllEmittable(b, |text|)
    ensures AllEmittable(a + b, |text|)
    ensures Docs(text, a + b) == Docs(text, a) + Docs(text, b)
  {
  }

  lemma MetasAppend(path: string, text: seq<byte>, a: seq<SyntaxNode>, b: seq<SyntaxNode>)
    requires AllEmittable(a, |text|) && AllEmittable(b, |text|)
    ensures AllEmittable(a + b, |text|)
    ensures Metas(path, text, a + b) == Metas(path, text, a) + Metas(path, text, b)
  {
  }

  /** walk_tree: appends, and only appends, one document and one metadata
      entry per emitted node, in emission order. */
  method WalkTree(path: string, node: SyntaxNode, text: seq<byte>, acc: Pending)
    requires InBounds(node, |text|)
    modifies acc
    ensures AllEmittable(Targets(node), |text|)
    ensures acc.docs == old(acc.docs) + Docs(text, Targets(node))
    ensures acc.meta == old(acc.meta) + Metas(path, text, Targets(node))
    decreases node, 1
  {
    if !IsTarget(node.kind) {
      WalkChildren(path, node, text, acc);
      return;
    }
    assert Targets(node) == [node];
    acc.docs := acc.docs + [text[node.start..node.end]];
    acc.meta := acc.meta + [Meta(path, GetLine(text, node.start))];
  }

  /** How the buffers grow when the walk over the children of node moves
      past child i. */
  lemma ChildStep(path: string, text: seq<byte>, node: SyntaxNode, i: nat,
                  d0: seq<seq<byte>>, m0: seq<Meta>)
    requires !IsTarget(node.kind) && InBounds(node, |text|) && i < |node.children|
    requires AllEmittable(TargetsOfChildren(node, i), |text|)
    ensures InBounds(node.children[i], |text|)
    ensures AllEmittable(Targets(node.children[i]), |text|)
    ensures AllEmittable(TargetsOfChildren(node, i + 1), |text|)
    ensures d0 + Docs(text, TargetsOfChildren(node, i + 1))
         == d0 + Docs(text, TargetsOfChildren(node, i)) + Docs(text, Targets(node.children[i]))
    ensures m0 + Metas(path, text, TargetsOfChildren(node, i + 1))
         == m0 + Metas(path, text, TargetsOfChildren(node, i)) + Metas(path, text, Targets(node.children[i]))
  {
    var before, child := TargetsOfChildren(node, i), Targets(node.children[i]);
    TargetsEmittable(node.children[i], |text|);
    assert TargetsOfChildren(node, i + 1) == before + child;
    DocsAppend(text, before, child);
    MetasAppend(path, text, before, child);
  }

  /** The loop of walk_tree over the children of a node that is not
      emitted. */
  method WalkChildren(path: string, node: SyntaxNode, text: seq<byte>, acc: Pending)
    requires !IsTarget(node.kind) && InBounds(node, |text|)
    modifies acc
    ensures AllEmittable(Targets(node), |text|)
    ensures acc.docs == old(acc.docs) + Docs(text, Targets(node))
    ensures acc.meta == old(acc.meta) + Metas(path, text, Targets(node))
    decreases node, 0
  {
    ghost var d0, m0 := acc.docs, acc.meta;
    var i := 0;
    while i < |node.children|
      invariant 0 <= i <= |node.children|
      invariant AllEmittable(TargetsOfChildren(node, i), |text|)
      invariant acc.docs == d0 + Docs(text, TargetsOfChildren(node, i))
      invariant acc.meta == m0 + Metas(path, text, TargetsOfChildren(node, i))
    {
      ChildStep(path, text, node, i, d0, m0);
      WalkTree(path, node.children[i], text, acc);
      i := i + 1;
    }
  }
}
