/**
 * The tree and text helpers shared by the KDoc rules: pre-order traversals
 * driven by an explicit stack, a level-by-level descendant collection, the
 * offset-sorted tag list of a KDoc and the indent of a KDoc's first line.
 *
 * A PSI element is a `Node` value: a kind tag, its start offset in the file
 * and its children in source order.
 */
module Psi {
  import opened Wrappers
  import Sort

  /** The element classes the rules distinguish (`KDocSection` is a `KDocTag` in the compiler's PSI). */
  datatype NodeKind = KDocKind | SectionKind | TagKind | TagNameKind | TextKind | WhiteSpaceKind | OtherKind

  datatype Node = Node(kind: NodeKind, startOffset: int, children: seq<Node>)

  /** The number of nodes in a tree and in a forest. */
  function Size(n: Node): nat
    decreases n, 1
  {
    1 + ForestSize(n.children)
  }

  function ForestSize(f: seq<Node>): nat
    decreases f, 0
  {
    if f == [] then 0 else Size(f[0]) + ForestSize(f[1..])
  }

  /** Pre-order, the node before its subtrees, children left to right. */
  function PreOrder(n: Node): seq<Node>
    decreases n, 1
  {
    [n] + PreOrderForest(n.children)
  }

  function PreOrderForest(f: seq<Node>): seq<Node>
    decreases f, 0
  {
    if f == [] then [] else PreOrder(f[0]) + PreOrderForest(f[1..])
  }

  /** The strict descendants of `n` in pre-order: the reference for `depthFirst()`. */
  function Descendants(n: Node): seq<Node> {
    PreOrderForest(n.children)
  }

  lemma {:induction false} ForestSizeAppend(a: seq<Node>, b: seq<Node>)
    ensures ForestSize(a + b) == ForestSize(a) + ForestSize(b)
  {
    if a == [] {
      assert a + b == b;
    } else {
      assert (a + b)[1..] == a[1..] + b;
      ForestSizeAppend(a[1..], b);
    }
  }

  lemma {:induction false} PreOrderForestAppend(a: seq<Node>, b: seq<Node>)
    ensures PreOrderForest(a + b) == PreOrderForest(a) + PreOrderForest(b)
  {
    if a == [] {
      assert a + b == b;
    } else {
      assert (a + b)[1..] == a[1..] + b;
      PreOrderForestAppend(a[1..], b);
    }
  }

  /** Every node of the forest is listed exactly once: the traversal has one entry per node. */
  lemma {:induction false} PreOrderCountsEveryNode(f: seq<Node>)
    ensures |PreOrderForest(f)| == ForestSize(f)
    decreases f, 0
  {
    if f != [] {
      PreOrderCountsEveryNodeOf(f[0]);
      PreOrderCountsEveryNode(f[1..]);
    }
  }

  lemma {:induction false} PreOrderCountsEveryNodeOf(n: Node)
    ensures |PreOrder(n)| == Size(n)
    decreases n, 1
  {
    PreOrderCountsEveryNode(n.children);
  }

  /** Popping `node` and pushing its children keeps the rest of the traversal and shrinks the stack. */
  lemma PreOrderStep(node: Node, rest: seq<Node>)
    ensures PreOrderForest([node] + rest) == [node] + PreOrderForest(node.children + rest)
    ensures ForestSize(node.children + rest) < ForestSize([node] + rest)
  {
    assert ([node] + rest)[1..] == rest;
    PreOrderForestAppend(node.children, rest);
    ForestSizeAppend(node.children, rest);
  }

  /**
   * `repeat(items.lastIndex + 1) { toVisit.addFirst(items[items.lastIndex - it]) }`:
   * pushing the items last to first puts them in front of the stack in order.
   */
  method PushAllFirst(toVisit: seq<Node>, items: seq<Node>) returns (r: seq<Node>)
    ensures r == items + toVisit
  {
    r := toVisit;
    var k := 0;
    while k < |items|
      invariant 0 <= k <= |items|
      invariant r == items[|items| - k..] + toVisit
    {
      r := [items[|items| - 1 - k]] + r;
      k := k + 1;
    }
    assert items[0..] == items;
  }

  /**
   * `PsiElement.depthFirst()`: the stack starts as the root's children; each
   * step pops the first node, yields it, and pushes its children in front so
   * that the first child is popped next.  The lazy sequence is modelled by
   * the list of everything it yields.
   */
  method DepthFirst(root: Node) returns (visited: seq<Node>)
    ensures visited == Descendants(root)
  {
    var toVisit := root.children;
    visited := [];
    while toVisit != []
      invariant visited + PreOrderForest(toVisit) == Descendants(root)
      decreases ForestSize(toVisit)
    {
      var node := toVisit[0];
      var rest := toVisit[1..];
      assert toVisit == [node] + rest;
      visited := visited + [node];
      toVisit := PushAllFirst(rest, node.children);
      PreOrderStep(node, rest);
    }
  }

  /**
   * The nodes `depthFirst(predicate)` yields: pre-order restricted to nodes
   * whose every ancestor below the root, and the node itself, satisfies `p`.
   */
  function PreOrderWhere(f: seq<Node>, p: Node -> bool): seq<Node>
    decreases f
  {
    if f == [] then []
    else (if p(f[0]) then [f[0]] + PreOrderWhere(f[0].children, p) else []) + PreOrderWhere(f[1..], p)
  }

  /** `children.filter(predicate)`. */
  function Filter(f: seq<Node>, p: Node -> bool): seq<Node>
  {
    if f == [] then [] else (if p(f[0]) then [f[0]] else []) + Filter(f[1..], p)
  }

  /** Every element of `s` satisfies `p`. */
  predicate AllSatisfy(s: seq<Node>, p: Node -> bool) {
    forall i :: 0 <= i < |s| ==> p(s[i])
  }

  lemma {:induction false} FilterSatisfies(f: seq<Node>, p: Node -> bool)
    ensures AllSatisfy(Filter(f, p), p)
  {
    if f != [] {
      FilterSatisfies(f[1..], p);
    }
  }

  lemma {:induction false} PreOrderWhereAppend(a: seq<Node>, b: seq<Node>, p: Node -> bool)
    ensures PreOrderWhere(a + b, p) == PreOrderWhere(a, p) + PreOrderWhere(b, p)
  {
    if a == [] {
      assert a + b == b;
    } else {
      var head := if p(a[0]) then [a[0]] + PreOrderWhere(a[0].children, p) else [];
      assert (a + b)[0] == a[0] && (a + b)[1..] == a[1..] + b;
      assert PreOrderWhere(a + b, p) == head + PreOrderWhere(a[1..] + b, p);
      assert PreOrderWhere(a, p) == head + PreOrderWhere(a[1..], p);
      PreOrderWhereAppend(a[1..], b, p);
    }
  }

  /** Dropping the failing nodes of a level in advance does not change the traversal. */
  lemma {:induction false} PreOrderWhereFilter(f: seq<Node>, p: Node -> bool)
    ensures PreOrderWhere(Filter(f, p), p) == PreOrderWhere(f, p)
  {
    if f != [] {
      PreOrderWhereFilter(f[1..], p);
      var head := if p(f[0]) then [f[0]] else [];
      PreOrderWhereAppend(head, Filter(f[1..], p), p);
    }
  }

  /** Popping a satisfying `node` and pushing its satisfying children keeps the rest of the traversal. */
  lemma PreOrderWhereStep(node: Node, rest: seq<Node>, p: Node -> bool)
    requires p(node)
    ensures PreOrderWhere([node] + rest, p) == [node] + PreOrderWhere(Filter(node.children, p) + rest, p)
    ensures ForestSize(Filter(node.children, p) + rest) < ForestSize([node] + rest)
  {
    assert ([node] + rest)[1..] == rest;
    PreOrderWhereFilter(node.children, p);
    PreOrderWhereAppend(Filter(node.children, p), rest, p);
    FilterSmaller(node.children, p);
    ForestSizeAppend(Filter(node.children, p), rest);
  }

  /**
   * `PsiElement.depthFirst(predicate)`: the stack starts as the root's
   * children that satisfy `p`; a popped node that satisfies `p` pushes its
   * own satisfying children in front, and one that does not ends the
   * sequence (the `null` of the `generateSequence` step).
   */
  method DepthFirstWhere(root: Node, p: Node -> bool) returns (visited: seq<Node>)
    ensures visited == PreOrderWhere(root.children, p)
  {
    var toVisit := Filter(root.children, p);
    PreOrderWhereFilter(root.children, p);
    FilterSatisfies(root.children, p);
    visited := [];
    while toVisit != []
      invariant visited + PreOrderWhere(toVisit, p) == PreOrderWhere(root.children, p)
      invariant AllSatisfy(toVisit, p)
      decreases ForestSize(toVisit)
    {
      var node := toVisit[0];
      var rest := toVisit[1..];
      assert toVisit == [node] + rest;
      visited := visited + [node];
      if p(node) {
        var filtered := Filter(node.children, p);
        FilterSatisfies(node.children, p);
        toVisit := PushAllFirst(rest, filtered);
        assert AllSatisfy(toVisit, p) by {
          forall i | 0 <= i < |toVisit| ensures p(toVisit[i]) {
            if i >= |filtered| {
              assert toVisit[i] == rest[i - |filtered|];
            }
          }
        }
        PreOrderWhereStep(node, rest, p);
      } else {
        break;
      }
    }
  }

  lemma {:induction false} FilterSmaller(f: seq<Node>, p: Node -> bool)
    ensures ForestSize(Filter(f, p)) <= ForestSize(f)
  {
    if f != [] {
      FilterSmaller(f[1..], p);
      var head := if p(f[0]) then [f[0]] else [];
      ForestSizeAppend(head, Filter(f[1..], p));
    }
  }

  /** `depthFirst(predicate)` yields only nodes that satisfy the predicate. */
  lemma {:induction false} PreOrderWhereSatisfies(f: seq<Node>, p: Node -> bool)
    ensures forall n :: n in PreOrderWhere(f, p) ==> p(n)
  {
    if f != [] {
      PreOrderWhereSatisfies(f[0].children, p);
      PreOrderWhereSatisfies(f[1..], p);
    }
  }

  /** `depthFirst(predicate)` yields descendants only. */
  lemma {:induction false} PreOrderWhereDescendants(f: seq<Node>, p: Node -> bool)
    ensures forall n :: n in PreOrderWhere(f, p) ==> n in PreOrderForest(f)
  {
    if f != [] {
      PreOrderWhereDescendants(f[0].children, p);
      PreOrderWhereDescendants(f[1..], p);
    }
  }

  /** A predicate that accepts every node gives `depthFirst()`: `depthFirst { true }` visits all of it. */
  lemma {:induction false} PreOrderWhereAll(f: seq<Node>, p: Node -> bool)
    requires forall n :: p(n)
    ensures PreOrderWhere(f, p) == PreOrderForest(f)
  {
    if f != [] {
      PreOrderWhereAll(f[0].children, p);
      PreOrderWhereAll(f[1..], p);
    }
  }

  /** A node the predicate refuses hides its whole subtree: only its later siblings are visited. */
  lemma PreOrderWhereSkipsSubtree(n: Node, rest: seq<Node>, p: Node -> bool)
    requires !p(n)
    ensures PreOrderWhere([n] + rest, p) == PreOrderWhere(rest, p)
  {
    assert ([n] + rest)[1..] == rest;
  }

  /** `level.flatMap { it.children }`: the next level down, left to right. */
  function Kids(level: seq<Node>): seq<Node> {
    if level == [] then [] else level[0].children + Kids(level[1..])
  }

  /** Going down one level drops exactly the nodes of the current level. */
  lemma {:induction false} KidsSize(level: seq<Node>)
    ensures ForestSize(Kids(level)) + |level| == ForestSize(level)
  {
    if level != [] {
      KidsSize(level[1..]);
      ForestSizeAppend(level[0].children, Kids(level[1..]));
    }
  }

  /**
   * `generateSequence(children) { next level or null if empty }.flatten()`:
   * the first level, then every following non-empty level.
   */
  function BreadthFirst(level: seq<Node>): seq<Node>
    decreases ForestSize(level)
  {
    var next := Kids(level);
    if next == [] then level
    else
      KidsSize(level);
      level + BreadthFirst(next)
  }

  /** The Kotlin `filterIsInstance<T>()` test as a node-kind predicate. */
  function IsOfKind(kinds: set<NodeKind>): Node -> bool {
    (n: Node) => n.kind in kinds
  }

  /** `getChildrenOfTypeRecursive<T>()`: the strict descendants of the wanted kinds, level by level. */
  function ChildrenOfKindRecursive(root: Node, kinds: set<NodeKind>): seq<Node> {
    Filter(BreadthFirst(root.children), IsOfKind(kinds))
  }

  /** The nodes at depth `d` below `n` (`n` itself at depth 0), left to right. */
  function AtDepth(n: Node, d: nat): seq<Node>
    decreases n, 1
  {
    if d == 0 then [n] else AtDepthForest(n.children, d - 1)
  }

  function AtDepthForest(f: seq<Node>, d: nat): seq<Node>
    decreases f, 0
  {
    if f == [] then [] else AtDepth(f[0], d) + AtDepthForest(f[1..], d)
  }

  /** The depth-`lo` nodes, then the depth-`lo + 1` nodes, and so on below depth `hi`. */
  function LevelsBetween(f: seq<Node>, lo: nat, hi: nat): seq<Node>
    decreases hi - lo
  {
    if lo >= hi then [] else AtDepthForest(f, lo) + LevelsBetween(f, lo + 1, hi)
  }

  function Max(a: nat, b: nat): nat {
    if a < b then b else a
  }

  /** The number of levels of a tree and of a forest. */
  function Height(n: Node): nat
    decreases n, 1
  {
    1 + HeightForest(n.children)
  }

  function HeightForest(f: seq<Node>): nat
    decreases f, 0
  {
    if f == [] then 0 else Max(Height(f[0]), HeightForest(f[1..]))
  }

  lemma {:induction false} AtDepthForestZero(f: seq<Node>)
    ensures AtDepthForest(f, 0) == f
  {
    if f != [] {
      AtDepthForestZero(f[1..]);
      assert f == [f[0]] + f[1..];
    }
  }

  lemma {:induction false} AtDepthForestAppend(a: seq<Node>, b: seq<Node>, d: nat)
    ensures AtDepthForest(a + b, d) == AtDepthForest(a, d) + AtDepthForest(b, d)
  {
    if a == [] {
      assert a + b == b;
    } else {
      assert (a + b)[1..] == a[1..] + b;
      AtDepthForestAppend(a[1..], b, d);
    }
  }

  /** The level below the depth-`d + 1` nodes of a forest is the depth-`d` level of its children. */
  lemma {:induction false} AtDepthForestKids(f: seq<Node>, d: nat)
    ensures AtDepthForest(Kids(f), d) == AtDepthForest(f, d + 1)
  {
    if f != [] {
      AtDepthForestKids(f[1..], d);
      AtDepthForestAppend(f[0].children, Kids(f[1..]), d);
    }
  }

  lemma {:induction false} LevelsShift(f: seq<Node>, lo: nat, hi: nat)
    ensures LevelsBetween(Kids(f), lo, hi) == LevelsBetween(f, lo + 1, hi + 1)
    decreases hi - lo
  {
    if lo < hi {
      AtDepthForestKids(f, lo);
      LevelsShift(f, lo + 1, hi);
    }
  }

  lemma {:induction false} HeightForestAppend(a: seq<Node>, b: seq<Node>)
    ensures HeightForest(a + b) == Max(HeightForest(a), HeightForest(b))
  {
    if a == [] {
      assert a + b == b;
    } else {
      assert (a + b)[1..] == a[1..] + b;
      HeightForestAppend(a[1..], b);
    }
  }

  /** A non-empty forest is one level taller than the forest of its children. */
  lemma {:induction false} HeightKids(f: seq<Node>)
    requires f != []
    ensures HeightForest(Kids(f)) + 1 == HeightForest(f)
  {
    HeightForestAppend(f[0].children, Kids(f[1..]));
    if f[1..] != [] {
      HeightKids(f[1..]);
    }
  }

  /**
   * `getChildrenOfTypeRecursive` before the kind filter lists the strict
   * descendants by depth: all depth-0 ones (the children), then all depth-1
   * ones, and so on, each level left to right.
   */
  lemma {:induction false} BreadthFirstByLevels(f: seq<Node>)
    ensures BreadthFirst(f) == LevelsBetween(f, 0, HeightForest(f))
    decreases ForestSize(f)
  {
    if f != [] {
      var h := HeightForest(f);
      var next := Kids(f);
      HeightKids(f);
      LevelsFirst(f, h);
      LevelsShift(f, 0, h - 1);
      if next != [] {
        KidsSize(f);
        BreadthFirstByLevels(next);
        BreadthFirstUnfold(f);
      } else {
        assert h == 1;
      }
    }
  }

  /** The first level of a non-empty forest is the forest itself. */
  lemma LevelsFirst(f: seq<Node>, h: nat)
    requires h >= 1
    ensures LevelsBetween(f, 0, h) == f + LevelsBetween(f, 1, h)
  {
    AtDepthForestZero(f);
  }

  lemma BreadthFirstUnfold(f: seq<Node>)
    requires Kids(f) != []
    ensures BreadthFirst(f) == f + BreadthFirst(Kids(f))
  {
  }

  /** The multiset arithmetic of one PreOrderByLevel step. */
  lemma RegroupLevels(n: Node, below: seq<Node>, after: seq<Node>, tail: seq<Node>, afterBelow: seq<Node>)
    requires multiset(after) == multiset(tail) + multiset(afterBelow)
    ensures multiset([n] + below + after) == multiset([n] + tail) + multiset(below + afterBelow)
  {
  }

  lemma {:induction false} PreOrderByLevel(f: seq<Node>)
    ensures multiset(PreOrderForest(f)) == multiset(f) + multiset(PreOrderForest(Kids(f)))
  {
    if f != [] {
      var n, tail := f[0], f[1..];
      assert PreOrderForest(f) == [n] + PreOrderForest(n.children) + PreOrderForest(tail);
      assert Kids(f) == n.children + Kids(tail);
      assert f == [n] + tail;
      PreOrderByLevel(tail);
      PreOrderForestAppend(n.children, Kids(tail));
      RegroupLevels(n, PreOrderForest(n.children), PreOrderForest(tail), tail, PreOrderForest(Kids(tail)));
    }
  }

  /** The level-by-level listing and the pre-order traversal hold the same nodes, each as often. */
  lemma {:induction false} BreadthFirstPermutesPreOrder(f: seq<Node>)
    ensures multiset(BreadthFirst(f)) == multiset(PreOrderForest(f))
    decreases ForestSize(f)
  {
    PreOrderByLevel(f);
    if Kids(f) != [] {
      KidsSize(f);
      BreadthFirstPermutesPreOrder(Kids(f));
    }
  }

  lemma {:induction false} FilterCount(s: seq<Node>, p: Node -> bool, x: Node)
    ensures multiset(Filter(s, p))[x] == if p(x) then multiset(s)[x] else 0
  {
    if s != [] {
      FilterCount(s[1..], p, x);
      assert s == [s[0]] + s[1..];
    }
  }

  lemma FilterPermutes(a: seq<Node>, b: seq<Node>, p: Node -> bool)
    requires multiset(a) == multiset(b)
    ensures multiset(Filter(a, p)) == multiset(Filter(b, p))
  {
    forall x ensures multiset(Filter(a, p))[x] == multiset(Filter(b, p))[x] {
      FilterCount(a, p, x);
      FilterCount(b, p, x);
    }
  }

  /** `getChildrenOfTypeRecursive` finds every strict descendant of the wanted kinds, each once. */
  lemma ChildrenOfKindRecursiveAreDescendants(root: Node, kinds: set<NodeKind>)
    ensures multiset(ChildrenOfKindRecursive(root, kinds)) == multiset(Filter(Descendants(root), IsOfKind(kinds)))
  {
    BreadthFirstPermutesPreOrder(root.children);
    FilterPermutes(BreadthFirst(root.children), PreOrderForest(root.children), IsOfKind(kinds));
  }

  /** The `startOffset` selector of `sortedBy { it.startOffset }`. */
  function StartOffsetKey(n: Node): int {
    n.startOffset
  }

  lemma ByStartOffset(s: seq<Node>)
    requires Sort.SortedBy([StartOffsetKey], s)
    ensures forall i, j :: 0 <= i < j < |s| ==> s[i].startOffset <= s[j].startOffset
  {
    forall i, j | 0 <= i < j < |s| ensures s[i].startOffset <= s[j].startOffset {
      assert Sort.CompareBy([StartOffsetKey], s[i], s[j]) <= 0;
    }
  }

  /**
   * Post-order, subtrees left to right before the node: the order in which
   * `forEachDescendantOfType`'s recursive visitor acts, since it descends
   * into an element before testing the element itself.
   */
  function PostOrder(n: Node): seq<Node>
    decreases n, 1
  {
    PostOrderForest(n.children) + [n]
  }

  function PostOrderForest(f: seq<Node>): seq<Node>
    decreases f, 0
  {
    if f == [] then [] else PostOrder(f[0]) + PostOrderForest(f[1..])
  }

  /** Post-order and pre-order list the same nodes, each as often. */
  lemma {:induction false} PostOrderPermutesPreOrder(f: seq<Node>)
    ensures multiset(PostOrderForest(f)) == multiset(PreOrderForest(f))
    decreases f, 0
  {
    if f != [] {
      PostOrderPermutesPreOrderOf(f[0]);
      PostOrderPermutesPreOrder(f[1..]);
    }
  }

  lemma {:induction false} PostOrderPermutesPreOrderOf(n: Node)
    ensures multiset(PostOrder(n)) == multiset(PreOrder(n))
    decreases n, 1
  {
    PostOrderPermutesPreOrder(n.children);
  }

  /**
   * The tags `collectDescendantsOfType<KDocTag>()` gathers: sections and
   * tags, the visited element included, in post-order.
   */
  function CollectedTags(kdoc: Node): seq<Node> {
    Filter(PostOrder(kdoc), IsOfKind({SectionKind, TagKind}))
  }

  /** The collection holds every section and tag of the KDoc's pre-order exactly as often. */
  lemma CollectedTagsPermutesPreOrder(kdoc: Node)
    ensures multiset(CollectedTags(kdoc)) == multiset(Filter(PreOrder(kdoc), IsOfKind({SectionKind, TagKind})))
  {
    PostOrderPermutesPreOrderOf(kdoc);
    FilterPermutes(PostOrder(kdoc), PreOrder(kdoc), IsOfKind({SectionKind, TagKind}));
  }

  /**
   * `KDoc.getAllTags()`: the collected tags sorted by start offset; the sort
   * is stable, so tags at the same offset keep their post-order.
   */
  function AllTags(kdoc: Node): (tags: seq<Node>)
    ensures forall i, j :: 0 <= i < j < |tags| ==> tags[i].startOffset <= tags[j].startOffset
    ensures multiset(tags) == multiset(CollectedTags(kdoc))
    ensures Sort.Stable([StartOffsetKey], CollectedTags(kdoc), tags)
  {
    var collected := CollectedTags(kdoc);
    Sort.InsertionSortSorted([StartOffsetKey], collected);
    Sort.InsertionSortPermutes([StartOffsetKey], collected);
    Sort.InsertionSortStable([StartOffsetKey], collected);
    ByStartOffset(Sort.InsertionSort([StartOffsetKey], collected));
    Sort.InsertionSort([StartOffsetKey], collected)
  }

  /** Where line `k` starts in the file text: every earlier line and its one-character terminator. */
  function LineStart(lines: seq<string>, k: nat): nat
    requires k <= |lines|
  {
    if k == 0 then 0 else LineStart(lines, k - 1) + |lines[k - 1]| + 1
  }

  /** The file text `lines()` splits: the lines joined by `'\n'`. */
  function JoinLines(lines: seq<string>): string {
    if lines == [] then ""
    else if |lines| == 1 then lines[0]
    else JoinLines(lines[..|lines| - 1]) + "\n" + lines[|lines| - 1]
  }

  lemma {:induction false} LineStartMonotone(lines: seq<string>, k: nat, m: nat)
    requires k <= m <= |lines|
    ensures LineStart(lines, k) <= LineStart(lines, m)
    decreases m - k
  {
    if k < m {
      LineStartMonotone(lines, k, m - 1);
    }
  }

  lemma {:induction false} LineStartPrefix(lines: seq<string>, n: nat, k: nat)
    requires k <= n <= |lines|
    ensures LineStart(lines[..n], k) == LineStart(lines, k)
  {
    if k > 0 {
      LineStartPrefix(lines, n, k - 1);
    }
  }

  /** Line `k` sits in the joined text at `LineStart(lines, k)`, and the text ends one before the next line would start. */
  lemma {:induction false} LineStartInText(lines: seq<string>, k: nat)
    requires k < |lines|
    ensures |JoinLines(lines)| == LineStart(lines, |lines|) - 1
    ensures LineStart(lines, k) + |lines[k]| <= |JoinLines(lines)|
    ensures JoinLines(lines)[LineStart(lines, k)..LineStart(lines, k) + |lines[k]|] == lines[k]
  {
    var n := |lines|;
    LineStartMonotone(lines, k + 1, n);
    if n > 1 {
      var init := lines[..n - 1];
      LineStartPrefix(lines, n - 1, n - 1);
      if k < n - 1 {
        LineStartInText(init, k);
        LineStartPrefix(lines, n - 1, k);
        LineStartMonotone(init, k + 1, n - 1);
        assert init[k] == lines[k];
      } else {
        LineStartInText(init, 0);
      }
    }
  }

  /** Every offset on line `k`, its terminator included, comes before any later line starts. */
  lemma {:induction false} OnLineBeforeLater(lines: seq<string>, offset: nat, k: nat, m: nat)
    requires k < m <= |lines|
    requires offset <= LineStart(lines, k) + |lines[k]|
    ensures offset < LineStart(lines, m)
  {
    LineStartMonotone(lines, k + 1, m);
    assert offset < LineStart(lines, k + 1);
  }

  /** A text offset lies on at most one line. */
  lemma {:induction false} LineOfOffsetUnique(lines: seq<string>, offset: nat, k1: nat, k2: nat)
    requires k1 < |lines| && k2 < |lines|
    requires LineStart(lines, k1) <= offset <= LineStart(lines, k1) + |lines[k1]|
    requires LineStart(lines, k2) <= offset <= LineStart(lines, k2) + |lines[k2]|
    ensures k1 == k2
  {
    if k1 < k2 {
      OnLineBeforeLater(lines, offset, k1, k2);
    } else if k2 < k1 {
      OnLineBeforeLater(lines, offset, k2, k1);
    }
  }

  /** `" ".repeat(n)`. */
  function Spaces(n: nat): (s: string)
    ensures |s| == n && forall i :: 0 <= i < n ==> s[i] == ' '
  {
    if n == 0 then "" else Spaces(n - 1) + " "
  }

  /**
   * `KDoc.findIndent()`: `acc` starts at the KDoc's start offset plus one
   * and loses each line's length plus one while it exceeds it; the first
   * line where it does not gives the number of spaces.  Past the last line
   * `.first()` has no element, modelled as `None`.  The result is the
   * column of the start offset on its line plus one.
   */
  method FindIndent(fileLines: seq<string>, startOffset: nat) returns (indent: Option<string>)
    ensures indent.Some? <==> startOffset < LineStart(fileLines, |fileLines|)
    ensures indent.Some? ==> forall i :: 0 <= i < |indent.value| ==> indent.value[i] == ' '
    ensures indent.Some? ==>
      exists k :: 0 <= k < |fileLines|
        && LineStart(fileLines, k) <= startOffset <= LineStart(fileLines, k) + |fileLines[k]|
        && |indent.value| == startOffset - LineStart(fileLines, k) + 1
  {
    var acc := startOffset + 1;
    var k := 0;
    while k < |fileLines|
      invariant 0 <= k <= |fileLines|
      invariant LineStart(fileLines, k) <= startOffset
      invariant acc == startOffset + 1 - LineStart(fileLines, k)
    {
      if |fileLines[k]| + 1 < acc {
        acc := acc - (|fileLines[k]| + 1);
      } else {
        LineStartMonotone(fileLines, k + 1, |fileLines|);
        return Some(Spaces(acc));
      }
      k := k + 1;
    }
    return None;
  }
}
