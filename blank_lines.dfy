/**
 * `KDocBlankLinesRule`: a blank KDoc line (the whitespace after a line's
 * leading asterisk, running through a line break) is reported as leading,
 * trailing, before a subsequent tag, or consecutive, first match wins; the
 * fix removes the line's asterisk and the blank whitespace.
 *
 * The node the host visits is leaf `i` of the file's leaf sequence.
 */
module BlankLines {
  import opened Wrappers
  import opened KDoc

  /** The four kinds of disallowed blank line. */
  datatype Violation = LeadingBlank | TrailingBlank | BlankBeforeTag | ConsecutiveBlanks

  function Message(v: Violation): string {
    match v
    case LeadingBlank => "leading blank line in kdoc"
    case TrailingBlank => "trailing blank line in kdoc"
    case BlankBeforeTag => "extra blank line before subsequent kdoc tag"
    case ConsecutiveBlanks => "consecutive blank lines in kdoc"
  }

  /** A kind test on a nullable leaf, as `null.isKDocStart()` is: false for an absent leaf. */
  predicate KindIs(leaves: seq<Leaf>, j: Option<nat>, kind: LeafKind) {
    j.Some? && j.value < |leaves| && leaves[j.value].kind == kind
  }

  /** `isInKDocTag()` on a nullable leaf. */
  predicate InTag(leaves: seq<Leaf>, j: Option<nat>) {
    j.Some? && j.value < |leaves| && leaves[j.value].inTag
  }

  /**
   * The guards of `beforeVisitChildNodes` before classification: inside a
   * KDoc, whitespace right after a leading asterisk, holding a line break,
   * with an earlier line break somewhere before it, and with a parent
   * (the immediately previous leaf exists because the asterisk is it).
   */
  ghost predicate IsCandidate(leaves: seq<Leaf>, i: nat)
    requires i < |leaves|
  {
    leaves[i].inKDoc
    && IsWhitespaceAfterLeadingAsterisk(leaves, i)
    && IsWhiteSpaceWithNewline(leaves[i])
    && (exists j :: 0 <= j < i && IsWhiteSpaceWithNewline(leaves[j]))
    && leaves[i].hasParent
  }

  /**
   * The decision of `beforeVisitChildNodes`: which message, if any, the
   * visit of leaf `i` emits.  `prevContent` and `nextContent` are the
   * nearest leaves on either side that are neither blank nor an asterisk.
   */
  function Classify(leaves: seq<Leaf>, i: nat): (v: Option<Violation>)
    requires i < |leaves|
    ensures v.Some? ==> IsCandidate(leaves, i)
  {
    if !leaves[i].inKDoc then None
    else if !IsWhitespaceAfterLeadingAsterisk(leaves, i) then None
    else if !IsWhiteSpaceWithNewline(leaves[i]) then None
    else
      match PrevLeaf(leaves, i, IsWhiteSpaceWithNewline)
      case None => None
      case Some(previousNewline) =>
        if !leaves[i].hasParent then None
        else if i == 0 then None
        else
          var prevContent := PrevLeaf(leaves, i, IsContent);
          var nextContent := NextLeaf(leaves, i, IsContent);
          if KindIs(leaves, prevContent, KDocStart) then Some(LeadingBlank)
          else if KindIs(leaves, nextContent, KDocEnd) then Some(TrailingBlank)
          else if KindIs(leaves, nextContent, TagName) && InTag(leaves, prevContent) then Some(BlankBeforeTag)
          else if IsWhitespaceAfterLeadingAsterisk(leaves, previousNewline) then Some(ConsecutiveBlanks)
          else None
  }

  /** The nearest content leaf before `i` has kind `kind`. */
  ghost predicate PrevContentIs(leaves: seq<Leaf>, i: nat, kind: LeafKind) {
    exists j: nat :: NearestBefore(leaves, i, IsContent, j) && leaves[j].kind == kind
  }

  /** The nearest content leaf after `i` has kind `kind`. */
  ghost predicate NextContentIs(leaves: seq<Leaf>, i: nat, kind: LeafKind) {
    exists j: nat :: NearestAfter(leaves, i, IsContent, j) && leaves[j].kind == kind
  }

  /** The nearest content leaf before `i` lies inside a tag. */
  ghost predicate PrevContentInTag(leaves: seq<Leaf>, i: nat) {
    exists j: nat :: NearestBefore(leaves, i, IsContent, j) && leaves[j].inTag
  }

  /** The nearest line break before `i` ends a blank line too. */
  ghost predicate PreviousLineBlank(leaves: seq<Leaf>, i: nat) {
    exists j: nat :: NearestBefore(leaves, i, IsWhiteSpaceWithNewline, j) && IsWhitespaceAfterLeadingAsterisk(leaves, j)
  }

  lemma PrevContentIsSearch(leaves: seq<Leaf>, i: nat, kind: LeafKind)
    requires i < |leaves|
    ensures PrevContentIs(leaves, i, kind) <==> KindIs(leaves, PrevLeaf(leaves, i, IsContent), kind)
  {
    var r := PrevLeaf(leaves, i, IsContent);
    if PrevContentIs(leaves, i, kind) {
      var j: nat :| NearestBefore(leaves, i, IsContent, j) && leaves[j].kind == kind;
      NearestBeforeUnique(leaves, i, IsContent, j, r.value);
    }
  }

  lemma NextContentIsSearch(leaves: seq<Leaf>, i: nat, kind: LeafKind)
    requires i < |leaves|
    ensures NextContentIs(leaves, i, kind) <==> KindIs(leaves, NextLeaf(leaves, i, IsContent), kind)
  {
    var r := NextLeaf(leaves, i, IsContent);
    if NextContentIs(leaves, i, kind) {
      var j: nat :| NearestAfter(leaves, i, IsContent, j) && leaves[j].kind == kind;
      NearestAfterUnique(leaves, i, IsContent, j, r.value);
    }
  }

  lemma PrevContentInTagSearch(leaves: seq<Leaf>, i: nat)
    requires i < |leaves|
    ensures PrevContentInTag(leaves, i) <==> InTag(leaves, PrevLeaf(leaves, i, IsContent))
  {
    var r := PrevLeaf(leaves, i, IsContent);
    if PrevContentInTag(leaves, i) {
      var j: nat :| NearestBefore(leaves, i, IsContent, j) && leaves[j].inTag;
      NearestBeforeUnique(leaves, i, IsContent, j, r.value);
    }
  }

  lemma PreviousLineBlankSearch(leaves: seq<Leaf>, i: nat)
    requires i < |leaves|
    requires PrevLeaf(leaves, i, IsWhiteSpaceWithNewline).Some?
    ensures PreviousLineBlank(leaves, i)
        <==> IsWhitespaceAfterLeadingAsterisk(leaves, PrevLeaf(leaves, i, IsWhiteSpaceWithNewline).value)
  {
    var r := PrevLeaf(leaves, i, IsWhiteSpaceWithNewline);
    if PreviousLineBlank(leaves, i) {
      var j: nat :| NearestBefore(leaves, i, IsWhiteSpaceWithNewline, j) && IsWhitespaceAfterLeadingAsterisk(leaves, j);
      NearestBeforeUnique(leaves, i, IsWhiteSpaceWithNewline, j, r.value);
    }
  }

  /**
   * The classification, first match wins: a candidate blank line is leading
   * when the nearest content before it is the `/**`; otherwise trailing
   * when the nearest content after it is the `*/`; otherwise before a tag
   * when the next content is a tag name and the previous content is inside
   * a tag; otherwise consecutive when the previous line is blank as well;
   * otherwise, and for every leaf that is not a candidate, nothing.
   */
  lemma ClassifyCategories(leaves: seq<Leaf>, i: nat)
    requires i < |leaves|
    ensures Classify(leaves, i) == Some(LeadingBlank)
        <==> IsCandidate(leaves, i) && PrevContentIs(leaves, i, KDocStart)
    ensures Classify(leaves, i) == Some(TrailingBlank)
        <==> IsCandidate(leaves, i) && !PrevContentIs(leaves, i, KDocStart) && NextContentIs(leaves, i, KDocEnd)
    ensures Classify(leaves, i) == Some(BlankBeforeTag)
        <==> IsCandidate(leaves, i) && !PrevContentIs(leaves, i, KDocStart) && !NextContentIs(leaves, i, KDocEnd)
             && NextContentIs(leaves, i, TagName) && PrevContentInTag(leaves, i)
    ensures Classify(leaves, i) == Some(ConsecutiveBlanks)
        <==> IsCandidate(leaves, i) && !PrevContentIs(leaves, i, KDocStart) && !NextContentIs(leaves, i, KDocEnd)
             && !(NextContentIs(leaves, i, TagName) && PrevContentInTag(leaves, i)) && PreviousLineBlank(leaves, i)
  {
    PrevContentIsSearch(leaves, i, KDocStart);
    NextContentIsSearch(leaves, i, KDocEnd);
    NextContentIsSearch(leaves, i, TagName);
    PrevContentInTagSearch(leaves, i);
    if IsCandidate(leaves, i) {
      var j :| 0 <= j < i && IsWhiteSpaceWithNewline(leaves[j]);
      assert PrevLeaf(leaves, i, IsWhiteSpaceWithNewline).Some?;
      PreviousLineBlankSearch(leaves, i);
    }
  }

  /**
   * `emitAndMaybeFix` with `autoCorrect`: the previous leaf (the line's
   * asterisk) and the node are removed from their parent.
   */
  function RemoveBlankLine(leaves: seq<Leaf>, i: nat): seq<Leaf>
    requires 0 < i < |leaves|
  {
    leaves[..i - 1] + leaves[i + 1..]
  }

  /** The leaves satisfying `p`, in order. */
  function Select(leaves: seq<Leaf>, p: Leaf -> bool): seq<Leaf> {
    if leaves == [] then [] else Select(leaves[..|leaves| - 1], p) + (if p(leaves[|leaves| - 1]) then [leaves[|leaves| - 1]] else [])
  }

  lemma {:induction false} SelectAppend(a: seq<Leaf>, b: seq<Leaf>, p: Leaf -> bool)
    ensures Select(a + b, p) == Select(a, p) + Select(b, p)
    decreases |b|
  {
    if b == [] {
      assert a + b == a;
    } else {
      assert (a + b)[..|a + b| - 1] == a + b[..|b| - 1];
      SelectAppend(a, b[..|b| - 1], p);
    }
  }

  /**
   * The fix deletes exactly the blank line: two leaves go, the asterisk and
   * the line-break whitespace after it, and the text loses exactly their
   * text, at the offset the diagnostic reports.
   */
  lemma {:induction false} FixRemovesBlankLine(leaves: seq<Leaf>, i: nat)
    requires i < |leaves| && Classify(leaves, i).Some?
    ensures 0 < i
    ensures |RemoveBlankLine(leaves, i)| == |leaves| - 2
    ensures leaves[i - 1].kind == LeadingAsterisk && IsWhiteSpaceWithNewline(leaves[i])
    ensures Text(leaves) == Text(leaves[..i - 1]) + leaves[i - 1].text + leaves[i].text + Text(leaves[i + 1..])
    ensures Text(RemoveBlankLine(leaves, i)) == Text(leaves[..i - 1]) + Text(leaves[i + 1..])
    ensures |Text(leaves[..i - 1])| == Offset(leaves, i - 1)
  {
    assert IsCandidate(leaves, i);
    TextAroundPair(leaves, i);
  }

  lemma TextPair(x: Leaf, y: Leaf)
    ensures Text([x, y]) == x.text + y.text
  {
    assert [x, y][..1] == [x];
    assert [x][..0] == [];
    assert Text([x]) == "" + x.text;
    assert "" + x.text == x.text;
  }

  lemma ConcatAssoc(a: string, b: string, c: string)
    ensures a + (b + c) == a + b + c
  {
  }

  /** The text of a run around a pair of leaves. */
  lemma TextAroundTwo(before: seq<Leaf>, x: Leaf, y: Leaf, after: seq<Leaf>)
    ensures Text(before + [x, y] + after) == Text(before) + x.text + y.text + Text(after)
  {
    TextAppend(before + [x, y], after);
    TextAppend(before, [x, y]);
    TextPair(x, y);
    ConcatAssoc(Text(before), x.text, y.text);
  }

  lemma SplitAround(leaves: seq<Leaf>, i: nat)
    requires 0 < i < |leaves|
    ensures leaves == leaves[..i - 1] + [leaves[i - 1], leaves[i]] + leaves[i + 1..]
  {
  }

  /** The text of the leaves split around the pair `leaves[i - 1]`, `leaves[i]`, before and after the fix. */
  lemma TextAroundPair(leaves: seq<Leaf>, i: nat)
    requires 0 < i < |leaves|
    ensures Text(leaves) == Text(leaves[..i - 1]) + leaves[i - 1].text + leaves[i].text + Text(leaves[i + 1..])
    ensures Text(RemoveBlankLine(leaves, i)) == Text(leaves[..i - 1]) + Text(leaves[i + 1..])
  {
    SplitAround(leaves, i);
    TextAroundTwo(leaves[..i - 1], leaves[i - 1], leaves[i], leaves[i + 1..]);
    TextAppend(leaves[..i - 1], leaves[i + 1..]);
  }

  lemma {:induction false} SelectSkipsPair(before: seq<Leaf>, asterisk: Leaf, blank: Leaf, after: seq<Leaf>)
    requires asterisk.kind == LeadingAsterisk && IsWhiteSpaceWithNewline(blank)
    ensures Select(before + [asterisk, blank] + after, IsContent) == Select(before + after, IsContent)
    ensures |Select(before + [asterisk, blank] + after, IsWhiteSpaceWithNewline)|
         == |Select(before + after, IsWhiteSpaceWithNewline)| + 1
  {
    var pair := [asterisk, blank];
    SelectAppend(before + pair, after, IsContent);
    SelectAppend(before, pair, IsContent);
    SelectAppend(before, after, IsContent);
    SelectAppend(before + pair, after, IsWhiteSpaceWithNewline);
    SelectAppend(before, pair, IsWhiteSpaceWithNewline);
    SelectAppend(before, after, IsWhiteSpaceWithNewline);
    assert pair[..|pair| - 1] == [asterisk] && pair[|pair| - 1] == blank;
    assert [asterisk][..0] == [];
    assert !IsContent(asterisk) && !IsContent(blank) && !IsWhiteSpaceWithNewline(asterisk);
    assert Select([asterisk], IsContent) == [];
    assert Select([asterisk], IsWhiteSpaceWithNewline) == [];
    assert Select(pair, IsContent) == [];
    assert Select(pair, IsWhiteSpaceWithNewline) == [blank];
  }

  /** The fix keeps every content leaf, in order, and removes exactly one line break. */
  lemma {:induction false} FixKeepsContent(leaves: seq<Leaf>, i: nat)
    requires i < |leaves| && Classify(leaves, i).Some?
    ensures 0 < i
    ensures Select(RemoveBlankLine(leaves, i), IsContent) == Select(leaves, IsContent)
    ensures |Select(RemoveBlankLine(leaves, i), IsWhiteSpaceWithNewline)| == |Select(leaves, IsWhiteSpaceWithNewline)| - 1
  {
    assert leaves == leaves[..i - 1] + [leaves[i - 1], leaves[i]] + leaves[i + 1..];
    SelectSkipsPair(leaves[..i - 1], leaves[i - 1], leaves[i], leaves[i + 1..]);
  }

  /** The file's leaves, which the fix edits in place through the node's parent. */
  class LeafTree {
    var leaves: seq<Leaf>

    constructor(leaves: seq<Leaf>)
      ensures this.leaves == leaves
    {
      this.leaves := leaves;
    }

    /** `parent.removeChild(child)` for the leaf at index `j`. */
    method RemoveChild(j: nat)
      requires j < |leaves|
      modifies this
      ensures leaves == old(leaves[..j] + leaves[j + 1..])
    {
      leaves := leaves[..j] + leaves[j + 1..];
    }
  }

  /**
   * `beforeVisitChildNodes(node, autoCorrect, emit)` for leaf `i`: nothing
   * happens unless the leaf is classified; then exactly one fixable
   * diagnostic is emitted at the previous leaf's start offset, and with
   * `autoCorrect` the previous leaf and the node are removed and nothing
   * else changes.
   */
  method BeforeVisitChildNodes(tree: LeafTree, i: nat, autoCorrect: bool, sink: Emitter)
    requires i < |tree.leaves|
    modifies tree, sink
    ensures Classify(old(tree.leaves), i).None? ==>
      tree.leaves == old(tree.leaves) && sink.emitted == old(sink.emitted)
    ensures Classify(old(tree.leaves), i).Some? ==>
      0 < i
      && sink.emitted == old(sink.emitted)
           + [Diagnostic(Offset(old(tree.leaves), i - 1), Message(Classify(old(tree.leaves), i).value), true)]
      && tree.leaves == (if autoCorrect then RemoveBlankLine(old(tree.leaves), i) else old(tree.leaves))
  {
    var leaves := tree.leaves;
    var v := Classify(leaves, i);
    if v.Some? {
      var previousLeaf := i - 1;
      sink.Emit(Offset(leaves, previousLeaf), Message(v.value), true);
      if autoCorrect {
        tree.RemoveChild(previousLeaf);
        tree.RemoveChild(previousLeaf);
        assert tree.leaves == RemoveBlankLine(leaves, i);
      }
    }
  }

  /** A leaf of a KDoc, outside any tag unless `inTag`. */
  function L(kind: LeafKind, text: string, inTag: bool): Leaf {
    Leaf(kind, text, true, inTag, true)
  }

  /** "/**\n *\n * a\n */" */
  function LeadingDoc(): seq<Leaf> {
    [L(KDocStart, "/**", false), L(WhiteSpace, "\n ", false), L(LeadingAsterisk, "*", false),
     L(WhiteSpace, "\n ", false), L(LeadingAsterisk, "*", false), L(KDocText, " a", false),
     L(WhiteSpace, "\n ", false), L(KDocEnd, "*/", false)]
  }

  /** The blank line right after the start is leading. */
  lemma ExampleLeading(doc: seq<Leaf>)
    requires doc == LeadingDoc()
    ensures Classify(doc, 3) == Some(LeadingBlank)
  {
    assert "/**"[0] == '/';
    assert PrevLeaf(doc, 3, IsWhiteSpaceWithNewline) == Some(1);
    assert PrevLeaf(doc, 3, IsContent) == Some(0);
  }

  /** "/**\n * a\n *\n * @param x y\n */" */
  function BeforeFirstTagDoc(): seq<Leaf> {
    [L(KDocStart, "/**", false), L(WhiteSpace, "\n ", false), L(LeadingAsterisk, "*", false),
     L(KDocText, " a", false), L(WhiteSpace, "\n ", false), L(LeadingAsterisk, "*", false),
     L(WhiteSpace, "\n ", false), L(LeadingAsterisk, "*", false), L(WhiteSpace, " ", false),
     L(TagName, "@param", true), L(KDocText, " x y", true), L(WhiteSpace, "\n ", false),
     L(KDocEnd, "*/", false)]
  }

  lemma BeforeFirstTagSearches(doc: seq<Leaf>)
    requires doc == BeforeFirstTagDoc()
    ensures PrevLeaf(doc, 6, IsWhiteSpaceWithNewline) == Some(4)
    ensures PrevLeaf(doc, 6, IsContent) == Some(3)
    ensures NextLeaf(doc, 6, IsContent) == Some(9)
  {
    BeforeFirstTagNewline(doc);
    BeforeFirstTagPrevContent(doc);
    BeforeFirstTagNextContent(doc);
  }

  lemma BeforeFirstTagNewline(doc: seq<Leaf>)
    requires doc == BeforeFirstTagDoc()
    ensures PrevLeaf(doc, 6, IsWhiteSpaceWithNewline) == Some(4)
  {
    assert !IsWhiteSpaceWithNewline(doc[5]) && IsWhiteSpaceWithNewline(doc[4]);
  }

  lemma BeforeFirstTagPrevContent(doc: seq<Leaf>)
    requires doc == BeforeFirstTagDoc()
    ensures PrevLeaf(doc, 6, IsContent) == Some(3)
  {
    assert " a"[1] == 'a';
    assert !IsContent(doc[5]) && !IsContent(doc[4]) && IsContent(doc[3]);
  }

  lemma BeforeFirstTagNextContent(doc: seq<Leaf>)
    requires doc == BeforeFirstTagDoc()
    ensures NextLeaf(doc, 6, IsContent) == Some(9)
  {
    assert "@param"[0] == '@';
    assert !IsContent(doc[7]) && !IsContent(doc[8]) && IsContent(doc[9]);
  }

  /** One blank line between the description and the first tag is allowed. */
  lemma ExampleBlankBeforeFirstTag(doc: seq<Leaf>)
    requires doc == BeforeFirstTagDoc()
    ensures Classify(doc, 6) == None
  {
    BeforeFirstTagSearches(doc);
  }

  /** "/**\n * @param a x\n *\n * @param b y\n */" */
  function BetweenTagsDoc(): seq<Leaf> {
    [L(KDocStart, "/**", false), L(WhiteSpace, "\n ", false), L(LeadingAsterisk, "*", false),
     L(WhiteSpace, " ", false), L(TagName, "@param", true), L(KDocText, " a x", true),
     L(WhiteSpace, "\n ", false), L(LeadingAsterisk, "*", false), L(WhiteSpace, "\n ", false),
     L(LeadingAsterisk, "*", false), L(WhiteSpace, " ", false), L(TagName, "@param", true),
     L(KDocText, " b y", true), L(WhiteSpace, "\n ", false), L(KDocEnd, "*/", false)]
  }

  lemma BetweenTagsSearches(doc: seq<Leaf>)
    requires doc == BetweenTagsDoc()
    ensures PrevLeaf(doc, 8, IsWhiteSpaceWithNewline) == Some(6)
    ensures PrevLeaf(doc, 8, IsContent) == Some(5)
    ensures NextLeaf(doc, 8, IsContent) == Some(11)
  {
    BetweenTagsNewline(doc);
    BetweenTagsPrevContent(doc);
    BetweenTagsNextContent(doc);
  }

  lemma BetweenTagsNewline(doc: seq<Leaf>)
    requires doc == BetweenTagsDoc()
    ensures PrevLeaf(doc, 8, IsWhiteSpaceWithNewline) == Some(6)
  {
    assert !IsWhiteSpaceWithNewline(doc[7]) && IsWhiteSpaceWithNewline(doc[6]);
  }

  lemma BetweenTagsPrevContent(doc: seq<Leaf>)
    requires doc == BetweenTagsDoc()
    ensures PrevLeaf(doc, 8, IsContent) == Some(5)
  {
    assert " a x"[1] == 'a';
    assert !IsContent(doc[7]) && !IsContent(doc[6]) && IsContent(doc[5]);
  }

  lemma BetweenTagsNextContent(doc: seq<Leaf>)
    requires doc == BetweenTagsDoc()
    ensures NextLeaf(doc, 8, IsContent) == Some(11)
  {
    assert "@param"[0] == '@';
    assert !IsContent(doc[9]) && !IsContent(doc[10]) && IsContent(doc[11]);
  }

  /** A blank line between two tags is reported. */
  lemma ExampleBlankBetweenTags(doc: seq<Leaf>)
    requires doc == BetweenTagsDoc()
    ensures Classify(doc, 8) == Some(BlankBeforeTag)
  {
    BetweenTagsSearches(doc);
  }

  /** "/**\n * a\n *\n *\n * b\n */" */
  function ConsecutiveDoc(): seq<Leaf> {
    [L(KDocStart, "/**", false), L(WhiteSpace, "\n ", false), L(LeadingAsterisk, "*", false),
     L(KDocText, " a", false), L(WhiteSpace, "\n ", false), L(LeadingAsterisk, "*", false),
     L(WhiteSpace, "\n ", false), L(LeadingAsterisk, "*", false), L(WhiteSpace, "\n ", false),
     L(LeadingAsterisk, "*", false), L(KDocText, " b", false), L(WhiteSpace, "\n ", false),
     L(KDocEnd, "*/", false)]
  }

  lemma ConsecutiveFirstSearches(doc: seq<Leaf>)
    requires doc == ConsecutiveDoc()
    ensures PrevLeaf(doc, 6, IsWhiteSpaceWithNewline) == Some(4)
    ensures PrevLeaf(doc, 6, IsContent) == Some(3)
    ensures NextLeaf(doc, 6, IsContent) == Some(10)
  {
    assert !IsWhiteSpaceWithNewline(doc[5]) && IsWhiteSpaceWithNewline(doc[4]);
    ConsecutivePrevContent(doc, 6);
    ConsecutiveNextContent(doc, 6);
  }

  lemma ConsecutiveSecondSearches(doc: seq<Leaf>)
    requires doc == ConsecutiveDoc()
    ensures PrevLeaf(doc, 8, IsWhiteSpaceWithNewline) == Some(6)
    ensures PrevLeaf(doc, 8, IsContent) == Some(3)
    ensures NextLeaf(doc, 8, IsContent) == Some(10)
  {
    assert !IsWhiteSpaceWithNewline(doc[7]) && IsWhiteSpaceWithNewline(doc[6]);
    ConsecutivePrevContent(doc, 8);
    ConsecutiveNextContent(doc, 8);
  }

  /** Between the two words only asterisks and whitespace. */
  lemma ConsecutivePrevContent(doc: seq<Leaf>, i: nat)
    requires doc == ConsecutiveDoc() && 4 <= i <= 10
    ensures PrevLeaf(doc, i, IsContent) == Some(3)
  {
    assert " a"[1] == 'a';
    assert IsContent(doc[3]);
    assert forall k :: 3 < k < 10 ==> !IsContent(doc[k]);
    if i > 4 {
      ConsecutivePrevContent(doc, i - 1);
    }
  }

  lemma ConsecutiveNextContent(doc: seq<Leaf>, i: nat)
    requires doc == ConsecutiveDoc() && 3 <= i <= 9
    ensures NextLeaf(doc, i, IsContent) == Some(10)
    decreases 10 - i
  {
    assert " b"[1] == 'b';
    assert IsContent(doc[10]);
    assert forall k :: 3 < k < 10 ==> !IsContent(doc[k]);
    if i < 9 {
      ConsecutiveNextContent(doc, i + 1);
    }
  }

  /** Of two blank lines in a row only the second is reported. */
  lemma ExampleConsecutive(doc: seq<Leaf>)
    requires doc == ConsecutiveDoc()
    ensures Classify(doc, 6) == None && Classify(doc, 8) == Some(ConsecutiveBlanks)
  {
    ConsecutiveFirstSearches(doc);
    ConsecutiveSecondSearches(doc);
  }
}
