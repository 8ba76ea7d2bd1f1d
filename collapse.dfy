/**
 * `KDocCollapseRule`: a multi-line KDoc whose only non-blank section is a
 * single line, and which fits in `maxLineLength` once collapsed, is
 * reported and, with `autoCorrect`, rewritten as one line, start token, text, end token.
 *
 * A KDoc is its list of children: the KDOC_START and KDOC_END tokens, whitespace
 * tokens, and sections, each section a list of leaves.
 */
module Collapse {
  import opened Wrappers
  import opened KDoc

  const ErrorMessage: string := "kdoc should be collapsed into a single line"

  datatype Child = Token(leaf: Leaf) | Section(leaves: seq<Leaf>)

  function ChildText(c: Child): string {
    match c
    case Token(l) => l.text
    case Section(ls) => Text(ls)
  }

  /** `node.text`: the children's texts in order. */
  function NodeText(children: seq<Child>): string {
    if children == [] then "" else ChildText(children[0]) + NodeText(children[1..])
  }

  lemma {:induction false} NodeTextAppend(a: seq<Child>, b: seq<Child>)
    ensures NodeText(a + b) == NodeText(a) + NodeText(b)
  {
    if a == [] {
      assert a + b == b;
    } else {
      assert (a + b)[1..] == a[1..] + b;
      NodeTextAppend(a[1..], b);
    }
  }

  /** `lines().size > 1`: the text holds a line terminator (`\n`, `\r` or both). */
  predicate HasLineBreak(s: string) {
    '\n' in s || '\r' in s
  }

  predicate IsWhiteSpaceChild(c: Child) {
    c.Token? && c.leaf.kind == WhiteSpace
  }

  /**
   * The shape the parser gives a KDoc: the KDOC_START token first, the KDOC_END
   * token last, and only sections and whitespace tokens between them.
   */
  predicate WellFormed(children: seq<Child>) {
    |children| >= 2
    && children[0].Token? && children[0].leaf.kind == KDocStart
    && children[|children| - 1].Token? && children[|children| - 1].leaf.kind == KDocEnd
    && forall k :: 0 < k < |children| - 1 ==> children[k].Section? || IsWhiteSpaceChild(children[k])
  }

  /** `removeRegex("[* ]+")`: every `*` and space deleted. */
  function RemoveStarsAndSpaces(s: string): string {
    if s == [] then [] else (if s[0] == '*' || s[0] == ' ' then [] else [s[0]]) + RemoveStarsAndSpaces(s[1..])
  }

  /** A section whose text is not blank once its asterisks and spaces are gone. */
  predicate IsNonBlankSection(c: Child) {
    c.Section? && !IsBlank(RemoveStarsAndSpaces(Text(c.leaves)))
  }

  /** `getKDocSections().filter { ... }`: the indices of the non-blank sections, in order. */
  function NonBlankSections(children: seq<Child>): seq<nat> {
    if children == [] then []
    else
      NonBlankSections(children[..|children| - 1])
      + (if IsNonBlankSection(children[|children| - 1]) then [|children| - 1] else [])
  }

  lemma {:induction false} NonBlankSectionsMembers(children: seq<Child>)
    ensures forall k :: k in NonBlankSections(children) <==> 0 <= k < |children| && IsNonBlankSection(children[k])
  {
    if children != [] {
      var init := children[..|children| - 1];
      NonBlankSectionsMembers(init);
      forall k | 0 <= k < |init| ensures init[k] == children[k] {
      }
    }
  }

  function DropLeadingSpace(t: string): string {
    if |t| > 0 && t[0] == ' ' then t[1..] else t
  }

  /**
   * `getKDocTextWithoutLeadingAsterisks()`, taken at its interface: the
   * leaves' text with every leading asterisk dropped, together with one
   * space directly after it.
   */
  function StripAsterisks(leaves: seq<Leaf>, afterAsterisk: bool): string {
    if leaves == [] then ""
    else if leaves[0].kind == LeadingAsterisk then StripAsterisks(leaves[1..], true)
    else (if afterAsterisk then DropLeadingSpace(leaves[0].text) else leaves[0].text) + StripAsterisks(leaves[1..], false)
  }

  function TextWithoutLeadingAsterisks(leaves: seq<Leaf>): string {
    StripAsterisks(leaves, false)
  }

  /**
   * `.singleOrNull()?.takeIf { ... }`: the index of the only non-blank
   * section, provided its text without asterisks is a single line.
   */
  function SingleSection(children: seq<Child>): (k: Option<nat>)
    ensures k.Some? ==> k.value < |children| && children[k.value].Section?
  {
    var candidates := NonBlankSections(children);
    NonBlankSectionsMembers(children);
    if |candidates| == 1 then
      assert candidates[0] in candidates;
      if !HasLineBreak(TextWithoutLeadingAsterisks(children[candidates[0]].leaves)) then Some(candidates[0]) else None
    else None
  }

  /** A character of the regular-expression class `\s`: `[ \t\n\x0B\f\r]`. */
  predicate IsRegexSpace(c: char) {
    c == ' ' || c == '\t' || c == '\n' || c == '\U{B}' || c == '\U{C}' || c == '\r'
  }

  /** The number of spaces at the start of `s`. */
  function LeadingSpaces(s: string): (n: nat)
    ensures n <= |s|
    ensures forall i :: 0 <= i < n ==> s[i] == ' '
    ensures n < |s| ==> s[n] != ' '
  {
    if s != [] && s[0] == ' ' then 1 + LeadingSpaces(s[1..]) else 0
  }

  /**
   * The pattern `^ {1,3}(?=[^ ])` removed: one to three leading spaces
   * go when a character other than a space follows them, so an indent of
   * four or more spaces (a code block) stays whole.
   */
  function RemoveShortIndent(s: string): string {
    var n := LeadingSpaces(s);
    if 1 <= n <= 3 && n < |s| then s[n..] else s
  }

  /** Every trailing `\s` character removed. */
  function TrimTrailing(s: string): (r: string)
    ensures r <= s
    ensures r == [] || !IsRegexSpace(r[|r| - 1])
    ensures forall i :: |r| <= i < |s| ==> IsRegexSpace(s[i])
  {
    if |s| > 0 && IsRegexSpace(s[|s| - 1]) then TrimTrailing(s[..|s| - 1]) else s
  }

  /**
   * `trimPreservingCodeBlockIndent()` as written: after the short indent,
   * the pattern `\s$` removes the single `\s` character at the end.
   */
  function TrimAsWritten(s: string): string {
    var t := RemoveShortIndent(s);
    if |t| > 0 && IsRegexSpace(t[|t| - 1]) then t[..|t| - 1] else t
  }

  /** `trimPreservingCodeBlockIndent()` as intended: the short indent and all trailing whitespace removed. */
  function TrimPreservingCodeBlockIndent(s: string): string {
    TrimTrailing(RemoveShortIndent(s))
  }

  /**
   * The trim keeps a code-block indent: text with four or more leading
   * spaces, or with none, keeps its start; one to three spaces before
   * other text are removed.  Either way no trailing whitespace is left
   * and what remains is a piece of the input.
   */
  lemma TrimKeepsCodeIndent(s: string)
    ensures var n := LeadingSpaces(s);
      var r := TrimPreservingCodeBlockIndent(s);
      && (n == 0 || n >= 4 ==> r <= s)
      && (1 <= n <= 3 && n < |s| ==> r <= s[n..] && (r == [] || r[0] != ' '))
      && (r == [] || !IsRegexSpace(r[|r| - 1]))
      && (var m := LeadingSpaces(r); m == 0 || m >= 4 || m == |r|)
  {
    var n := LeadingSpaces(s);
    var t := RemoveShortIndent(s);
    var r := TrimTrailing(t);
    if 1 <= n <= 3 && n < |s| {
      assert t == s[n..] && t[0] != ' ';
      assert r == [] || r[0] == t[0];
    }
    LeadingSpacesPrefix(t, r);
  }

  /** A prefix of `t` starting with fewer leading spaces than `t` has only spaces. */
  lemma LeadingSpacesPrefix(t: string, r: string)
    requires r <= t
    ensures LeadingSpaces(r) == |r| || LeadingSpaces(r) == LeadingSpaces(t)
  {
    var m := LeadingSpaces(r);
    var n := LeadingSpaces(t);
    if m < |r| {
      assert r[m] == t[m];
    }
  }

  /**
   * The trim as written leaves whitespace at the end of a text ending in
   * two spaces, such as "comment  ": only one of the two spaces goes, so
   * the collapsed text keeps two spaces before KDOC_END where the
   * corrected trim keeps one.
   */
  lemma TrimAsWrittenKeepsTrailingSpace(w: string)
    requires w != [] && !IsWhitespaceChar(w[0]) && !IsRegexSpace(w[|w| - 1])
    ensures TrimAsWritten(w + "  ") == w + " "
    ensures TrimPreservingCodeBlockIndent(w + "  ") == w
    ensures NewSectionText(TrimAsWritten(w + "  ")) == " " + w + "  "
    ensures NewSectionText(TrimPreservingCodeBlockIndent(w + "  ")) == " " + w + " "
  {
    NoShortIndent(w + "  ");
    var once := w + " ";
    assert (w + "  ")[..|w| + 1] == once;
    assert once[..|w|] == w;
    assert once[0] == w[0];
    assert !IsBlank(once) && !IsBlank(w);
  }

  /** Text that does not start with a space keeps its start in the trim. */
  lemma NoShortIndent(s: string)
    requires s != [] && s[0] != ' '
    ensures RemoveShortIndent(s) == s
  {
    assert LeadingSpaces(s) == 0;
  }

  /** The new default-section text: the three forms of the `when`. */
  function NewSectionText(t: string): (r: string)
    ensures |r| >= 1 && r[0] == ' ' && r[|r| - 1] == ' '
    ensures !HasLineBreak(t) ==> !HasLineBreak(r)
    ensures |r| <= |t| + 2
    ensures IsBlank(t) && (t == [] || t[0] != ' ') ==> r == " "
    ensures !IsBlank(t) || (t != [] && t[0] == ' ') ==> |r| >= 2
    ensures !IsBlank(t) || (t != [] && t[0] == ' ') ==> r[1..|r| - 1] == DropLeadingSpace(t)
  {
    if |t| > 0 && t[0] == ' ' then t + " "
    else if !IsBlank(t) then " " + t + " "
    else " "
  }

  /**
   * The single section's text as the rule measures and rewrites it: the
   * text without leading asterisks, trimmed as the code writes the trim.
   */
  function SectionLine(leaves: seq<Leaf>): string {
    TrimAsWritten(TextWithoutLeadingAsterisks(leaves))
  }

  /**
   * The length budget: indent, KDOC_START, the trimmed section text, KDOC_END, and
   * one space after the start and one before the end.
   */
  function TotalLength(indent: string, children: seq<Child>, k: nat): int
    requires k < |children| && children[k].Section?
  {
    |indent| + |ChildText(children[0])| + |SectionLine(children[k].leaves)| + |ChildText(children[|children| - 1])| + 2
  }

  /** Whether `beforeVisitChildNodes` on a KDoc emits: every guard up to the budget test. */
  predicate ShouldCollapse(maxLineLength: int, children: seq<Child>, indent: string) {
    if maxLineLength < 0 then false
    else if !HasLineBreak(NodeText(children)) then false
    else
      match SingleSection(children)
      case None => false
      case Some(k) => TotalLength(indent, children, k) <= maxLineLength
  }

  /** Section `k` is the only non-blank section. */
  ghost predicate OnlyNonBlankSection(children: seq<Child>, k: nat) {
    k < |children| && IsNonBlankSection(children[k])
    && forall j :: 0 <= j < |children| && j != k ==> !IsNonBlankSection(children[j])
  }

  lemma OnlyNonBlankSectionIsSingle(children: seq<Child>, k: nat)
    ensures OnlyNonBlankSection(children, k) <==> NonBlankSections(children) == [k]
  {
    var candidates := NonBlankSections(children);
    NonBlankSectionsMembers(children);
    NonBlankSectionsIncreasing(children);
    if OnlyNonBlankSection(children, k) {
      assert k in candidates;
      forall a | 0 <= a < |candidates| ensures candidates[a] == k {
        assert candidates[a] in candidates;
      }
      assert candidates[0] == k && candidates[|candidates| - 1] == k;
      assert candidates == [k];
    }
    if candidates == [k] {
      assert k in candidates;
      forall j | 0 <= j < |children| && j != k ensures !IsNonBlankSection(children[j]) {
        if IsNonBlankSection(children[j]) {
          assert false;
        }
      }
    }
  }

  /** `SingleSection` finds `k` exactly when `k` is the only non-blank section and its text is one line. */
  lemma SingleSectionSpec(children: seq<Child>, k: nat)
    ensures SingleSection(children) == Some(k) <==>
      OnlyNonBlankSection(children, k) && !HasLineBreak(TextWithoutLeadingAsterisks(children[k].leaves))
  {
    OnlyNonBlankSectionIsSingle(children, k);
  }

  /**
   * The rule reports exactly when the budget is not negative, the KDoc
   * spans more than one line, exactly one section is non-blank, that
   * section's text is one line, and the collapsed length fits, equality
   * included.
   */
  lemma CollapseConditions(maxLineLength: int, children: seq<Child>, indent: string)
    ensures ShouldCollapse(maxLineLength, children, indent) <==>
      (maxLineLength >= 0 && HasLineBreak(NodeText(children))
       && exists k: nat :: (OnlyNonBlankSection(children, k) && !HasLineBreak(TextWithoutLeadingAsterisks(children[k].leaves)) && TotalLength(indent, children, k) <= maxLineLength))
  {
    var single := SingleSection(children);
    if single.Some? {
      SingleSectionSpec(children, single.value);
    }
    if exists k: nat :: OnlyNonBlankSection(children, k) && !HasLineBreak(TextWithoutLeadingAsterisks(children[k].leaves)) {
      var k: nat :| OnlyNonBlankSection(children, k) && !HasLineBreak(TextWithoutLeadingAsterisks(children[k].leaves));
      SingleSectionSpec(children, k);
    }
  }

  lemma {:induction false} NonBlankSectionsIncreasing(children: seq<Child>)
    ensures forall a, b :: 0 <= a < b < |NonBlankSections(children)| ==> NonBlankSections(children)[a] < NonBlankSections(children)[b]
    ensures forall a :: 0 <= a < |NonBlankSections(children)| ==> NonBlankSections(children)[a] < |children|
  {
    if children != [] {
      NonBlankSectionsIncreasing(children[..|children| - 1]);
    }
  }

  /** Two non-blank sections never collapse, whatever the budget. */
  lemma TwoSectionsNeverCollapse(maxLineLength: int, children: seq<Child>, indent: string, k1: nat, k2: nat)
    requires k1 < k2 < |children| && IsNonBlankSection(children[k1]) && IsNonBlankSection(children[k2])
    ensures !ShouldCollapse(maxLineLength, children, indent)
  {
    CollapseConditions(maxLineLength, children, indent);
  }

  // ---- the autocorrect edits, as functions of the children ----

  /** Removing the second child when it is whitespace (the line break after KDOC_START). */
  function RemoveLeadingBreak(children: seq<Child>): seq<Child> {
    if |children| > 1 && IsWhiteSpaceChild(children[1]) then children[..1] + children[2..] else children
  }

  predicate HasSection(children: seq<Child>) {
    exists k :: 0 <= k < |children| && children[k].Section?
  }

  /** `children().first { it.isKDocSection() }`. */
  function FirstSection(children: seq<Child>): (d: nat)
    requires HasSection(children)
    ensures d < |children| && children[d].Section?
    ensures forall j :: 0 <= j < d ==> !children[j].Section?
  {
    if children[0].Section? then 0
    else
      assert HasSection(children[1..]) by {
        var k :| 0 <= k < |children| && children[k].Section?;
        assert children[1..][k - 1] == children[k];
      }
      1 + FirstSection(children[1..])
  }

  /** The one-leaf section `addChild(LeafPsiElement(KDOC_TEXT, text))` leaves behind. */
  function TextLeaf(text: string): Leaf {
    Leaf(KDocText, text, true, false, true)
  }

  function WhiteSpaceLeaf(text: string): Leaf {
    Leaf(WhiteSpace, text, true, false, true)
  }

  /** `removeAllChildren()` then `addChild` on the default section, with the normalised text. */
  function RewriteDefaultSection(children: seq<Child>): seq<Child>
    requires HasSection(children)
  {
    var d := FirstSection(children);
    children[d := Section([TextLeaf(NewSectionText(SectionLine(children[d].leaves)))])]
  }

  /** Where a leaf sits among the KDoc's children: a child token, or a leaf of a child section. */
  datatype LeafPos = ChildAt(k: nat) | InSection(k: nat, j: nat)

  predicate ValidPos(children: seq<Child>, pos: LeafPos) {
    match pos
    case ChildAt(k) => k < |children| && children[k].Token?
    case InSection(k, j) => k < |children| && children[k].Section? && j < |children[k].leaves|
  }

  function LeafAt(children: seq<Child>, pos: LeafPos): Leaf
    requires ValidPos(children, pos)
  {
    match pos
    case ChildAt(k) => children[k].leaf
    case InSection(k, j) => children[k].leaves[j]
  }

  /** `prevLeaf(includeEmpty = true)` of child `k`, within the KDoc. */
  function LeafBefore(children: seq<Child>, k: nat): (pos: Option<LeafPos>)
    requires k <= |children|
    ensures pos.Some? ==> ValidPos(children, pos.value) && pos.value.k < k
    ensures pos.None? ==> forall j :: 0 <= j < k ==> children[j] == Section([])
  {
    if k == 0 then None
    else
      match children[k - 1]
      case Token(_) => Some(ChildAt(k - 1))
      case Section(ls) => if ls == [] then LeafBefore(children, k - 1) else Some(InSection(k - 1, |ls| - 1))
  }

  /** `kdocEnd.prevLeaf(true).takeIf { it.isWhiteSpace() }`. */
  function WhiteSpaceBeforeEnd(children: seq<Child>): (pos: Option<LeafPos>)
    requires |children| >= 1
    ensures pos.Some? ==> ValidPos(children, pos.value) && LeafAt(children, pos.value).kind == WhiteSpace
  {
    var before := LeafBefore(children, |children| - 1);
    if before.Some? && LeafAt(children, before.value).kind == WhiteSpace then before else None
  }

  function SectionCount(children: seq<Child>): nat {
    if children == [] then 0 else (if children[0].Section? then 1 else 0) + SectionCount(children[1..])
  }

  /** `removeChild` of the leaf at `pos`. */
  function RemoveLeafAt(children: seq<Child>, pos: LeafPos): seq<Child>
    requires ValidPos(children, pos)
  {
    match pos
    case ChildAt(k) => children[..k] + children[k + 1..]
    case InSection(k, j) => children[k := Section(children[k].leaves[..j] + children[k].leaves[j + 1..])]
  }

  /** `replaceChild` of the leaf at `pos` by `leaf`. */
  function ReplaceLeafAt(children: seq<Child>, pos: LeafPos, leaf: Leaf): seq<Child>
    requires ValidPos(children, pos)
  {
    match pos
    case ChildAt(k) => children[k := Token(leaf)]
    case InSection(k, j) => children[k := Section(children[k].leaves[j := leaf])]
  }

  /**
   * The `when` on the whitespace before KDOC_END, first match wins: removed
   * when there is one section; a space inserted when there is none and
   * there are several sections; a newline replaced by a space.
   */
  function NormalizeEnd(children: seq<Child>): seq<Child>
    requires |children| >= 1
  {
    var ws := WhiteSpaceBeforeEnd(children);
    var sections := SectionCount(children);
    if ws.Some? && sections == 1 then RemoveLeafAt(children, ws.value)
    else if ws.None? && sections > 1 then
      children[..|children| - 1] + [Token(WhiteSpaceLeaf(" "))] + [children[|children| - 1]]
    else if ws.Some? && IsWhiteSpaceWithNewline(LeafAt(children, ws.value)) then
      ReplaceLeafAt(children, ws.value, WhiteSpaceLeaf(" "))
    else children
  }

  /** Replacing a leaf keeps every child's kind and size, so the backward leaf search is unchanged. */
  lemma {:induction false} LeafBeforeReplace(children: seq<Child>, pos: LeafPos, leaf: Leaf, k: nat)
    requires ValidPos(children, pos) && k <= |children|
    ensures LeafBefore(ReplaceLeafAt(children, pos, leaf), k) == LeafBefore(children, k)
  {
    var r := ReplaceLeafAt(children, pos, leaf);
    if k > 0 {
      assert r[k - 1].Token? == children[k - 1].Token?;
      assert r[k - 1].Section? ==> |r[k - 1].leaves| == |children[k - 1].leaves|;
      LeafBeforeReplace(children, pos, leaf, k - 1);
    }
  }

  /**
   * With more than one section, the edit before KDOC_END leaves a space
   * there: afterwards the leaf before the last child is whitespace without
   * a newline, and the last child is still the end token.
   */
  lemma NormalizeEndSeparatesEnd(children: seq<Child>)
    requires |children| >= 2 && children[|children| - 1].Token? && SectionCount(children) > 1
    ensures var r := NormalizeEnd(children);
      && |r| >= 1 && r[|r| - 1] == children[|children| - 1]
      && WhiteSpaceBeforeEnd(r).Some?
      && !IsWhiteSpaceWithNewline(LeafAt(r, WhiteSpaceBeforeEnd(r).value))
  {
    var n := |children|;
    var ws := WhiteSpaceBeforeEnd(children);
    if ws.None? {
      SpaceInsertedBeforeEnd(children);
    } else if IsWhiteSpaceWithNewline(LeafAt(children, ws.value)) {
      SpaceReplacedBeforeEnd(children, ws.value);
    }
  }

  /** Inserting a space token before the last child makes it the leaf before KDOC_END. */
  lemma SpaceInsertedBeforeEnd(children: seq<Child>)
    requires |children| >= 1
    ensures var n := |children|;
      var r := children[..n - 1] + [Token(WhiteSpaceLeaf(" "))] + [children[n - 1]];
      && r[|r| - 1] == children[n - 1]
      && WhiteSpaceBeforeEnd(r) == Some(ChildAt(n - 1))
      && LeafAt(r, ChildAt(n - 1)) == WhiteSpaceLeaf(" ")
  {
    var n := |children|;
    var r := children[..n - 1] + [Token(WhiteSpaceLeaf(" "))] + [children[n - 1]];
    assert r[n - 1] == Token(WhiteSpaceLeaf(" "));
    assert LeafBefore(r, |r| - 1) == Some(ChildAt(n - 1));
  }

  /** Replacing the whitespace before KDOC_END by a space keeps it the leaf before KDOC_END. */
  lemma SpaceReplacedBeforeEnd(children: seq<Child>, pos: LeafPos)
    requires |children| >= 1 && WhiteSpaceBeforeEnd(children) == Some(pos)
    ensures var r := ReplaceLeafAt(children, pos, WhiteSpaceLeaf(" "));
      && |r| == |children| && r[|r| - 1] == children[|children| - 1]
      && WhiteSpaceBeforeEnd(r) == Some(pos)
      && LeafAt(r, pos) == WhiteSpaceLeaf(" ")
  {
    var n := |children|;
    var r := ReplaceLeafAt(children, pos, WhiteSpaceLeaf(" "));
    LeafBeforeReplace(children, pos, WhiteSpaceLeaf(" "), n - 1);
    assert pos.k < n - 1;
    assert r[n - 1] == children[n - 1];
  }


  lemma RemoveLeadingBreakKeepsShape(children: seq<Child>)
    requires WellFormed(children)
    ensures WellFormed(RemoveLeadingBreak(children))
    ensures HasSection(children) ==> HasSection(RemoveLeadingBreak(children))
  {
    var c := RemoveLeadingBreak(children);
    if |children| > 1 && IsWhiteSpaceChild(children[1]) {
      forall k | 0 < k < |c| - 1 ensures c[k].Section? || IsWhiteSpaceChild(c[k]) {
        assert c[k] == children[k + 1];
      }
      if HasSection(children) {
        var k :| 0 <= k < |children| && children[k].Section?;
        assert c[k - 1] == children[k];
      }
    }
  }

  /** The autocorrect edits in order. */
  function Collapsed(children: seq<Child>): seq<Child>
    requires WellFormed(children) && HasSection(children)
  {
    RemoveLeadingBreakKeepsShape(children);
    var c1 := RemoveLeadingBreak(children);
    var c2 := RewriteDefaultSection(c1);
    NormalizeEnd(c2)
  }

  /** A KDoc of the usual shape: KDOC_START, at most one whitespace token, one section, at most one whitespace token, KDOC_END. */
  predicate UsualShape(start: Leaf, pre: seq<Child>, post: seq<Child>, end: Leaf) {
    start.kind == KDocStart && end.kind == KDocEnd && |pre| <= 1 && |post| <= 1
    && (forall c :: c in pre ==> IsWhiteSpaceChild(c))
    && (forall c :: c in post ==> IsWhiteSpaceChild(c))
  }

  function Assemble(start: Leaf, pre: seq<Child>, leaves: seq<Leaf>, post: seq<Child>, end: Leaf): seq<Child> {
    [Token(start)] + pre + [Section(leaves)] + post + [Token(end)]
  }

  lemma UsualShapeFacts(start: Leaf, pre: seq<Child>, leaves: seq<Leaf>, post: seq<Child>, end: Leaf)
    requires UsualShape(start, pre, post, end)
    ensures var children := Assemble(start, pre, leaves, post, end);
      && WellFormed(children) && HasSection(children)
      && (SingleSection(children).Some? ==> SingleSection(children).value == 1 + |pre|)
  {
    var children := Assemble(start, pre, leaves, post, end);
    var s := 1 + |pre|;
    assert children[s] == Section(leaves);
    forall k | 0 < k < |children| - 1 && k != s ensures IsWhiteSpaceChild(children[k]) {
      if k < s {
        assert children[k] == pre[k - 1];
      } else {
        assert children[k] == post[k - s - 1];
      }
    }
  }

  /** In the usual shape the middle section is the single section exactly when it is non-blank and one line. */
  lemma UsualShapeSingleSection(start: Leaf, pre: seq<Child>, leaves: seq<Leaf>, post: seq<Child>, end: Leaf)
    requires UsualShape(start, pre, post, end)
    ensures SingleSection(Assemble(start, pre, leaves, post, end))
         == if IsNonBlankSection(Section(leaves)) && !HasLineBreak(TextWithoutLeadingAsterisks(leaves))
            then Some(1 + |pre|) else None
  {
    var children := Assemble(start, pre, leaves, post, end);
    var s := 1 + |pre|;
    assert children[s] == Section(leaves);
    forall j | 0 <= j < |children| && j != s ensures !IsNonBlankSection(children[j]) {
      if 0 < j < s {
        assert children[j] == pre[j - 1];
        assert pre[j - 1] in pre;
      } else if s < j < |children| - 1 {
        assert children[j] == post[j - s - 1];
        assert post[j - s - 1] in post;
      }
    }
    var candidates := NonBlankSections(children);
    NonBlankSectionsMembers(children);
    assert |candidates| == 1 ==> candidates[0] in candidates;
    if IsNonBlankSection(Section(leaves)) {
      OnlyNonBlankSectionIsSingle(children, s);
    }
  }

  /** The first edit removes the whitespace after KDOC_START, if there is one. */
  lemma UsualShapeFirstEdit(start: Leaf, pre: seq<Child>, leaves: seq<Leaf>, post: seq<Child>, end: Leaf)
    requires UsualShape(start, pre, post, end)
    ensures RemoveLeadingBreak(Assemble(start, pre, leaves, post, end)) == [Token(start), Section(leaves)] + post + [Token(end)]
  {
    var children := Assemble(start, pre, leaves, post, end);
    if pre != [] {
      assert pre[0] in pre;
      assert children[1] == pre[0];
      assert children[..1] + children[2..] == [Token(start), Section(leaves)] + post + [Token(end)];
    } else {
      assert children == [Token(start), Section(leaves)] + post + [Token(end)];
    }
  }

  /** The last edit removes the whitespace before KDOC_END, if there is one. */
  lemma UsualShapeLastEdit(start: Leaf, text: string, post: seq<Child>, end: Leaf)
    requires |post| <= 1 && forall c :: c in post ==> IsWhiteSpaceChild(c)
    ensures NormalizeEnd([Token(start), Section([TextLeaf(text)])] + post + [Token(end)])
      == [Token(start), Section([TextLeaf(text)]), Token(end)]
  {
    var rewritten := Section([TextLeaf(text)]);
    var c := [Token(start), rewritten] + post + [Token(end)];
    SectionCountShape(start, rewritten, post, end);
    if post == [] {
      assert c == [Token(start), rewritten, Token(end)];
      assert LeafBefore(c, |c| - 1) == Some(InSection(1, 0));
    } else {
      assert post[0] in post;
      assert c == [Token(start), rewritten, post[0], Token(end)];
      assert WhiteSpaceBeforeEnd(c) == Some(ChildAt(2));
      assert c[..2] + c[3..] == [Token(start), rewritten, Token(end)];
    }
  }

  lemma NodeTextThree(start: Leaf, l: Leaf, end: Leaf)
    ensures NodeText([Token(start), Section([l]), Token(end)]) == start.text + l.text + end.text
  {
    var c := [Token(start), Section([l]), Token(end)];
    assert Text([l]) == l.text by {
      assert [l][..0] == [];
    }
    assert c[1..] == [Section([l]), Token(end)];
    assert c[1..][1..] == [Token(end)];
    assert [Token(end)][1..] == [];
    assert NodeText([Token(end)]) == end.text;
    assert NodeText([Section([l]), Token(end)]) == l.text + end.text;
  }

  /**
   * A KDoc of the usual shape collapses to KDOC_START, the rewritten
   * section text and KDOC_END, on one line that fits the budget; and a
   * second visit reports nothing.
   */
  lemma CollapsedSingleSection(
    maxLineLength: int, indent: string,
    start: Leaf, pre: seq<Child>, leaves: seq<Leaf>, post: seq<Child>, end: Leaf)
    requires UsualShape(start, pre, post, end)
    requires !HasLineBreak(start.text) && !HasLineBreak(end.text)
    requires ShouldCollapse(maxLineLength, Assemble(start, pre, leaves, post, end), indent)
    ensures var children := Assemble(start, pre, leaves, post, end);
      && WellFormed(children) && HasSection(children)
      && NodeText(Collapsed(children)) == start.text + NewSectionText(SectionLine(leaves)) + end.text
      && !HasLineBreak(NodeText(Collapsed(children)))
      && |indent| + |NodeText(Collapsed(children))| <= maxLineLength
      && !ShouldCollapse(maxLineLength, Collapsed(children), indent)
  {
    var children := Assemble(start, pre, leaves, post, end);
    UsualShapeFacts(start, pre, leaves, post, end);
    assert children[1 + |pre|] == Section(leaves);
    var line := SectionLine(leaves);
    TrimIsInfix(TextWithoutLeadingAsterisks(leaves));
    CollapsedShape(start, pre, leaves, post, end);
    NodeTextThree(start, TextLeaf(NewSectionText(line)), end);
    NoLineBreakConcat(start.text, NewSectionText(line), end.text);
  }

  /** In the usual shape the three edits leave KDOC_START, one rewritten section and KDOC_END. */
  lemma CollapsedShape(start: Leaf, pre: seq<Child>, leaves: seq<Leaf>, post: seq<Child>, end: Leaf)
    requires UsualShape(start, pre, post, end)
    ensures HasSection(Assemble(start, pre, leaves, post, end))
    ensures Collapsed(Assemble(start, pre, leaves, post, end))
         == [Token(start), Section([TextLeaf(NewSectionText(SectionLine(leaves)))]), Token(end)]
  {
    UsualShapeFacts(start, pre, leaves, post, end);
    var line := SectionLine(leaves);
    UsualShapeFirstEdit(start, pre, leaves, post, end);
    var c1 := [Token(start), Section(leaves)] + post + [Token(end)];
    assert c1[1].Section?;
    assert FirstSection(c1) == 1;
    assert RewriteDefaultSection(c1) == [Token(start), Section([TextLeaf(NewSectionText(line))])] + post + [Token(end)];
    UsualShapeLastEdit(start, NewSectionText(line), post, end);
  }

  /**
   * Both trims remove characters from the ends only: no line break appears
   * and nothing grows.
   */
  lemma TrimIsInfix(s: string)
    ensures !HasLineBreak(s) ==> !HasLineBreak(TrimAsWritten(s))
    ensures |TrimAsWritten(s)| <= |s|
    ensures !HasLineBreak(s) ==> !HasLineBreak(TrimPreservingCodeBlockIndent(s))
    ensures |TrimPreservingCodeBlockIndent(s)| <= |s|
  {
    var t := RemoveShortIndent(s);
    var r := TrimTrailing(t);
    var once := TrimAsWritten(s);
    if !HasLineBreak(s) {
      assert forall i :: 0 <= i < |t| ==> t[i] in s by {
        var n := LeadingSpaces(s);
        if 1 <= n <= 3 && n < |s| {
          forall i | 0 <= i < |t| ensures t[i] in s {
            assert t[i] == s[i + n];
          }
        }
      }
      assert forall i :: 0 <= i < |r| ==> r[i] == t[i];
      assert forall i :: 0 <= i < |once| ==> once[i] == t[i];
    }
  }

  /** The text after the short indent ends in two `\s` characters. */
  predicate EndsInTwoSpaces(t: string) {
    |t| >= 2 && IsRegexSpace(t[|t| - 1]) && IsRegexSpace(t[|t| - 2])
  }

  /**
   * The trim as written and the intended trim: trimming what the code
   * leaves gives the intended result, and the two differ exactly when the
   * text ends in two or more whitespace characters.
   */
  lemma TrimsAgree(s: string)
    ensures TrimTrailing(TrimAsWritten(s)) == TrimPreservingCodeBlockIndent(s)
    ensures TrimAsWritten(s) == TrimPreservingCodeBlockIndent(s) <==> !EndsInTwoSpaces(RemoveShortIndent(s))
  {
    var t := RemoveShortIndent(s);
    var once := TrimAsWritten(s);
    if |t| > 0 && IsRegexSpace(t[|t| - 1]) {
      assert once == t[..|t| - 1];
      assert TrimTrailing(t) == TrimTrailing(once);
      if EndsInTwoSpaces(t) {
        assert IsRegexSpace(once[|once| - 1]);
      } else {
        assert TrimTrailing(once) == once;
      }
    } else {
      assert once == t;
      assert TrimTrailing(t) == t;
    }
  }

  lemma NoLineBreakConcat(a: string, b: string, c: string)
    requires !HasLineBreak(a) && !HasLineBreak(b) && !HasLineBreak(c)
    ensures !HasLineBreak(a + b + c)
  {
  }

  lemma {:induction false} SectionCountAppend(a: seq<Child>, b: seq<Child>)
    ensures SectionCount(a + b) == SectionCount(a) + SectionCount(b)
  {
    if a == [] {
      assert a + b == b;
    } else {
      assert (a + b)[1..] == a[1..] + b;
      SectionCountAppend(a[1..], b);
    }
  }

  lemma SectionCountShape(start: Leaf, section: Child, post: seq<Child>, end: Leaf)
    requires section.Section? && |post| <= 1 && forall c :: c in post ==> !c.Section?
    ensures SectionCount([Token(start), section] + post + [Token(end)]) == 1
  {
    SectionCountAppend([Token(start), section], post);
    SectionCountAppend([Token(start), section] + post, [Token(end)]);
    assert [Token(start), section][1..] == [section];
    assert [section][1..] == [];
    assert [Token(end)][1..] == [];
    if post != [] {
      assert post[0] in post;
      assert post[1..] == [];
    }
  }

  // ---- a worked example ----

  /** A word: non-empty, with no whitespace and no asterisk. */
  predicate IsWord(w: string) {
    w != [] && forall i :: 0 <= i < |w| ==> !IsWhitespaceChar(w[i]) && w[i] != '*'
  }

  /** The one section of "KDOC_START\n * word\n KDOC_END": an asterisk, then the word after one space. */
  function OneWordSection(w: string): seq<Leaf> {
    [Leaf(LeadingAsterisk, "*", true, false, true), TextLeaf(" " + w)]
  }

  /** A three-line KDoc holding one word. */
  function OneWordDoc(w: string): seq<Child> {
    Assemble(Leaf(KDocStart, "/**", true, false, true), [Token(WhiteSpaceLeaf("\n "))], OneWordSection(w),
             [Token(WhiteSpaceLeaf("\n "))], Leaf(KDocEnd, "*/", true, false, true))
  }

  lemma OneWordShape(w: string)
    ensures UsualShape(Leaf(KDocStart, "/**", true, false, true), [Token(WhiteSpaceLeaf("\n "))],
                       [Token(WhiteSpaceLeaf("\n "))], Leaf(KDocEnd, "*/", true, false, true))
  {
  }

  lemma OneWordText(w: string)
    ensures Text(OneWordSection(w)) == "* " + w
  {
    var leaves := OneWordSection(w);
    assert leaves[..1][..0] == [];
    assert leaves[..1] == [leaves[0]];
    assert Text(leaves[..1]) == "*";
    assert leaves[..2] == leaves;
    assert Text(leaves) == Text(leaves[..1]) + leaves[1].text;
    assert "*" + (" " + w) == "* " + w;
  }

  lemma OneWordNonBlank(w: string)
    requires IsWord(w)
    ensures IsNonBlankSection(Section(OneWordSection(w)))
  {
    OneWordText(w);
    RemoveStarsAndSpacesKeeps(w);
    RemoveStarsAndSpacesSkip(' ', w);
    RemoveStarsAndSpacesSkip('*', [' '] + w);
    assert "* " + w == ['*'] + ([' '] + w);
    assert !IsWhitespaceChar(w[0]);
  }

  lemma OneWordStripped(w: string)
    ensures TextWithoutLeadingAsterisks(OneWordSection(w)) == w
  {
    var leaves := OneWordSection(w);
    assert leaves[0].kind == LeadingAsterisk;
    assert leaves[1..] == [TextLeaf(" " + w)];
    assert leaves[1..][1..] == [];
    assert (" " + w)[1..] == w;
    assert StripAsterisks(leaves[1..], true) == DropLeadingSpace(" " + w) + StripAsterisks([], false);
  }

  /** A word is its own trimmed section line and holds no line break. */
  lemma OneWordLine(w: string)
    requires IsWord(w)
    ensures SectionLine(OneWordSection(w)) == w
    ensures !HasLineBreak(w)
  {
    OneWordStripped(w);
    NoShortIndent(w);
    assert !IsWhitespaceChar(w[|w| - 1]);
    assert TrimAsWritten(w) == w;
    assert !('\n' in w) && !('\r' in w) by {
      forall i | 0 <= i < |w| ensures w[i] != '\n' && w[i] != '\r' {
        assert !IsWhitespaceChar(w[i]);
      }
    }
  }

  lemma OneWordSingleSection(w: string)
    requires IsWord(w)
    ensures SingleSection(OneWordDoc(w)) == Some(2)
  {
    OneWordShape(w);
    UsualShapeSingleSection(Leaf(KDocStart, "/**", true, false, true), [Token(WhiteSpaceLeaf("\n "))], OneWordSection(w),
                            [Token(WhiteSpaceLeaf("\n "))], Leaf(KDocEnd, "*/", true, false, true));
    OneWordNonBlank(w);
    OneWordStripped(w);
    OneWordLine(w);
  }

  lemma OneWordSpansLines(w: string)
    ensures HasLineBreak(NodeText(OneWordDoc(w)))
  {
    var doc := OneWordDoc(w);
    assert NodeText(doc) == "/**" + NodeText(doc[1..]);
    assert NodeText(doc[1..]) == "\n " + NodeText(doc[2..]);
    assert NodeText(doc)[3] == '\n';
  }

  /**
   * A three-line KDoc holding one word `w`, at indent `indent`, is reported
   * exactly when its one-line form `KDOC_START w KDOC_END` fits:
   * 3 + 1 + |w| + 1 + 2 columns after the indent.
   */
  lemma OneWordBudget(maxLineLength: int, indent: string, w: string)
    requires IsWord(w)
    ensures ShouldCollapse(maxLineLength, OneWordDoc(w), indent) <==> |indent| + |w| + 7 <= maxLineLength
  {
    OneWordSingleSection(w);
    OneWordSpansLines(w);
    OneWordLine(w);
    var doc := OneWordDoc(w);
    assert doc[0] == Token(Leaf(KDocStart, "/**", true, false, true));
    assert doc[4] == Token(Leaf(KDocEnd, "*/", true, false, true));
    assert TotalLength(indent, doc, 2) == |indent| + 3 + |w| + 2 + 2;
  }

  /** Its collapsed form is the single line "KDOC_START w KDOC_END". */
  lemma OneWordCollapsed(w: string)
    requires IsWord(w)
    ensures WellFormed(OneWordDoc(w)) && HasSection(OneWordDoc(w))
    ensures NodeText(Collapsed(OneWordDoc(w))) == "/** " + w + " */"
  {
    var start, ws, end := Leaf(KDocStart, "/**", true, false, true), Token(WhiteSpaceLeaf("\n ")), Leaf(KDocEnd, "*/", true, false, true);
    OneWordShape(w);
    UsualShapeFacts(start, [ws], OneWordSection(w), [ws], end);
    CollapsedShape(start, [ws], OneWordSection(w), [ws], end);
    OneWordLine(w);
    NewSectionTextOfWord(w);
    NodeTextThree(start, TextLeaf(" " + w + " "), end);
    OneLine(w);
  }

  lemma OneLine(w: string)
    ensures "/**" + (" " + w + " ") + "*/" == "/** " + w + " */"
  {
    var l := "/**" + (" " + w + " ") + "*/";
    var r := "/** " + w + " */";
    assert |l| == |r|;
    forall i | 0 <= i < |l| ensures l[i] == r[i] {
      if i < 4 {
      } else if i < 4 + |w| {
        assert l[i] == w[i - 4] && r[i] == w[i - 4];
      }
    }
  }

  /** A word that starts with a visible character gets one space on either side. */
  lemma NewSectionTextOfWord(w: string)
    requires w != [] && !IsWhitespaceChar(w[0])
    ensures NewSectionText(w) == " " + w + " "
  {
  }

  /** Text without stars and spaces comes back unchanged. */
  lemma {:induction false} RemoveStarsAndSpacesKeeps(s: string)
    requires forall i :: 0 <= i < |s| ==> s[i] != '*' && s[i] != ' '
    ensures RemoveStarsAndSpaces(s) == s
  {
    if s != [] {
      RemoveStarsAndSpacesKeeps(s[1..]);
      assert s == [s[0]] + s[1..];
    }
  }

  lemma RemoveStarsAndSpacesSkip(c: char, s: string)
    requires c == '*' || c == ' '
    ensures RemoveStarsAndSpaces([c] + s) == RemoveStarsAndSpaces(s)
  {
    assert ([c] + s)[1..] == s;
  }

  lemma CommentIsWord(w: string)
    requires w == "comment"
    ensures IsWord(w) && |w| == 7
  {
  }

  /**
   * "KDOC_START\n * comment\n KDOC_END" at indent zero needs 14 columns:
   * it is reported under a limit of 14 and left alone under 13.
   */
  lemma ExampleBudget(w: string)
    requires w == "comment"
    ensures ShouldCollapse(14, OneWordDoc(w), "")
    ensures !ShouldCollapse(13, OneWordDoc(w), "")
  {
    CommentIsWord(w);
    OneWordBudget(14, "", w);
    OneWordBudget(13, "", w);
  }

  /** Its collapsed form is the 14-character line "KDOC_START comment KDOC_END". */
  lemma ExampleCollapsed(w: string)
    requires w == "comment"
    ensures WellFormed(OneWordDoc(w)) && HasSection(OneWordDoc(w))
    ensures NodeText(Collapsed(OneWordDoc(w))) == "/** comment */"
    ensures |NodeText(Collapsed(OneWordDoc(w)))| == 14
  {
    CommentIsWord(w);
    OneWordCollapsed(w);
    CommentLine(w);
  }

  lemma CommentLine(w: string)
    requires w == "comment"
    ensures "/** " + w + " */" == "/** comment */"
  {
  }

  /*
   * A word followed by two spaces, "KDOC_START\n * w  \n KDOC_END": the trim
   * as written removes only one of the spaces, so the rule counts the other
   * in the budget and writes it back, leaving two spaces before KDOC_END.
   */

  lemma PaddedWordNonBlank(u: string)
    requires IsWord(u)
    ensures IsNonBlankSection(Section(OneWordSection(u + "  ")))
  {
    var w := u + "  ";
    OneWordText(w);
    RemoveStarsAndSpacesSkip(' ', w);
    RemoveStarsAndSpacesSkip('*', [' '] + w);
    assert "* " + w == ['*'] + ([' '] + w);
    assert RemoveStarsAndSpaces(Text(OneWordSection(w))) == RemoveStarsAndSpaces(w);
    assert w[0] == u[0] && u[0] != '*' && u[0] != ' ' && !IsWhitespaceChar(u[0]);
    var r := RemoveStarsAndSpaces(w);
    assert r == [w[0]] + RemoveStarsAndSpaces(w[1..]);
    assert r[0] == u[0];
  }

  lemma PaddedWordLine(u: string)
    requires IsWord(u)
    ensures SectionLine(OneWordSection(u + "  ")) == u + " "
    ensures !HasLineBreak(u + " ")
    ensures NewSectionText(u + " ") == " " + u + "  "
  {
    OneWordStripped(u + "  ");
    assert !IsWhitespaceChar(u[|u| - 1]);
    TrimAsWrittenKeepsTrailingSpace(u);
    assert !('\n' in u + " ") && !('\r' in u + " ") by {
      forall i | 0 <= i < |u + " "| ensures (u + " ")[i] != '\n' && (u + " ")[i] != '\r' {
        if i < |u| {
          assert !IsWhitespaceChar(u[i]);
        }
      }
    }
  }

  lemma PaddedWordSingleSection(u: string)
    requires IsWord(u)
    ensures SingleSection(OneWordDoc(u + "  ")) == Some(2)
  {
    OneWordShape(u + "  ");
    UsualShapeSingleSection(Leaf(KDocStart, "/**", true, false, true), [Token(WhiteSpaceLeaf("\n "))], OneWordSection(u + "  "),
                            [Token(WhiteSpaceLeaf("\n "))], Leaf(KDocEnd, "*/", true, false, true));
    PaddedWordNonBlank(u);
    OneWordStripped(u + "  ");
    PaddedWordLine(u);
  }

  /** The kept space costs a column: the budget is one more than for the bare word. */
  lemma PaddedWordBudget(maxLineLength: int, indent: string, u: string)
    requires IsWord(u)
    ensures ShouldCollapse(maxLineLength, OneWordDoc(u + "  "), indent) <==> |indent| + |u| + 8 <= maxLineLength
  {
    PaddedWordSingleSection(u);
    OneWordSpansLines(u + "  ");
    PaddedWordLine(u);
    var doc := OneWordDoc(u + "  ");
    assert doc[0] == Token(Leaf(KDocStart, "/**", true, false, true));
    assert doc[4] == Token(Leaf(KDocEnd, "*/", true, false, true));
    assert TotalLength(indent, doc, 2) == |indent| + 3 + |u| + 1 + 2 + 2;
  }

  /** The collapsed line keeps two spaces before KDOC_END. */
  lemma PaddedWordCollapsed(u: string)
    requires IsWord(u)
    ensures WellFormed(OneWordDoc(u + "  ")) && HasSection(OneWordDoc(u + "  "))
    ensures NodeText(Collapsed(OneWordDoc(u + "  "))) == "/** " + u + "  */"
  {
    var start, ws, end := Leaf(KDocStart, "/**", true, false, true), Token(WhiteSpaceLeaf("\n ")), Leaf(KDocEnd, "*/", true, false, true);
    OneWordShape(u + "  ");
    UsualShapeFacts(start, [ws], OneWordSection(u + "  "), [ws], end);
    CollapsedShape(start, [ws], OneWordSection(u + "  "), [ws], end);
    PaddedWordLine(u);
    NodeTextThree(start, TextLeaf(" " + u + "  "), end);
    PaddedLine(u);
  }

  lemma PaddedLine(u: string)
    ensures "/**" + (" " + u + "  ") + "*/" == "/** " + u + "  */"
  {
    var l := "/**" + (" " + u + "  ") + "*/";
    var r := "/** " + u + "  */";
    assert |l| == |r|;
    forall i | 0 <= i < |l| ensures l[i] == r[i] {
      if i < 4 {
      } else if i < 4 + |u| {
        assert l[i] == u[i - 4] && r[i] == u[i - 4];
      }
    }
  }

  /**
   * "KDOC_START\n * comment  \n KDOC_END" at indent zero: left alone under
   * a limit of 14, where the intended trim would fit it, and reported under
   * 15, collapsing to "KDOC_START comment  KDOC_END".
   */
  lemma ExamplePaddedBudget(u: string)
    requires u == "comment"
    ensures !ShouldCollapse(14, OneWordDoc(u + "  "), "")
    ensures ShouldCollapse(15, OneWordDoc(u + "  "), "")
    ensures |"/** " + TrimPreservingCodeBlockIndent(u + "  ") + " */"| == 14
  {
    CommentIsWord(u);
    PaddedWordBudget(14, "", u);
    PaddedWordBudget(15, "", u);
    TrimAsWrittenKeepsTrailingSpace(u);
  }

  lemma ExamplePaddedCollapsed(u: string)
    requires u == "comment"
    ensures WellFormed(OneWordDoc(u + "  ")) && HasSection(OneWordDoc(u + "  "))
    ensures NodeText(Collapsed(OneWordDoc(u + "  "))) == "/** comment  */"
  {
    CommentIsWord(u);
    PaddedWordCollapsed(u);
    PaddedCommentLine(u);
  }

  lemma PaddedCommentLine(u: string)
    requires u == "comment"
    ensures "/** " + u + "  */" == "/** comment  */"
  {
  }

  // ---- the PSI node the rule edits, and the rule itself ----

  /** The KDoc element as the rule mutates it: its children, edited in place. */
  class KDocNode {
    var children: seq<Child>

    constructor(children: seq<Child>)
      ensures this.children == children
    {
      this.children := children;
    }

    /** `removeChild` of a child of the KDoc. */
    method RemoveChild(k: nat)
      requires k < |children|
      modifies this
      ensures children == old(children[..k] + children[k + 1..])
    {
      children := children[..k] + children[k + 1..];
    }

    /** `removeAllChildren()` on section `k`. */
    method ClearSection(k: nat)
      requires k < |children| && children[k].Section?
      modifies this
      ensures children == old(children[k := Section([])])
    {
      children := children[k := Section([])];
    }

    /** `addChild(leaf)` on section `k`. */
    method AddToSection(k: nat, leaf: Leaf)
      requires k < |children| && children[k].Section?
      modifies this
      ensures children == old(children[k := Section(children[k].leaves + [leaf])])
    {
      children := children[k := Section(children[k].leaves + [leaf])];
    }

    /** `removeChild` of the leaf at `pos`. */
    method RemoveLeaf(pos: LeafPos)
      requires ValidPos(children, pos)
      modifies this
      ensures children == RemoveLeafAt(old(children), pos)
    {
      match pos
      case ChildAt(k) =>
        children := children[..k] + children[k + 1..];
      case InSection(k, j) =>
        var ls := children[k].leaves;
        children := children[k := Section(ls[..j] + ls[j + 1..])];
    }

    /** `replaceChild` of the leaf at `pos` by `leaf`. */
    method ReplaceLeaf(pos: LeafPos, leaf: Leaf)
      requires ValidPos(children, pos)
      modifies this
      ensures children == ReplaceLeafAt(old(children), pos, leaf)
    {
      match pos
      case ChildAt(k) =>
        children := children[k := Token(leaf)];
      case InSection(k, j) =>
        children := children[k := Section(children[k].leaves[j := leaf])];
    }

    /** The whitespace after KDOC_START removed, if the second child is one. */
    method DropBreakAfterStart()
      modifies this
      ensures children == RemoveLeadingBreak(old(children))
    {
      if |children| > 1 && IsWhiteSpaceChild(children[1]) {
        RemoveChild(1);
      }
    }

    /** The default section's leaves replaced by one text leaf holding its normalised text. */
    method RewriteFirstSection()
      requires HasSection(children)
      modifies this
      ensures children == RewriteDefaultSection(old(children))
    {
      ghost var before := children;
      var d := FirstSection(children);
      var text := NewSectionText(SectionLine(children[d].leaves));
      ClearSection(d);
      assert children == before[d := Section([])];
      AddToSection(d, TextLeaf(text));
      assert [] + [TextLeaf(text)] == [TextLeaf(text)];
      assert children == before[d := Section([TextLeaf(text)])];
    }

    /** The whitespace before KDOC_END removed, inserted or replaced. */
    method NormalizeBeforeEnd()
      requires |children| >= 1
      modifies this
      ensures children == NormalizeEnd(old(children))
    {
      var ws := WhiteSpaceBeforeEnd(children);
      var sections := SectionCount(children);
      if ws.Some? && sections == 1 {
        RemoveLeaf(ws.value);
      } else if ws.None? && sections > 1 {
        InsertChild(|children| - 1, Token(WhiteSpaceLeaf(" ")));
        assert children == old(children)[..|old(children)| - 1] + [Token(WhiteSpaceLeaf(" "))] + [old(children)[|old(children)| - 1]];
      } else if ws.Some? && IsWhiteSpaceWithNewline(LeafAt(children, ws.value)) {
        ReplaceLeaf(ws.value, WhiteSpaceLeaf(" "));
      }
    }

    /** `addChild(child, before = children[k])`. */
    method InsertChild(k: nat, child: Child)
      requires k <= |children|
      modifies this
      ensures children == old(children[..k] + [child] + children[k..])
    {
      children := children[..k] + [child] + children[k..];
    }
  }

  /** The rule object: the line-length setting read before the first node. */
  class CollapseRule {
    var maxLineLength: int

    /** `maxLineLength` starts at the setting's default value. */
    constructor(defaultMaxLineLength: int)
      ensures maxLineLength == defaultMaxLineLength
    {
      maxLineLength := defaultMaxLineLength;
    }

    /** `beforeFirstNode`: the value configured for the file. */
    method BeforeFirstNode(configured: int)
      modifies this
      ensures maxLineLength == configured
    {
      maxLineLength := configured;
    }

    /** A negative limit switches the rule off. */
    predicate SkipAll()
      reads this
    {
      maxLineLength < 0
    }

    /** The autocorrect edits, in the order the rule makes them. */
    method CollapseInPlace(node: KDocNode)
      requires WellFormed(node.children) && HasSection(node.children)
      modifies node
      ensures node.children == Collapsed(old(node.children))
    {
      RemoveLeadingBreakKeepsShape(node.children);
      node.DropBreakAfterStart();
      node.RewriteFirstSection();
      node.NormalizeBeforeEnd();
    }

    /**
     * `beforeVisitChildNodes` on a KDoc: one diagnostic at the KDoc's start
     * when it should collapse, and with `autoCorrect` the collapsing edits;
     * otherwise nothing changes.
     */
    method BeforeVisitChildNodes(node: KDocNode, startOffset: int, indent: string, autoCorrect: bool, sink: Emitter)
      requires WellFormed(node.children)
      modifies node, sink
      ensures sink.emitted == old(sink.emitted)
        + (if ShouldCollapse(maxLineLength, old(node.children), indent) then [Diagnostic(startOffset, ErrorMessage, true)] else [])
      ensures ShouldCollapse(maxLineLength, old(node.children), indent) && autoCorrect ==>
        HasSection(old(node.children)) && node.children == Collapsed(old(node.children))
      ensures !(ShouldCollapse(maxLineLength, old(node.children), indent) && autoCorrect) ==>
        node.children == old(node.children)
    {
      var children := node.children;
      if SkipAll() || !HasLineBreak(NodeText(children)) {
        return;
      }
      var single := SingleSection(children);
      if single.None? || TotalLength(indent, children, single.value) > maxLineLength {
        return;
      }
      assert ShouldCollapse(maxLineLength, children, indent);
      sink.Emit(startOffset, ErrorMessage, true);
      if autoCorrect {
        CollapseInPlace(node);
      }
    }
  }
}
