/**
 * The leaf view of a file that the KDoc rules read: a KDoc-aware token
 * stream in source order, the classifiers the rules ask about each leaf,
 * the backward and forward leaf searches, and the host's diagnostic sink.
 */
module KDoc {
  import opened Wrappers

  /** The leaf element types the rules tell apart. */
  datatype LeafKind =
    | KDocStart        // "/**"
    | KDocEnd          // "*/"
    | LeadingAsterisk  // the "*" that starts a continuation line
    | WhiteSpace
    | KDocText
    | TagName          // "@param", "@return", ...
    | OtherLeaf        // code outside KDoc, markdown links, ...

  /**
   * A leaf with the facts about its ancestors the rules use: whether some
   * ancestor (or the leaf) is a KDoc, whether some ancestor is a KDoc tag
   * (a `@tag` block, not the default section), and whether it has a parent.
   */
  datatype Leaf = Leaf(kind: LeafKind, text: string, inKDoc: bool, inTag: bool, hasParent: bool)

  /** `Char.isWhitespace()` in Kotlin/JVM: the Unicode space separators plus the ASCII and separator controls. */
  predicate IsWhitespaceChar(c: char) {
    c == ' ' || c == '\t' || c == '\n' || c == '\U{B}' || c == '\U{C}' || c == '\r'
    || ('\U{1C}' <= c <= '\U{1F}') || c == '\U{A0}' || c == '\U{1680}'
    || ('\U{2000}' <= c <= '\U{200A}') || c == '\U{2028}' || c == '\U{2029}' || c == '\U{202F}'
    || c == '\U{205F}' || c == '\U{3000}'
  }

  /** `CharSequence.isBlank()`: empty or whitespace only. */
  predicate IsBlank(s: string) {
    forall i :: 0 <= i < |s| ==> IsWhitespaceChar(s[i])
  }

  /** ktlint's `isWhiteSpaceWithNewline`: a whitespace leaf whose text holds a line feed. */
  predicate IsWhiteSpaceWithNewline(l: Leaf) {
    l.kind == WhiteSpace && '\n' in l.text
  }

  /** `isWhiteSpaceOrBlank`: a whitespace leaf or a leaf with blank text. */
  predicate IsWhiteSpaceOrBlank(l: Leaf) {
    l.kind == WhiteSpace || IsBlank(l.text)
  }

  /** The leaves both rules count as content: not blank and not a leading asterisk. */
  predicate IsContent(l: Leaf) {
    !IsWhiteSpaceOrBlank(l) && l.kind != LeadingAsterisk
  }

  /**
   * `isKDocWhitespaceAfterLeadingAsterisk`, taken at its interface: a
   * whitespace leaf whose preceding leaf is a leading asterisk, i.e. the
   * rest of a line after its `*`.
   */
  predicate IsWhitespaceAfterLeadingAsterisk(leaves: seq<Leaf>, i: nat)
    requires i < |leaves|
  {
    leaves[i].kind == WhiteSpace && i > 0 && leaves[i - 1].kind == LeadingAsterisk
  }

  /** `j` is the nearest leaf before `i` that satisfies `p`. */
  ghost predicate NearestBefore(leaves: seq<Leaf>, i: nat, p: Leaf -> bool, j: nat) {
    j < i <= |leaves| && p(leaves[j]) && forall k :: j < k < i ==> !p(leaves[k])
  }

  /** `j` is the nearest leaf after `i` that satisfies `p`. */
  ghost predicate NearestAfter(leaves: seq<Leaf>, i: nat, p: Leaf -> bool, j: nat) {
    i < j < |leaves| && p(leaves[j]) && forall k :: i < k < j ==> !p(leaves[k])
  }

  /** `prevLeaf { p }`: the index of the nearest earlier leaf that satisfies `p`, if any. */
  function PrevLeaf(leaves: seq<Leaf>, i: nat, p: Leaf -> bool): (r: Option<nat>)
    requires i <= |leaves|
    ensures r.Some? ==> NearestBefore(leaves, i, p, r.value)
    ensures r.None? ==> forall k :: 0 <= k < i ==> !p(leaves[k])
  {
    if i == 0 then None
    else if p(leaves[i - 1]) then Some(i - 1)
    else PrevLeaf(leaves, i - 1, p)
  }

  /** `nextLeaf { p }`: the index of the nearest later leaf that satisfies `p`, if any. */
  function NextLeaf(leaves: seq<Leaf>, i: nat, p: Leaf -> bool): (r: Option<nat>)
    requires i < |leaves|
    ensures r.Some? ==> NearestAfter(leaves, i, p, r.value)
    ensures r.None? ==> forall k :: i < k < |leaves| ==> !p(leaves[k])
    decreases |leaves| - i
  {
    if i + 1 == |leaves| then None
    else if p(leaves[i + 1]) then Some(i + 1)
    else NextLeaf(leaves, i + 1, p)
  }

  /** The nearest satisfying leaf is unique, so the searches are characterised by their specifications. */
  lemma {:induction false} NearestBeforeUnique(leaves: seq<Leaf>, i: nat, p: Leaf -> bool, j1: nat, j2: nat)
    requires NearestBefore(leaves, i, p, j1) && NearestBefore(leaves, i, p, j2)
    ensures j1 == j2
  {
  }

  lemma {:induction false} NearestAfterUnique(leaves: seq<Leaf>, i: nat, p: Leaf -> bool, j1: nat, j2: nat)
    requires NearestAfter(leaves, i, p, j1) && NearestAfter(leaves, i, p, j2)
    ensures j1 == j2
  {
  }

  /** The text of a run of leaves. */
  function Text(leaves: seq<Leaf>): string {
    if leaves == [] then "" else Text(leaves[..|leaves| - 1]) + leaves[|leaves| - 1].text
  }

  lemma {:induction false} TextAppend(a: seq<Leaf>, b: seq<Leaf>)
    ensures Text(a + b) == Text(a) + Text(b)
    decreases |b|
  {
    if b == [] {
      assert a + b == a;
    } else {
      assert (a + b)[..|a + b| - 1] == a + b[..|b| - 1];
      TextAppend(a, b[..|b| - 1]);
    }
  }

  /** `startOffset` of leaf `i`: the length of the text before it. */
  function Offset(leaves: seq<Leaf>, i: nat): nat
    requires i <= |leaves|
  {
    |Text(leaves[..i])|
  }

  /** One call of the host's `emit(offset, errorMessage, canBeAutoCorrected)`. */
  datatype Diagnostic = Diagnostic(offset: int, message: string, canBeAutoCorrected: bool)

  /** The host's `emit` callback, modelled as the list of diagnostics it has received. */
  class Emitter {
    var emitted: seq<Diagnostic>

    constructor()
      ensures emitted == []
    {
      emitted := [];
    }

    method Emit(offset: int, message: string, canBeAutoCorrected: bool)
      modifies this
      ensures emitted == old(emitted) + [Diagnostic(offset, message, canBeAutoCorrected)]
    {
      emitted := emitted + [Diagnostic(offset, message, canBeAutoCorrected)];
    }
  }
}
