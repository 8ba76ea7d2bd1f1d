# ktrules KDoc rules in Dafny

A model of two ktlint rules from ktrules that format KDoc comments, together with the tree, text and sorting helpers they depend on. Each piece comes with proofs about it.

- **`KDocBlankLinesRule`** (`blank_lines.dfy`). The rule visits a whitespace leaf that ends a blank KDoc line, meaning a line made of a leading `*` and nothing else. It classifies that line as one of four violations, where the first match wins:
  - a leading blank line;
  - a trailing blank line;
  - an extra blank line before a later tag;
  - the second of two consecutive blank lines.

  It emits the violation once, at the start of the leading asterisk. With autocorrect on, it removes that asterisk and the newline that follows it.
- **`KDocCollapseRule`** (`collapse.dfy`). The rule reports a multi-line KDoc whose only non-blank section is a single line, when its one-line form fits in `max_line_length`. With autocorrect on, it first removes the line break after the start token. It then rewrites the default section as one text leaf and normalises the whitespace before the end token.
- **`internal/psi.kt`** (`psi.dfy`). This file holds:
  - the two explicit-stack pre-order traversals `depthFirst()` and `depthFirst(predicate)`;
  - the level-by-level `getChildrenOfTypeRecursive`;
  - `getAllTags`, which sorts the collected tags by start offset;
  - the offset-to-indent computation `findIndent`.
- **`internal/sort.kt`** (`sort.dfy`). `sortedWith(vararg selectors)` is a stable sort by a sequence of keys, compared in order.

`kdoc.dfy` holds the leaf model both rules read:
- leaf kinds, with flags for whether a leaf is inside a KDoc and inside a tag;
- Kotlin's `isWhitespace`/`isBlank`;
- the nearest-leaf searches `prevLeaf`/`nextLeaf`;
- the host's `emit` callback, modelled as a list of diagnostics.

`wrappers.dfy` holds `Option`.

Which parts are imperative follows the source:
- The loops of `findIndent` and of both `depthFirst` overloads are methods with loop invariants.
- `sortedWith` copies its input into an array and sorts it in place, proved against a reference insertion sort.
- Both rules' edits are methods on mutable node objects (`LeafTree`, `KDocNode`), proved against functions of the old state.
- The classification, the collapse decision, the trim, and the breadth-first collection are functions.

Where the code's behaviour differs from what its names suggest, the model follows the code:
- `findIndent` returns `column + 1` spaces, one more than the KDoc's column (`Psi.FindIndent`).
- `trimPreservingCodeBlockIndent` removes a single trailing whitespace character. The collapse rule measures its budget and writes the new section text with this trim, as written (`Collapse.SectionLine`). The trim that removes all trailing whitespace is defined and proved beside it, as the corrected half of the Findings row, and the rule does not use it.

## Model

| member | source | states |
|---|---|---|
| Sort.LexLessCons | src/main/kotlin/com/rickbusarow/ktrules/rules/internal/sort.kt:28 | key tuples compare by their first key, and by the rest only on a tie |
| Sort.CompareByZero | src/main/kotlin/com/rickbusarow/ktrules/rules/internal/sort.kt:28 | `compareBy(*selectors)` ties two elements exactly when every selector gives them equal keys |
| Sort.CompareByIsLexicographic | src/main/kotlin/com/rickbusarow/ktrules/rules/internal/sort.kt:28 | the comparator puts `a` first exactly when `a`'s key tuple is lexicographically smaller, with the first selector deciding first |
| Sort.CompareByAntisymmetric | src/main/kotlin/com/rickbusarow/ktrules/rules/internal/sort.kt:28 | swapping the arguments negates the comparison |
| Sort.CompareByTransitive | src/main/kotlin/com/rickbusarow/ktrules/rules/internal/sort.kt:28 | the comparator is transitive, so it is a total preorder as `sortWith` requires |
| Sort.InsertPermutes | src/main/kotlin/com/rickbusarow/ktrules/rules/internal/sort.kt:28 | one insertion step adds exactly the inserted element |
| Sort.InsertionSortPermutes | src/main/kotlin/com/rickbusarow/ktrules/rules/internal/sort.kt:24-31 | the sorted list is a permutation of the input |
| Sort.InsertSorted | src/main/kotlin/com/rickbusarow/ktrules/rules/internal/sort.kt:28 | inserting into a sorted list keeps it sorted |
| Sort.InsertionSortSorted | src/main/kotlin/com/rickbusarow/ktrules/rules/internal/sort.kt:28-30 | the result is ordered by the comparator |
| Sort.InsertTies | src/main/kotlin/com/rickbusarow/ktrules/rules/internal/sort.kt:18-23 | an inserted element goes after every element it ties with |
| Sort.InsertionSortTies | src/main/kotlin/com/rickbusarow/ktrules/rules/internal/sort.kt:18-23 | each class of tied elements appears in the output in its input order |
| Sort.InsertionSortStable | src/main/kotlin/com/rickbusarow/ktrules/rules/internal/sort.kt:18-23 | the sort is stable |
| Sort.SortedStableUnique | src/main/kotlin/com/rickbusarow/ktrules/rules/internal/sort.kt:18-31 | two sorted, stable permutations of the same input are equal, so any stable sort gives the reference result |
| Sort.InsertionSortOfSorted | src/main/kotlin/com/rickbusarow/ktrules/rules/internal/sort.kt:18-31 | an already sorted list is returned unchanged |
| Sort.InsertionSortIdempotent | src/main/kotlin/com/rickbusarow/ktrules/rules/internal/sort.kt:18-31 | sorting twice equals sorting once |
| Sort.InsertAt | src/main/kotlin/com/rickbusarow/ktrules/rules/internal/sort.kt:28 | shifting larger elements right and placing the next one performs one insertion step in place; the rest of the array is untouched |
| Sort.SortInPlace | src/main/kotlin/com/rickbusarow/ktrules/rules/internal/sort.kt:28 | `sortWith` on an array leaves it holding the reference sort of its old contents |
| Sort.SortedWith | src/main/kotlin/com/rickbusarow/ktrules/rules/internal/sort.kt:24-31 | both the Collection path and the Iterable path return the reference sort: sorted, stable, a permutation; a collection of at most one element comes back unchanged |
| Psi.PreOrderCountsEveryNode | src/main/kotlin/com/rickbusarow/ktrules/rules/internal/psi.kt:50-62 | the pre-order of a forest lists as many nodes as the forest has |
| Psi.PreOrderStep | src/main/kotlin/com/rickbusarow/ktrules/rules/internal/psi.kt:54-60 | popping a node and pushing its children keeps the pre-order of the stack and shrinks it |
| Psi.PushAllFirst | src/main/kotlin/com/rickbusarow/ktrules/rules/internal/psi.kt:56-58 | pushing a node's children on the stack puts them on top in their own order, the first child to be popped first |
| Psi.DepthFirst | src/main/kotlin/com/rickbusarow/ktrules/rules/internal/psi.kt:50-62 | the explicit-stack loop yields exactly the strict descendants in pre-order, children left to right, without the root |
| Psi.PreOrderWhereStep | src/main/kotlin/com/rickbusarow/ktrules/rules/internal/psi.kt:70-79 | popping a satisfying node and pushing its satisfying children keeps the filtered pre-order of the stack |
| Psi.DepthFirstWhere | src/main/kotlin/com/rickbusarow/ktrules/rules/internal/psi.kt:64-84 | the predicate traversal yields the pre-order restricted to satisfying nodes whose ancestors below the root all satisfy it |
| Psi.PreOrderWhereSatisfies | src/main/kotlin/com/rickbusarow/ktrules/rules/internal/psi.kt:64-84 | every yielded node satisfies the predicate |
| Psi.PreOrderWhereDescendants | src/main/kotlin/com/rickbusarow/ktrules/rules/internal/psi.kt:64-84 | every yielded node is a descendant |
| Psi.PreOrderWhereSkipsSubtree | src/main/kotlin/com/rickbusarow/ktrules/rules/internal/psi.kt:68-82 | a node that fails the predicate is dropped together with its whole subtree |
| Psi.PreOrderWhereAll | src/main/kotlin/com/rickbusarow/ktrules/rules/internal/psi.kt:50-84 | with an always-true predicate the traversal equals the plain one |
| Psi.KidsSize | src/main/kotlin/com/rickbusarow/ktrules/rules/internal/psi.kt:90-95 | going down one level removes exactly the current level's nodes, so the level sequence ends |
| Psi.BreadthFirstByLevels | src/main/kotlin/com/rickbusarow/ktrules/rules/internal/psi.kt:89-96 | the flattened level sequence lists depth 0 first, then depth 1, and so on, left to right within a level |
| Psi.BreadthFirstPermutesPreOrder | src/main/kotlin/com/rickbusarow/ktrules/rules/internal/psi.kt:89-96 | the level sequence holds every strict descendant exactly as often as the pre-order does |
| Psi.FilterCount | src/main/kotlin/com/rickbusarow/ktrules/rules/internal/psi.kt:97 | the kind filter keeps every wanted node as often as it occurs, and no other node |
| Psi.ChildrenOfKindRecursiveAreDescendants | src/main/kotlin/com/rickbusarow/ktrules/rules/internal/psi.kt:89-99 | `getChildrenOfTypeRecursive` returns exactly the strict descendants of the wanted kinds |
| Psi.AllTags | src/main/kotlin/com/rickbusarow/ktrules/rules/internal/psi.kt:25-28 | `getAllTags` returns the collected tags and sections in non-decreasing start offset, a permutation of them that keeps same-offset tags in collection order |
| Psi.PostOrderPermutesPreOrder | src/main/kotlin/com/rickbusarow/ktrules/rules/internal/psi.kt:25 | the visitor's post-order lists the same nodes as the pre-order, each as often |
| Psi.CollectedTagsPermutesPreOrder | src/main/kotlin/com/rickbusarow/ktrules/rules/internal/psi.kt:25 | `collectDescendantsOfType<KDocTag>()` gathers every section and tag of the KDoc exactly once, in post-order |
| Psi.LineStartInText | src/main/kotlin/com/rickbusarow/ktrules/rules/internal/psi.kt:33 | line `k` of the file occupies the text from its start offset for its length, with one terminator between lines |
| Psi.OnLineBeforeLater | src/main/kotlin/com/rickbusarow/ktrules/rules/internal/psi.kt:37-46 | an offset within a line lies before the start of every later line |
| Psi.LineOfOffsetUnique | src/main/kotlin/com/rickbusarow/ktrules/rules/internal/psi.kt:37-46 | at most one line contains a given offset |
| Psi.Spaces | src/main/kotlin/com/rickbusarow/ktrules/rules/internal/psi.kt:47 | `" ".repeat(n)` is `n` spaces |
| Psi.FindIndent | src/main/kotlin/com/rickbusarow/ktrules/rules/internal/psi.kt:32-48 | an indent exists exactly when the offset lies within the file; it is spaces only, one more than the offset's column on its line |
| KDoc.PrevLeaf | src/main/kotlin/com/rickbusarow/ktrules/rules/KDocBlankLinesRule.kt:64 | `prevLeaf { p }` finds the nearest earlier leaf satisfying `p`, or reports that none exists |
| KDoc.NextLeaf | src/main/kotlin/com/rickbusarow/ktrules/rules/KDocBlankLinesRule.kt:70 | `nextLeaf { p }` finds the nearest later leaf satisfying `p`, or reports that none exists |
| KDoc.Emitter.Emit | src/main/kotlin/com/rickbusarow/ktrules/rules/KDocBlankLinesRule.kt:56 | one `emit` call appends exactly one diagnostic |
| BlankLines.Classify | src/main/kotlin/com/rickbusarow/ktrules/rules/KDocBlankLinesRule.kt:59-100 | a violation is found only for whitespace with a newline, right after a leading asterisk, inside a KDoc, with an earlier newline |
| BlankLines.PrevContentIsSearch | src/main/kotlin/com/rickbusarow/ktrules/rules/KDocBlankLinesRule.kt:69 | the backward content search hits a leaf of a kind exactly when the nearest earlier content leaf has that kind |
| BlankLines.NextContentIsSearch | src/main/kotlin/com/rickbusarow/ktrules/rules/KDocBlankLinesRule.kt:70 | the forward content search hits a leaf of a kind exactly when the nearest later content leaf has that kind |
| BlankLines.PrevContentInTagSearch | src/main/kotlin/com/rickbusarow/ktrules/rules/KDocBlankLinesRule.kt:91 | `prevContent.isInKDocTag()` holds exactly when the nearest earlier content lies in a tag |
| BlankLines.PreviousLineBlankSearch | src/main/kotlin/com/rickbusarow/ktrules/rules/KDocBlankLinesRule.kt:95 | the consecutive test holds exactly when the nearest earlier newline ends a blank line too |
| BlankLines.ClassifyCategories | src/main/kotlin/com/rickbusarow/ktrules/rules/KDocBlankLinesRule.kt:82-100 | each of the four messages fires exactly when its condition holds and no earlier branch's does, so at most one fires per node |
| BlankLines.FixRemovesBlankLine | src/main/kotlin/com/rickbusarow/ktrules/rules/KDocBlankLinesRule.kt:74-79 | on a violation the previous leaf is the asterisk; the fix removes exactly it and the newline and nothing else of the text; the emit offset is that asterisk's start |
| BlankLines.FixKeepsContent | src/main/kotlin/com/rickbusarow/ktrules/rules/KDocBlankLinesRule.kt:76-79 | the fix keeps every content leaf in order and removes exactly one line break |
| BlankLines.LeafTree.RemoveChild | src/main/kotlin/com/rickbusarow/ktrules/rules/KDocBlankLinesRule.kt:77-78 | `removeChild` removes one leaf and keeps the others in order |
| BlankLines.BeforeVisitChildNodes | src/main/kotlin/com/rickbusarow/ktrules/rules/KDocBlankLinesRule.kt:53-101 | no violation means no diagnostic and no edit; a violation means one fixable diagnostic with its message at the asterisk's offset, and with autocorrect exactly the two leaves removed |
| BlankLines.ExampleLeading | src/main/kotlin/com/rickbusarow/ktrules/rules/KDocBlankLinesRule.kt:83-85 | a blank line straight after the start is leading |
| BlankLines.ExampleBlankBeforeFirstTag | src/main/kotlin/com/rickbusarow/ktrules/rules/KDocBlankLinesRule.kt:91-93 | a blank line between the summary and the first tag is not reported, because the previous content is not in a tag |
| BlankLines.ExampleBlankBetweenTags | src/main/kotlin/com/rickbusarow/ktrules/rules/KDocBlankLinesRule.kt:91-93 | a blank line between two tags is reported as before-tag |
| BlankLines.ExampleConsecutive | src/main/kotlin/com/rickbusarow/ktrules/rules/KDocBlankLinesRule.kt:95-97 | of two blank lines in prose only the second is reported, as consecutive |
| Collapse.NonBlankSectionsMembers | src/main/kotlin/com/rickbusarow/ktrules/rules/KDocCollapseRule.kt:88-89 | the filter keeps exactly the sections that are non-blank once `*` and spaces are removed |
| Collapse.SingleSection | src/main/kotlin/com/rickbusarow/ktrules/rules/KDocCollapseRule.kt:88-92 | a found section is a section child of the KDoc |
| Collapse.OnlyNonBlankSectionIsSingle | src/main/kotlin/com/rickbusarow/ktrules/rules/KDocCollapseRule.kt:88-90 | `singleOrNull` finds `k` exactly when `k` is the only non-blank section |
| Collapse.SingleSectionSpec | src/main/kotlin/com/rickbusarow/ktrules/rules/KDocCollapseRule.kt:88-92 | the section is found exactly when it is the only non-blank one and its text without asterisks is a single line |
| Collapse.CollapseConditions | src/main/kotlin/com/rickbusarow/ktrules/rules/KDocCollapseRule.kt:83-111 | the rule reports exactly when the limit is not negative, the KDoc spans several lines, one section alone is non-blank and single-line, and indent + start + end + 2 + the length of the section text trimmed as written (one trailing whitespace character removed) is at most the limit |
| Collapse.TwoSectionsNeverCollapse | src/main/kotlin/com/rickbusarow/ktrules/rules/KDocCollapseRule.kt:88-92 | two non-blank sections are never reported, whatever the limit |
| Collapse.OneWordSingleSection | src/main/kotlin/com/rickbusarow/ktrules/rules/KDocCollapseRule.kt:88-92 | a three-line KDoc holding one word `w` has that word's section as its single section |
| Collapse.OneWordSpansLines | src/main/kotlin/com/rickbusarow/ktrules/rules/KDocCollapseRule.kt:86 | such a KDoc spans several lines |
| Collapse.OneWordBudget | src/main/kotlin/com/rickbusarow/ktrules/rules/KDocCollapseRule.kt:101-111 | it is reported exactly when indent + `w` + 7 (the start and end tokens and the separating spaces) is at most the limit |
| Collapse.OneWordCollapsed | src/main/kotlin/com/rickbusarow/ktrules/rules/KDocCollapseRule.kt:115-165 | it collapses to `/** w */` |
| Collapse.ExampleBudget | src/main/kotlin/com/rickbusarow/ktrules/rules/KDocCollapseRule.kt:101-111 | for the word "comment" at indent 0 the limit 14 is the exact budget: reported under 14, not under 13 |
| Collapse.ExampleCollapsed | src/main/kotlin/com/rickbusarow/ktrules/rules/KDocCollapseRule.kt:115-165 | that KDoc collapses to the 14-character `/** comment */` |
| Collapse.PaddedWordSingleSection | src/main/kotlin/com/rickbusarow/ktrules/rules/KDocCollapseRule.kt:88-92 | a three-line KDoc holding a word followed by two spaces has that section as its single section |
| Collapse.PaddedWordBudget | src/main/kotlin/com/rickbusarow/ktrules/rules/KDocCollapseRule.kt:101-111 | it is reported exactly when indent + `w` + 8 is at most the limit: the space the trim keeps is counted |
| Collapse.PaddedWordCollapsed | src/main/kotlin/com/rickbusarow/ktrules/rules/KDocCollapseRule.kt:115-165 | it collapses to `/** w  */`, with two spaces before the end token |
| Collapse.ExamplePaddedBudget | src/main/kotlin/com/rickbusarow/ktrules/rules/KDocCollapseRule.kt:101-111 | for "comment" and two spaces at indent 0: not reported under 14, although the corrected trim's one-line form is 14 long; reported under 15 |
| Collapse.ExamplePaddedCollapsed | src/main/kotlin/com/rickbusarow/ktrules/rules/KDocCollapseRule.kt:115-165 | that KDoc collapses to `/** comment  */` |
| Collapse.LeadingSpaces | src/main/kotlin/com/rickbusarow/ktrules/rules/KDocCollapseRule.kt:169 | counts the spaces the pattern `^ {1,3}` looks at: all of them are spaces and the next character is not |
| Collapse.TrimTrailing | src/main/kotlin/com/rickbusarow/ktrules/rules/KDocCollapseRule.kt:169 | the result is a prefix of the input that does not end in `\s`, and everything cut off is `\s` |
| Collapse.TrimKeepsCodeIndent | src/main/kotlin/com/rickbusarow/ktrules/rules/KDocCollapseRule.kt:169 | 1-3 leading spaces before other text are removed, none or 4+ are kept, and no trailing whitespace remains |
| Collapse.TrimAsWrittenKeepsTrailingSpace | src/main/kotlin/com/rickbusarow/ktrules/rules/KDocCollapseRule.kt:169 | for every word `w` without surrounding whitespace, the trim as written turns `w` + two spaces into `w` + one space, so the new section text ends in two spaces; the corrected trim gives `w` and one space before the end |
| Collapse.TrimIsInfix | src/main/kotlin/com/rickbusarow/ktrules/rules/KDocCollapseRule.kt:104 | the trim as written, and the corrected trim too, never adds a line break and never lengthens the text |
| Collapse.TrimsAgree | src/main/kotlin/com/rickbusarow/ktrules/rules/KDocCollapseRule.kt:169 | trimming the rest of the trailing whitespace from the as-written result gives the corrected trim; the two trims differ exactly when the text ends in two or more whitespace characters |
| Collapse.NewSectionText | src/main/kotlin/com/rickbusarow/ktrules/rules/KDocCollapseRule.kt:139-143 | the new text starts and ends with a space and is at most two longer than the trimmed text; blank text gives `" "`; otherwise the text between the outer spaces is the trimmed text, less the leading space it already had |
| Collapse.RemoveLeadingBreakKeepsShape | src/main/kotlin/com/rickbusarow/ktrules/rules/KDocCollapseRule.kt:124-130 | removing the whitespace after the start token leaves a well-formed KDoc that still has a section |
| Collapse.FirstSection | src/main/kotlin/com/rickbusarow/ktrules/rules/KDocCollapseRule.kt:132 | `first { isKDocSection() }` is a section and no earlier child is one |
| Collapse.LeafBefore | src/main/kotlin/com/rickbusarow/ktrules/rules/KDocCollapseRule.kt:147 | `prevLeaf(includeEmpty = true)` gives a valid leaf position in an earlier child; it finds none only when every earlier child is an empty section |
| Collapse.WhiteSpaceBeforeEnd | src/main/kotlin/com/rickbusarow/ktrules/rules/KDocCollapseRule.kt:147-148 | the leaf found is whitespace |
| Collapse.LeafBeforeReplace | src/main/kotlin/com/rickbusarow/ktrules/rules/KDocCollapseRule.kt:163 | replacing a leaf does not move the leaf before KDOC_END |
| Collapse.SpaceInsertedBeforeEnd | src/main/kotlin/com/rickbusarow/ktrules/rules/KDocCollapseRule.kt:156-159 | inserting a space token before the end token makes it the whitespace leaf found before the end |
| Collapse.SpaceReplacedBeforeEnd | src/main/kotlin/com/rickbusarow/ktrules/rules/KDocCollapseRule.kt:162-164 | replacing the whitespace before the end by one space keeps the end token last and that leaf the one found before it |
| Collapse.NormalizeEndSeparatesEnd | src/main/kotlin/com/rickbusarow/ktrules/rules/KDocCollapseRule.kt:156-164 | with more than one section, afterwards the end token is preceded by whitespace without a newline |
| Collapse.UsualShapeFacts | src/main/kotlin/com/rickbusarow/ktrules/rules/KDocCollapseRule.kt:88-95 | a KDoc made of start, optional whitespace, one section, optional whitespace and end is well-formed, and its only possible single section is that one |
| Collapse.UsualShapeSingleSection | src/main/kotlin/com/rickbusarow/ktrules/rules/KDocCollapseRule.kt:88-92 | in that shape the section is found exactly when it is non-blank and its text without asterisks is one line |
| Collapse.UsualShapeFirstEdit | src/main/kotlin/com/rickbusarow/ktrules/rules/KDocCollapseRule.kt:124-130 | in that shape the first edit removes the whitespace after the start, if present |
| Collapse.UsualShapeLastEdit | src/main/kotlin/com/rickbusarow/ktrules/rules/KDocCollapseRule.kt:150-154 | in that shape the last edit removes the whitespace before the end, if present, and otherwise changes nothing |
| Collapse.CollapsedShape | src/main/kotlin/com/rickbusarow/ktrules/rules/KDocCollapseRule.kt:115-165 | in that shape the three edits leave exactly the start token, one section holding one text leaf with the new text built from the section text trimmed as written, and the end token |
| Collapse.CollapsedSingleSection | src/main/kotlin/com/rickbusarow/ktrules/rules/KDocCollapseRule.kt:101-165 | a reported KDoc of that shape becomes start + new section text + end, on one line, no longer than the limit minus the indent, and a second visit reports nothing |
| Collapse.KDocNode.constructor | src/main/kotlin/com/rickbusarow/ktrules/rules/KDocCollapseRule.kt:94-95 | the node holds the given children |
| Collapse.KDocNode.RemoveChild | src/main/kotlin/com/rickbusarow/ktrules/rules/KDocCollapseRule.kt:129 | `removeChild` drops one child and keeps the others in order |
| Collapse.KDocNode.ClearSection | src/main/kotlin/com/rickbusarow/ktrules/rules/KDocCollapseRule.kt:137 | `removeAllChildren` empties one section and changes nothing else |
| Collapse.KDocNode.AddToSection | src/main/kotlin/com/rickbusarow/ktrules/rules/KDocCollapseRule.kt:145 | `addChild` appends one leaf to one section and changes nothing else |
| Collapse.KDocNode.RemoveLeaf | src/main/kotlin/com/rickbusarow/ktrules/rules/KDocCollapseRule.kt:153 | removing the whitespace leaf before the end |
| Collapse.KDocNode.ReplaceLeaf | src/main/kotlin/com/rickbusarow/ktrules/rules/KDocCollapseRule.kt:163 | replacing the whitespace leaf before the end with a single space |
| Collapse.KDocNode.InsertChild | src/main/kotlin/com/rickbusarow/ktrules/rules/KDocCollapseRule.kt:158 | `upsertWhitespaceBeforeMe` with no whitespace before the end inserts one child before it |
| Collapse.KDocNode.DropBreakAfterStart | src/main/kotlin/com/rickbusarow/ktrules/rules/KDocCollapseRule.kt:124-130 | the second child is removed exactly when it is whitespace |
| Collapse.KDocNode.RewriteFirstSection | src/main/kotlin/com/rickbusarow/ktrules/rules/KDocCollapseRule.kt:132-145 | the default section ends up holding one text leaf with the normalised text |
| Collapse.KDocNode.NormalizeBeforeEnd | src/main/kotlin/com/rickbusarow/ktrules/rules/KDocCollapseRule.kt:147-165 | at most one of the three end edits is made, first match wins |
| Collapse.CollapseRule.constructor | src/main/kotlin/com/rickbusarow/ktrules/rules/KDocCollapseRule.kt:66 | the limit starts at the setting's default |
| Collapse.CollapseRule.BeforeFirstNode | src/main/kotlin/com/rickbusarow/ktrules/rules/KDocCollapseRule.kt:70-75 | the limit becomes the file's configured value |
| Collapse.CollapseRule.CollapseInPlace | src/main/kotlin/com/rickbusarow/ktrules/rules/KDocCollapseRule.kt:115-166 | the three autocorrect edits, in order, leave the node holding the collapsed children |
| Collapse.CollapseRule.BeforeVisitChildNodes | src/main/kotlin/com/rickbusarow/ktrules/rules/KDocCollapseRule.kt:77-167 | exactly one fixable diagnostic at the KDoc's start when it should collapse, otherwise none; children collapsed only with autocorrect on, otherwise unchanged |

## Left out

- Rule-engine plumbing is not modelled: the `Rule` superclass, rule ids, `about` data, `RunAfterRule` ordering metadata and the visitor modifiers. Rules are driven by the model's caller.
- EditorConfig lookup is not modelled. `beforeFirstNode` takes the configured `max_line_length` as an integer. The setting's default value belongs to ktlint and is a constructor argument.
- The `by lazy` caching of `skipAll` is not modelled, because the cached value is read only after `beforeFirstNode`. `SkipAll` is `maxLineLength < 0`, evaluated on demand.
- Collapse.CollapseRule.BeforeVisitChildNodes: the `isKDoc()` guard at KDocCollapseRule.kt:84 is the caller's dispatch. The model's entry point receives a KDoc node.
- The rule's `fileIndent(0)` is not shown in the source and is not assumed to equal `findIndent`. It is the `indent` parameter.
- Helpers imported from `rules.internal` but not shown are modelled only at their interface. These are `getKDocSections`, `getKDocTextWithoutLeadingAsterisks`, `isKDocWhitespaceAfterLeadingAsterisk`, `isKDoc`, `isInKDocTag`, `removeAllChildren` and `removeRegex`.
  - `getKDocSections` gives the section children.
  - `getKDocTextWithoutLeadingAsterisks` drops each leading asterisk and one space after it.
  - `isKDocWhitespaceAfterLeadingAsterisk` tests a whitespace leaf whose preceding leaf is a leading asterisk.
  - Under that reading, the `prevLeaf(true) ?: return` guard at KDocBlankLinesRule.kt:67 can never fail. It is still part of `BlankLines.Classify`.
  - `removeRegex` applies its patterns one after another, in argument order.
- Java regular expressions are modelled only for the trim at KDocCollapseRule.kt:169, and only over single-line text. `$` matching before a final line terminator is not modelled.
- `lines()` is modelled as "the text holds `\n` or `\r`", which is how the rules use it.
  - `Psi.FindIndent` takes the file as its list of lines and counts one character per line terminator, as the code does. A `\r\n` terminator counts two characters in the real file offsets, so CRLF files are not modelled.
- Psi.FindIndent: where the Kotlin `.first()` throws because the offset lies past the file, the model returns `None`.
- The lazy `Sequence`s of `depthFirst`, `getChildrenOfTypeRecursive` and `getAllTags` are modelled as lists, computed in full.
- Reified-type filtering (`filterIsInstance<T>`, `collectDescendantsOfType<KDocTag>`) becomes a set of node kinds. `collectDescendantsOfType` comes from the Kotlin compiler library, which is not part of this model. It is taken as the post-order of a recursive visitor that descends into an element before testing the element itself (`Psi.PostOrder`). Only the order of same-offset tags in `Psi.AllTags` depends on this. Sections are tags, because `KDocSection` extends `KDocTag`.
- `compareBy` with heterogeneous `Comparable<*>` keys and nulls is modelled as integer keys only.
  - The JDK's TimSort behind `sortWith` is modelled as an insertion sort on the array.
  - `Sort.SortedStableUnique` shows that every stable sort by the same comparator returns the same list.
- The blank-lines rule is modelled on one visit of one leaf, within the file's flat leaf sequence. The whole-file walk is not modelled. Neither is the question of whether a second pass finds anything.
- Collapse.LeafBefore: the search stays within the KDoc. This does not lose anything, because the start token always ends it.
- Collapse.KDocNode.RemoveLeaf and Collapse.KDocNode.ReplaceLeaf edit the whitespace leaf in place even when it lies inside a section rather than directly under the KDoc. The library's behaviour for a leaf that is not a direct child of the KDoc is not modelled.
- Collapse.KDocNode.InsertChild models `upsertWhitespaceBeforeMe` only in the branch the rule reaches, where no whitespace precedes the end token.
- Collapse.CollapsedSingleSection states the collapsed text only for the usual shape. That shape is start, at most one whitespace token, one section, at most one whitespace token, end. Other shapes are covered only by the definition of `Collapse.Collapsed` and by `Collapse.NormalizeEndSeparatesEnd`.
- `NoSinceInKDocRuleTest.kt` and the test utilities `util.kt` are not part of this model. They exercise another rule through ktlint's test harness.

## Findings

| source | as written | input that shows it | evidently intended | confidence | as-written member | corrected member |
|---|---|---|---|---|---|---|
| src/main/kotlin/com/rickbusarow/ktrules/rules/KDocCollapseRule.kt:169 | `removeRegex(..., "\\s$")` removes one whitespace character at the end of the section text | any word followed by two spaces, e.g. section text "comment  ", trims to "comment ". At indent 0 the KDoc is then not reported under a limit of 14, although its trimmed one-line form is 14 long. Under 15 it collapses to `/** comment  */`, with two spaces before the end token | all trailing whitespace removed, as the function's name and the one-space layout suggest, giving `/** comment */` | medium, not executed | Collapse.TrimAsWritten, Collapse.TrimAsWrittenKeepsTrailingSpace, Collapse.PaddedWordBudget, Collapse.PaddedWordCollapsed, Collapse.ExamplePaddedBudget | Collapse.TrimPreservingCodeBlockIndent, Collapse.TrimKeepsCodeIndent, Collapse.TrimsAgree |
