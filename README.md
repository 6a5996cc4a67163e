# GB converter hooks, modelled in Dafny

metanorma-gb renders GB (Chinese national standard) documents. Its converter,
`Asciidoctor::Gb::GbConvert`, subclasses a host converter from the isodoc
library and overrides a few hooks. This project models those hooks:

- the list joiner `sentence_join` ("a、 b 和 c");
- the label and caption hooks: `note_label`, `example_label`, `figure_name_parse`,
  `table_title_parse`, and the fixed-word emitters `figure_key`, `formula_where`,
  `deprecated_term_parse` and `termexample_parse`;
- the cross-reference locality phrase `eref_localities`, with its frozen `LOCALITY`
  table;
- the in-place cleanup passes `term_merge`, `terms_cleanup` and `intro_cleanup`,
  plus `figure_get_or_make_dl`;
- the `string` element dispatch, `error_parse` and `string_parse`.

Modules:

- `Html` (html.dfy) is the output tree. An element has a name, an attribute map and
  children; each child is a text node or an element. It also defines Nokogiri's
  `content` and the first-descendant search `at(".//name")`.
- `GbJoin` (join.dfy) is the joiner.
- `GbLabels` (labels.dfy) holds labels, captions and fixed-word emitters.
- `GbLocality` (locality.dfy) is the locality phrase.
- `GbCleanup` (cleanup.dfy) holds the cleanup passes and the figure key list.
- `GbScript` (script.dfy) is the script dispatch.
- `Wrappers` (wrappers.dfy) holds `Option`.

Some state changes in place in the source. A sibling list that the cleanup passes edit
is the class `Siblings`; a figure that gains a key list is the class `Figure`. Their
methods are proved against functions of the old state, and the lemmas state their
properties on those functions. The anchor map (`get_anchors()`) is an input of type
`map<string, Anchor>`. Anything the host converter renders (`parse`, `insert_tab`,
`para_then_remainder`) is passed in as an already-rendered argument.

The model follows the code in these places:

- A locality kind missing from `LOCALITY` gives an empty unit word, not an error (line 103).
- Only `example_label` treats an empty label like a missing anchor. `figure_name_parse`
  and `table_title_parse` have no fallback and need the anchor. `note_label` falls back
  only when the anchor is absent.
- `term_merge` merges disjoint pairs from left to right. It does not collapse runs and
  is not idempotent. `GbCleanup.MergePassIdempotentIff` proves that a second pass
  changes nothing exactly when no three paragraphs of the class stand in a row.
- The joiner's connectors are fixed in the code. The model writes the algorithm over
  two connector parameters (`JoinPhrase`), and `SentenceJoin` supplies the GB
  connectors.
- For the `to` value, `eref_localities` interpolates the `referenceTo` node itself,
  not its text. The model keeps that value as an opaque string.

## Model

| member | source | states |
|---|---|---|
| GbJoin.SentenceJoinShort | lib/asciidoctor/gb/gbconvert.rb:169-172 | nil or an empty list gives ""; a one-element list gives its element unchanged |
| GbJoin.JoinPhraseIsInterleave | lib/asciidoctor/gb/gbconvert.rb:174 | for n ≥ 1 items, the joiner equals the position-wise interleaving: item 0, connector 0, item 1, ...; the connector is `mid` everywhere except `final` before the last item |
| GbJoin.InterleaveAt | lib/asciidoctor/gb/gbconvert.rb:174 | in an interleaving, item i stands whole at its offset, connector i follows it, and the last item ends the string |
| GbJoin.SentenceJoinPositions | lib/asciidoctor/gb/gbconvert.rb:169-176 | for two or more items, each item appears once, in input order, at its offset; "、 " follows every item but the last two, " 和 " follows the second-to-last, and the last item ends the phrase |
| GbJoin.SentenceJoinExamples | lib/asciidoctor/gb/gbconvert.rb:169-176 | ["A","B"] gives "A 和 B"; ["A","B","C"] gives "A、 B 和 C"; with English connectors, "A, B and C" |
| GbLabels.NoteLabelOf | lib/asciidoctor/gb/gbconvert.rb:16-20 | the fallback "注" is chosen iff the id has no anchor; otherwise the label comes from the anchor's label (its text is not modelled) |
| GbLabels.ExampleLabel | lib/asciidoctor/gb/gbconvert.rb:61-65 | the label starts with "示例", and what follows is the anchor's label or nothing; it is exactly "示例" iff the anchor is absent or its label is empty |
| GbLabels.CaptionRoundTrip | lib/asciidoctor/gb/gbconvert.rb:25-26 | a caption starts with its word and label; it is exactly that iff there is no name; a present name reads back whole after "&nbsp;&mdash; " |
| GbLabels.CaptionParaContent | lib/asciidoctor/gb/gbconvert.rb:23-28 | the text of the caption paragraph is the caption text |
| GbLabels.FigureNameParse | lib/asciidoctor/gb/gbconvert.rb:22-29 | needs the figure's anchor; gives a centred FigureTitle paragraph holding one bold run whose text is "图", the label, then the separator and name if a name is present |
| GbLabels.TableTitleParse | lib/asciidoctor/gb/gbconvert.rb:31-39 | the same for tables, with "表" and class TableTitle |
| GbLabels.FigureKey | lib/asciidoctor/gb/gbconvert.rb:41-45 | an attribute-less paragraph holding one bold run reading "说明" |
| GbLabels.FormulaWhere | lib/asciidoctor/gb/gbconvert.rb:47-50 | a paragraph reading "式中", followed by the host's rendering of the key list |
| GbLabels.DeprecatedTermParse | lib/asciidoctor/gb/gbconvert.rb:67-71 | a DeprecatedTerms paragraph whose text is "被取代: " followed by the term's text |
| GbLabels.TermExampleParse | lib/asciidoctor/gb/gbconvert.rb:73-82 | a Note division with one Note paragraph: "示例:", then the host's tab, then the host's body; the text follows the same order |
| GbLocality.Unit | lib/asciidoctor/gb/gbconvert.rb:84-91 | the unit word is non-empty iff the kind is in the table, and then it is the table's word |
| GbLocality.UnitTable | lib/asciidoctor/gb/gbconvert.rb:84-91 | section and clause both give "条"; part, paragraph, chapter and page give 部分, 段, 章 and 页; an unlisted kind gives "" |
| GbLocality.AppendFragment | lib/asciidoctor/gb/gbconvert.rb:96-103 | the loop body appends exactly one locality's fragment to the accumulator |
| GbLocality.ErefLocalities | lib/asciidoctor/gb/gbconvert.rb:93-107 | with every locality typed, the loop returns the fragments of all localities, in input order |
| GbLocality.PhraseAppend | lib/asciidoctor/gb/gbconvert.rb:94-106 | the phrase of two runs of localities is the first run's phrase followed by the second's |
| GbLocality.PhraseSplit | lib/asciidoctor/gb/gbconvert.rb:95-105 | locality i's fragment stands between the phrase of the localities before it and the phrase of those after it |
| GbLocality.WholeIgnoresRange | lib/asciidoctor/gb/gbconvert.rb:96-97 | a "whole" locality contributes exactly ", 全部", whatever its from and to |
| GbLocality.FragmentEmpty | lib/asciidoctor/gb/gbconvert.rb:99-103 | a fragment is empty iff the kind is not "whole", there is no from and no to, and the kind has no unit word |
| GbLocality.PhraseEmpty | lib/asciidoctor/gb/gbconvert.rb:93-107 | the phrase is empty iff every locality's fragment is |
| GbLocality.PhraseExample | lib/asciidoctor/gb/gbconvert.rb:93-107 | clause from "3" to a referenceTo element, then whole, gives ", 第3&ndash;", the serialised element, then "条, 全部" (the `to` value is the element as `"#{refTo}"` serialises it, not its text) |
| GbLocality.PhraseUnknownKindExample | lib/asciidoctor/gb/gbconvert.rb:98-103 | a kind missing from the table, with only a to, gives "&ndash;" and the serialised element, with no unit word |
| GbCleanup.Merge | lib/asciidoctor/gb/gbconvert.rb:147-148 | the merged paragraph keeps the first's name and attributes and has one more child than the two together |
| GbCleanup.MergeContent | lib/asciidoctor/gb/gbconvert.rb:147-148 | the merged paragraph's text is the first's text, a space, then the second's text |
| GbCleanup.MergePass | lib/asciidoctor/gb/gbconvert.rb:143-151 | a pass never lengthens the list, and it keeps the first element's name and attributes |
| GbCleanup.MergePassUnchangedIff | lib/asciidoctor/gb/gbconvert.rb:144-146 | a pass changes the list iff two paragraphs of the class are neighbours |
| GbCleanup.PairsAfterPass | lib/asciidoctor/gb/gbconvert.rb:144-150 | after one pass, two neighbouring paragraphs of the class remain iff the input had three in a row |
| GbCleanup.MergePassIdempotentIff | lib/asciidoctor/gb/gbconvert.rb:143-151 | a second pass changes nothing iff the input had no run of three paragraphs of the class |
| GbCleanup.RunOfThree | lib/asciidoctor/gb/gbconvert.rb:144-150 | three same-class paragraphs become two (first+second, third); a second pass merges those two |
| GbCleanup.MergePassKeepsText | lib/asciidoctor/gb/gbconvert.rb:147-148 | listing every element's children, each list after one space, gives the same sequence before and after a pass: no child is lost, duplicated or reordered |
| GbCleanup.MergePassKeepsOthers | lib/asciidoctor/gb/gbconvert.rb:146 | the elements that are not paragraphs of the class come out unchanged and in the same order |
| GbCleanup.MergePassesCommute | lib/asciidoctor/gb/gbconvert.rb:153-158 | passes for two different classes give the same result in either order |
| GbCleanup.DeprecatedTermsJoin | lib/asciidoctor/gb/gbconvert.rb:67-71 | two deprecated-term paragraphs in a row become one paragraph reading "被取代: x 被取代: y" |
| GbCleanup.MergeStep | lib/asciidoctor/gb/gbconvert.rb:145-149 | merging the pair at i keeps this equal to one pass over the whole list: the finished prefix, then a pass over the rest |
| GbCleanup.SkipStep | lib/asciidoctor/gb/gbconvert.rb:145 | stepping past an element that starts no pair keeps the same equality |
| GbCleanup.Siblings.TermMerge | lib/asciidoctor/gb/gbconvert.rb:143-151 | the list after the loop is one pass over the old list |
| GbCleanup.Siblings.TermsCleanup | lib/asciidoctor/gb/gbconvert.rb:153-158 | the list after the method is the Terms, AltTerms and DeprecatedTerms passes applied in that order |
| GbCleanup.IntroFix | lib/asciidoctor/gb/gbconvert.rb:162-165 | an h1 of class IntroTitle whose text is exactly "引言" gains the tab span at its end; any other element is unchanged |
| GbCleanup.IntroCleanupOf | lib/asciidoctor/gb/gbconvert.rb:160-167 | the length is kept and each element is fixed independently |
| GbCleanup.IntroFixContent | lib/asciidoctor/gb/gbconvert.rb:163-164 | a fixed heading reads "引言" followed by the tab text, so it no longer matches |
| GbCleanup.IntroCleanupIdempotent | lib/asciidoctor/gb/gbconvert.rb:160-167 | a second intro cleanup adds nothing |
| GbCleanup.Siblings.IntroCleanup | lib/asciidoctor/gb/gbconvert.rb:160-167 | the list after the loop is the intro cleanup of the old list |
| GbCleanup.Siblings.Cleanup | lib/asciidoctor/gb/gbconvert.rb:137-141 | after the host's cleanup: intro cleanup, then terms cleanup |
| GbCleanup.KeyAndDlFindsDl | lib/asciidoctor/gb/gbconvert.rb:55-56 | in the appended key paragraph and list, the first dl is the new empty list |
| GbCleanup.WithDl | lib/asciidoctor/gb/gbconvert.rb:52-59 | afterwards a dl exists; an existing one leaves the figure unchanged; otherwise the key paragraph and an empty dl are appended, and that dl is the one found |
| GbCleanup.WithDlIdempotent | lib/asciidoctor/gb/gbconvert.rb:52-59 | asking twice adds one list only, and the list returned is the existing dl or the new one |
| GbCleanup.FigureGetOrMakeDl | lib/asciidoctor/gb/gbconvert.rb:52-59 | the figure's children become `WithDl` of the old ones, and the method returns the figure's first dl |
| Html.FindNamed | lib/asciidoctor/gb/gbconvert.rb:53 | the search returns an element with the name, drawn from the list, and every element before it has another name, so it is the first match in document order; it finds nothing iff no element has the name |
| Html.AtAppend | lib/asciidoctor/gb/gbconvert.rb:53-56 | after appending children, a match among the old children still comes first |
| GbScript.StringParse | lib/asciidoctor/gb/gbconvert.rb:118-126 | the output differs from the rendered children iff the script is Hant, and then it is one Hant span around them; the text is unchanged either way |
| GbScript.ErrorParse | lib/asciidoctor/gb/gbconvert.rb:109-116 | only `string` elements are handled locally, with the text preserved and the Hant span exactly when the script is Hant; every other element goes to the host |

## Left out

- GbLabels.NoteLabelOf: for a note with an anchor, the source builds the label text on line 19, but that line is garbled. The model records only that this branch uses the anchor's label, not the exact text.
- `generate_header` and `fileloc` (lines 128-135) are left out. They copy a placeholder image with a shell command and join file-system paths, which is I/O.
- `initialize` (lines 12-14) is left out because it only calls the host.
- The host's share of `cleanup` and `error_parse` is left out, because it lives in isodoc. So are `parse`, `insert_tab`, `para_then_remainder`, `ns`, `convert_file`, and how `get_anchors()` is filled. Their results are parameters instead: the anchor map, the rendered children, the tab and the body.
- The Nokogiri builder, markup parsing and XPath are abstracted:
  - The output is a tree of element and text values.
  - Each `<<` of a string becomes one text node.
  - Entity references (`&nbsp;`, `&mdash;`, `&ndash;`, `&#xA0;`) stay literal text.
- The cleanup passes work on one sibling list: the element children of one parent.
  - Text nodes between siblings are not modelled. The source skips them with `next_element` and leaves them in place.
  - The source searches the whole document; the model covers one list of siblings.
  - No paragraph of a term class is assumed to be nested inside another.
- In the source, a locality without a `type` raises while its phrase is being built. The model makes that a precondition (`Typed`).
- The end-to-end rendering test (spec/asciidoctor/gbconvert_spec.rb) is left out. Its links, bibliography numbering and footnotes come from the host converter.
- FigureGetOrMakeDl: the source returns the live `dl` node inside the figure, and its callers then fill it in place. The model returns the list as a value, so later changes made through it do not reach the figure; that sharing is not modelled.
- The test helper `strip_guid` (spec/spec_helper.rb) is not part of this model.
