/**
 * The label and caption hooks of the GB converter. Each looks a node id up
 * in the anchor map (the labels an earlier cross-reference pass assigned)
 * and builds localised text, or emits a paragraph with fixed Chinese words.
 */
module GbLabels {
  import opened Wrappers
  import opened Html

  /** What the cross-reference pass assigned to a node: its number or label. */
  datatype Anchor = Anchor(labelText: string)

  /** `get_anchors()`: node id to anchor, as filled in by the host converter. */
  type Anchors = map<string, Anchor>

  const NoteWord: string := "注"
  const ExampleWord: string := "示例"
  const FigureWord: string := "图"
  const TableWord: string := "表"
  const KeyWord: string := "说明"
  const WhereWord: string := "式中"
  const DeprecatedPrefix: string := "被取代: "
  const TermExamplePrefix: string := "示例:"
  /** Stands between a caption's number and its name; the entities are kept as written. */
  const CaptionSeparator: string := "&nbsp;&mdash; "

  /** A note's label: the fixed word when the note has no anchor, or one built from the anchor's label. */
  datatype NoteLabel = Default(text: string) | FromAnchor(labelText: string)

  /** `note_label`: only the fallback's text is modelled; see README for the anchored branch. */
  function NoteLabelOf(anchors: Anchors, id: string): (r: NoteLabel)
    ensures r.Default? <==> id !in anchors
    ensures r.Default? ==> r.text == NoteWord
    ensures r.FromAnchor? ==> r.labelText == anchors[id].labelText
  {
    if id !in anchors then Default(NoteWord) else FromAnchor(anchors[id].labelText)
  }

  /**
   * `example_label`: "示例" followed by the anchor's label. An absent anchor
   * and an empty label both give the bare word, so what follows the word is
   * exactly the label, or nothing.
   */
  function ExampleLabel(anchors: Anchors, id: string): (r: string)
    ensures |ExampleWord| <= |r| && r[..|ExampleWord|] == ExampleWord
    ensures r[|ExampleWord|..] == if id in anchors then anchors[id].labelText else ""
    ensures r == ExampleWord <==> id !in anchors || anchors[id].labelText == ""
  {
    if id !in anchors || anchors[id].labelText == "" then ExampleWord
    else ExampleWord + anchors[id].labelText
  }

  // ---------------------------------------------------------------------
  // Figure and table captions

  /** The caption text: the word, the label, and the name after the separator when there is one. */
  function CaptionText(word: string, lbl: string, name: Option<string>): string
  {
    word + lbl + if name.Some? then CaptionSeparator + name.value else ""
  }

  /** Reads the name back from a caption whose leading `head` (word and label) is known. */
  function CaptionName(text: string, head: string): Option<string>
  {
    if |text| < |head| + |CaptionSeparator| then None
    else Some(text[|head| + |CaptionSeparator|..])
  }

  /** A caption paragraph: `<p class=cls align=center><b>word+label[separator+name]</b></p>`. */
  function CaptionPara(cls: string, word: string, lbl: string, name: Option<string>): Elem
  {
    var runs := [Text(word + lbl)] + if name.Some? then [Text(CaptionSeparator + name.value)] else [];
    Elem("p", map["class" := cls, "align" := "center"], [Child(Plain("b", runs))])
  }

  lemma CaptionParaContent(cls: string, word: string, lbl: string, name: Option<string>)
    ensures Content(CaptionPara(cls, word, lbl, name)) == CaptionText(word, lbl, name)
  {
    var p := CaptionPara(cls, word, lbl, name);
    var b := p.children[0].elem;
    ContentAllSingle(p.children[0]);
    if name.Some? {
      ContentAllCons(b.children[0], b.children[1..]);
      ContentAllSingle(b.children[1]);
    } else {
      assert b.children == [Text(word + lbl)];
      ContentAllSingle(b.children[0]);
    }
  }

  /**
   * The caption starts with the word and the label; without a name it is
   * exactly that, and with one the name reads back whole after the separator.
   */
  lemma CaptionRoundTrip(word: string, lbl: string, name: Option<string>)
    ensures var t := CaptionText(word, lbl, name);
      |word + lbl| <= |t| && t[..|word + lbl|] == word + lbl &&
      (name.None? <==> t == word + lbl) &&
      CaptionName(t, word + lbl) == name
  {
    var t := CaptionText(word, lbl, name);
    if name.Some? {
      assert t == (word + lbl) + CaptionSeparator + name.value;
      assert t[|word + lbl| + |CaptionSeparator|..] == name.value;
    }
  }

  /** `figure_name_parse`: the id must have an anchor, since the source has no fallback here. */
  function FigureNameParse(anchors: Anchors, id: string, name: Option<string>): (p: Elem)
    requires id in anchors
    ensures p.name == "p" && Attr(p, "class") == Some("FigureTitle") && Attr(p, "align") == Some("center")
    ensures |p.children| == 1 && p.children[0].Child? && p.children[0].elem.name == "b"
    ensures Content(p) == CaptionText(FigureWord, anchors[id].labelText, name)
  {
    CaptionParaContent("FigureTitle", FigureWord, anchors[id].labelText, name);
    CaptionPara("FigureTitle", FigureWord, anchors[id].labelText, name)
  }

  /** `table_title_parse`: as for figures, with the word "表" and class TableTitle. */
  function TableTitleParse(anchors: Anchors, id: string, name: Option<string>): (p: Elem)
    requires id in anchors
    ensures p.name == "p" && Attr(p, "class") == Some("TableTitle") && Attr(p, "align") == Some("center")
    ensures |p.children| == 1 && p.children[0].Child? && p.children[0].elem.name == "b"
    ensures Content(p) == CaptionText(TableWord, anchors[id].labelText, name)
  {
    CaptionParaContent("TableTitle", TableWord, anchors[id].labelText, name);
    CaptionPara("TableTitle", TableWord, anchors[id].labelText, name)
  }

  // ---------------------------------------------------------------------
  // Hooks that emit fixed words

  /** `figure_key`: an unstyled paragraph holding the bold word "说明". */
  function FigureKey(): (p: Elem)
    ensures p.name == "p" && p.attrs == map[] && Content(p) == KeyWord
    ensures |p.children| == 1 && p.children[0].Child? && p.children[0].elem.name == "b"
  {
    ContentAllSingle(Text(KeyWord));
    ContentAllSingle(Child(Plain("b", [Text(KeyWord)])));
    Plain("p", [Child(Plain("b", [Text(KeyWord)]))])
  }

  /** `formula_where`: the paragraph "式中", then the key list as the host converter renders it. */
  function FormulaWhere(renderedDl: seq<Elem>): (out: seq<Elem>)
    ensures |out| == |renderedDl| + 1
    ensures out[0].name == "p" && out[0].attrs == map[] && Content(out[0]) == WhereWord
    ensures out[1..] == renderedDl
  {
    ContentAllSingle(Text(WhereWord));
    [Plain("p", [Text(WhereWord)])] + renderedDl
  }

  /** `deprecated_term_parse`: a DeprecatedTerms paragraph reading "被取代: " and the term's text. */
  function DeprecatedTermParse(text: string): (p: Elem)
    ensures p.name == "p" && Attr(p, "class") == Some("DeprecatedTerms")
    ensures Content(p) == DeprecatedPrefix + text
  {
    ContentAllSingle(Text(DeprecatedPrefix + text));
    Elem("p", map["class" := "DeprecatedTerms"], [Text(DeprecatedPrefix + text)])
  }

  /**
   * `termexample_parse`: a Note division holding one Note paragraph that
   * starts with "示例:", then the tab and the body the host converter
   * renders (`insert_tab` and `para_then_remainder`).
   */
  function TermExampleParse(tab: seq<Inline>, body: seq<Inline>): (d: Elem)
    ensures d.name == "div" && Attr(d, "class") == Some("Note") && |d.children| == 1
    ensures d.children[0].Child? && d.children[0].elem.name == "p"
    ensures Attr(d.children[0].elem, "class") == Some("Note")
    ensures d.children[0].elem.children == [Text(TermExamplePrefix)] + tab + body
    ensures Content(d) == TermExamplePrefix + ContentAll(tab) + ContentAll(body)
  {
    var p := Elem("p", map["class" := "Note"], [Text(TermExamplePrefix)] + tab + body);
    ContentAllAppend([Text(TermExamplePrefix)] + tab, body);
    ContentAllAppend([Text(TermExamplePrefix)], tab);
    ContentAllSingle(Text(TermExamplePrefix));
    ContentAllSingle(Child(p));
    Elem("div", map["class" := "Note"], [Child(p)])
  }
}
