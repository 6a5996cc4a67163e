/**
 * The cleanup passes the GB converter runs over its HTML output, and the
 * figure-key list it creates on demand. The passes edit a list of sibling
 * elements in place, so they are methods of `Siblings`, each proved
 * against a function of the old list; the properties are lemmas about
 * those functions.
 */
module GbCleanup {
  import opened Wrappers
  import opened Html
  import GbLabels

  // ---------------------------------------------------------------------
  // term_merge

  /** Matches `p[@class = cls]`. */
  predicate IsTermPara(e: Elem, cls: string)
  {
    e.name == "p" && Attr(e, "class") == Some(cls)
  }

  /** The first paragraph gains a space and then all of the second's children. */
  function Merge(a: Elem, b: Elem): (m: Elem)
    ensures m.name == a.name && m.attrs == a.attrs
    ensures |m.children| == |a.children| + 1 + |b.children|
  {
    a.(children := a.children + [Text(" ")] + b.children)
  }

  /** The merged paragraph reads as the first, a space, then the second. */
  lemma MergeContent(a: Elem, b: Elem)
    ensures Content(Merge(a, b)) == Content(a) + " " + Content(b)
  {
    ContentAllAppend(a.children + [Text(" ")], b.children);
    ContentAllAppend(a.children, [Text(" ")]);
    ContentAllSingle(Text(" "));
  }

  /**
   * One `term_merge` pass over a sibling list. The source iterates over the
   * matching paragraphs found before any change; a paragraph merged into its
   * predecessor has been removed and has no next element, so it is skipped.
   * Pairs are therefore merged left to right and never overlap.
   */
  function MergePass(s: seq<Elem>, cls: string): (r: seq<Elem>)
    ensures |r| <= |s|
    ensures |s| > 0 ==> |r| > 0 && r[0].name == s[0].name && r[0].attrs == s[0].attrs
    decreases |s|
  {
    if |s| < 2 then s
    else if IsTermPara(s[0], cls) && IsTermPara(s[1], cls) then [Merge(s[0], s[1])] + MergePass(s[2..], cls)
    else [s[0]] + MergePass(s[1..], cls)
  }

  lemma MergePassCons(a: Elem, xs: seq<Elem>, cls: string)
    requires !(IsTermPara(a, cls) && |xs| > 0 && IsTermPara(xs[0], cls))
    ensures MergePass([a] + xs, cls) == [a] + MergePass(xs, cls)
  {
    assert ([a] + xs)[1..] == xs;
  }

  lemma MergePassPair(a: Elem, b: Elem, xs: seq<Elem>, cls: string)
    requires IsTermPara(a, cls) && IsTermPara(b, cls)
    ensures MergePass([a, b] + xs, cls) == [Merge(a, b)] + MergePass(xs, cls)
  {
    assert ([a, b] + xs)[2..] == xs;
  }

  /** Two neighbouring paragraphs of class `cls`. */
  ghost predicate HasAdjacentPair(s: seq<Elem>, cls: string)
  {
    exists i :: 0 <= i < |s| - 1 && IsTermPara(s[i], cls) && IsTermPara(s[i + 1], cls)
  }

  /** Three neighbouring paragraphs of class `cls`. */
  ghost predicate HasRunOfThree(s: seq<Elem>, cls: string)
  {
    exists i :: 0 <= i < |s| - 2 && IsTermPara(s[i], cls) && IsTermPara(s[i + 1], cls) && IsTermPara(s[i + 2], cls)
  }

  lemma AdjacentPairCons(a: Elem, xs: seq<Elem>, cls: string)
    ensures HasAdjacentPair([a] + xs, cls) <==>
      (|xs| > 0 && IsTermPara(a, cls) && IsTermPara(xs[0], cls)) || HasAdjacentPair(xs, cls)
  {
    var s := [a] + xs;
    if HasAdjacentPair(s, cls) {
      var i :| 0 <= i < |s| - 1 && IsTermPara(s[i], cls) && IsTermPara(s[i + 1], cls);
      if i > 0 {
        assert IsTermPara(xs[i - 1], cls) && IsTermPara(xs[i], cls);
      }
    }
    if HasAdjacentPair(xs, cls) {
      var i :| 0 <= i < |xs| - 1 && IsTermPara(xs[i], cls) && IsTermPara(xs[i + 1], cls);
      assert s[i + 1] == xs[i] && s[i + 2] == xs[i + 1];
    }
    if |xs| > 0 && IsTermPara(a, cls) && IsTermPara(xs[0], cls) {
      assert s[0] == a && s[1] == xs[0];
    }
  }

  lemma RunOfThreeConsOnly(s: seq<Elem>, cls: string)
    requires |s| > 0 && HasRunOfThree(s, cls)
    ensures (|s| > 2 && IsTermPara(s[0], cls) && IsTermPara(s[1], cls) && IsTermPara(s[2], cls))
      || HasRunOfThree(s[1..], cls)
  {
    var i :| 0 <= i < |s| - 2 && IsTermPara(s[i], cls) && IsTermPara(s[i + 1], cls) && IsTermPara(s[i + 2], cls);
    if i > 0 {
      var t := s[1..];
      assert t[i - 1] == s[i] && t[i] == s[i + 1] && t[i + 1] == s[i + 2];
    }
  }

  lemma RunOfThreeConsIf(s: seq<Elem>, cls: string)
    requires |s| > 0 && HasRunOfThree(s[1..], cls)
    ensures HasRunOfThree(s, cls)
  {
    var t := s[1..];
    var i :| 0 <= i < |t| - 2 && IsTermPara(t[i], cls) && IsTermPara(t[i + 1], cls) && IsTermPara(t[i + 2], cls);
    assert s[i + 1] == t[i] && s[i + 2] == t[i + 1] && s[i + 3] == t[i + 2];
  }

  lemma RunOfThreeCons(s: seq<Elem>, cls: string)
    requires |s| > 0
    ensures HasRunOfThree(s, cls) <==>
      (|s| > 2 && IsTermPara(s[0], cls) && IsTermPara(s[1], cls) && IsTermPara(s[2], cls))
      || HasRunOfThree(s[1..], cls)
  {
    if HasRunOfThree(s, cls) {
      RunOfThreeConsOnly(s, cls);
    }
    if HasRunOfThree(s[1..], cls) {
      RunOfThreeConsIf(s, cls);
    }
    if |s| > 2 && IsTermPara(s[0], cls) && IsTermPara(s[1], cls) && IsTermPara(s[2], cls) {
      assert 0 < |s| - 2 && IsTermPara(s[0], cls) && IsTermPara(s[0 + 1], cls) && IsTermPara(s[0 + 2], cls);
    }
  }

  /** A pass changes the list exactly when two paragraphs of the class are neighbours. */
  lemma {:induction false} MergePassUnchangedIff(s: seq<Elem>, cls: string)
    ensures MergePass(s, cls) == s <==> !HasAdjacentPair(s, cls)
    decreases |s|
  {
    if |s| < 2 {
    } else if IsTermPara(s[0], cls) && IsTermPara(s[1], cls) {
      assert |MergePass(s, cls)| < |s|;
      assert HasAdjacentPair(s, cls) by {
        assert 0 < |s| - 1 && IsTermPara(s[0], cls) && IsTermPara(s[0 + 1], cls);
      }
    } else {
      MergePassUnchangedIff(s[1..], cls);
      AdjacentPairCons(s[0], s[1..], cls);
      assert [s[0]] + s[1..] == s;
      if MergePass(s, cls) == s {
        assert MergePass(s[1..], cls) == MergePass(s, cls)[1..];
      }
    }
  }

  /** After one pass, neighbouring paragraphs of the class remain exactly where the input had three in a row. */
  lemma {:induction false} PairsAfterPass(s: seq<Elem>, cls: string)
    ensures HasAdjacentPair(MergePass(s, cls), cls) <==> HasRunOfThree(s, cls)
    decreases |s|
  {
    if |s| < 2 {
    } else if IsTermPara(s[0], cls) && IsTermPara(s[1], cls) {
      var rest := s[2..];
      var y := MergePass(rest, cls);
      PairsAfterPass(rest, cls);
      AdjacentPairCons(Merge(s[0], s[1]), y, cls);
      RunOfThreeCons(s, cls);
      RunOfThreeCons(s[1..], cls);
      assert s[1..][1..] == rest;
    } else {
      var y := MergePass(s[1..], cls);
      PairsAfterPass(s[1..], cls);
      AdjacentPairCons(s[0], y, cls);
      RunOfThreeCons(s, cls);
    }
  }

  /**
   * A second pass changes nothing exactly when the input had no three
   * paragraphs of the class in a row: the pass is not idempotent in general.
   */
  lemma MergePassIdempotentIff(s: seq<Elem>, cls: string)
    ensures MergePass(MergePass(s, cls), cls) == MergePass(s, cls) <==> !HasRunOfThree(s, cls)
  {
    MergePassUnchangedIff(MergePass(s, cls), cls);
    PairsAfterPass(s, cls);
  }

  /** A run of three ends as two paragraphs; a second pass would merge those. */
  lemma RunOfThree(a: Elem, b: Elem, c: Elem, cls: string)
    requires IsTermPara(a, cls) && IsTermPara(b, cls) && IsTermPara(c, cls)
    ensures MergePass([a, b, c], cls) == [Merge(a, b), c]
    ensures MergePass(MergePass([a, b, c], cls), cls) == [Merge(Merge(a, b), c)]
  {
    MergePassPair(a, b, [c], cls);
    assert [a, b] + [c] == [a, b, c];
    MergePassPair(Merge(a, b), c, [], cls);
    assert [Merge(a, b), c] + [] == [Merge(a, b), c];
  }

  /** The children of all elements, each element's preceded by one space: the reading order of the text. */
  function SpacedChildren(s: seq<Elem>): seq<Inline>
  {
    if s == [] then [] else [Text(" ")] + s[0].children + SpacedChildren(s[1..])
  }

  lemma SpacedChildrenCons(e: Elem, xs: seq<Elem>)
    ensures SpacedChildren([e] + xs) == [Text(" ")] + e.children + SpacedChildren(xs)
  {
    assert ([e] + xs)[1..] == xs;
  }

  lemma SpacedChildrenPair(a: Elem, b: Elem, rest: seq<Elem>)
    ensures SpacedChildren([a, b] + rest) == SpacedChildren([Merge(a, b)] + rest)
  {
    SpacedChildrenCons(Merge(a, b), rest);
    assert [a, b] + rest == [a] + ([b] + rest);
    SpacedChildrenCons(a, [b] + rest);
    SpacedChildrenCons(b, rest);
  }

  /** Nothing is lost, duplicated or reordered: merging only turns an element boundary into the space it stood for. */
  lemma {:induction false} MergePassKeepsText(s: seq<Elem>, cls: string)
    ensures SpacedChildren(MergePass(s, cls)) == SpacedChildren(s)
    decreases |s|
  {
    if |s| < 2 {
    } else if IsTermPara(s[0], cls) && IsTermPara(s[1], cls) {
      var rest := s[2..];
      MergePassKeepsText(rest, cls);
      SpacedChildrenCons(Merge(s[0], s[1]), MergePass(rest, cls));
      SpacedChildrenCons(Merge(s[0], s[1]), rest);
      assert s == [s[0], s[1]] + rest;
      SpacedChildrenPair(s[0], s[1], rest);
    } else {
      MergePassKeepsText(s[1..], cls);
      SpacedChildrenCons(s[0], MergePass(s[1..], cls));
      assert s == [s[0]] + s[1..];
      SpacedChildrenCons(s[0], s[1..]);
    }
  }

  /** The elements that are not paragraphs of the class, in order. */
  function Others(s: seq<Elem>, cls: string): seq<Elem>
  {
    if s == [] then [] else (if IsTermPara(s[0], cls) then [] else [s[0]]) + Others(s[1..], cls)
  }

  lemma OthersCons(e: Elem, xs: seq<Elem>, cls: string)
    ensures Others([e] + xs, cls) == (if IsTermPara(e, cls) then [] else [e]) + Others(xs, cls)
  {
    assert ([e] + xs)[1..] == xs;
  }

  /** Elements of other names or classes are neither changed, dropped nor moved relative to each other. */
  lemma {:induction false} MergePassKeepsOthers(s: seq<Elem>, cls: string)
    ensures Others(MergePass(s, cls), cls) == Others(s, cls)
    decreases |s|
  {
    if |s| < 2 {
    } else if IsTermPara(s[0], cls) && IsTermPara(s[1], cls) {
      MergePassKeepsOthers(s[2..], cls);
      OthersCons(Merge(s[0], s[1]), MergePass(s[2..], cls), cls);
      assert s == [s[0]] + ([s[1]] + s[2..]);
      OthersCons(s[0], [s[1]] + s[2..], cls);
      OthersCons(s[1], s[2..], cls);
    } else {
      MergePassKeepsOthers(s[1..], cls);
      OthersCons(s[0], MergePass(s[1..], cls), cls);
      assert s == [s[0]] + s[1..];
      OthersCons(s[0], s[1..], cls);
    }
  }

  /** A pair of class k merged by the k pass is left alone by a pass for another class. */
  lemma PairThenOther(a: Elem, b: Elem, rest: seq<Elem>, k: string, k': string)
    requires k != k' && IsTermPara(a, k) && IsTermPara(b, k)
    ensures MergePass(MergePass([a, b] + rest, k), k') == [Merge(a, b)] + MergePass(MergePass(rest, k), k')
  {
    assert !IsTermPara(Merge(a, b), k');
    MergePassPair(a, b, rest, k);
    MergePassCons(Merge(a, b), MergePass(rest, k), k');
  }

  /** A pass for another class leaves a pair of class k in place, for the k pass to merge. */
  lemma OtherThenPair(a: Elem, b: Elem, rest: seq<Elem>, k: string, k': string)
    requires k != k' && IsTermPara(a, k) && IsTermPara(b, k)
    ensures MergePass(MergePass([a, b] + rest, k'), k) == [Merge(a, b)] + MergePass(MergePass(rest, k'), k)
  {
    assert !IsTermPara(a, k') && !IsTermPara(b, k');
    MergePassCons(b, rest, k');
    assert [a, b] + rest == [a] + ([b] + rest);
    MergePassCons(a, [b] + rest, k');
    assert [a] + ([b] + MergePass(rest, k')) == [a, b] + MergePass(rest, k');
    MergePassPair(a, b, MergePass(rest, k'), k);
  }

  /** A pair of class k, followed by any list: the two passes agree if they agree on the rest. */
  lemma CommutePair(a: Elem, b: Elem, rest: seq<Elem>, k: string, k': string)
    requires k != k' && IsTermPara(a, k) && IsTermPara(b, k)
    requires MergePass(MergePass(rest, k), k') == MergePass(MergePass(rest, k'), k)
    ensures MergePass(MergePass([a, b] + rest, k), k') == MergePass(MergePass([a, b] + rest, k'), k)
  {
    PairThenOther(a, b, rest, k, k');
    OtherThenPair(a, b, rest, k, k');
  }

  /** Passes for two different classes do not interact: they can run in either order. */
  lemma {:induction false} MergePassesCommute(s: seq<Elem>, k: string, k': string)
    requires k != k'
    ensures MergePass(MergePass(s, k), k') == MergePass(MergePass(s, k'), k)
    decreases |s|
  {
    if |s| < 2 {
    } else if IsTermPara(s[0], k) && IsTermPara(s[1], k) {
      MergePassesCommute(s[2..], k, k');
      assert s == [s[0], s[1]] + s[2..];
      CommutePair(s[0], s[1], s[2..], k, k');
    } else if IsTermPara(s[0], k') && IsTermPara(s[1], k') {
      MergePassesCommute(s[2..], k', k);
      assert s == [s[0], s[1]] + s[2..];
      CommutePair(s[0], s[1], s[2..], k', k);
    } else {
      MergePassesCommute(s[1..], k, k');
      assert s == [s[0]] + s[1..];
      MergePassCons(s[0], s[1..], k);
      MergePassCons(s[0], s[1..], k');
      MergePassCons(s[0], MergePass(s[1..], k), k');
      MergePassCons(s[0], MergePass(s[1..], k'), k);
    }
  }

  /** `terms_cleanup`: one pass for each of the three term classes. */
  function TermsCleanupOf(s: seq<Elem>): seq<Elem>
  {
    MergePass(MergePass(MergePass(s, "Terms"), "AltTerms"), "DeprecatedTerms")
  }

  /** Two deprecated terms emitted one after the other end as one paragraph. */
  lemma DeprecatedTermsJoin(x: string, y: string)
    ensures var r := MergePass([GbLabels.DeprecatedTermParse(x), GbLabels.DeprecatedTermParse(y)], "DeprecatedTerms");
      |r| == 1 && IsTermPara(r[0], "DeprecatedTerms") &&
      Content(r[0]) == GbLabels.DeprecatedPrefix + x + " " + GbLabels.DeprecatedPrefix + y
  {
    var a, b := GbLabels.DeprecatedTermParse(x), GbLabels.DeprecatedTermParse(y);
    MergePassPair(a, b, [], "DeprecatedTerms");
    assert [a, b] + [] == [a, b];
    MergeContent(a, b);
  }

  // ---------------------------------------------------------------------
  // intro_cleanup

  const IntroHeading: string := "引言"

  /** The tab span appended to the introduction heading so that the table of contents lines up. */
  function IntroTab(): Elem
  {
    Elem("span", map["style" := "mso-tab-count:1"], [Text("&#xA0; ")])
  }

  /** Matches `h1[@class = 'IntroTitle']` whose text is exactly "引言". */
  predicate IsIntroTitle(e: Elem)
  {
    e.name == "h1" && Attr(e, "class") == Some("IntroTitle") && Content(e) == IntroHeading
  }

  /** An introduction heading gains the tab span at its end; every other element is untouched. */
  function IntroFix(e: Elem): (r: Elem)
    ensures r.name == e.name && r.attrs == e.attrs
    ensures IsIntroTitle(e) ==> r.children == e.children + [Child(IntroTab())]
    ensures !IsIntroTitle(e) ==> r == e
  {
    if IsIntroTitle(e) then e.(children := e.children + [Child(IntroTab())]) else e
  }

  /** `intro_cleanup` over a list of elements. */
  function IntroCleanupOf(s: seq<Elem>): (r: seq<Elem>)
    ensures |r| == |s|
    ensures forall i :: 0 <= i < |s| ==> r[i] == IntroFix(s[i])
  {
    seq(|s|, i requires 0 <= i < |s| => IntroFix(s[i]))
  }

  /** A fixed heading reads "引言" followed by the tab's text, so it no longer matches. */
  lemma IntroFixContent(e: Elem)
    requires IsIntroTitle(e)
    ensures Content(IntroFix(e)) == IntroHeading + "&#xA0; "
    ensures !IsIntroTitle(IntroFix(e))
  {
    ContentAllAppend(e.children, [Child(IntroTab())]);
    ContentAllSingle(Child(IntroTab()));
    ContentAllSingle(Text("&#xA0; "));
  }

  /** Re-running `intro_cleanup` adds nothing. */
  lemma IntroCleanupIdempotent(s: seq<Elem>)
    ensures IntroCleanupOf(IntroCleanupOf(s)) == IntroCleanupOf(s)
  {
    forall i | 0 <= i < |s|
      ensures IntroFix(IntroFix(s[i])) == IntroFix(s[i])
    {
      if IsIntroTitle(s[i]) {
        IntroFixContent(s[i]);
      }
    }
  }

  // ---------------------------------------------------------------------
  // The sibling list the passes edit in place

  /** Merging the pair at i keeps "done prefix, then a pass over the rest" equal to one pass over the list. */
  lemma MergeStep(s: seq<Elem>, i: nat, cls: string)
    requires i + 1 < |s| && IsTermPara(s[i], cls) && IsTermPara(s[i + 1], cls)
    ensures var s' := s[..i] + [Merge(s[i], s[i + 1])] + s[i + 2..];
      s'[..i + 1] + MergePass(s'[i + 1..], cls) == s[..i] + MergePass(s[i..], cls)
  {
    var s' := s[..i] + [Merge(s[i], s[i + 1])] + s[i + 2..];
    assert s[i..] == [s[i], s[i + 1]] + s[i + 2..];
    MergePassPair(s[i], s[i + 1], s[i + 2..], cls);
    assert s'[..i + 1] == s[..i] + [Merge(s[i], s[i + 1])];
    assert s'[i + 1..] == s[i + 2..];
  }

  /** Passing over an element that starts no pair moves it into the done prefix. */
  lemma SkipStep(s: seq<Elem>, i: nat, cls: string)
    requires i < |s| && !(IsTermPara(s[i], cls) && i + 1 < |s| && IsTermPara(s[i + 1], cls))
    ensures s[..i + 1] + MergePass(s[i + 1..], cls) == s[..i] + MergePass(s[i..], cls)
  {
    assert s[i..] == [s[i]] + s[i + 1..];
    MergePassCons(s[i], s[i + 1..], cls);
    assert s[..i + 1] == s[..i] + [s[i]];
  }

  class Siblings {
    var elems: seq<Elem>

    constructor (elems: seq<Elem>)
      ensures this.elems == elems
    {
      this.elems := elems;
    }

    /** `term_merge(docxml, cls)`. */
    method TermMerge(cls: string)
      modifies this
      ensures elems == MergePass(old(elems), cls)
    {
      var i := 0;
      while i < |elems|
        invariant 0 <= i <= |elems|
        invariant elems[..i] + MergePass(elems[i..], cls) == MergePass(old(elems), cls)
        decreases |elems| - i
      {
        var t := elems[i];
        if IsTermPara(t, cls) && i + 1 < |elems| && IsTermPara(elems[i + 1], cls) {
          var t1 := elems[i + 1];
          MergeStep(elems, i, cls);
          elems := elems[..i] + [Merge(t, t1)] + elems[i + 2..];
        } else {
          SkipStep(elems, i, cls);
        }
        i := i + 1;
      }
      assert elems[i..] == [];
      assert elems[..i] == elems;
    }

    /** `terms_cleanup`. */
    method TermsCleanup()
      modifies this
      ensures elems == TermsCleanupOf(old(elems))
    {
      TermMerge("Terms");
      TermMerge("AltTerms");
      TermMerge("DeprecatedTerms");
    }

    /** `intro_cleanup`. */
    method IntroCleanup()
      modifies this
      ensures elems == IntroCleanupOf(old(elems))
    {
      var i := 0;
      while i < |elems|
        invariant 0 <= i <= |elems| && |elems| == |old(elems)|
        invariant forall j :: 0 <= j < i ==> elems[j] == IntroFix(old(elems)[j])
        invariant forall j :: i <= j < |elems| ==> elems[j] == old(elems)[j]
      {
        var h1 := elems[i];
        if IsIntroTitle(h1) {
          elems := elems[i := h1.(children := h1.children + [Child(IntroTab())])];
        }
        i := i + 1;
      }
    }

    /** The part of `cleanup` this converter adds after the host's own cleanup. */
    method Cleanup()
      modifies this
      ensures elems == TermsCleanupOf(IntroCleanupOf(old(elems)))
    {
      IntroCleanup();
      TermsCleanup();
    }
  }

  // ---------------------------------------------------------------------
  // figure_get_or_make_dl

  /** A figure whose children the converter appends to. */
  class Figure {
    var children: seq<Inline>

    constructor (children: seq<Inline>)
      ensures this.children == children
    {
      this.children := children;
    }
  }

  function EmptyDl(): Elem
  {
    Plain("dl", [])
  }

  /** What is appended when the figure has no key list: the key paragraph, then an empty list. */
  function KeyAndDl(): seq<Inline>
  {
    [Child(GbLabels.FigureKey()), Child(EmptyDl())]
  }

  lemma KeyAndDlFindsDl()
    ensures At(KeyAndDl(), "dl") == Some(EmptyDl())
  {
    var key := GbLabels.FigureKey();
    var b := key.children[0].elem;
    assert b.children == [Text(GbLabels.KeyWord)];
    assert Descendants(b.children) == [] by {
      assert b.children[1..] == [];
    }
    assert Descendants(key.children) == [b] by {
      assert key.children[1..] == [];
    }
    assert Descendants([Child(EmptyDl())]) == [EmptyDl()] by {
      assert [Child(EmptyDl())][1..] == [];
    }
    assert KeyAndDl()[1..] == [Child(EmptyDl())];
    assert Descendants(KeyAndDl()) == [key, b, EmptyDl()];
  }

  /** The figure's children after `figure_get_or_make_dl`. */
  function WithDl(children: seq<Inline>): (r: seq<Inline>)
    ensures At(r, "dl").Some?
    ensures At(children, "dl").Some? ==> r == children
    ensures At(children, "dl").None? ==> r == children + KeyAndDl() && At(r, "dl") == Some(EmptyDl())
  {
    if At(children, "dl").Some? then children
    else
      AtAppend(children, KeyAndDl(), "dl");
      KeyAndDlFindsDl();
      children + KeyAndDl()
  }

  /** Asking twice creates one list: the second call finds the first call's list. */
  lemma WithDlIdempotent(children: seq<Inline>)
    ensures WithDl(WithDl(children)) == WithDl(children)
    ensures At(WithDl(children), "dl") == if At(children, "dl").Some? then At(children, "dl") else Some(EmptyDl())
  {
  }

  /** `figure_get_or_make_dl(t)`: the figure's first key list, appending a key paragraph and an empty list when there is none. */
  method FigureGetOrMakeDl(t: Figure) returns (dl: Elem)
    modifies t
    ensures t.children == WithDl(old(t.children))
    ensures At(t.children, "dl") == Some(dl)
  {
    var found := At(t.children, "dl");
    if found.None? {
      ghost var before := t.children;
      t.children := t.children + [Child(GbLabels.FigureKey()), Child(EmptyDl())];
      assert t.children == WithDl(before);
      found := At(t.children, "dl");
    }
    dl := found.value;
  }
}
