/**
 * `eref_localities`: the phrase a cross-reference gets for the parts of the
 * target it points into ("clause 3 to 5", "the whole document"), built from
 * one fragment per locality, in document order, with the GB unit words.
 */
module GbLocality {
  import opened Wrappers

  /**
   * One locality of a cross-reference: its `type` attribute, the text of its
   * referenceFrom child, and its referenceTo child as the source interpolates
   * it (the node itself, kept here as opaque text).
   */
  datatype Locality = Locality(kind: Option<string>, from: Option<string>, to: Option<string>)

  /** `LOCALITY`: locality kind to the GB unit word; frozen. */
  const LocalityUnits: map<string, string> := map[
    "section" := "条",
    "clause" := "条",
    "part" := "部分",
    "paragraph" := "段",
    "chapter" := "章",
    "page" := "页"
  ]

  const WholeKind: string := "whole"
  const WholePhrase: string := ", 全部"
  const FromMarker: string := ", 第"
  const ToMarker: string := "&ndash;"

  /** `LOCALITY[kind]` interpolated: the unit word, or "" for a kind the table lacks. */
  function Unit(kind: string): (r: string)
    ensures r != "" <==> kind in LocalityUnits
    ensures kind in LocalityUnits ==> r == LocalityUnits[kind]
  {
    if kind in LocalityUnits then LocalityUnits[kind] else ""
  }

  /** The source fails on a locality without a `type` (it converts nil to a symbol). */
  predicate Typed(refs: seq<Locality>)
  {
    forall i :: 0 <= i < |refs| ==> refs[i].kind.Some?
  }

  /** The fragment one locality contributes. */
  function Fragment(l: Locality): string
    requires l.kind.Some?
  {
    if l.kind.value == WholeKind then WholePhrase
    else
      (if l.from.Some? then FromMarker + l.from.value else "")
      + (if l.to.Some? then ToMarker + l.to.value else "")
      + Unit(l.kind.value)
  }

  /** The whole phrase: the fragments of all localities, in input order. */
  function Phrase(refs: seq<Locality>): string
    requires Typed(refs)
  {
    if refs == [] then "" else Fragment(refs[0]) + Phrase(refs[1..])
  }

  /** The body of the source's loop: appends one locality's fragment to `ret` piece by piece. */
  method AppendFragment(ret: string, r: Locality) returns (ret': string)
    requires r.kind.Some?
    ensures ret' == ret + Fragment(r)
  {
    ret' := ret;
    if r.kind == Some(WholeKind) {
      ret' := ret' + WholePhrase;
    } else {
      if r.from.Some? {
        ret' := ret' + FromMarker + r.from.value;
      }
      if r.to.Some? {
        ret' := ret' + ToMarker + r.to.value;
      }
      ret' := ret' + Unit(r.kind.value);
    }
  }

  /** `eref_localities`: accumulates the fragments in a loop. */
  method ErefLocalities(refs: seq<Locality>) returns (ret: string)
    requires Typed(refs)
    ensures ret == Phrase(refs)
  {
    ret := "";
    var i := 0;
    while i < |refs|
      invariant 0 <= i <= |refs|
      invariant ret == Phrase(refs[..i])
    {
      var r := refs[i];
      ret := AppendFragment(ret, r);
      PhraseSnoc(refs, i);
      i := i + 1;
    }
    assert refs[..i] == refs;
  }

  // ---------------------------------------------------------------------
  // Properties

  /** The phrase of two runs of localities is the phrase of the first, then that of the second. */
  lemma {:induction false} PhraseAppend(a: seq<Locality>, b: seq<Locality>)
    requires Typed(a) && Typed(b)
    ensures Typed(a + b)
    ensures Phrase(a + b) == Phrase(a) + Phrase(b)
    decreases |a|
  {
    if a == [] {
      assert a + b == b;
    } else {
      assert (a + b)[1..] == a[1..] + b;
      PhraseAppend(a[1..], b);
    }
  }

  lemma PhraseSnoc(refs: seq<Locality>, i: nat)
    requires Typed(refs) && i < |refs|
    ensures Phrase(refs[..i + 1]) == Phrase(refs[..i]) + Fragment(refs[i])
  {
    PhraseAppend(refs[..i], [refs[i]]);
    PhraseSingle(refs[i]);
    assert refs[..i] + [refs[i]] == refs[..i + 1];
  }

  /** One locality's phrase is its fragment. */
  lemma PhraseSingle(l: Locality)
    requires l.kind.Some?
    ensures Phrase([l]) == Fragment(l)
  {
    assert [l][1..] == [];
  }

  /** Every locality's fragment appears in order: the phrase is the first i fragments, then the rest. */
  lemma {:induction false} PhraseSplit(refs: seq<Locality>, i: nat)
    requires Typed(refs) && i < |refs|
    ensures Phrase(refs) == Phrase(refs[..i]) + Fragment(refs[i]) + Phrase(refs[i + 1..])
  {
    assert refs == refs[..i] + [refs[i]] + refs[i + 1..];
    PhraseAppend(refs[..i] + [refs[i]], refs[i + 1..]);
    PhraseAppend(refs[..i], [refs[i]]);
    PhraseSingle(refs[i]);
  }

  /** A "whole" locality reads ", 全部" whatever its range says. */
  lemma WholeIgnoresRange(from: Option<string>, to: Option<string>)
    ensures Fragment(Locality(Some(WholeKind), from, to)) == WholePhrase
  {
  }

  /** A locality contributes nothing exactly when it is not "whole", has no range and its kind has no unit word. */
  lemma FragmentEmpty(l: Locality)
    requires l.kind.Some?
    ensures Fragment(l) == "" <==>
      l.kind.value != WholeKind && l.from.None? && l.to.None? && l.kind.value !in LocalityUnits
  {
  }

  /** The phrase is empty exactly when every locality's fragment is. */
  lemma {:induction false} PhraseEmpty(refs: seq<Locality>)
    requires Typed(refs)
    ensures Phrase(refs) == "" <==> forall i :: 0 <= i < |refs| ==> Fragment(refs[i]) == ""
    decreases |refs|
  {
    if refs != [] {
      PhraseEmpty(refs[1..]);
      assert forall i :: 1 <= i < |refs| ==> refs[1..][i - 1] == refs[i];
    }
  }

  /** The unit table: section and clause share "条", and an unlisted kind gives no unit word. */
  lemma UnitTable()
    ensures Unit("section") == Unit("clause") == "条"
    ensures Unit("part") == "部分" && Unit("paragraph") == "段"
    ensures Unit("chapter") == "章" && Unit("page") == "页"
    ensures Unit("table") == ""
  {
  }

  /** A referenceTo element as `"#{refTo}"` serialises it. */
  const SerialisedTo: string := "<referenceTo>5</referenceTo>"

  /**
   * A clause range and a whole-document reference, in that order; the `to`
   * value is the serialised referenceTo element.
   */
  lemma PhraseExample()
    ensures Phrase([Locality(Some("clause"), Some("3"), Some(SerialisedTo)), Locality(Some(WholeKind), None, None)])
      == ", 第3&ndash;" + SerialisedTo + "条, 全部"
  {
    var refs := [Locality(Some("clause"), Some("3"), Some(SerialisedTo)), Locality(Some(WholeKind), None, None)];
    assert refs == [refs[0]] + [refs[1]];
    PhraseAppend([refs[0]], [refs[1]]);
    PhraseSingle(refs[0]);
    PhraseSingle(refs[1]);
    assert Fragment(refs[0]) == FromMarker + "3" + ToMarker + SerialisedTo + "条";
    assert Fragment(refs[1]) == WholePhrase;
  }

  /** A kind the table lacks, with only a `to`, contributes the range and no unit word. */
  lemma PhraseUnknownKindExample()
    ensures Phrase([Locality(Some("table"), None, Some(SerialisedTo))]) == "&ndash;" + SerialisedTo
  {
    PhraseSingle(Locality(Some("table"), None, Some(SerialisedTo)));
  }
}
