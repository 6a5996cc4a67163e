/**
 * `sentence_join`: joins a list of phrases into one Chinese phrase,
 * "a、 b、 c 和 d". The joining algorithm is written once over its two
 * connectors; the GB converter instantiates it with "、 " and " 和 ".
 */
module GbJoin {
  import opened Wrappers

  /** Placed between all items but the last two. */
  const Mid: string := "、 "
  /** Placed before the last item. */
  const Final: string := " 和 "

  /** Ruby's `Array#join(sep)`. */
  function Join(items: seq<string>, sep: string): string
  {
    if items == [] then ""
    else if |items| == 1 then items[0]
    else items[0] + sep + Join(items[1..], sep)
  }

  /** The list joiner over its connectors: all but the last item joined by `mid`, then `final`, then the last. */
  function JoinPhrase(items: seq<string>, mid: string, final: string): string
  {
    if items == [] then ""
    else if |items| == 1 then items[0]
    else Join(items[..|items| - 1], mid) + final + items[|items| - 1]
  }

  /** `sentence_join(array)`; `nil` is None. */
  function SentenceJoin(items: Option<seq<string>>): string
  {
    match items
    case None => ""
    case Some(xs) => JoinPhrase(xs, Mid, Final)
  }

  // ---------------------------------------------------------------------
  // A positional reference definition: item 0, connector 0, item 1, ...

  /** The items with `seps[i]` standing between item i and item i+1. */
  function Interleave(items: seq<string>, seps: seq<string>): string
    requires |items| >= 1 && |seps| == |items| - 1
  {
    if |items| == 1 then items[0]
    else items[0] + seps[0] + Interleave(items[1..], seps[1..])
  }

  /** The connectors a list of n >= 1 items receives: `mid` everywhere except `final` before the last item. */
  function Connectors(n: nat, mid: string, final: string): seq<string>
    requires n >= 1
  {
    seq(n - 1, i => if i == n - 2 then final else mid)
  }

  /** Where item i starts in `Interleave(items, seps)`. */
  function Offset(items: seq<string>, seps: seq<string>, i: nat): nat
    requires |seps| == |items| - 1 && i < |items|
  {
    if i == 0 then 0 else Offset(items, seps, i - 1) + |items[i - 1]| + |seps[i - 1]|
  }

  /** n copies of `s`. */
  function Repeat(s: string, n: nat): (r: seq<string>)
    ensures |r| == n && forall i :: 0 <= i < n ==> r[i] == s
  {
    if n == 0 then [] else Repeat(s, n - 1) + [s]
  }

  lemma {:induction false} JoinThenFinal(ys: seq<string>, z: string, mid: string, final: string)
    requires |ys| >= 1
    ensures Join(ys, mid) + final + z == Interleave(ys + [z], Repeat(mid, |ys| - 1) + [final])
    decreases |ys|
  {
    var seps := Repeat(mid, |ys| - 1) + [final];
    if |ys| == 1 {
      assert Interleave(ys + [z], seps) == ys[0] + final + Interleave([z], []);
    } else {
      assert (ys + [z])[1..] == ys[1..] + [z];
      assert seps[1..] == Repeat(mid, |ys| - 2) + [final];
      JoinThenFinal(ys[1..], z, mid, final);
    }
  }

  /** The joiner puts exactly the connectors of `Connectors` between consecutive items. */
  lemma {:induction false} JoinPhraseIsInterleave(items: seq<string>, mid: string, final: string)
    requires |items| >= 1
    ensures JoinPhrase(items, mid, final) == Interleave(items, Connectors(|items|, mid, final))
  {
    var n := |items|;
    if n >= 2 {
      var ys := items[..n - 1];
      JoinThenFinal(ys, items[n - 1], mid, final);
      assert ys + [items[n - 1]] == items;
      var seps := Repeat(mid, |ys| - 1) + [final];
      var cs := Connectors(n, mid, final);
      assert seps == cs;
    }
  }

  /** From item i's offset on, the interleaving is the interleaving of the items from i on. */
  lemma {:induction false} InterleaveSuffix(items: seq<string>, seps: seq<string>, i: nat)
    requires |items| >= 1 && |seps| == |items| - 1 && i < |items|
    ensures Offset(items, seps, i) <= |Interleave(items, seps)|
    ensures Interleave(items, seps)[Offset(items, seps, i)..] == Interleave(items[i..], seps[i..])
    decreases i
  {
    if i > 0 {
      var s := Interleave(items, seps);
      var head := items[0] + seps[0];
      var tail := Interleave(items[1..], seps[1..]);
      assert s == head + tail;
      InterleaveSuffix(items[1..], seps[1..], i - 1);
      OffsetShift(items, seps, i);
      assert items[1..][i - 1..] == items[i..];
      assert seps[1..][i - 1..] == seps[i..];
      assert s[|head| + Offset(items[1..], seps[1..], i - 1)..] == tail[Offset(items[1..], seps[1..], i - 1)..];
    }
  }

  /** Every item appears in the interleaving at its offset, followed by its connector. */
  lemma InterleaveAt(items: seq<string>, seps: seq<string>, i: nat)
    requires |items| >= 1 && |seps| == |items| - 1 && i < |items|
    ensures Offset(items, seps, i) + |items[i]| <= |Interleave(items, seps)|
    ensures Interleave(items, seps)[Offset(items, seps, i) .. Offset(items, seps, i) + |items[i]|] == items[i]
    ensures i < |seps| ==> Offset(items, seps, i + 1) <= |Interleave(items, seps)|
    ensures i < |seps| ==>
      Interleave(items, seps)[Offset(items, seps, i) + |items[i]| .. Offset(items, seps, i + 1)] == seps[i]
    ensures i == |items| - 1 ==> Offset(items, seps, i) + |items[i]| == |Interleave(items, seps)|
  {
    InterleaveSuffix(items, seps, i);
    var s := Interleave(items, seps);
    var o := Offset(items, seps, i);
    var t := Interleave(items[i..], seps[i..]);
    assert s[o..] == t;
    if i < |seps| {
      assert t == items[i] + seps[i] + Interleave(items[i..][1..], seps[i..][1..]);
      assert s[o .. o + |items[i]|] == t[..|items[i]|];
      assert s[o + |items[i]| .. o + |items[i]| + |seps[i]|] == t[|items[i]| .. |items[i]| + |seps[i]|];
    } else {
      assert t == items[i];
      assert s[o .. o + |items[i]|] == t[..|items[i]|];
    }
  }

  lemma {:induction false} OffsetShift(items: seq<string>, seps: seq<string>, i: nat)
    requires |items| >= 2 && |seps| == |items| - 1 && 1 <= i < |items|
    ensures Offset(items, seps, i) == |items[0]| + |seps[0]| + Offset(items[1..], seps[1..], i - 1)
    decreases i
  {
    if i > 1 {
      OffsetShift(items, seps, i - 1);
    }
  }

  /**
   * For two or more items the GB phrase holds every item once, in input
   * order, with "、 " between neighbours and " 和 " before the last item.
   */
  lemma {:induction false} SentenceJoinPositions(items: seq<string>, i: nat)
    requires |items| >= 2 && i < |items|
    ensures var r := SentenceJoin(Some(items));
      var cs := Connectors(|items|, Mid, Final);
      var o := Offset(items, cs, i);
      o + |items[i]| <= |r| && r[o .. o + |items[i]|] == items[i] &&
      (i < |items| - 1 ==> o + |items[i]| <= Offset(items, cs, i + 1) <= |r|) &&
      (i < |items| - 2 ==> r[o + |items[i]| .. Offset(items, cs, i + 1)] == Mid) &&
      (i == |items| - 2 ==> r[o + |items[i]| .. Offset(items, cs, i + 1)] == Final) &&
      (i == |items| - 1 ==> o + |items[i]| == |r|)
  {
    JoinPhraseIsInterleave(items, Mid, Final);
    InterleaveAt(items, Connectors(|items|, Mid, Final), i);
  }

  /** nil, an empty list and a singleton are handled without connectors. */
  lemma SentenceJoinShort(items: Option<seq<string>>)
    requires items.None? || |items.value| <= 1
    ensures items.None? || items.value == [] ==> SentenceJoin(items) == ""
    ensures items.Some? && |items.value| == 1 ==> SentenceJoin(items) == items.value[0]
  {
  }

  /** The joiner on its sample inputs, with the GB connectors and with English stand-ins. */
  lemma SentenceJoinExamples()
    ensures SentenceJoin(Some(["A", "B"])) == "A 和 B"
    ensures SentenceJoin(Some(["A", "B", "C"])) == "A、 B 和 C"
    ensures JoinPhrase(["A", "B", "C"], ", ", " and ") == "A, B and C"
  {
    assert ["A", "B", "C"][..2] == ["A", "B"];
    assert ["A", "B"][1..] == ["B"];
  }
}
