/**
 * Dispatch on the `string` element, the one element this converter renders
 * itself among those the host does not know: text in traditional Chinese
 * script (`script="Hant"`) is wrapped in a span of class Hant.
 */
module GbScript {
  import opened Wrappers
  import opened Html

  const HantScript: string := "Hant"

  /** The span that marks text in traditional script. */
  function HantSpan(rendered: seq<Inline>): Elem
  {
    Elem("span", map["class" := HantScript], rendered)
  }

  /**
   * `string_parse`: `rendered` is what the host's `parse` makes of the
   * node's children, one after the other. Hant text is wrapped in one span,
   * anything else is emitted as it is; the text itself is never altered.
   */
  function StringParse(node: Elem, rendered: seq<Inline>): (out: seq<Inline>)
    ensures Attr(node, "script") == Some(HantScript) <==> out != rendered
    ensures out != rendered ==> out == [Child(HantSpan(rendered))]
    ensures ContentAll(out) == ContentAll(rendered)
  {
    if Attr(node, "script") == Some(HantScript) then
      ContentAllSingle(Child(HantSpan(rendered)));
      [Child(HantSpan(rendered))]
    else rendered
  }

  /** Which converter renders a node that reached `error_parse`. */
  datatype Dispatch = Local(out: seq<Inline>) | Delegated

  /** `error_parse`: `string` elements are rendered here, everything else by the host converter. */
  function ErrorParse(node: Elem, rendered: seq<Inline>): (r: Dispatch)
    ensures r.Local? <==> node.name == "string"
    ensures r.Local? ==> ContentAll(r.out) == ContentAll(rendered)
    ensures r.Local? ==> (r.out == [Child(HantSpan(rendered))] <==> Attr(node, "script") == Some(HantScript))
  {
    if node.name == "string" then Local(StringParse(node, rendered)) else Delegated
  }
}
