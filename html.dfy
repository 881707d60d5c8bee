/**
 * The parsed document as the scripts see it through the HTML library: a tree
 * of text strings and elements with attributes. CSS selection is the
 * library's own engine and enters the model as a parameter (`Query`); what
 * the model fixes is how the scripts read the nodes it returns.
 */
module Html {
  import opened Wrappers
  import opened Strings
  import opened Seqs

  datatype Node =
    | Text(s: string)
    | Element(tag: string, attrs: map<string, string>, children: seq<Node>)

  /** `node.select(selector)`: the matching elements, in document order. */
  type Query = (Node, string) -> seq<Node>

  /** `node.select_one(selector)`: the first match of `select`. */
  function SelectOne(q: Query, n: Node, selector: string): Option<Node> {
    var m := q(n, selector);
    if m == [] then None else Some(m[0])
  }

  /** `node.get(name)`; also `name in node.attrs`. */
  function Attr(n: Node, name: string): Option<string> {
    match n
    case Element(_, attrs, _) => if name in attrs then Some(attrs[name]) else None
    case Text(_) => None
  }

  /** The text strings under a node, in document order. */
  function TextStrings(n: Node): seq<string> {
    match n
    case Text(s) => [s]
    case Element(_, _, cs) => StringsOf(cs)
  }

  function StringsOf(cs: seq<Node>): seq<string> {
    if cs == [] then [] else TextStrings(cs[0]) + StringsOf(cs[1..])
  }

  /** `node.text`: every text string under the node, concatenated. */
  function TextOf(n: Node): string {
    Concat(TextStrings(n))
  }

  /** A piece of text that is not all whitespace. */
  predicate NonBlank(x: string) {
    Strip(x) != ""
  }

  /** The stripped pieces of `get_text(strip=True)`: every piece that is
      not blank, stripped, in order. */
  function NonEmptyStripped(xs: seq<string>): (r: seq<string>)
    ensures r == Map(Strip, Filter(xs, NonBlank))
  {
    if xs == [] then []
    else if Strip(xs[0]) == "" then NonEmptyStripped(xs[1..])
    else
      MapCons(Strip, xs[0], Filter(xs[1..], NonBlank));
      [Strip(xs[0])] + NonEmptyStripped(xs[1..])
  }

  /** Every piece `get_text(strip=True)` joins is non-empty and stripped. */
  lemma NonEmptyStrippedPieces(xs: seq<string>)
    ensures forall i :: 0 <= i < |NonEmptyStripped(xs)| ==>
      NonEmptyStripped(xs)[i] != "" && Stripped(NonEmptyStripped(xs)[i])
  {
    var kept := Filter(xs, NonBlank);
    assert forall i :: 0 <= i < |kept| ==> NonBlank(kept[i]);
  }

  /** `node.get_text(strip=True)`: each string stripped, empty ones
      dropped, the rest concatenated. */
  function GetTextStripped(n: Node): string {
    Concat(NonEmptyStripped(TextStrings(n)))
  }

  /** The elements strictly below a node, in document order: what
      `find_all` and `find` search. */
  function Descendants(n: Node): seq<Node> {
    match n
    case Text(_) => []
    case Element(_, _, cs) => DescendantsOf(cs)
  }

  function DescendantsOf(cs: seq<Node>): seq<Node> {
    if cs == [] then []
    else
      var first := if cs[0].Element? then [cs[0]] + Descendants(cs[0]) else [];
      first + DescendantsOf(cs[1..])
  }

  predicate IsTagWith(n: Node, tag: string, attr: string) {
    n.Element? && n.tag == tag && attr in n.attrs
  }

  /** `node.find_all(tag, attr=True)`. */
  function FindAll(n: Node, tag: string, attr: string): seq<Node> {
    Filter(Descendants(n), TagTest(tag, attr))
  }

  function TagTest(tag: string, attr: string): Node -> bool {
    (d: Node) => IsTagWith(d, tag, attr)
  }

  /** `node.find(tag, attr=True)`: the first of `find_all`. */
  function Find(n: Node, tag: string, attr: string): Option<Node> {
    var all := FindAll(n, tag, attr);
    if all == [] then None else Some(all[0])
  }
}
