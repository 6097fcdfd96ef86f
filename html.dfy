/**
 * The markup node the element classes drive: an abstract record standing for
 * the external Nette\Utils\Html object. Only the parts the element code
 * touches are modelled (a name, an attribute table, a data-attribute table and
 * a list of children) and its operations are plain updates of them. How a
 * node is serialised (escaping, `startTag()`, `endTag()`) is not modelled:
 * callers receive serialisation as a function over `HtmlData`.
 */
module NetteHtml {
  import opened Options
  import opened Confirmations

  /** An attribute value: a plain string, or a confirmation object that is
      turned into a string only when the node is serialised. */
  datatype AttrValue = Str(s: string) | Confirm(c: Confirmation) {

    /** The string PHP makes of the value (`__toString` for a confirmation). */
    function ToString(): (r: string)
      ensures Str? ==> r == s
      ensures Confirm? ==> ParseConfirmation(r) == Some(c.message)
    {
      match this
      case Str(s) => s
      case Confirm(c) => ParseToString(c); c.ToString()
    }
  }

  /** A child of a node: text set with `setText`, raw markup, or a whole node. */
  datatype Child = Text(text: string) | Markup(markup: string) | Node(el: HtmlData)

  /** The value of a node at one moment. */
  datatype HtmlData = HtmlData(
    name: Option<string>,
    attrs: map<string, AttrValue>,
    data: map<string, string>,
    children: seq<Child>)

  /** A node with nothing on it, as `Html::el($name)` makes it. */
  function Blank(name: Option<string>): HtmlData {
    HtmlData(name, map[], map[], [])
  }

  /** The href `href($path, $query)` stores: the path, followed by `?` and the
      encoded query when the query is non-empty and encodes to something.
      How the query is encoded is a parameter. */
  function WithQuery(path: string, query: seq<(string, string)>, encode: seq<(string, string)> -> string): (r: string)
    ensures |path| <= |r| && r[..|path|] == path
    ensures r == path <==> (query == [] || encode(query) == "")
    ensures r != path ==> r == path + "?" + encode(query)
  {
    if query == [] || encode(query) == "" then path else path + "?" + encode(query)
  }

  /** The mutable node. Other objects hold references to it, so a change made
      through one reference is seen through all of them. */
  class Html {
    var name: Option<string>
    var attrs: map<string, AttrValue>
    var data: map<string, string>
    var children: seq<Child>

    function Value(): HtmlData
      reads this
    {
      HtmlData(name, attrs, data, children)
    }

    /** `Html::el($name)`. Parsing attributes out of a name with a space in it
        is not modelled. */
    constructor El(name: Option<string>)
      ensures Value() == Blank(name)
    {
      this.name := name;
      attrs := map[];
      data := map[];
      children := [];
    }

    method SetName(n: string)
      modifies this`name
      ensures name == Some(n)
    {
      name := Some(n);
    }

    method SetAttribute(k: string, v: AttrValue)
      modifies this`attrs
      ensures attrs == old(attrs)[k := v]
    {
      attrs := attrs[k := v];
    }

    /** `data($k, $v)`: one entry of the data-attribute table. */
    method Data(k: string, v: string)
      modifies this`data
      ensures data == old(data)[k := v]
    {
      data := data[k := v];
    }

    /** `setText($t)`: the text replaces every child the node had. */
    method SetText(t: string)
      modifies this`children
      ensures children == [Text(t)]
    {
      children := [Text(t)];
    }

    /** `addHtml($c)`: one more child at the end. */
    method AddHtml(c: Child)
      modifies this`children
      ensures children == old(children) + [c]
    {
      children := children + [c];
    }

    /** `href($path, $query)`. */
    method Href(path: string, query: seq<(string, string)>, encode: seq<(string, string)> -> string)
      modifies this`attrs
      ensures attrs == old(attrs)["href" := Str(WithQuery(path, query, encode))]
    {
      attrs := attrs["href" := Str(WithQuery(path, query, encode))];
    }
  }
}
