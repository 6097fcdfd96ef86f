/**
 * The anchor element (src/HrefElement.php): a base element whose tag is
 * always `a`, which remembers a link (`#` until one is set), gives the node
 * that link as its href at render time unless the node already has an href,
 * and has setters for `target="_blank"` and for a confirmation script.
 *
 * PHP's subclassing is modelled by composition: the anchor holds its base
 * element, and its own `Render` stands for the overriding `render()`. The
 * base methods that call `$this->render()` (the cached render, the start and
 * end tags, the immutable render) dispatch to the override, so the anchor
 * has its own versions of those too.
 */
module Links {
  import opened Options
  import opened Confirmations
  import opened NetteHtml
  import opened Elements

  /** The node as the override hands it to the base render: unchanged when it
      has an href, otherwise given `link` as its href. */
  function WithDefaultHref(e: HtmlData, link: string): (r: HtmlData)
    ensures "href" in r.attrs
    ensures r.name == e.name && r.data == e.data && r.children == e.children
    ensures "href" in e.attrs ==> r.attrs == e.attrs
    ensures "href" !in e.attrs ==> r.attrs["href"] == Str(link)
    ensures forall k :: k in e.attrs ==> k in r.attrs && r.attrs[k] == e.attrs[k]
    ensures r.attrs.Keys == e.attrs.Keys + {"href"}
  {
    if "href" in e.attrs then e else e.(attrs := e.attrs["href" := Str(link)])
  }

  /** Which href the node carries after an anchor render: an `href` in the
      attribute table wins (the tables are copied after the default is
      applied), then an href the node already had, then the stored link. A
      hidden render still applies the default, because the override runs
      before the base render's hidden check. */
  lemma RenderedHref(e: HtmlData, c: Config, link: string)
    ensures var r := RenderElement(WithDefaultHref(e, link), c);
            && "href" in r.attrs
            && r.attrs["href"] == if !c.hideElement && "href" in c.attributes then c.attributes["href"]
                                  else if "href" in e.attrs then e.attrs["href"]
                                  else Str(link)
  {
    var d := WithDefaultHref(e, link);
    if !c.hideElement {
      var a := RenderConfig(c).attributes;
      if "href" in c.attributes {
        assert a["href"] == c.attributes["href"];
      } else {
        assert "href" !in a;
      }
    }
  }

  /** A confirmation stored under a key other than `class` and `title` reaches
      the node unchanged, and the node's value under that key prints as the
      confirmation script for the message. */
  lemma ConfirmationRendered(e: HtmlData, c: Config, key: string, message: string)
    requires !c.hideElement && key != "class" && key != "title"
    requires key in c.attributes && c.attributes[key] == Confirm(Confirmation(message))
    ensures var r := RenderElement(e, c);
            && key in r.attrs
            && r.attrs[key].ToString() == Prefix + message + Suffix
  {
    var a := RenderConfig(c).attributes;
    assert a[key] == c.attributes[key];
  }

  class HrefElement {
    /** The base element this anchor extends. */
    const base: BaseElement
    /** `$link`: the href applied at render time when the node has none. */
    var link: string
    var targetBlank: bool

    /** The tag name a caller passes is ignored: the base element is always
        made with `a`. */
    constructor (elName: Option<string>, attributes: Option<map<string, AttrValue>>, textContent: Option<string>)
      ensures fresh(base) && fresh(base.element)
      ensures base.State() == Config(Some("a"), if attributes.Some? then attributes.value else map[], map[],
                                     textContent, "", [], "", None, None, None, false)
      ensures base.element.Value() == Blank(Some("a"))
      ensures base.cache == None
      ensures link == "#" && !targetBlank
    {
      base := new BaseElement(Some("a"), attributes, textContent);
      link := "#";
      targetBlank := false;
    }

    /** `render()`: the stored link becomes the node's href when the node has
        none (`href()` without a query stores the path as given), then the
        base render runs. */
    method Render() returns (r: Option<Html>)
      modifies base, base.element
      ensures base.element == old(base.element)
      ensures base.State() == RenderConfig(old(base.State()))
      ensures base.element.Value() == RenderElement(WithDefaultHref(old(base.element.Value()), link), old(base.State()))
      ensures r == (if old(base.hideElement) then None else Some(base.element))
      ensures base.cache == (if old(base.hideElement) then old(base.cache) else Some(base.element))
    {
      if "href" !in base.element.attrs {
        base.element.SetAttribute("href", Str(link));
      }
      r := base.Render();
    }

    /** `renderImmutable()`, dispatching to the anchor's render: a fresh
        unnamed node, which therefore gets the stored link as its href. */
    method RenderImmutable() returns (r: Option<Html>)
      modifies base
      ensures fresh(base.element)
      ensures base.State() == RenderConfig(old(base.State()))
      ensures base.element.Value() == RenderElement(WithDefaultHref(Blank(None), link), old(base.State()))
      ensures r == (if old(base.hideElement) then None else Some(base.element))
      ensures base.cache == (if old(base.hideElement) then old(base.cache) else Some(base.element))
    {
      base.element := new Html.El(None);
      r := Render();
    }

    /** `$this->render ?? $this->render()` on an anchor. */
    method RenderCached() returns (h: Option<Html>)
      modifies base, base.element
      ensures h == base.cache
      ensures old(base.cache).Some? ==> unchanged(base) && unchanged(base.element)
      ensures old(base.cache).None? ==>
                && base.element == old(base.element)
                && base.cache == (if old(base.hideElement) then None else Some(base.element))
                && base.State() == RenderConfig(old(base.State()))
                && base.element.Value() == RenderElement(WithDefaultHref(old(base.element.Value()), link),
                                                         old(base.State()))
    {
      if base.cache.Some? {
        h := base.cache;
      } else {
        h := Render();
      }
    }

    /** `renderStartTag()` on an anchor. */
    method RenderStartTag(startTag: HtmlData -> string) returns (r: Option<string>)
      modifies base, base.element
      ensures old(base.cache).Some? ==> unchanged(base) && unchanged(base.element)
      ensures old(base.cache).None? ==>
                && base.element == old(base.element)
                && base.State() == RenderConfig(old(base.State()))
                && base.element.Value() == RenderElement(WithDefaultHref(old(base.element.Value()), link),
                                                         old(base.State()))
      ensures r == (if base.cache.Some? then Some(startTag(base.cache.value.Value())) else None)
      ensures old(base.cache).None? && old(base.hideElement) ==> r == None
    {
      var h := RenderCached();
      r := if h.Some? then Some(startTag(h.value.Value())) else None;
    }

    /** `renderEndTag()` on an anchor. */
    method RenderEndTag(endTag: HtmlData -> string) returns (r: Option<string>)
      modifies base, base.element
      ensures old(base.cache).Some? ==> unchanged(base) && unchanged(base.element)
      ensures old(base.cache).None? ==>
                && base.element == old(base.element)
                && base.State() == RenderConfig(old(base.State()))
                && base.element.Value() == RenderElement(WithDefaultHref(old(base.element.Value()), link),
                                                         old(base.State()))
      ensures r == (if base.cache.Some? then Some(endTag(base.cache.value.Value())) else None)
      ensures old(base.cache).None? && old(base.hideElement) ==> r == None
    {
      var h := RenderCached();
      r := if h.Some? then Some(endTag(h.value.Value())) else None;
    }

    /** `setHref($href, $query)`: the node's href is set at once, and the
        stored link is read back from it, so the two agree. How the query is
        encoded is a parameter. */
    method SetHref(href: string, query: seq<(string, string)>, encode: seq<(string, string)> -> string)
      modifies this`link, base.element`attrs
      ensures base.element.attrs == old(base.element.attrs)["href" := Str(WithQuery(href, query, encode))]
      ensures link == WithQuery(href, query, encode)
      ensures base.element.attrs["href"] == Str(link)
    {
      base.element.Href(href, query, encode);
      link := base.element.attrs["href"].s;
    }

    /** `setTargetBlank($b)`: the flag is stored; only `true` writes the
        target, and `false` removes no target already there. */
    method SetTargetBlank(targetBlank: bool := true)
      modifies this`targetBlank, base`attributes
      ensures this.targetBlank == targetBlank
      ensures base.attributes == if targetBlank then old(base.attributes)["target" := Str("_blank")]
                                 else old(base.attributes)
    {
      this.targetBlank := targetBlank;
      if targetBlank {
        base.attributes := base.attributes["target" := Str("_blank")];
      }
    }

    /** `setConfirmation($text, $attribute)`: a confirmation for the text under
        the given key (`onclick` unless another is named), replacing what was
        there and leaving every other key alone. */
    method SetConfirmation(text: string, attribute: string := "onclick")
      modifies base`attributes
      ensures base.attributes == old(base.attributes)[attribute := Confirm(Confirmation(text))]
    {
      base.attributes := base.attributes[attribute := Confirm(Confirmation(text))];
    }
  }
}
