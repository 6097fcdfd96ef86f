/**
 * The element builder of src/BaseElement.php: a mutable object that collects
 * a tag name, an attribute table, a data-attribute table, a text, three class
 * sources, a title, a hidden flag and one-shot span/icon requests, and on
 * `render()` writes them onto its markup node.
 */
module Elements {
  import opened Options
  import opened Php
  import opened NetteHtml

  /** The configuration fields of an element at one moment. */
  datatype Config = Config(
    elName: Option<string>,
    attributes: map<string, AttrValue>,
    dataAttributes: map<string, string>,
    textContent: Option<string>,
    cssClass: string,
    addClasses: seq<string>,
    defaultClass: string,
    spanClass: Option<string>,
    iconClass: Option<string>,
    title: Option<string>,
    hideElement: bool)

  /* ---------------------------------------------------------------------
   * The composed class string
   * ------------------------------------------------------------------- */

  /** The string form of `attributes['class']`, or "" when the key is absent. */
  function ClassAttribute(attributes: map<string, AttrValue>): string {
    if "class" in attributes then attributes["class"].ToString() else ""
  }

  /** The three leading pieces of `getElementClass()`, each with whether a
      space follows it: the class attribute (tested with `!= ''`), the
      default class and the class (both tested with PHP's `empty()`, which
      is also true of "0"). */
  function ClassSegments(attributes: map<string, AttrValue>, defaultClass: string, cssClass: string)
    : seq<(string, bool)>
  {
    [(ClassAttribute(attributes), "class" in attributes && ClassAttribute(attributes) != ""),
     (defaultClass, !Empty(defaultClass)),
     (cssClass, !Empty(cssClass))]
  }

  /** `getElementClass()`: the class attribute, the default class and the
      class, each followed by a space when it is non-empty, then the added
      classes joined by spaces, the whole trimmed. */
  function ElementClass(attributes: map<string, AttrValue>, defaultClass: string, cssClass: string,
                        addClasses: seq<string>): (r: string)
    ensures Clean(r)
  {
    Trim(Spaced(ClassSegments(attributes, defaultClass, cssClass), Implode(addClasses)))
  }

  /** One separating space, or nothing. */
  function Sep(b: bool): string {
    if b then " " else ""
  }

  /** The `sprintf('%s%s…')` of `getElementClass()`: each piece followed by a
      space when its flag says so, then the last piece. */
  function Spaced(ps: seq<(string, bool)>, last: string): string
    decreases |ps|
  {
    if ps == [] then last else ps[0].0 + (Sep(ps[0].1) + Spaced(ps[1..], last))
  }

  /** The pieces without their flags. */
  function Firsts(ps: seq<(string, bool)>): (r: seq<string>)
    ensures |r| == |ps| && forall i :: 0 <= i < |ps| ==> r[i] == ps[i].0
    decreases |ps|
  {
    if ps == [] then [] else [ps[0].0] + Firsts(ps[1..])
  }

  /** The reference reading of the class string: the segments in order,
      joined by single spaces, empty segments skipped. */
  function JoinNonEmpty(segs: seq<string>): (r: string)
    ensures r == "" <==> forall i :: 0 <= i < |segs| ==> segs[i] == ""
    decreases |segs|
  {
    if segs == [] then ""
    else
      var rest := JoinNonEmpty(segs[1..]);
      if segs[0] == "" then rest else if rest == "" then segs[0] else segs[0] + " " + rest
  }

  /** When every piece is clean and is followed by a space exactly when it is
      non-empty, the untrimmed string is the reference join, plus one trailing
      space when the last piece is empty and something precedes it. */
  lemma {:induction false} SpacedIsJoin(ps: seq<(string, bool)>, last: string)
    requires forall i :: 0 <= i < |ps| ==> Clean(ps[i].0) && ps[i].1 == (ps[i].0 != "")
    requires Clean(last)
    ensures Clean(JoinNonEmpty(Firsts(ps) + [last]))
    ensures Spaced(ps, last) == JoinNonEmpty(Firsts(ps) + [last])
                                + Sep(last == "" && JoinNonEmpty(Firsts(ps) + [last]) != "")
    decreases |ps|
  {
    var all := Firsts(ps) + [last];
    if ps == [] {
      assert all == [last] && all[1..] == [];
    } else {
      var x, tail := ps[0].0, Firsts(ps[1..]) + [last];
      assert all == [x] + tail;
      JoinCons(x, tail);
      SpacedIsJoin(ps[1..], last);
      var rest := JoinNonEmpty(tail);
      assert last != "" ==> rest != "" by {
        if last != "" {
          assert tail[|tail| - 1] == last;
        }
      }
      JoinStep(x, rest, last == "");
    }
  }

  /** One step of `SpacedIsJoin`: a clean piece in front of a clean join. */
  lemma JoinStep(x: string, rest: string, lastEmpty: bool)
    requires Clean(x) && Clean(rest)
    requires !lastEmpty ==> rest != ""
    ensures var j := if x == "" then rest else if rest == "" then x else x + " " + rest;
            && Clean(j)
            && x + (Sep(x != "") + (rest + Sep(lastEmpty && rest != ""))) == j + Sep(lastEmpty && j != "")
  {
    if x != "" && rest != "" {
      var j := x + " " + rest;
      assert j[0] == x[0] && j[|j| - 1] == rest[|rest| - 1];
    } else if x == "" {
      assert x + (Sep(false) + (rest + Sep(lastEmpty && rest != ""))) == rest + Sep(lastEmpty && rest != "");
    }
  }

  /** Trimming the untrimmed shape of `SpacedIsJoin` leaves the join. */
  lemma TrimJoined(s: string, last: string)
    requires Clean(s)
    ensures Trim(s + Sep(last == "" && s != "")) == s
  {
    if last == "" && s != "" {
      TrimTrailingSpace(s);
    } else {
      assert s + "" == s;
    }
  }

  /** Unfolding `JoinNonEmpty` once on a sequence written as head and tail. */
  lemma JoinCons(x: string, xs: seq<string>)
    ensures JoinNonEmpty([x] + xs)
            == var r := JoinNonEmpty(xs); if x == "" then r else if r == "" then x else x + " " + r
  {
    assert ([x] + xs)[1..] == xs;
  }

  /** The reference join of four segments, spelled out. */
  lemma JoinFour(a: string, d: string, c: string, j: string)
    ensures JoinNonEmpty([a, d, c, j])
            == var r3 := JoinNonEmpty([d, c, j]); if a == "" then r3 else if r3 == "" then a else a + " " + r3
    ensures JoinNonEmpty([d, c, j])
            == var r2 := JoinNonEmpty([c, j]); if d == "" then r2 else if r2 == "" then d else d + " " + r2
    ensures JoinNonEmpty([c, j]) == if c == "" then j else if j == "" then c else c + " " + j
  {
    assert [a, d, c, j] == [a] + [d, c, j];
    assert [d, c, j] == [d] + [c, j];
    assert [c, j] == [c] + [j];
    assert [j] == [j] + [];
    JoinCons(a, [d, c, j]);
    JoinCons(d, [c, j]);
    JoinCons(c, [j]);
    JoinCons(j, []);
  }

  /** When every segment is clean and neither default class nor class is the
      string "0", `getElementClass()` is the reference join of the class
      attribute, the default class, the class and the added classes. */
  lemma ElementClassIsJoin(attributes: map<string, AttrValue>, defaultClass: string, cssClass: string,
                           addClasses: seq<string>)
    requires Clean(ClassAttribute(attributes)) && Clean(defaultClass) && Clean(cssClass)
    requires Clean(Implode(addClasses))
    requires defaultClass != "0" && cssClass != "0"
    ensures ElementClass(attributes, defaultClass, cssClass, addClasses)
            == JoinNonEmpty([ClassAttribute(attributes), defaultClass, cssClass, Implode(addClasses)])
  {
    var a, j := ClassAttribute(attributes), Implode(addClasses);
    var ps := ClassSegments(attributes, defaultClass, cssClass);
    assert Firsts(ps) + [j] == [a, defaultClass, cssClass, j];
    SpacedIsJoin(ps, j);
    TrimJoined(JoinNonEmpty(Firsts(ps) + [j]), j);
  }

  /** `setDefaultClass(d)` then `setClass(c)`: both appear, the default class
      first, with the class attribute before and the added classes after. */
  lemma DefaultClassKept(attributes: map<string, AttrValue>, defaultClass: string, cssClass: string,
                         addClasses: seq<string>)
    requires Clean(ClassAttribute(attributes)) && Clean(defaultClass) && Clean(cssClass)
    requires Clean(Implode(addClasses))
    requires defaultClass != "" && defaultClass != "0" && cssClass != "" && cssClass != "0"
    ensures var a, j := ClassAttribute(attributes), Implode(addClasses);
            ElementClass(attributes, defaultClass, cssClass, addClasses)
            == (if a == "" then "" else a + " ") + defaultClass + " " + cssClass + (if j == "" then "" else " " + j)
  {
    ElementClassIsJoin(attributes, defaultClass, cssClass, addClasses);
    JoinMiddleTwo(ClassAttribute(attributes), defaultClass, cssClass, Implode(addClasses));
  }

  /** The reference join of four segments whose middle two are non-empty. */
  lemma JoinMiddleTwo(a: string, d: string, c: string, j: string)
    requires d != "" && c != ""
    ensures JoinNonEmpty([a, d, c, j]) == (if a == "" then "" else a + " ") + d + " " + c + (if j == "" then "" else " " + j)
  {
    JoinFour(a, d, c, j);
    var r2 := c + (if j == "" then "" else " " + j);
    assert JoinNonEmpty([c, j]) == r2;
    assert JoinNonEmpty([d, c, j]) == d + " " + r2;
    if a == "" {
      assert JoinNonEmpty([a, d, c, j]) == d + " " + r2;
    } else {
      assert JoinNonEmpty([a, d, c, j]) == a + " " + (d + " " + r2);
    }
  }

  /** A class attribute with no other class source composes to itself. */
  lemma ClassAttributeAlone(attributes: map<string, AttrValue>)
    requires Clean(ClassAttribute(attributes))
    ensures ElementClass(attributes, "", "", []) == ClassAttribute(attributes)
  {
    ElementClassIsJoin(attributes, "", "", []);
    JoinFour(ClassAttribute(attributes), "", "", "");
  }

  /** A slice of the middle piece of `x + (m + y)`. */
  lemma SliceOfMiddle(x: string, m: string, y: string, a: nat, n: nat)
    requires a + n <= |m|
    ensures (x + (m + y))[|x| + a..|x| + a + n] == m[a..a + n]
  {
    assert (x + (m + y))[|x|..|x| + |m|] == m;
  }

  /** The untrimmed class string written out as its seven pieces. */
  lemma SpacedThree(attributes: map<string, AttrValue>, d: string, c: string, j: string)
    ensures Spaced(ClassSegments(attributes, d, c), j)
            == (ClassAttribute(attributes) + Sep("class" in attributes && ClassAttribute(attributes) != ""))
               + (d + (Sep(!Empty(d)) + (c + (Sep(!Empty(c)) + j))))
  {
    var ps := ClassSegments(attributes, d, c);
    assert ps[1..] == [(d, !Empty(d)), (c, !Empty(c))];
    assert ps[1..][1..] == [(c, !Empty(c))] && ps[1..][1..][1..] == [];
    assert Spaced(ps[1..][1..], j) == c + (Sep(!Empty(c)) + j);
    assert Spaced(ps[1..], j) == d + (Sep(!Empty(d)) + (c + (Sep(!Empty(c)) + j)));
  }

  /** `setDefaultClass(d)` and `setClass(c)` on any inputs: whenever neither
      is blank, the trimmed default class and the trimmed class both occur in
      the composed string, the default class first and not overlapping the
      class. */
  lemma DefaultBeforeClass(attributes: map<string, AttrValue>, defaultClass: string, cssClass: string,
                           addClasses: seq<string>) returns (i: nat, k: nat)
    requires Trim(defaultClass) != "" && Trim(cssClass) != ""
    ensures var r, td, tc := ElementClass(attributes, defaultClass, cssClass, addClasses),
                             Trim(defaultClass), Trim(cssClass);
            && i + |td| <= k && k + |tc| <= |r|
            && r[i..i + |td|] == td && r[k..k + |tc|] == tc
  {
    var d, c := defaultClass, cssClass;
    SpacedThree(attributes, d, c, Implode(addClasses));
    i, k := PiecesSurviveTrim(ClassAttribute(attributes) + Sep("class" in attributes && ClassAttribute(attributes) != ""),
                              d, Sep(!Empty(d)), c, Sep(!Empty(c)) + Implode(addClasses));
  }

  /** Two pieces of a string that are not blank survive trimming of the
      whole, trimmed themselves and in their order. */
  lemma PiecesSurviveTrim(x: string, d: string, m: string, c: string, y: string) returns (i: nat, k: nat)
    requires Trim(d) != "" && Trim(c) != ""
    ensures var r, td, tc := Trim(x + (d + (m + (c + y)))), Trim(d), Trim(c);
            && i + |td| <= k && k + |tc| <= |r|
            && r[i..i + |td|] == td && r[k..k + |tc|] == tc
  {
    var u := x + (d + (m + (c + y)));
    var id, ic := PiecePositions(x, d, m, c, y);
    i, k := KeptPieces(u, id, |Trim(d)|, ic, |Trim(c)|);
  }

  /** Where the trimmed pieces `d` and `c` sit in `x + d + m + c + y`, and
      that the first starts and the second ends with a non-trimmable
      character. */
  lemma PiecePositions(x: string, d: string, m: string, c: string, y: string) returns (id: nat, ic: nat)
    requires Trim(d) != "" && Trim(c) != ""
    ensures var u, td, tc := x + (d + (m + (c + y))), Trim(d), Trim(c);
            && id + |td| <= ic && ic + |tc| <= |u|
            && u[id..id + |td|] == td && u[ic..ic + |tc|] == tc
            && !IsTrimmable(u[id]) && !IsTrimmable(u[ic + |tc| - 1])
  {
    var u := x + (d + (m + (c + y)));
    var td, tc := Trim(d), Trim(c);
    var ad := TrimSlice(d);
    var ac := TrimSlice(c);
    var xc := x + d + m;
    assert u == xc + (c + y);
    SliceOfMiddle(x, d, m + (c + y), ad, |td|);
    SliceOfMiddle(xc, c, y, ac, |tc|);
    id, ic := |x| + ad, |xc| + ac;
    assert u[id] == td[0] && u[ic + |tc| - 1] == tc[|tc| - 1];
  }

  /** Two stretches of a string, the first starting and the second ending with
      a non-trimmable character, are both kept by trimming, in place. */
  lemma KeptPieces(u: string, id: nat, nd: nat, ic: nat, nc: nat) returns (i: nat, k: nat)
    requires 0 < nd && 0 < nc && id + nd <= ic && ic + nc <= |u|
    requires !IsTrimmable(u[id]) && !IsTrimmable(u[ic + nc - 1])
    ensures var r := Trim(u);
            && i + nd <= k && k + nc <= |r|
            && r[i..i + nd] == u[id..id + nd] && r[k..k + nc] == u[ic..ic + nc]
  {
    var p := TrimKeepsWindow(u, id, ic + nc);
    var r := Trim(u);
    i, k := id - p, ic - p;
    SliceOfSlice(u, p, p + |r|, i, i + nd);
    SliceOfSlice(u, p, p + |r|, k, k + nc);
  }

  /** A slice of a slice is a slice of the whole. */
  lemma SliceOfSlice(u: string, p: nat, q: nat, a: nat, b: nat)
    requires p <= q <= |u| && a <= b <= q - p
    ensures u[p..q][a..b] == u[p + a..p + b]
  {
    forall t | 0 <= t < b - a
      ensures u[p..q][a..b][t] == u[p + a..p + b][t]
    {
      assert u[p..q][a..b][t] == u[p + a + t];
    }
  }

  /** Whitespace inside the pieces is kept: a default class "x " and a class
      "y" compose to "x  y", with two spaces. */
  lemma PaddedDefaultClass()
    ensures ElementClass(map[], "x ", "y", []) == "x  y"
  {
    SpacedThree(map[], "x ", "y", "");
    assert Sep(!Empty("x ")) == " " && Sep(!Empty("y")) == " ";
    assert ("" + "") + ("x " + (" " + ("y" + (" " + "")))) == "x  y" + " ";
    TrimTrailingSpace("x  y");
  }

  /** The concrete case: default class "x" and class "y" compose to "x y". */
  lemma DefaultThenClass()
    ensures ElementClass(map[], "x", "y", []) == "x y"
  {
    DefaultClassKept(map[], "x", "y", []);
  }

  /** PHP's `empty("0")`: a default class "0" gets no separator, so it fuses
      with the class that follows it. */
  lemma ZeroDefaultClassFuses()
    ensures ElementClass(map[], "0", "y", []) == "0y"
  {
    var ps := ClassSegments(map[], "0", "y");
    assert ps == [("", false), ("0", false), ("y", true)];
    assert ps[1..] == [("0", false), ("y", true)] && ps[1..][1..] == [("y", true)] && ps[1..][1..][1..] == [];
    assert Spaced(ps, "") == "0y" + " ";
    TrimTrailingSpace("0y");
  }

  /* ---------------------------------------------------------------------
   * addClass
   * ------------------------------------------------------------------- */

  /** The class after `addClass(c)`: the old class, a space unless the old
      class is PHP-empty, then `c`. */
  function AppendClass(cssClass: string, c: string): string {
    cssClass + (if Empty(cssClass) then "" else " ") + c
  }

  /** The class after `addClass` of each of `cs` in turn, from an empty class. */
  function AppendAll(cs: seq<string>): string
    decreases |cs|
  {
    if cs == [] then "" else AppendClass(AppendAll(cs[..|cs| - 1]), cs[|cs| - 1])
  }

  /** Adding classes one by one to an empty class gives them space-joined in
      call order, as long as none of them is PHP-empty. */
  lemma {:induction false} AppendAllIsImplode(cs: seq<string>)
    requires forall i :: 0 <= i < |cs| ==> !Empty(cs[i])
    ensures AppendAll(cs) == Implode(cs)
    decreases |cs|
  {
    if cs != [] {
      var init, x := cs[..|cs| - 1], cs[|cs| - 1];
      AppendAllIsImplode(init);
      ImplodeAppend(init, x);
      assert init + [x] == cs;
      if init != [] {
        assert !Empty(init[0]);
        assert !Empty(Implode(init));
      }
    }
  }

  /** `addClass("a")` then `addClass("b")` on an empty class gives "a b". */
  lemma AddClassTwice()
    ensures AppendClass(AppendClass("", "a"), "b") == "a b"
  {
    assert AppendClass("", "a") == "a";
    assert !Empty("a");
  }

  /** With PHP's `empty()`, a class "0" takes no separator before the next one. */
  lemma AddClassAfterZero()
    ensures AppendClass("0", "b") == "0b"
  {
  }

  /* ---------------------------------------------------------------------
   * What render() computes
   * ------------------------------------------------------------------- */

  /** The attribute table after render writes the composed class (when
      non-empty) and the title (when set) into it. */
  function ComposedAttributes(attributes: map<string, AttrValue>, cls: string, title: Option<string>)
    : (r: map<string, AttrValue>)
    ensures r.Keys == attributes.Keys + (if cls != "" then {"class"} else {})
                      + (if title.Some? then {"title"} else {})
    ensures cls != "" ==> r["class"] == Str(cls)
    ensures title.Some? ==> r["title"] == Str(title.value)
    ensures forall k :: k in attributes && (k != "class" || cls == "") && (k != "title" || title.None?)
                        ==> r[k] == attributes[k]
  {
    var a := if |cls| > 0 then attributes["class" := Str(cls)] else attributes;
    if title.Some? then a["title" := Str(title.value)] else a
  }

  /** A one-child node `<tag class="cls">`, as render builds for span and icon. */
  function Ornament(tag: string, cls: string): Child {
    Node(HtmlData(Some(tag), map["class" := Str(cls)], map[], []))
  }

  /** The child render appends: a span if one is requested, else an icon if
      one is requested, else nothing. */
  function Decoration(spanClass: Option<string>, iconClass: Option<string>): seq<Child> {
    if spanClass.Some? then [Ornament("span", spanClass.value)]
    else if iconClass.Some? then [Ornament("i", iconClass.value)]
    else []
  }

  /** The configuration `render()` leaves behind. */
  function RenderConfig(c: Config): (r: Config)
    ensures c.hideElement ==> r == c
    ensures r.(attributes := c.attributes, spanClass := c.spanClass, iconClass := c.iconClass) == c
    ensures !c.hideElement ==>
              var cls := ElementClass(c.attributes, c.defaultClass, c.cssClass, c.addClasses);
              && r.attributes.Keys == c.attributes.Keys + (if cls != "" then {"class"} else {})
                                      + (if c.title.Some? then {"title"} else {})
              && (cls != "" ==> "class" in r.attributes && r.attributes["class"] == Str(cls))
              && (c.title.Some? ==> "title" in r.attributes && r.attributes["title"] == Str(c.title.value))
              && (forall k :: k in c.attributes && k != "class" && k != "title" ==>
                                k in r.attributes && r.attributes[k] == c.attributes[k])
              && r.spanClass.None?
              && r.iconClass == (if c.spanClass.Some? then c.iconClass else None)
  {
    if c.hideElement then c
    else
      var cls := ElementClass(c.attributes, c.defaultClass, c.cssClass, c.addClasses);
      c.(attributes := ComposedAttributes(c.attributes, cls, c.title),
         spanClass := None,
         iconClass := if c.spanClass.Some? then c.iconClass else None)
  }

  /** The node after `render()` has written configuration `c` onto node `e`. */
  function RenderElement(e: HtmlData, c: Config): (r: HtmlData)
    ensures c.hideElement ==> r == e
    ensures !c.hideElement ==>
              var a := RenderConfig(c).attributes;
              && r.name == (if c.elName.Some? then c.elName else e.name)
              && r.attrs.Keys == e.attrs.Keys + a.Keys
              && (forall k :: k in a ==> r.attrs[k] == a[k])
              && (forall k :: k in e.attrs && k !in a ==> r.attrs[k] == e.attrs[k])
              && r.data.Keys == e.data.Keys + c.dataAttributes.Keys
              && (forall k :: k in c.dataAttributes ==> r.data[k] == c.dataAttributes[k])
              && (forall k :: k in e.data && k !in c.dataAttributes ==> r.data[k] == e.data[k])
              && r.children == (if c.textContent.Some? then [Text(c.textContent.value)] else e.children)
                               + Decoration(c.spanClass, c.iconClass)
  {
    if c.hideElement then e
    else
      HtmlData(if c.elName.Some? then c.elName else e.name,
               Overwrite(e.attrs, RenderConfig(c).attributes),
               Overwrite(e.data, c.dataAttributes),
               (if c.textContent.Some? then [Text(c.textContent.value)] else e.children)
               + Decoration(c.spanClass, c.iconClass))
  }

  /** Render is not idempotent: the class written into the attribute table is
      read back by the next render, so a second render repeats the class. */
  lemma RerenderRepeatsClass(c: Config)
    requires !c.hideElement && "class" !in c.attributes
    requires c.defaultClass == "" && c.addClasses == []
    requires Clean(c.cssClass) && !Empty(c.cssClass)
    ensures "class" in RenderConfig(c).attributes && RenderConfig(c).attributes["class"] == Str(c.cssClass)
    ensures RenderConfig(RenderConfig(c)).attributes["class"] == Str(c.cssClass + " " + c.cssClass)
  {
    var cls := c.cssClass;
    ElementClassIsJoin(c.attributes, "", cls, []);
    assert [ClassAttribute(c.attributes), "", cls, Implode([])] == ["", "", cls, ""];
    JoinFour("", "", cls, "");
    var c1 := RenderConfig(c);
    assert ClassAttribute(c1.attributes) == cls;
    ElementClassIsJoin(c1.attributes, "", cls, []);
    JoinFour(cls, "", cls, "");
  }

  /* ---------------------------------------------------------------------
   * The element
   * ------------------------------------------------------------------- */

  class BaseElement {
    /** The markup node render writes onto; `cache` may refer to the same node. */
    var element: Html
    var elName: Option<string>
    var attributes: map<string, AttrValue>
    var dataAttributes: map<string, string>
    var textContent: Option<string>
    /** `$class` in the source. */
    var cssClass: string
    /** `$addClass` in the source. */
    var addClasses: seq<string>
    var defaultClass: string
    var spanClass: Option<string>
    var iconClass: Option<string>
    var title: Option<string>
    var hideElement: bool
    /** `$render`: the node of the last render that was not hidden. */
    var cache: Option<Html>

    function State(): Config
      reads this
    {
      Config(elName, attributes, dataAttributes, textContent, cssClass, addClasses, defaultClass,
             spanClass, iconClass, title, hideElement)
    }

    constructor (elName: Option<string>, attributes: Option<map<string, AttrValue>>, textContent: Option<string>)
      ensures State() == Config(elName, if attributes.Some? then attributes.value else map[], map[],
                                textContent, "", [], "", None, None, None, false)
      ensures fresh(element) && element.Value() == Blank(elName)
      ensures cache == None
    {
      this.attributes := if attributes.Some? then attributes.value else map[];
      this.textContent := textContent;
      this.elName := elName;
      dataAttributes := map[];
      cssClass := "";
      addClasses := [];
      defaultClass := "";
      spanClass := None;
      iconClass := None;
      title := None;
      hideElement := false;
      cache := None;
      element := new Html.El(elName);
    }

    /** `render()`: nothing at all when hidden; otherwise the composed class
        and the title go into the attribute table, both tables are copied
        onto the node, the text replaces its children, the span (or else the
        icon) is appended and consumed, and the node is cached. */
    method Render() returns (r: Option<Html>)
      modifies this, element
      ensures element == old(element)
      ensures State() == RenderConfig(old(State()))
      ensures element.Value() == RenderElement(old(element.Value()), old(State()))
      ensures r == (if old(hideElement) then None else Some(element))
      ensures cache == (if old(hideElement) then old(cache) else Some(element))
      ensures old(hideElement) ==> unchanged(this) && unchanged(element)
    {
      if hideElement {
        return None;
      }
      RenderVisible();
      r := Some(element);
    }

    /** `render()` past its hidden check. */
    method RenderVisible()
      requires !hideElement
      modifies this`attributes, this`spanClass, this`iconClass, this`cache,
               element`name, element`attrs, element`data, element`children
      ensures State() == RenderConfig(old(State()))
      ensures element.Value() == RenderElement(old(element.Value()), old(State()))
      ensures cache == Some(element)
    {
      ghost var c := State();
      WriteClassAndTitle();
      assert attributes == RenderConfig(c).attributes;
      WriteNode();
      ConsumeOrnament();
      cache := Some(element);
    }

    /** The steps of `render()` that write the configuration onto the node:
        the name when one is set, every attribute, every data attribute, and
        the text when one is set. */
    method WriteNode()
      modifies element`name, element`attrs, element`data, element`children
      ensures element.name == if elName.Some? then elName else old(element.name)
      ensures element.attrs == Overwrite(old(element.attrs), attributes)
      ensures element.data == Overwrite(old(element.data), dataAttributes)
      ensures element.children == if textContent.Some? then [Text(textContent.value)] else old(element.children)
    {
      if elName.Some? {
        element.SetName(elName.value);
      }
      CopyAttributes();
      CopyDataAttributes();
      if textContent.Some? {
        element.SetText(textContent.value);
      }
    }

    /** The step of `render()` that puts the composed class (when non-empty)
        and the title (when set) into the attribute table. */
    method WriteClassAndTitle()
      modifies this`attributes
      ensures attributes == ComposedAttributes(old(attributes),
                                               ElementClass(old(attributes), defaultClass, cssClass, addClasses), title)
      ensures State() == old(State()).(attributes := attributes)
    {
      var cls := GetElementClass();
      if |cls| > 0 {
        attributes := attributes["class" := Str(cls)];
      }
      if title.Some? {
        attributes := attributes["title" := Str(title.value)];
      }
    }

    /** The step of `render()` that appends the requested span, or else the
        requested icon, and clears that request. */
    method ConsumeOrnament()
      modifies this`spanClass, this`iconClass, element`children
      ensures element.children == old(element.children) + Decoration(old(spanClass), old(iconClass))
      ensures spanClass.None?
      ensures iconClass == if old(spanClass).Some? then old(iconClass) else None
      ensures State() == old(State()).(spanClass := spanClass, iconClass := iconClass)
      ensures element.Value() == old(element.Value()).(children := element.children)
    {
      if spanClass.Some? {
        element.AddHtml(Ornament("span", spanClass.value));
        spanClass := None;
      } else if iconClass.Some? {
        element.AddHtml(Ornament("i", iconClass.value));
        iconClass := None;
      }
    }

    /** The loop of `render()` that sets every attribute on the node. */
    method CopyAttributes()
      modifies element`attrs
      ensures element.attrs == Overwrite(old(element.attrs), attributes)
    {
      var todo := attributes.Keys;
      while todo != {}
        invariant todo <= attributes.Keys
        invariant element.attrs.Keys == old(element.attrs).Keys + (attributes.Keys - todo)
        invariant forall k :: k in attributes && k !in todo ==> element.attrs[k] == attributes[k]
        invariant forall k :: k in old(element.attrs) && (k !in attributes || k in todo) ==> element.attrs[k] == old(element.attrs)[k]
        decreases todo
      {
        var k :| k in todo;
        element.SetAttribute(k, attributes[k]);
        todo := todo - {k};
      }
    }

    /** The loop of `render()` that sets every data attribute on the node. */
    method CopyDataAttributes()
      modifies element`data
      ensures element.data == Overwrite(old(element.data), dataAttributes)
    {
      var todo := dataAttributes.Keys;
      while todo != {}
        invariant todo <= dataAttributes.Keys
        invariant element.data.Keys == old(element.data).Keys + (dataAttributes.Keys - todo)
        invariant forall k :: k in dataAttributes && k !in todo ==> element.data[k] == dataAttributes[k]
        invariant forall k :: k in old(element.data) && (k !in dataAttributes || k in todo) ==> element.data[k] == old(element.data)[k]
        decreases todo
      {
        var k :| k in todo;
        element.Data(k, dataAttributes[k]);
        todo := todo - {k};
      }
    }

    /** `renderImmutable()`: a fresh node with no name, then `render()`. */
    method RenderImmutable() returns (r: Option<Html>)
      modifies this
      ensures fresh(element)
      ensures State() == RenderConfig(old(State()))
      ensures element.Value() == RenderElement(Blank(None), old(State()))
      ensures r == (if old(hideElement) then None else Some(element))
      ensures cache == (if old(hideElement) then old(cache) else Some(element))
    {
      element := new Html.El(None);
      r := Render();
    }

    /** `$this->render ?? $this->render()`: the cached node if there is one,
        without rendering; otherwise the result of a render. */
    method RenderCached() returns (h: Option<Html>)
      modifies this, element
      ensures h == cache
      ensures old(cache).Some? ==> unchanged(this) && unchanged(element)
      ensures old(cache).None? ==>
                && element == old(element)
                && cache == (if old(hideElement) then None else Some(element))
                && State() == RenderConfig(old(State()))
                && element.Value() == RenderElement(old(element.Value()), old(State()))
    {
      if cache.Some? {
        h := cache;
      } else {
        h := Render();
      }
    }

    /** `renderStartTag()`: the start tag of the cached node, rendering first
        only when nothing is cached; None when that render was hidden. */
    method RenderStartTag(startTag: HtmlData -> string) returns (r: Option<string>)
      modifies this, element
      ensures old(cache).Some? ==> unchanged(this) && unchanged(element)
      ensures old(cache).None? ==>
                && element == old(element)
                && State() == RenderConfig(old(State()))
                && element.Value() == RenderElement(old(element.Value()), old(State()))
      ensures r == (if cache.Some? then Some(startTag(cache.value.Value())) else None)
      ensures old(cache).None? && old(hideElement) ==> r == None
    {
      var h := RenderCached();
      r := if h.Some? then Some(startTag(h.value.Value())) else None;
    }

    /** `renderEndTag()`: as `renderStartTag()`, with the end tag. */
    method RenderEndTag(endTag: HtmlData -> string) returns (r: Option<string>)
      modifies this, element
      ensures old(cache).Some? ==> unchanged(this) && unchanged(element)
      ensures old(cache).None? ==>
                && element == old(element)
                && State() == RenderConfig(old(State()))
                && element.Value() == RenderElement(old(element.Value()), old(State()))
      ensures r == (if cache.Some? then Some(endTag(cache.value.Value())) else None)
      ensures old(cache).None? && old(hideElement) ==> r == None
    {
      var h := RenderCached();
      r := if h.Some? then Some(endTag(h.value.Value())) else None;
    }

    /** `addHtml($c)`: one more child on the node. */
    method AddHtml(c: Child)
      modifies element`children
      ensures element.children == old(element.children) + [c]
    {
      element.AddHtml(c);
    }

    method GetElementClass() returns (r: string)
      ensures r == ElementClass(attributes, defaultClass, cssClass, addClasses)
    {
      r := ElementClass(attributes, defaultClass, cssClass, addClasses);
    }

    method SetAddClass(addClasses: seq<string>)
      modifies this`addClasses
      ensures this.addClasses == addClasses
    {
      this.addClasses := addClasses;
    }

    method SetDefaultClass(defaultClass: string)
      modifies this`defaultClass
      ensures this.defaultClass == defaultClass
    {
      this.defaultClass := defaultClass;
    }

    method SetIconClass(iconClass: Option<string>)
      modifies this`iconClass
      ensures this.iconClass == iconClass
    {
      this.iconClass := iconClass;
    }

    method SetSpanClass(spanClass: Option<string>)
      modifies this`spanClass
      ensures this.spanClass == spanClass
    {
      this.spanClass := spanClass;
    }

    method SetElName(elName: Option<string>)
      modifies this`elName
      ensures this.elName == elName
    {
      this.elName := elName;
    }

    /** `setAttributes($m)`: the whole table is replaced. */
    method SetAttributes(m: map<string, AttrValue>)
      modifies this`attributes
      ensures attributes == m
    {
      attributes := m;
    }

    /** `setAttribute($k, $v)`: one key is written, every other key is kept. */
    method SetAttribute(k: string, v: string)
      modifies this`attributes
      ensures attributes == Overwrite(old(attributes), map[k := Str(v)])
    {
      attributes := attributes[k := Str(v)];
    }

    /** `addAttributes($m)`: the keys of `m` are overwritten, every other key is kept. */
    method AddAttributes(m: map<string, AttrValue>)
      modifies this`attributes
      ensures attributes == Overwrite(old(attributes), m)
    {
      var todo := m.Keys;
      while todo != {}
        invariant todo <= m.Keys
        invariant attributes.Keys == old(attributes).Keys + (m.Keys - todo)
        invariant forall k :: k in m && k !in todo ==> attributes[k] == m[k]
        invariant forall k :: k in old(attributes) && (k !in m || k in todo) ==> attributes[k] == old(attributes)[k]
        decreases todo
      {
        var k :| k in todo;
        attributes := attributes[k := m[k]];
        todo := todo - {k};
      }
    }

    method SetTextContent(textContent: Option<string>)
      modifies this`textContent
      ensures this.textContent == textContent
    {
      this.textContent := textContent;
    }

    /** `setClass($c)`: replaces the class; the default class is a separate field. */
    method SetClass(c: string)
      modifies this`cssClass
      ensures cssClass == c
    {
      cssClass := c;
    }

    /** `addClass($c)`: appends to the class, with a space unless the class is PHP-empty. */
    method AddClass(c: string)
      modifies this`cssClass
      ensures cssClass == AppendClass(old(cssClass), c)
      ensures !Empty(old(cssClass)) ==> cssClass == old(cssClass) + " " + c
      ensures old(cssClass) == "" ==> cssClass == c
    {
      cssClass := cssClass + (if Empty(cssClass) then "" else " ") + c;
    }

    method SetTitle(title: Option<string>)
      modifies this`title
      ensures this.title == title
    {
      this.title := title;
    }

    /** `setDataAttributes($m)`: the whole data table is replaced. */
    method SetDataAttributes(m: map<string, string>)
      modifies this`dataAttributes
      ensures dataAttributes == m
    {
      dataAttributes := m;
    }

    /** `setDataAttribute($k, $v)`: one key is written, every other key is kept. */
    method SetDataAttribute(k: string, v: string)
      modifies this`dataAttributes
      ensures dataAttributes == Overwrite(old(dataAttributes), map[k := v])
    {
      dataAttributes := dataAttributes[k := v];
    }

    /** `addDataAttributes($m)`: the keys of `m` are overwritten, every other key is kept. */
    method AddDataAttributes(m: map<string, string>)
      modifies this`dataAttributes
      ensures dataAttributes == Overwrite(old(dataAttributes), m)
    {
      var todo := m.Keys;
      while todo != {}
        invariant todo <= m.Keys
        invariant dataAttributes.Keys == old(dataAttributes).Keys + (m.Keys - todo)
        invariant forall k :: k in m && k !in todo ==> dataAttributes[k] == m[k]
        invariant forall k :: k in old(dataAttributes) && (k !in m || k in todo) ==> dataAttributes[k] == old(dataAttributes)[k]
        decreases todo
      {
        var k :| k in todo;
        dataAttributes := dataAttributes[k := m[k]];
        todo := todo - {k};
      }
    }

    method SetHidden(hidden: bool := true)
      modifies this`hideElement
      ensures hideElement == hidden
    {
      hideElement := hidden;
    }

    method IsHidden() returns (r: bool)
      ensures r == hideElement
    {
      r := hideElement;
    }
  }
}
