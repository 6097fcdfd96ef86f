# HTML element builder, modelled in Dafny

This project models the PHP library `e2221\HtmElement`, a small builder for
HTML elements on top of the Nette `Html` node. It has three pieces:

- **`BaseElement`** (`base_element.dfy`, module `Elements`). This is a mutable
  object. It holds:
  - a tag name, an attribute table and a data-attribute table;
  - a text content;
  - three class sources: the class, the list of added classes and the
    default class;
  - a title and a hidden flag;
  - one-shot requests for a child `<span>` or `<i>`;
  - the node of its last render.

  `render()` writes the composed class and the title back into the attribute
  table. It then copies both tables onto the node, replaces the node's
  children by the text when a text is set, appends and clears the span
  request (or else the icon request), and caches the node. A hidden element
  renders to nothing and touches nothing. `renderStartTag()` and
  `renderEndTag()` render only when nothing is cached, so an element hidden
  after a render still hands out the cached node's start and end tags.
- **`HrefElement`** (`href_element.dfy`, module `Links`). This is the anchor.
  Its tag is always `a`. Its link is `#` until `setHref` sets it, and at render
  time the link becomes the node's href when the node has none. It has setters
  for `target="_blank"` and for a confirmation script stored under an event
  attribute.
- **`Confirmation`** (`confirmation.dfy`, module `Confirmations`). This is a
  value that prints as `return confirm('<message>');`, with the message
  inserted verbatim.

The Nette node is modelled in `html.dfy` (module `NetteHtml`) as a class
`Html`. Its parts are a name, an attribute table, a data table and a list of
children. Its operations are plain updates of them. Because the node is an
object, the render cache and the element refer to the same node, as in PHP.

The PHP built-ins the code relies on are written out with PHP's semantics in
`php.dfy` (module `Php`):
- `ltrim` and `rtrim` strip space, tab, line feed, carriage return, NUL and
  vertical tab;
- `implode(' ', …)`;
- `empty()` on a string is true of `""` and of `"0"`;
- `$a[$k] = $v` over a table.

Inheritance is modelled by composition. `HrefElement` holds its
`BaseElement`. Its `Render` stands for the overriding `render()`. It has its
own `RenderCached`, `RenderStartTag`, `RenderEndTag` and `RenderImmutable`,
because the base versions call `$this->render()`, which PHP dispatches to the
override.

Repeated rendering is not idempotent in the code. `render()` stores the
composed class in the attribute table, and the next render reads it back as
the class attribute. So an element with a class `c` carries `c` after one
render and `c c` after two (`Elements.RerenderRepeatsClass`).

A hidden anchor's render still sets the default href on its node. The
override runs before the base render's hidden check.

Serialisation is passed in as function parameters: the start and end tags
(`startTag: HtmlData -> string`) and the encoding of a query string.

## Model

| member | source | states |
|---|---|---|
| `Php.LTrim` | src/BaseElement.php:253 | `ltrim` with PHP's default character list; its properties are `Php.LTrimSpec` |
| `Php.RTrim` | src/BaseElement.php:253 | `rtrim` with PHP's default character list; its properties are `Php.RTrimSpec` |
| `Php.Empty` | src/BaseElement.php:257 | PHP's `empty()` on a string, true of `""` and `"0"`, as also used at lines 259 and 394 |
| `Php.LTrimSpec` | src/BaseElement.php:253 | `ltrim` removes a prefix, all of whose characters are trimmable, and leaves a string that starts with a non-trimmable character or is empty |
| `Php.RTrimSpec` | src/BaseElement.php:253 | `rtrim` removes a suffix, all of whose characters are trimmable, and leaves a string that ends with a non-trimmable character or is empty |
| `Php.Trim` | src/BaseElement.php:253 | `rtrim(ltrim(s))` has no trimmable character at either end, is no longer than `s`, and is `s` itself when `s` has none there |
| `Php.TrimSlice` | src/BaseElement.php:253 | `rtrim(ltrim(s))` is one slice of `s`, and every character outside it is trimmable |
| `Php.TrimKeepsWindow` | src/BaseElement.php:253 | a stretch that starts and ends with a non-trimmable character lies wholly inside that slice |
| `Php.TrimTrailingSpace` | src/BaseElement.php:253 | trimming a clean non-empty string followed by one space gives the string back |
| `Php.Implode` | src/BaseElement.php:260 | `implode(' ', xs)` starts with `xs[0]`, and is empty exactly when there are no pieces or a single empty one |
| `Php.ImplodeAppend` | src/BaseElement.php:260 | joining one more piece appends a space and that piece (or gives the piece alone after no pieces) |
| `Php.Overwrite` | src/BaseElement.php:358-363 | assigning every entry of `m` into a table: the keys are the union, the keys of `m` take `m`'s value, every other key keeps its value |
| `Confirmations.Confirmation.ToString` | src/Confirmation.php:17-25 | the string is `return confirm('`, every character of the message verbatim, then `');`, so its length is the message's plus 19 |
| `Confirmations.ParseConfirmation` | src/Confirmation.php:19 | a string is recognised exactly when it has the fixed prefix and suffix, and the message found is 19 characters shorter |
| `Confirmations.ParseToString` | src/Confirmation.php:19 | stripping prefix and suffix from a confirmation's string gives back its message, whatever characters it holds |
| `Confirmations.ToStringParse` | src/Confirmation.php:19 | every string of the confirmation shape is the string of the message between prefix and suffix |
| `Confirmations.ToStringInjective` | src/Confirmation.php:9-15 | distinct messages print as distinct strings |
| `Confirmations.ExampleConfirmation` | example/example.php:15 | the message `aaa` prints as `return confirm('aaa');` |
| `Confirmations.QuotePassesThrough` | src/Confirmation.php:19 | an embedded single quote is not escaped |
| `NetteHtml.AttrValue.ToString` | src/Confirmation.php:22-25 | a plain value prints as itself; a confirmation prints as a string that parses back to its message |
| `NetteHtml.WithQuery` | src/HrefElement.php:49 | the href starts with the path; it is the path exactly when the query is empty or encodes to nothing, and otherwise the path, `?` and the encoded query |
| `NetteHtml.Html.El` | src/BaseElement.php:54 | `Html::el($name)` is a node with that name and nothing else |
| `NetteHtml.Html.SetName` | src/BaseElement.php:91 | the node gets the name |
| `NetteHtml.Html.SetAttribute` | src/BaseElement.php:103 | one attribute of the node is written |
| `NetteHtml.Html.Data` | src/BaseElement.php:107 | one data attribute of the node is written |
| `NetteHtml.Html.SetText` | src/BaseElement.php:111 | the text replaces every child of the node |
| `NetteHtml.Html.AddHtml` | src/BaseElement.php:207 | one child is appended to the node |
| `NetteHtml.Html.Href` | src/HrefElement.php:49 | the node's href becomes the path with its query |
| `Elements.ClassAttribute` | src/BaseElement.php:254 | the first `sprintf` argument: the class attribute as a string, or `""` when there is none |
| `Elements.ClassSegments` | src/BaseElement.php:254-259 | the class attribute, the default class and the class, each with whether a space follows it (`!= ''` for the first, `empty()` for the others) |
| `Elements.Spaced` | src/BaseElement.php:253-260 | the `sprintf('%s%s…')`: each piece and its separator in order, then the joined added classes |
| `Elements.ElementClass` | src/BaseElement.php:251-262 | the composed class string has no trimmable character at either end |
| `Elements.Firsts` | src/BaseElement.php:253-260 | the class pieces without their separator flags, in order |
| `Elements.JoinNonEmpty` | src/BaseElement.php:251-262 | reference reading of the class string, the non-empty segments joined by single spaces; it is empty exactly when every segment is |
| `Elements.SpacedIsJoin` | src/BaseElement.php:253-261 | when each piece is clean and is followed by a space exactly when it is non-empty, the untrimmed string is the reference join plus at most one trailing space |
| `Elements.TrimJoined` | src/BaseElement.php:253 | trimming removes exactly that trailing space |
| `Elements.ElementClassIsJoin` | src/BaseElement.php:251-262 | with clean segments and neither default class nor class equal to `"0"`, `getElementClass()` is the join of the class attribute, the default class, the class and the added classes, in that order, empty segments skipped |
| `Elements.ClassAttributeAlone` | src/BaseElement.php:254-255 | a clean class attribute with no other class source composes to itself |
| `Elements.DefaultClassKept` | src/BaseElement.php:256-258 | with clean segments and a default class and a class that are both non-empty and not `"0"`, the composed string is exactly the class attribute (and a space), the default class, one space, the class, then (a space and) the added classes |
| `Elements.SpacedThree` | src/BaseElement.php:253-261 | the untrimmed class string is the seven `sprintf` arguments in order |
| `Elements.SliceOfMiddle` | src/BaseElement.php:253-261 | a piece of the `sprintf` result can be read back at its offset |
| `Elements.SliceOfSlice` | src/BaseElement.php:253 | a slice of the trimmed slice is the same stretch of the untrimmed string |
| `Elements.PiecePositions` | src/BaseElement.php:253-261 | where the trimmed default class and trimmed class sit in the untrimmed string, bounded by non-trimmable characters |
| `Elements.KeptPieces` | src/BaseElement.php:253 | two stretches bounded by non-trimmable characters survive `rtrim(ltrim())` in place and in order |
| `Elements.PiecesSurviveTrim` | src/BaseElement.php:253-261 | two non-blank pieces of a concatenation appear, trimmed, in order and apart, in the trimmed whole |
| `Elements.DefaultBeforeClass` | src/BaseElement.php:256-258 | on all inputs, whenever the default class and the class are not blank, both occur trimmed in the composed string, the default class first and not overlapping the class |
| `Elements.PaddedDefaultClass` | src/BaseElement.php:253-261 | inner whitespace is kept: default class `"x "` and class `"y"` compose to `x  y` |
| `Elements.DefaultThenClass` | src/BaseElement.php:280-284 | default class `x` and class `y` compose to `x y` |
| `Elements.ZeroDefaultClassFuses` | src/BaseElement.php:257 | a default class `"0"` is PHP-empty, so it takes no separator: `"0"` and `"y"` compose to `0y` |
| `Elements.AppendClass` | src/BaseElement.php:394 | the class after `addClass(c)`: the old class, a space unless it is PHP-empty, then `c` |
| `Elements.AppendAllIsImplode` | src/BaseElement.php:392-396 | `addClass` of each of a list of non-empty classes, from an empty class, gives them space-joined in call order |
| `Elements.AddClassTwice` | src/BaseElement.php:392-396 | `addClass("a")` then `addClass("b")` from empty gives `a b` |
| `Elements.AddClassAfterZero` | src/BaseElement.php:394 | after a class `"0"` no separator is inserted |
| `Elements.ComposedAttributes` | src/BaseElement.php:94-99 | the table gains exactly `class` (when the composed class is non-empty) and `title` (when set), with those values, and keeps every other entry |
| `Elements.Ornament` | src/BaseElement.php:114-115 | the child `<span>` or `<i>` whose only attribute is its class |
| `Elements.Decoration` | src/BaseElement.php:113-123 | the span child when one is requested, else the icon child when one is requested, else nothing |
| `Elements.RenderConfig` | src/BaseElement.php:83-125 | a hidden render changes no field; otherwise the attribute table gains the composed class and the title and keeps every other key, the span request is cleared, the icon request is cleared only when there was no span request, and nothing else changes |
| `Elements.RenderElement` | src/BaseElement.php:90-123 | the node takes the element's name when set, every attribute and every data attribute of the tables (other keys keep their values), the text in place of its children, then the span or else the icon child |
| `Elements.RerenderRepeatsClass` | src/BaseElement.php:94-96 | a class `c` is written as `c` by the first render and as `c c` by the second |
| `Elements.BaseElement.constructor` | src/BaseElement.php:49-55 | the given name, table and text (an absent table is empty), every other field at its default, a fresh node with that name, nothing cached |
| `Elements.BaseElement.Render` | src/BaseElement.php:83-125 | a hidden element returns nothing and changes neither itself nor its node; otherwise the fields become `RenderConfig` of the old fields, the node becomes `RenderElement` of the old node, and the node is returned and cached |
| `Elements.BaseElement.RenderVisible` | src/BaseElement.php:90-124 | the render past its hidden check, stated as above |
| `Elements.BaseElement.WriteNode` | src/BaseElement.php:90-111 | the name, both tables and the text are written onto the node |
| `Elements.BaseElement.WriteClassAndTitle` | src/BaseElement.php:94-99 | the attribute table becomes `ComposedAttributes` of the composed class and the title; no other field changes |
| `Elements.BaseElement.ConsumeOrnament` | src/BaseElement.php:113-123 | a span request is appended and cleared, leaving the icon request; only without one is an icon request appended and cleared |
| `Elements.BaseElement.CopyAttributes` | src/BaseElement.php:102-104 | after the loop, every attribute is on the node with its value and the node's other attributes are kept |
| `Elements.BaseElement.CopyDataAttributes` | src/BaseElement.php:106-108 | after the loop, every data attribute is on the node with its value and the node's other data attributes are kept |
| `Elements.BaseElement.RenderImmutable` | src/BaseElement.php:73-77 | a fresh unnamed node, then a render onto it |
| `Elements.BaseElement.RenderCached` | src/BaseElement.php:133 | a cached node is returned with nothing changed; otherwise the result of a render |
| `Elements.BaseElement.RenderStartTag` | src/BaseElement.php:131-139 | the start tag of the cached node, rendering only when nothing is cached; nothing when that render was hidden |
| `Elements.BaseElement.RenderEndTag` | src/BaseElement.php:150-158 | the end tag of the cached node, with the same cache rule |
| `Elements.BaseElement.AddHtml` | src/BaseElement.php:205-209 | one child is appended to the node |
| `Elements.BaseElement.GetElementClass` | src/BaseElement.php:251-262 | returns `ElementClass` of the current fields |
| `Elements.BaseElement.SetAddClass` | src/BaseElement.php:269-273 | the added-class list is replaced |
| `Elements.BaseElement.SetDefaultClass` | src/BaseElement.php:280-284 | the default class is replaced |
| `Elements.BaseElement.SetIconClass` | src/BaseElement.php:291-295 | the icon request is replaced |
| `Elements.BaseElement.SetSpanClass` | src/BaseElement.php:302-306 | the span request is replaced |
| `Elements.BaseElement.SetElName` | src/BaseElement.php:324-328 | the tag name is replaced |
| `Elements.BaseElement.SetAttributes` | src/BaseElement.php:335-339 | the whole attribute table is replaced |
| `Elements.BaseElement.SetAttribute` | src/BaseElement.php:347-351 | one key is written and every other key is kept |
| `Elements.BaseElement.AddAttributes` | src/BaseElement.php:358-363 | the keys of the argument are overwritten and every other key is kept |
| `Elements.BaseElement.SetTextContent` | src/BaseElement.php:370-374 | the text is replaced |
| `Elements.BaseElement.SetClass` | src/BaseElement.php:381-385 | the class is replaced; the default class is a separate field and stays |
| `Elements.BaseElement.AddClass` | src/BaseElement.php:392-396 | an empty class becomes `c`; a class that is not PHP-empty becomes the old class, a space and `c` |
| `Elements.BaseElement.SetTitle` | src/BaseElement.php:403-407 | the title is replaced |
| `Elements.BaseElement.SetDataAttributes` | src/BaseElement.php:414-418 | the whole data table is replaced |
| `Elements.BaseElement.SetDataAttribute` | src/BaseElement.php:426-430 | one data key is written and every other key is kept |
| `Elements.BaseElement.AddDataAttributes` | src/BaseElement.php:437-442 | the keys of the argument are overwritten in the data table and every other key is kept |
| `Elements.BaseElement.SetHidden` | src/BaseElement.php:449-453 | the hidden flag is set, to true by default |
| `Elements.BaseElement.IsHidden` | src/BaseElement.php:459-462 | reports the hidden flag |
| `Links.WithDefaultHref` | src/HrefElement.php:25-26 | a node with an href is left alone; one without gets the link as its href; nothing else changes |
| `Links.RenderedHref` | src/HrefElement.php:23-28 | after an anchor render the node's href is the attribute table's `href` if there is one, else the href the node already had, else the stored link, and a hidden render still sets the default |
| `Links.ConfirmationRendered` | src/HrefElement.php:73-77 | a confirmation stored under an attribute key reaches the node under that key and prints as `return confirm('<message>');` |
| `Links.HrefElement.constructor` | src/HrefElement.php:18-21 | the tag name passed in is ignored and the node is an `a`; the link is `#` and the target flag is off |
| `Links.HrefElement.Render` | src/HrefElement.php:23-28 | the stored link becomes the node's href only when the node has none, then the base render runs |
| `Links.HrefElement.RenderImmutable` | src/BaseElement.php:73-77 | a fresh unnamed node, which then gets the link and the anchor render |
| `Links.HrefElement.RenderCached` | src/BaseElement.php:133 | the cached node, or else the anchor render |
| `Links.HrefElement.RenderStartTag` | src/BaseElement.php:131-139 | the start tag of the cached node, rendering with the anchor render only when nothing is cached |
| `Links.HrefElement.RenderEndTag` | src/BaseElement.php:150-158 | the end tag, with the same cache rule |
| `Links.HrefElement.SetHref` | src/HrefElement.php:47-52 | the node's href is set from path and query, and the stored link equals it afterwards |
| `Links.HrefElement.SetTargetBlank` | src/HrefElement.php:59-65 | the flag is stored; `true` writes `target=_blank`, and `false` leaves the table, including any target, as it was |
| `Links.HrefElement.SetConfirmation` | src/HrefElement.php:73-77 | a confirmation of the text is stored under the key, `onclick` by default, replacing that key only |

## Left out

- Serialisation of a node is not modelled, because it belongs to the Nette
  library: the escaping, the strings `startTag()`, `endTag()` and
  `attributes()` produce, and how `href()` encodes a query. The tag
  operations take the serialiser as a parameter, and `setHref` takes the
  query encoder.
- `__toString`, `renderPrint`, `renderPrintStartTag` and
  `renderPrintEndTag` only print a render's result, so they are not modelled.
- `getStatic`, `getElement` and `setElement` are plain factories and
  accessors, so they are not modelled. `renderImmutable` is modelled as
  "fresh node, then render".
- `getAttributes` is not modelled: its result is Nette's attribute string.
- `addElement` is not modelled. `addHtml` appends an opaque child.
- `beforeRender` is an empty hook, so it is not modelled.
- `Html::el` parsing attributes out of a name containing a space is not
  modelled: names are kept whole.
- A data attribute is kept in a table of its own on the node. On the PHP node
  `data($k, $v)` stores the value at once under the attribute `data-$k`, so an
  attribute `data-x` and a data attribute `x` share one key there, and the
  data attribute wins because it is copied after the attributes. The model
  keeps the two apart and does not capture that collision.
- The order of attributes is not modelled: tables are Dafny maps. PHP arrays
  and the node's attribute list keep insertion order, and render copies in
  that order, so in the markup the attributes appear in insertion order.
- Nette's `setText` is modelled as replacing every child of the node by one
  text child.
- An attribute set to PHP `null` is not modelled: attribute values are strings
  or confirmations. So `is_null($this->element->href)` is read as "the node
  has no `href`".
- `Elements.ElementClassIsJoin`: holds only for clean segments and for a
  default class and a class other than `"0"`. Outside those conditions the
  composed string is still given exactly by `Elements.ElementClass`: a `"0"`
  takes no separator (`Elements.ZeroDefaultClassFuses`), and whitespace
  inside the segments is trimmed only at the two ends.
- `Elements.DefaultClassKept`: gives the exact composed string only for
  clean segments and for a default class and a class that are non-empty and
  not `"0"`. On all other inputs `Elements.DefaultBeforeClass` still proves
  that both trimmed classes appear in order.
- `Elements.AppendAllIsImplode`: holds only for classes that are not
  PHP-empty. `Elements.BaseElement.AddClass` states the general step.
