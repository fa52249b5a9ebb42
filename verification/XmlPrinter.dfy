/**
  The text of an element, as a function of the tree a node record stands for.
  `format` is -1 for text on one line, otherwise the depth of indentation.
*/
module XmlPrinter {
  import opened XmlTree
  import opened XmlEscape

  predicate Named(e: Element) {
    e.name.Some? && e.name.value != ""
  }

  // The printer reads the value of every attribute it prints.
  predicate Printable(e: Element)
    decreases e, 1
  {
    && (Named(e) ==> AttributesPrintable(e.attributes))
    && ItemsPrintable(e.contents)
  }

  predicate AttributesPrintable(s: seq<XMLAttribute>)
  {
    s == [] || ((s[0].name != "" ==> s[0].value.Some?) && AttributesPrintable(s[1..]))
  }

  predicate ItemsPrintable(s: seq<Item>)
    decreases s, 0
  {
    s == [] || (ItemPrintable(s[0]) && ItemsPrintable(s[1..]))
  }

  predicate ItemPrintable(item: Item)
    decreases item, 0
  {
    match item
    case Child(e) => Printable(e)
    case _ => true
  }

  function Tabs(n: int): string
    decreases n
  {
    if n <= 0 then "" else "\t" + Tabs(n - 1)
  }

  function LineEnd(format: int): string {
    if format == -1 then "" else "\n"
  }

  function Indent(format: int): string {
    if format == -1 then "" else Tabs(format)
  }

  function ItemIndent(format: int): string {
    if format == -1 then "" else Tabs(format + 1)
  }

  function PrintAttribute(a: XMLAttribute): string
    requires a.name != "" ==> a.value.Some?
  {
    if a.name == "" then ""
    else if a.value.value == "" then " " + a.name
    else " " + a.name + "=\"" + Escape(a.value.value) + "\""
  }

  function PrintAttributes(s: seq<XMLAttribute>): string
    requires AttributesPrintable(s)
  {
    if s == [] then "" else PrintAttribute(s[0]) + PrintAttributes(s[1..])
  }

  function StartOfTag(e: Element): string
    requires Named(e) && AttributesPrintable(e.attributes)
  {
    "<" + (if e.isDeclaration then "?" else "") + e.name.value + PrintAttributes(e.attributes)
  }

  function EndOfTag(e: Element): string {
    if e.isDeclaration then "?>" else if e.contents == [] then "/>" else ">"
  }

  function EndTag(e: Element, format: int): string
    requires Named(e)
  {
    if e.isDeclaration || e.contents == [] then ""
    else Indent(format) + "</" + e.name.value + ">" + LineEnd(format)
  }

  function ChildFormat(e: Element, format: int): int {
    if format == -1 then -1 else if Named(e) then format + 1 else format
  }

  function Print(e: Element, format: int): string
    requires Printable(e)
    decreases e, 1
  {
    if !Named(e) then PrintItems(e.contents, format, ChildFormat(e, format))
    else
      Indent(format) + StartOfTag(e) + EndOfTag(e) + LineEnd(format)
      + PrintItems(e.contents, format, ChildFormat(e, format))
      + EndTag(e, format)
  }

  function PrintItems(s: seq<Item>, format: int, childFormat: int): string
    requires ItemsPrintable(s)
    decreases s, 0
  {
    if s == [] then "" else PrintItem(s[0], format, childFormat) + PrintItems(s[1..], format, childFormat)
  }

  function PrintItem(item: Item, format: int, childFormat: int): string
    requires ItemPrintable(item)
    decreases item, 0
  {
    match item
    case Text(t) => if t == "" then "" else ItemIndent(format) + Escape(t) + LineEnd(format)
    case Clear(c) => (if c.open == "" then "" else ItemIndent(format) + c.open) + c.value + c.close + LineEnd(format)
    case Child(e) => Print(e, childFormat)
  }
}
