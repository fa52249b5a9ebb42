/**
  The round trip of whole documents: what the library prints, on one line or indented, parsed.
  `f` is the format of the items and `cf` that of the elements among them. A
  declaration has no end tag, so the parser takes all that follows it as its contents.
*/
module XmlDocument {
  import opened CText
  import opened Slices
  import opened Wrappers
  import opened XmlTree
  import opened XmlEscape
  import opened XmlTokenizer
  import opened XmlParser
  import opened XmlPrinter
  import opened XmlRoundTrip
  import XmlWriter

  // ----- The documents the statement is about -----

  predicate EndsInDeclaration(items: seq<Item>) {
    items != [] && items[|items| - 1].Child? && items[|items| - 1].child.isDeclaration
  }

  // Elements, sections and texts; then perhaps a declaration, with the rest of the document.
  predicate DocumentOk(items: seq<Item>)
    decreases items, 0
  {
    if EndsInDeclaration(items) then
      assert (items decreases to items[|items| - 1]);
      ItemsOk(items[..|items| - 1]) && DeclarationOk(items[|items| - 1].child)
    else
      ItemsOk(items) && !EndsInText(items)
  }

  // Its last attribute has a value: a name before "?>" would take the question mark.
  predicate DeclarationOk(e: Element)
    decreases e, 1
  {
    && Named(e) && NameOk(e.name.value) && e.isDeclaration && DocumentOk(e.contents)
    && e.attributes != [] && AttributesOk(e.attributes) && e.attributes[|e.attributes| - 1].value != Some("")
  }

  lemma DocumentPrintable(items: seq<Item>)
    requires DocumentOk(items)
    ensures ItemsPrintable(items)
    decreases items, 0
  {
    if EndsInDeclaration(items) {
      ItemsOkPrintable(items[..|items| - 1]);
      assert (items decreases to items[|items| - 1]);
      DeclarationPrintable(items[|items| - 1].child);
      LastPrinted(items, -1, -1);
    } else {
      ItemsOkPrintable(items);
    }
  }

  lemma DeclarationPrintable(e: Element)
    requires DeclarationOk(e)
    ensures Printable(e)
    decreases e, 1
  {
    DocumentPrintable(e.contents);
    AttributesOkPrintable(e.attributes);
  }

  // The text of a document that ends in an element.
  lemma LastPrinted(items: seq<Item>, f: int, cf: int)
    requires items != [] && items[|items| - 1].Child?
    ensures var init, e := items[..|items| - 1], items[|items| - 1].child;
            && (ItemsPrintable(items) <==> ItemsPrintable(init) && Printable(e))
            && (ItemsPrintable(items) ==> PrintItems(items, f, cf) == PrintItems(init, f, cf) + Print(e, cf))
  {
    hide PrintItems, ItemsPrintable, Print, Printable;
    var init, last := items[..|items| - 1], items[|items| - 1];
    XmlWriter.OneItemPrinted(last, f, cf);
    XmlWriter.ItemsAppend(init, [last], f, cf);
    assert items == init + [last];
  }

  // ----- The text of a declaration -----

  function Before(e: Element): seq<XMLAttribute>
    requires e.attributes != []
  {
    e.attributes[..|e.attributes| - 1]
  }

  function LastOf(e: Element): XMLAttribute
    requires e.attributes != []
  {
    e.attributes[|e.attributes| - 1]
  }

  predicate Ready(e: Element) {
    && e.name.Some? && e.attributes != [] && AttributesPrintable(Before(e)) && AttributesOk(Before(e))
    && LastOf(e).value.Some? && AttributeOk(LastOf(e))
  }

  // Behind the name, up to the contents.
  function TagRest(e: Element): string
    requires Ready(e)
  {
    PrintAttributes(Before(e)) + (PrintAttribute(LastOf(e)) + "?>")
  }

  // Behind the "?>".
  function Behind(e: Element, f: int): string
    requires ItemsPrintable(e.contents)
  {
    PrintItems(e.contents, f, ChildFormat(e, f))
  }

  // The printed declaration, without the indentation before it.
  function DeclarationCore(e: Element, f: int): string
    requires Ready(e) && ItemsPrintable(e.contents)
  {
    "<?" + (e.name.value + (TagRest(e) + (LineEnd(f) + Behind(e, f))))
  }

  lemma DeclarationParts(e: Element, f: int)
    requires DeclarationOk(e)
    ensures Printable(e) && ItemsPrintable(e.contents) && Ready(e)
    ensures Print(e, f) == Indent(f) + DeclarationCore(e, f)
  {
    hide PrintAttributes, PrintAttribute, Indent, LineEnd;
    DocumentPrintable(e.contents);
    AttributesOkPrintable(e.attributes);
    assert e.attributes == Before(e) + [LastOf(e)];
    XmlWriter.AttributesSnoc(Before(e), LastOf(e));
    AttributesOkSnoc(Before(e), LastOf(e));
    DeclarationText(Indent(f), e.name.value, PrintAttributes(Before(e)), PrintAttribute(LastOf(e)), LineEnd(f), Behind(e, f));
  }

  lemma {:induction false} AttributesOkSnoc(s: seq<XMLAttribute>, a: XMLAttribute)
    requires AttributesOk(s + [a])
    ensures AttributesOk(s) && AttributeOk(a)
  {
    hide AttributeOk;
    if s != [] {
      assert (s + [a])[1..] == s[1..] + [a];
      AttributesOkSnoc(s[1..], a);
    }
  }

  lemma DeclarationText(i: string, name: string, before: string, last: string, l: string, items: string)
    ensures i + ("<" + "?" + name + (before + last)) + "?>" + l + items + ""
         == i + ("<?" + (name + ((before + (last + "?>")) + (l + items))))
  {
  }

  // ----- Parsing a declaration -----

  lemma DeclarationToken(s: string, i: nat)
    requires Has(s, i, "<?")
    ensures i + 2 <= |s| && NextToken(s, i) == Token(TokenDeclaration, i, 2, i + 2)
  {
    HasAt(s, i, "<?");
    assert s[i + 0] == "<?"[0] && s[i + 1] == "<?"[1];
    forall k | 0 <= k < N_CLEAR_TAGS ensures !SameLetters(s, i, CLEAR_TAGS[k].open) {
      assert Lower(CLEAR_TAGS[k].open[1]) != Lower('?');
    }
  }

  // The question mark is read as a name, and dropped as the last word of a declaration.
  lemma DeclarationClose(s: string, k: nat, d: NodeData, v: Locals) returns (v': Locals)
    requires InList(s, k, d, v) && v.attrib == AttribName && d.isDeclaration && Has(s, k, "?>")
    ensures k + 2 <= |s| && LocalsOk(s, k + 2, v') && v'.status == OutsideTag && v'.text.None?
    ensures ParseLoop(s, k, d, v) == ParseLoop(s, k + 2, d, v')
  {
    hide Sound, ParseChild, ParseClear, ParseEndTag, NextToken, Has;
    assert "?>" == "?" + ">";
    HasSplit(s, k, "?", ">");
    QuestionToken(s, k);
    CloseToken(s, k + 1);
    var v1 := v.(attrib := AttribEquals, temp := k, cbTemp := 1);
    assert ParseLoop(s, k, d, v) == ParseLoop(s, k + 1, d, v1);
    v' := v1.(status := OutsideTag);
    assert LastAttribute(s, d, v1) == d;
    assert ParseLoop(s, k + 1, d, v1) == ParseLoop(s, k + 2, LastAttribute(s, d, v1), v');
  }

  lemma QuestionToken(s: string, k: nat)
    requires Has(s, k, "?") && Has(s, k + 1, ">")
    ensures k + 1 < |s| && s[k] == '?' && NextToken(s, k) == Token(TokenText, k, 1, k + 1)
  {
    HasOne(s, k, '?');
    HasOne(s, k + 1, '>');
    NoClearTag(s, k);
  }

  // The cursor behind the name of a declaration: its attributes and "?>" are read.
  lemma DeclarationTag(s: string, j: nat, e: Element) returns (d: NodeData, v: Locals)
    requires DeclarationOk(e) && Ready(e) && Has(s, j, TagRest(e))
    ensures j + |TagRest(e)| <= |s| && LocalsOk(s, j + |TagRest(e)|, v) && v.status == OutsideTag && v.text.None?
    ensures ParseLoop(s, j, EmptyNode(e.name, true), INSIDE) == ParseLoop(s, j + |TagRest(e)|, d, v)
    ensures Sound(d) && View(d) == Element(e.name, true, ReadAttributes(e.attributes), [])
  {
    hide ParseLoop, Sound, View, Has, PrintAttributes, PrintAttribute, ReadAttributes, ReadAttribute, EndsAttribute, AttributesOk, AttributeOk, DocumentOk;
    var d0 := EmptyNode(e.name, true);
    EmptySound(e.name, true);
    TagSplit(s, j, e);
    var k := j + |PrintAttributes(Before(e))|;
    var m := k + |PrintAttribute(LastOf(e))|;
    ghost var d1, v1 := Attributes(s, j, d0, INSIDE, Before(e));
    assert Seen(s, d0, INSIDE) == [];
    ghost var d2, v2 := OneAttribute(s, k, d1, v1, LastOf(e));
    OnlyAttributesCompose(d0, d1, d2);
    ViewName(d2);
    v := DeclarationClose(s, m, d2, v2);
    d := d2;
    ReadAttributesSnoc(Before(e), LastOf(e));
    assert d2.attributes + [] == d2.attributes;
    assert Seen(s, d2, v2) == ReadAttributes(Before(e)) + [ReadAttribute(LastOf(e))];
    assert e.attributes == Before(e) + [LastOf(e)];
  }

  lemma TagSplit(s: string, j: nat, e: Element)
    requires Ready(e) && Has(s, j, TagRest(e))
    ensures var k := j + |PrintAttributes(Before(e))|;
            var m := k + |PrintAttribute(LastOf(e))|;
            && Has(s, j, PrintAttributes(Before(e))) && EndsAttribute(s, k) && Has(s, k, PrintAttribute(LastOf(e)))
            && Has(s, m, "?>") && m + 2 == j + |TagRest(e)| && j <= |s|
  {
    hide PrintAttributes, PrintAttribute, Has, EndsAttribute, AttributeOk;
    var k := j + |PrintAttributes(Before(e))|;
    HasSplit(s, j, PrintAttributes(Before(e)), PrintAttribute(LastOf(e)) + "?>");
    StartsWithSpace(s, k, LastOf(e), "?>");
    HasSplit(s, k, PrintAttribute(LastOf(e)), "?>");
    HasBound(s, j, TagRest(e));
  }

  lemma {:induction false} ReadAttributesSnoc(s: seq<XMLAttribute>, a: XMLAttribute)
    ensures ReadAttributes(s + [a]) == ReadAttributes(s) + [ReadAttribute(a)]
  {
    hide ReadAttribute;
    if s == [] {
      assert s + [a] == [a] && [a][1..] == [];
    } else {
      assert (s + [a])[1..] == s[1..] + [a];
      ReadAttributesSnoc(s[1..], a);
    }
  }

  // ----- To the end of the document -----

  lemma NothingMore(s: string, d: NodeData, v: Locals)
    requires LocalsOk(s, |s|, v)
    ensures ParseLoop(s, |s|, d, v) == Fail(d, |s|, ErrorNone)
  {
    assert NextToken(s, |s|) == Token(TokenError, |s|, 0, |s|);
  }

  // The cursor stands before the rest of a document, with no text pending.
  predicate AtDocument(s: string, i: nat, d: NodeData, v: Locals, items: seq<Item>, f: int, cf: int) {
    && Sound(d) && LocalsOk(s, i, v) && v.status == OutsideTag && v.text.None?
    && DocumentOk(items) && ItemsPrintable(items)
    && Has(s, i, PrintItems(items, f, cf)) && i + |PrintItems(items, f, cf)| == |s|
  }

  // It is read to its end, with no error.
  lemma {:induction false} ReadToEnd(s: string, i: nat, d: NodeData, v: Locals, items: seq<Item>, f: int, cf: int) returns (d': NodeData)
    requires AtDocument(s, i, d, v, items, f, cf)
    ensures ParseLoop(s, i, d, v) == Fail(d', |s|, ErrorNone)
    ensures Sound(d') && View(d') == Grown(View(d), ReadItems(items))
    decreases items, 3
  {
    hide ParseLoop, Sound, View, PrintItems, Pending, ItemsOk, ReadItems, Has, ItemsPrintable, DeclarationOk, Print;
    if EndsInDeclaration(items) {
      d' := ReadToDeclaration(s, i, d, v, items, f, cf);
    } else {
      PendingNone(s, i, v, None);
      assert PendingItems(None) + items == items;
      ghost var d1, v1, text := Items(s, i, d, v, items, None, f, cf);
      assert View(d1).contents + [] == View(d1).contents;
      NothingMore(s, d1, v1);
      d' := d1;
    }
  }

  lemma {:induction false} ReadToDeclaration(s: string, i: nat, d: NodeData, v: Locals, items: seq<Item>, f: int, cf: int)
    returns (d': NodeData)
    requires EndsInDeclaration(items) && AtDocument(s, i, d, v, items, f, cf)
    ensures ParseLoop(s, i, d, v) == Fail(d', |s|, ErrorNone)
    ensures Sound(d') && View(d') == Grown(View(d), ReadItems(items))
    decreases items, 2
  {
    hide ParseLoop, Sound, View, PrintItems, Pending, ItemsOk, ReadItems, Has, DeclarationOk, DeclarationCore, Ready;
    hide AtDocument, RawItems, EndsInText, ReadBack;
    var init, e := items[..|items| - 1], items[|items| - 1].child;
    ghost var k, d1, v1, text := ItemsBefore(s, i, d, v, items, f, cf);
    assert (items decreases to items[|items| - 1]);
    var c := ReadDeclaration(s, k, d1, v1, items[|items| - 1].child, cf);
    FlushPending(s, k, d1, v1, text);
    var raw := FlushRaw(s, d1, v1.text, k);
    AddChildView(raw, c);
    d' := raw.AddChild(c);
    TextBecomesRaw(View(d).contents, View(d1).contents, init, text, items[|items| - 1]);
    assert items == init + [items[|items| - 1]];
    assert ReadItem(items[|items| - 1], true) == Child(View(c));
  }

  // Up to the trailing declaration: its text stands at k, a text may be pending.
  lemma ItemsBefore(s: string, i: nat, d: NodeData, v: Locals, items: seq<Item>, f: int, cf: int)
    returns (k: nat, d1: NodeData, v1: Locals, text: Option<string>)
    requires EndsInDeclaration(items) && AtDocument(s, i, d, v, items, f, cf)
    ensures Sound(d) && Sound(d1) && Reaches(s, i, d, v, k, d1, v1) && Pending(s, k, v1, text)
    ensures WithItems(d1, PendingItems(text)) == Grown(View(d), ReadItems(items[..|items| - 1]))
    ensures text.Some? <==> EndsInText(items[..|items| - 1])
    ensures AtDeclaration(s, k, items[|items| - 1].child, cf)
  {
    hide ParseLoop, Sound, View, PrintItems, Pending, ItemsOk, ItemsPrintable, Printable, ReadItems, Has;
    hide DeclarationOk, DeclarationCore, Ready, Print, Stops, Indent;
    var init, e := items[..|items| - 1], items[|items| - 1].child;
    InitParts(s, i, items, f, cf);
    PendingNone(s, i, v, None);
    assert PendingItems(None) + init == init;
    var q := i + |PrintItems(init, f, cf)|;
    ghost var d2, v2, t := Items(s, i, d, v, init, None, f, cf);
    LayoutBlank(cf);
    PendingOn(s, q, Indent(cf), v2, t);
    SkipBlank(s, q, Indent(cf), d2, v2);
    k, d1, v1, text := q + |Indent(cf)|, d2, v2, t;
  }

  // A trailing declaration stands at k, and ends the text.
  predicate AtDeclaration(s: string, k: nat, e: Element, f: int) {
    && DeclarationOk(e) && Ready(e) && ItemsPrintable(e.contents)
    && Has(s, k, DeclarationCore(e, f)) && k + |DeclarationCore(e, f)| == |s|
  }

  // The items before a trailing declaration, and where the declaration stands.
  lemma InitParts(s: string, i: nat, items: seq<Item>, f: int, cf: int)
    requires EndsInDeclaration(items) && DocumentOk(items) && ItemsPrintable(items)
    requires Has(s, i, PrintItems(items, f, cf)) && i + |PrintItems(items, f, cf)| == |s|
    ensures ItemsOk(items[..|items| - 1]) && ItemsPrintable(items[..|items| - 1])
    ensures var init, e := items[..|items| - 1], items[|items| - 1].child;
            var q := i + |PrintItems(init, f, cf)|;
            && Has(s, i, PrintItems(init, f, cf)) && Stops(s, q) && Has(s, q, Indent(cf))
            && AtDeclaration(s, q + |Indent(cf)|, e, cf)
  {
    hide PrintItems, ItemsPrintable, Printable, Has, Print, DeclarationOk, ItemsOk, DeclarationCore, Ready, Stops, Indent;
    var init, e := items[..|items| - 1], items[|items| - 1].child;
    LastPrinted(items, f, cf);
    var q := i + |PrintItems(init, f, cf)|;
    DeclarationParts(e, cf);
    HasSplit(s, i, PrintItems(init, f, cf), Print(e, cf));
    HasSplit(s, q, Indent(cf), DeclarationCore(e, cf));
    LayoutBlank(cf);
    DeclarationStarts(e, cf);
    StopsBefore(s, q, Indent(cf), DeclarationCore(e, cf));
  }

  lemma DeclarationStarts(e: Element, f: int)
    requires Ready(e) && ItemsPrintable(e.contents)
    ensures DeclarationCore(e, f) != "" && DeclarationCore(e, f)[0] == '<'
  {
    hide TagRest, LineEnd, Behind;
  }

  // A declaration, with everything behind it.
  lemma {:induction false} ReadDeclaration(s: string, i: nat, d: NodeData, v: Locals, e: Element, f: int) returns (c: NodeData)
    requires LocalsOk(s, i, v) && v.status == OutsideTag && AtDeclaration(s, i, e, f)
    ensures ParseLoop(s, i, d, v) == Fail(FlushRaw(s, d, v.text, i).AddChild(c), |s|, ErrorNone)
    ensures Sound(c) && View(c) == ReadBack(e)
    decreases e, 2
  {
    hide Sound, View, Has, NextToken, ParseInside, ParseClear, ParseEndTag, FlushRaw, TagRest, AttributesOk, DocumentOk, ReadBack, LineEnd, Behind;
    var name := e.name.value;
    var j := i + 2 + |name|;
    DeclarationSplit(s, i, e, f);
    DeclarationToken(s, i);
    NameToken(s, i + 2, name);
    NameSlice(s, i + 2, name);
    c := DeclarationBody(s, j, e, f);
    var c0 := EmptyNode(Some(name), true);
    var n := NextToken(s, i + 2);
    assert ParseLoop(s, n.next, c0, INSIDE) == Fail(c, |s|, ErrorNone) by {
      if IsSpace(s[j]) { LoopSkipsSpace(s, j, c0, INSIDE); }
    }
    assert ParseLoop(s, i, d, v) == ParseChild(s, i, d, v, NextToken(s, i));
  }

  // From behind the name.
  lemma {:induction false} DeclarationBody(s: string, j: nat, e: Element, f: int) returns (c: NodeData)
    requires DeclarationOk(e) && Ready(e) && ItemsPrintable(e.contents)
    requires Has(s, j, TagRest(e)) && Has(s, j + |TagRest(e)|, LineEnd(f) + Behind(e, f))
    requires j + |TagRest(e)| + |LineEnd(f) + Behind(e, f)| == |s|
    ensures ParseLoop(s, j, EmptyNode(e.name, true), INSIDE) == Fail(c, |s|, ErrorNone)
    ensures Sound(c) && View(c) == ReadBack(e)
    decreases e, 1
  {
    hide ParseLoop, Sound, View, Has, TagRest, ReadItems, ReadAttributes, PrintItems, AttributesOk, DocumentOk, LineEnd, Ready, NameOk;
    ghost var d1, v1 := DeclarationTag(s, j, e);
    var k := j + |TagRest(e)|;
    HasSplit(s, k, LineEnd(f), Behind(e, f));
    LayoutBlank(f);
    SkipBlank(s, k, LineEnd(f), d1, v1);
    c := ReadToEnd(s, k + |LineEnd(f)|, d1, v1, e.contents, f, ChildFormat(e, f));
    assert [] + ReadItems(e.contents) == ReadItems(e.contents);
  }

  lemma DeclarationSplit(s: string, i: nat, e: Element, f: int)
    requires AtDeclaration(s, i, e, f)
    ensures var j := i + 2 + |e.name.value|;
            && Has(s, i, "<?") && Has(s, i + 2, e.name.value) && Has(s, j, TagRest(e)) && EndsToken(s, j)
            && Has(s, j + |TagRest(e)|, LineEnd(f) + Behind(e, f))
            && j + |TagRest(e)| + |LineEnd(f) + Behind(e, f)| == |s|
  {
    hide TagRest, LineEnd, Behind, Has, EndsAttribute, DeclarationOk, AttributesOk, AttributeOk;
    var name, rest := e.name.value, TagRest(e) + (LineEnd(f) + Behind(e, f));
    var j := i + 2 + |name|;
    HasSplit(s, i, "<?", name + rest);
    HasSplit(s, i + 2, name, rest);
    HasSplit(s, j, TagRest(e), LineEnd(f) + Behind(e, f));
    TagStarts(s, j, e);
    EndsTokenToo(s, j);
  }

  // An attribute follows the name.
  lemma TagStarts(s: string, j: nat, e: Element)
    requires Ready(e) && Has(s, j, TagRest(e))
    ensures EndsAttribute(s, j)
  {
    hide PrintAttribute, Has, EndsAttribute;
    if Before(e) == [] {
      assert TagRest(e) == PrintAttribute(LastOf(e)) + "?>" by { assert "" + (PrintAttribute(LastOf(e)) + "?>") == PrintAttribute(LastOf(e)) + "?>"; }
      StartsWithSpace(s, j, LastOf(e), "?>");
    } else {
      var a := e.attributes[0];
      var rest := PrintAttributes(Before(e)[1..]) + (PrintAttribute(LastOf(e)) + "?>");
      assert Before(e)[0] == a;
      assert TagRest(e) == PrintAttribute(a) + rest by {
        XmlWriter.Joined(PrintAttribute(a), PrintAttributes(Before(e)[1..]), PrintAttribute(LastOf(e)) + "?>");
      }
      StartsWithSpace(s, j, a, rest);
    }
  }

  // ----- A text before the declaration -----

  lemma {:induction false} ReadItemsSnoc(items: seq<Item>, x: Item)
    requires !x.Text?
    ensures |ReadItems(items)| == |items|
    ensures items == [] ==> ReadItems(items + [x]) == [ReadItem(x, true)]
    ensures items != [] ==>
              && ReadItems(items) == ReadItems(items)[..|items| - 1] + [ReadItem(items[|items| - 1], true)]
              && ReadItems(items + [x]) ==
                 ReadItems(items)[..|items| - 1] + [ReadItem(items[|items| - 1], false), ReadItem(x, true)]
  {
    hide ReadBack, ReadItem;
    if items == [] {
      assert items + [x] == [x] && [x][1..] == [];
    } else {
      assert (items + [x])[1..] == items[1..] + [x];
      ReadItemsSnoc(items[1..], x);
    }
  }

  // What is held before the declaration, once the pending text is stored raw.
  lemma TextBecomesRaw(c: seq<Item>, c1: seq<Item>, init: seq<Item>, text: Option<string>, x: Item)
    requires !x.Text? && c1 + PendingItems(text) == c + ReadItems(init) && (text.Some? <==> EndsInText(init))
    ensures c1 + RawItems(text) + [ReadItem(x, true)] == c + ReadItems(init + [x])
  {
    hide ReadBack;
    ReadItemsSnoc(init, x);
    var r := ReadItems(init);
    if text.Some? {
      var t := init[|init| - 1].text;
      assert r == r[..|init| - 1] + [Text(t)];
      SameEnds(c1, Text(text.value), c + r[..|init| - 1], Text(t));
      assert c1 + [Text(text.value)] == (c + r[..|init| - 1]) + [Text(t)];
    } else if init != [] {
      assert ReadItem(init[|init| - 1], false) == ReadItem(init[|init| - 1], true);
      assert c1 + [] == c1;
    } else {
      assert c1 + [] == c1 && c + [] == c;
    }
  }

  lemma SameEnds(a: seq<Item>, x: Item, b: seq<Item>, y: Item)
    ensures a + [x] == b + [y] ==> a == b && x == y
  {
    if a + [x] == b + [y] {
      assert a == (a + [x])[..|a|] && b == (b + [y])[..|b|];
      assert (a + [x])[|a|] == x && (b + [y])[|b|] == y;
    }
  }

  // ----- The round trip -----

  // Parsing a printed document gives a nameless root that holds what can be read back.
  lemma ParsePrinted(items: seq<Item>, f: int, cf: int)
    requires DocumentOk(items)
    ensures ItemsPrintable(items)
    ensures ParseString(PrintItems(items, f, cf)).Some?
    ensures var root := ParseString(PrintItems(items, f, cf)).value;
            Sound(root) && View(root) == Element(None, false, [], ReadItems(items))
  {
    hide ParseLoop, Sound, View, PrintItems, ItemsOk, ReadItems, DocumentOk;
    DocumentPrintable(items);
    var s := PrintItems(items, f, cf);
    var d := EmptyNode(None, false);
    EmptySound(None, false);
    assert Has(s, 0, s) by { assert s[0..|s|] == s; }
    var root := ReadToEnd(s, 0, d, OUTSIDE, items, f, cf);
    assert [] + ReadItems(items) == ReadItems(items);
  }

  // The document comes back as it was exactly when no attribute value is empty and no text
  // before another item holds a character to escape.
  lemma RoundTripIff(items: seq<Item>, f: int, cf: int)
    requires DocumentOk(items)
    ensures ItemsPrintable(items) && ParseString(PrintItems(items, f, cf)).Some?
    ensures Sound(ParseString(PrintItems(items, f, cf)).value)
    ensures View(ParseString(PrintItems(items, f, cf)).value).contents == items <==> ItemsFaithful(items)
  {
    hide ParseString, PrintItems, DocumentOk, Sound;
    ParsePrinted(items, f, cf);
    ReadItemsIff(items);
  }

  // The same for one element, printed by itself.
  lemma ParsePrintedElement(e: Element, f: int)
    requires Reparseable(e)
    ensures Printable(e) && ParseString(Print(e, f)).Some?
    ensures var root := ParseString(Print(e, f)).value;
            Sound(root) && View(root) == Element(None, false, [], [Child(ReadBack(e))])
  {
    hide Reparseable, Print, ParseString, Sound;
    ReparseableIsPrintable(e);
    var items := [Child(e)];
    assert items[1..] == [];
    assert ItemsOk(items);
    NoDeclaration(e);
    ParsePrinted(items, f, f);
    assert PrintItems(items, f, f) == PrintItem(items[0], f, f) + "" == Print(e, f);
  }

  // <x>a&amp;b<y/></x>: the text before the child comes back as "a&amp;b".
  lemma TextComesBackEscaped(f: int, cf: int)
    ensures var y := Element(Some("y"), false, [], []);
            var x := Element(Some("x"), false, [], [Text("a&b"), Child(y)]);
            && DocumentOk([Child(x)]) && ParseString(PrintItems([Child(x)], f, cf)).Some?
            && Sound(ParseString(PrintItems([Child(x)], f, cf)).value)
            && View(ParseString(PrintItems([Child(x)], f, cf)).value).contents
               == [Child(x.(contents := [Text("a&amp;b"), Child(y)]))]
  {
    hide ParseString, PrintItems, Sound, View, Escape;
    var y := Element(Some("y"), false, [], []);
    var inner := [Text("a&b"), Child(y)];
    var x := Element(Some("x"), false, [], inner);
    assert inner[1..] == [Child(y)] && [Child(y)][1..] == [] && [Child(x)][1..] == [];
    NoSection("x");
    assert ItemOk(Child(y)) by { assert Reparseable(y); }
    assert ItemsOk([Child(y)]);
    assert ItemOk(Text("a&b")) && ItemsOk(inner);
    assert ItemOk(Child(x)) by { assert Reparseable(x); }
    ParsePrinted([Child(x)], f, cf);
    EscapedAmpersand();
    assert ReadItem(Child(y), true) == Child(y) by { assert ReadBack(y) == y; }
    assert ReadItems([Child(y)]) == [Child(y)];
    assert ReadItems(inner) == [Text("a&amp;b"), Child(y)];
    assert ReadItem(Child(x), true) == Child(x.(contents := ReadItems(inner))) by { assert ReadBack(x) == x.(contents := ReadItems(inner)); }
    assert ReadItems([Child(x)]) == [Child(x.(contents := ReadItems(inner)))];
  }

  lemma NoSection(name: string)
    requires |name| == 1
    ensures !OpensClear(name)
  {
  }

  lemma EscapedAmpersand()
    ensures Escape("a&b") == "a&amp;b"
  {
    assert "a&b"[1..] == "&b" && "&b"[1..] == "b" && "b"[1..] == "";
    assert Escape("b") == "b";
    assert Escape("&b") == "&amp;b";
  }

  lemma NoDeclaration(e: Element)
    requires Reparseable(e)
    ensures !e.isDeclaration
  {
  }
}
