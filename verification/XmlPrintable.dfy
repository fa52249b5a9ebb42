/**
  Printing what was parsed. The printer reads the value of every attribute it prints, and
  the parser makes attributes without one; and a text before another item is escaped once
  more by every turn of parsing and printing.
*/
module XmlPrintable {
  import opened Wrappers
  import opened XmlTree
  import opened XmlEscape
  import opened XmlParser
  import opened XmlPrinter
  import opened XmlRoundTrip
  import opened XmlDocument

  // ----- Exactly when a parsed tree can be printed -----

  predicate AllValued(s: seq<XMLAttribute>) {
    forall k | 0 <= k < |s| :: s[k].value.Some?
  }

  // Every attribute in the items, at any depth, has a value.
  predicate ItemsValued(items: seq<Item>)
    decreases items, 0
  {
    forall k | 0 <= k < |items| :: ItemValued(items[k])
  }

  predicate ItemValued(item: Item)
    decreases item, 0
  {
    item.Child? ==> AllValued(item.child.attributes) && ItemsValued(item.child.contents)
  }

  lemma {:induction false} AttributesValuedIff(s: seq<XMLAttribute>)
    requires AttributesNamed(s)
    ensures AttributesPrintable(s) <==> AllValued(s)
  {
    if s != [] {
      AttributesValuedIff(s[1..]);
      assert forall k | 1 <= k < |s| :: s[k] == s[1..][k - 1];
      assert forall k | 0 <= k < |s[1..]| :: s[1..][k] == s[k + 1];
    }
  }

  lemma {:induction false} ItemsValuedIff(items: seq<Item>)
    requires ItemsNamed(items)
    ensures ItemsPrintable(items) <==> ItemsValued(items)
    decreases items, 1
  {
    hide ItemNamed, ItemValued, ItemPrintable;
    if items != [] {
      assert forall k | 1 <= k < |items| :: items[k] == items[1..][k - 1];
      assert forall k | 0 <= k < |items[1..]| :: items[1..][k] == items[k + 1];
      ItemValuedIff(items[0]);
      ItemsValuedIff(items[1..]);
    }
  }

  lemma {:induction false} ItemValuedIff(item: Item)
    requires ItemNamed(item)
    ensures ItemPrintable(item) <==> ItemValued(item)
    decreases item, 0
  {
    hide ItemsNamed, ItemsValued, ItemsPrintable, AttributesPrintable, AllValued, AttributesNamed;
    if item.Child? {
      AttributesValuedIff(item.child.attributes);
      ItemsValuedIff(item.child.contents);
    }
  }

  // A parsed tree can be printed exactly when every attribute in it has a value.
  lemma ParsedPrintableIff(s: string)
    requires ParseString(s).Some?
    ensures Sound(ParseString(s).value)
    ensures Printable(View(ParseString(s).value)) <==> ItemsValued(View(ParseString(s).value).contents)
  {
    hide ParseString, Sound, View, ItemsNamed, ItemsValued, ItemsPrintable, AttributesPrintable;
    ParseStringSound(s);
    var root := ParseString(s).value;
    ViewParts(root);
    ItemsValuedIff(View(root).contents);
  }

  // ----- Printing again -----

  // No attribute value is empty, at any depth.
  predicate Kept(e: Element)
    decreases e, 1
  {
    ValuesKept(e.attributes) && ItemsKept(e.contents)
  }

  predicate ItemsKept(items: seq<Item>)
    decreases items, 0
  {
    items == [] || (ItemKept(items[0]) && ItemsKept(items[1..]))
  }

  predicate ItemKept(item: Item)
    decreases item, 0
  {
    item.Child? ==> Kept(item.child)
  }

  // An attribute read back has a value unless its value was empty.
  lemma {:induction false} ReadAttributesPrintableIff(s: seq<XMLAttribute>)
    requires AttributesOk(s) && AttributesPrintable(s)
    ensures AttributesPrintable(ReadAttributes(s)) <==> ValuesKept(s)
  {
    if s != [] { ReadAttributesPrintableIff(s[1..]); }
  }

  lemma {:induction false} ItemsPrintableAgainIff(items: seq<Item>)
    requires ItemsOk(items)
    ensures ItemsPrintable(ReadItems(items)) <==> ItemsKept(items)
    decreases items, 1
  {
    hide ItemOk, ReadItem, ItemPrintable, ItemKept;
    if items != [] {
      ItemPrintableAgainIff(items[0], |items| == 1);
      ItemsPrintableAgainIff(items[1..]);
      ReadItemsParts(items);
    }
  }

  lemma ReadItemsParts(items: seq<Item>)
    requires items != []
    ensures ReadItems(items) != [] && ReadItems(items)[0] == ReadItem(items[0], |items| == 1)
    ensures ReadItems(items)[1..] == ReadItems(items[1..])
  {
  }

  lemma {:induction false} ItemPrintableAgainIff(item: Item, last: bool)
    requires ItemOk(item)
    ensures ItemPrintable(ReadItem(item, last)) <==> ItemKept(item)
    decreases item, 0
  {
    hide AttributesOk, ItemsOk, ReadItems, ReadAttributes, ItemsPrintable, AttributesPrintable, ItemsKept, ValuesKept, NameOk, ReadsAsClear;
    if item.Child? {
      AttributesOkPrintable(item.child.attributes);
      ReadAttributesPrintableIff(item.child.attributes);
      ItemsPrintableAgainIff(item.child.contents);
    }
  }

  // The same for a document, which may end in a declaration.
  lemma {:induction false} DocumentPrintableAgainIff(items: seq<Item>)
    requires DocumentOk(items)
    ensures ItemsPrintable(ReadItems(items)) <==> ItemsKept(items)
    decreases items, 2
  {
    hide ItemsOk, ReadItems, ItemsPrintable, ItemsKept, DeclarationOk;
    if EndsInDeclaration(items) {
      var init, e := items[..|items| - 1], items[|items| - 1].child;
      assert (items decreases to items[|items| - 1]);
      DeclarationPrintableAgainIff(items[|items| - 1].child);
      ItemsPrintableAgainIff(init);
      AgainSnoc(init, items[|items| - 1]);
      assert items == init + [items[|items| - 1]];
    } else {
      ItemsPrintableAgainIff(items);
    }
  }

  lemma {:induction false} DeclarationPrintableAgainIff(e: Element)
    requires DeclarationOk(e)
    ensures Printable(ReadBack(e)) <==> Kept(e)
    decreases e, 1
  {
    hide AttributesOk, ReadItems, ReadAttributes, ItemsPrintable, AttributesPrintable, ItemsKept, ValuesKept, NameOk, DocumentOk;
    AttributesOkPrintable(e.attributes);
    ReadAttributesPrintableIff(e.attributes);
    DocumentPrintableAgainIff(e.contents);
  }

  lemma {:induction false} AgainSnoc(items: seq<Item>, x: Item)
    requires x.Child?
    ensures ItemsPrintable(ReadItems(items + [x])) <==> ItemsPrintable(ReadItems(items)) && Printable(ReadBack(x.child))
    ensures ItemsKept(items + [x]) <==> ItemsKept(items) && Kept(x.child)
  {
    hide Kept, Printable, ReadBack;
    if items == [] {
      assert items + [x] == [x] && [x][1..] == [];
      ReadItemsParts([x]);
    } else {
      assert (items + [x])[1..] == items[1..] + [x] && (items + [x])[0] == items[0];
      AgainSnoc(items[1..], x);
      ReadItemsParts(items);
      ReadItemsParts(items + [x]);
    }
  }

  // A text with a character to escape grows when it is escaped, every time.
  lemma {:induction false} EscapeKeepsEscapable(t: string)
    requires exists k | 0 <= k < |t| :: Escapable(t[k])
    ensures exists k | 0 <= k < |Escape(t)| :: Escapable(Escape(t)[k])
  {
    hide EscapeChar;
    EscapeCharLength(t[0]);
    if Escapable(t[0]) {
      assert Escape(t)[0] == '&';
    } else {
      assert exists k | 0 <= k < |t[1..]| :: Escapable(t[1..][k]) by {
        var k :| 0 <= k < |t| && Escapable(t[k]);
        assert t[1..][k - 1] == t[k];
      }
      EscapeKeepsEscapable(t[1..]);
      var k :| 0 <= k < |Escape(t[1..])| && Escapable(Escape(t[1..])[k]);
      assert Escape(t)[k + 1] == Escape(t[1..])[k];
    }
  }

  // Printed again, an element is no shorter, and as long only if it came back unchanged.
  lemma {:induction false} ElementGrows(e: Element, f: int)
    requires Printable(e) && Kept(e)
    ensures Printable(ReadBack(e)) && |Print(ReadBack(e), f)| >= |Print(e, f)|
    ensures |Print(ReadBack(e), f)| == |Print(e, f)| <==> Faithful(e)
    decreases e, 1
  {
    hide PrintItems, ItemsPrintable, ItemsKept, ReadItems, PrintAttributes, AttributesPrintable, ItemsFaithful, Indent, LineEnd;
    ReadAttributesIff(e.attributes);
    ItemsGrow(e.contents, f, ChildFormat(e, f));
    SameEmptiness(e.contents);
  }

  lemma SameEmptiness(items: seq<Item>)
    ensures ReadItems(items) == [] <==> items == []
  {
  }

  lemma {:induction false} ItemsGrow(items: seq<Item>, f: int, cf: int)
    requires ItemsPrintable(items) && ItemsKept(items)
    ensures ItemsPrintable(ReadItems(items)) && |PrintItems(ReadItems(items), f, cf)| >= |PrintItems(items, f, cf)|
    ensures |PrintItems(ReadItems(items), f, cf)| == |PrintItems(items, f, cf)| <==> ItemsFaithful(items)
    decreases items, 1
  {
    hide PrintItem, ItemPrintable, ItemKept, ReadItem, ItemFaithful;
    if items != [] {
      ItemGrows(items[0], |items| == 1, f, cf);
      ItemsGrow(items[1..], f, cf);
      ReadItemsParts(items);
    }
  }

  lemma {:induction false} ItemGrows(item: Item, last: bool, f: int, cf: int)
    requires ItemPrintable(item) && ItemKept(item)
    ensures ItemPrintable(ReadItem(item, last)) && |PrintItem(ReadItem(item, last), f, cf)| >= |PrintItem(item, f, cf)|
    ensures |PrintItem(ReadItem(item, last), f, cf)| == |PrintItem(item, f, cf)| <==> ItemFaithful(item, last)
    decreases item, 0
  {
    hide Print, ReadBack, Printable, Kept, Faithful, Escape, ItemIndent, LineEnd;
    match item
    case Text(t) => TextGrows(t);
    case Clear(c) =>
    case Child(e) => ElementGrows(e, cf);
  }

  lemma TextGrows(t: string)
    ensures Escape(t) == "" <==> t == ""
    ensures |Escape(Escape(t))| >= |Escape(t)|
    ensures |Escape(Escape(t))| == |Escape(t)| <==> forall k | 0 <= k < |t| :: !Escapable(t[k])
  {
    hide Escape, Escapable;
    EscapeIsIdentityIff(t);
    EscapeIsIdentityIff(Escape(t));
    EscapeOfNothing();
    if exists k | 0 <= k < |t| :: Escapable(t[k]) { EscapeKeepsEscapable(t); }
  }

  lemma EscapeOfNothing()
    ensures Escape("") == ""
  {
  }

  // A printed document, parsed, can be printed again exactly when no attribute value in it is
  // empty; and then the same text is printed exactly when the document came back unchanged.
  lemma PrintAgainIff(items: seq<Item>, f: int, cf: int)
    requires DocumentOk(items)
    ensures ItemsPrintable(items) && ParseString(PrintItems(items, f, cf)).Some?
    ensures Sound(ParseString(PrintItems(items, f, cf)).value)
    ensures var again := View(ParseString(PrintItems(items, f, cf)).value).contents;
            && (ItemsPrintable(again) <==> ItemsKept(items))
            && (ItemsPrintable(again) ==>
                  (PrintItems(again, f, cf) == PrintItems(items, f, cf) <==> ItemsFaithful(items)))
  {
    hide ParseString, PrintItems, DocumentOk, Sound, View, ItemsPrintable, ItemsKept, ItemsFaithful, ReadItems;
    ParsePrinted(items, f, cf);
    DocumentPrintableAgainIff(items);
    if ItemsKept(items) {
      ItemsGrow(items, f, cf);
      ReadItemsIff(items);
    }
  }

  // <a b/>: parsed, its attribute has no value, and the tree cannot be printed.
  lemma ValueLost()
    ensures var root := ParseString("<a b/>");
            root.Some? && Sound(root.value) && !Printable(View(root.value))
  {
    hide ParseString, Sound, View;
    var b := XMLAttribute("b", Some(""));
    var e := Element(Some("a"), false, [b], []);
    assert [b][1..] == [];
    assert AttributesOk([b]) && ItemsOk([]);
    ParsePrintedElement(e, -1);
    assert Print(e, -1) == "<a b/>" by {
      assert PrintAttributes([b]) == " b" by { assert PrintAttribute(b) == " b"; }
      NoItems(-1, -1);
    }
    var root := ParseString("<a b/>").value;
    ParsedPrintableIff("<a b/>");
    assert ReadAttributes([b]) == [XMLAttribute("b", None)];
    var back := ReadBack(e);
    assert View(root).contents[0] == Child(back);
    assert !AllValued(back.attributes) by { assert back.attributes[0].value.None?; }
    assert !ItemValued(Child(back));
  }
}
