/**
  Parsing what the printer wrote, on one line or indented, gives the tree back, up to two
  things the library really does: a text that another item follows comes back still
  escaped, and an attribute with an empty value comes back with no value.
*/
module XmlRoundTrip {
  import opened CText
  import opened Slices
  import opened Wrappers
  import opened XmlTree
  import opened XmlEscape
  import opened XmlTokenizer
  import opened XmlParser
  import opened XmlPrinter

  // ----- The trees the statement is about -----

  predicate NameChar(c: char) {
    !IsSpace(c) && c != NUL && c != '<' && c != '>' && c != '=' && c != '/'
  }

  predicate NameOk(n: string) {
    n != "" && n[0] !in {'\'', '"', '?', '!'} && forall k | 0 <= k < |n| :: NameChar(n[k])
  }

  // A start tag that is exactly "<PRE>" or "<Script>" opens an unformatted section.
  predicate ReadsAsClear(e: Element)
    requires Named(e)
  {
    e.contents != [] && e.attributes == [] && OpensClear(e.name.value)
  }

  predicate OpensClear(name: string) {
    exists k | 0 <= k < N_CLEAR_TAGS :: SameLetters("<" + name + ">", 0, CLEAR_TAGS[k].open)
  }

  predicate AttributeOk(a: XMLAttribute) {
    NameOk(a.name) && a.value.Some? && NUL !in a.value.value
  }

  predicate AttributesOk(s: seq<XMLAttribute>)
  {
    s == [] || (AttributeOk(s[0]) && AttributesOk(s[1..]))
  }

  predicate TextOk(t: string) {
    t != "" && !IsSpace(t[0]) && !IsSpace(t[|t|-1]) && NUL !in t
  }

  // The section's own closing text must not occur before its end.
  predicate ClearOk(c: XMLClear) {
    && c.value != "" && NUL !in c.value && InTable(c)
    && forall j | 0 <= j < |c.value| :: !Has(c.value + c.close, j, c.close)
  }

  predicate InTable(c: XMLClear) {
    exists k | 0 <= k < N_CLEAR_TAGS :: c.open == CLEAR_TAGS[k].open && c.close == CLEAR_TAGS[k].close
  }

  predicate Reparseable(e: Element)
    decreases e, 1
  {
    && Named(e) && NameOk(e.name.value) && !e.isDeclaration && !ReadsAsClear(e)
    && AttributesOk(e.attributes) && ItemsOk(e.contents)
  }

  predicate ItemOk(item: Item)
    decreases item, 0
  {
    match item
    case Text(t) => TextOk(t)
    case Clear(c) => ClearOk(c)
    case Child(e) => Reparseable(e)
  }

  // Two texts in a row would be read as one.
  predicate ItemsOk(s: seq<Item>)
    decreases s, 0
  {
    s == [] || (ItemOk(s[0]) && (|s| > 1 && s[0].Text? ==> !s[1].Text?) && ItemsOk(s[1..]))
  }

  // ----- What comes back -----

  function ReadAttribute(a: XMLAttribute): XMLAttribute {
    if a.value == Some("") then a.(value := None) else a
  }

  function ReadAttributes(s: seq<XMLAttribute>): seq<XMLAttribute>
  {
    if s == [] then [] else [ReadAttribute(s[0])] + ReadAttributes(s[1..])
  }

  function ReadBack(e: Element): Element
    decreases e, 1
  {
    e.(attributes := ReadAttributes(e.attributes), contents := ReadItems(e.contents))
  }

  function ReadItem(item: Item, last: bool): Item
    decreases item, 0
  {
    match item
    case Text(t) => if last then item else Text(Escape(t))
    case Clear(c) => item
    case Child(e) => Child(ReadBack(e))
  }

  function ReadItems(s: seq<Item>): seq<Item>
    decreases s, 0
  {
    if s == [] then [] else [ReadItem(s[0], |s| == 1)] + ReadItems(s[1..])
  }

  // ----- Tokens of the printed text -----

  lemma NoClearTag(s: string, j: nat)
    requires j < |s| && s[j] != '<'
    ensures ClearTagAt(s, j, 0) == None
  {
    forall k | 0 <= k < N_CLEAR_TAGS ensures !SameLetters(s, j, CLEAR_TAGS[k].open) {
      Differs(s, j, CLEAR_TAGS[k].open);
    }
  }

  lemma {:induction false} TextEndAt(s: string, k: nat, e: nat)
    requires k <= e < |s|
    requires forall m | k <= m < e :: NameChar(s[m]) || (s[m] == '/' && s[m + 1] != '>')
    requires EndsToken(s, e)
    ensures TextEnd(s, k) == e
    decreases e - k
  {
    if k < e { TextEndAt(s, k + 1, e); }
  }

  predicate EndsToken(s: string, e: nat) {
    e < |s| && (IsSpace(s[e]) || s[e] == '<' || s[e] == '>' || s[e] == '=' || (s[e] == '/' && At(s, e + 1) == '>'))
  }

  lemma NameToken(s: string, j: nat, name: string)
    requires Has(s, j, name) && NameOk(name) && EndsToken(s, j + |name|)
    ensures NextToken(s, j) ==
            Token(TokenText, j, |name|, if IsSpace(s[j + |name|]) then j + |name| + 1 else j + |name|)
  {
    hide ClearTagAt, TextEnd;
    HasAt(s, j, name);
    assert s[j + 0] == name[0];
    NoClearTag(s, j);
    forall m | j + 1 <= m < j + |name| ensures NameChar(s[m]) { assert s[j + (m - j)] == name[m - j]; }
    TextEndAt(s, j + 1, j + |name|);
  }

  // Leading white space does not matter to the loop.
  lemma LoopSkipsSpace(s: string, i: nat, d: NodeData, v: Locals)
    requires LocalsOk(s, i, v) && i < |s| && IsSpace(s[i])
    ensures ParseLoop(s, i, d, v) == ParseLoop(s, i + 1, d, v)
  {
    hide PlainToken, ClearTagAt, FlushRaw, FlushDecoded, StringDup, LastAttribute, ValuedAttribute;
    assert NextToken(s, i) == NextToken(s, i + 1);
  }

  lemma {:induction false} LoopSkipsAllSpace(s: string, i: nat, d: NodeData, v: Locals)
    requires LocalsOk(s, i, v)
    ensures ParseLoop(s, i, d, v) == ParseLoop(s, SkipSpace(s, i), d, v)
    decreases |s| - i
  {
    hide ParseLoop;
    if i < |s| && IsSpace(s[i]) {
      LoopSkipsSpace(s, i, d, v);
      LoopSkipsAllSpace(s, i + 1, d, v);
    }
  }

  predicate Blank(w: string) {
    forall k | 0 <= k < |w| :: IsSpace(w[k])
  }

  lemma {:induction false} TabsBlank(n: int)
    ensures Blank(Tabs(n))
    decreases n
  {
    if n > 0 { TabsBlank(n - 1); }
  }

  // What the printer puts around an item is white space.
  lemma LayoutBlank(format: int)
    ensures Blank(Indent(format)) && Blank(ItemIndent(format)) && Blank(LineEnd(format))
  {
    TabsBlank(format);
    TabsBlank(format + 1);
  }

  lemma {:induction false} SkipBlank(s: string, i: nat, w: string, d: NodeData, v: Locals)
    requires LocalsOk(s, i, v) && Has(s, i, w) && Blank(w)
    ensures LocalsOk(s, i + |w|, v) && ParseLoop(s, i, d, v) == ParseLoop(s, i + |w|, d, v)
    decreases |w|
  {
    hide ParseLoop;
    if w != [] {
      assert w == [w[0]] + w[1..];
      HasSplit(s, i, [w[0]], w[1..]);
      HasOne(s, i, w[0]);
      LoopSkipsSpace(s, i, d, v);
      SkipBlank(s, i + 1, w[1..], d, v);
    }
  }

  // ----- The attribute list -----

  // The attributes read so far, with the one whose value may still follow.
  function Seen(s: string, d: NodeData, v: Locals): seq<XMLAttribute>
    requires v.attrib == AttribEquals ==> v.temp + v.cbTemp <= |s|
  {
    d.attributes + if v.attrib == AttribEquals then [XMLAttribute(s[v.temp..v.temp + v.cbTemp], None)] else []
  }

  predicate InList(s: string, i: nat, d: NodeData, v: Locals) {
    LocalsOk(s, i, v) && v.status == InsideTag && v.attrib != AttribValue && v.text.None? && Sound(d)
  }

  // From cursor i the loop does what it would do from k with d' and v'.
  predicate ListReaches(s: string, i: nat, d: NodeData, v: Locals, k: nat, d': NodeData, v': Locals) {
    InList(s, i, d, v) && InList(s, k, d', v') && ParseLoop(s, i, d, v) == ParseLoop(s, k, d', v')
  }

  // d2 is d1 with other attributes
  predicate OnlyAttributes(d1: NodeData, d2: NodeData)
    requires Sound(d1)
  {
    Sound(d2) && View(d2) == View(d1).(attributes := d2.attributes)
  }

  lemma OnlyAttributesCompose(d1: NodeData, d2: NodeData, d3: NodeData)
    requires Sound(d1)
    ensures OnlyAttributes(d1, d1)
    ensures OnlyAttributes(d1, d2) && OnlyAttributes(d2, d3) ==> OnlyAttributes(d1, d3)
  {
  }

  lemma AddAttributeKeeps(d: NodeData, a: XMLAttribute)
    requires Sound(d)
    ensures OnlyAttributes(d, d.AddAttribute(a)) && d.AddAttribute(a).isDeclaration == d.isDeclaration
  {
    AddAttributeView(d, a);
  }

  lemma AttributeName(s: string, j: nat, d: NodeData, v: Locals, name: string) returns (d': NodeData, v': Locals)
    requires InList(s, j, d, v) && NameOk(name) && Has(s, j, name) && EndsToken(s, j + |name|)
    ensures v' == v.(attrib := AttribEquals, temp := j, cbTemp := |name|)
    ensures ListReaches(s, j, d, v, j + |name|, d', v')
    ensures OnlyAttributes(d, d') && d'.attributes == Seen(s, d, v)
    ensures Seen(s, d', v') == d'.attributes + [XMLAttribute(name, None)]
  {
    hide PlainToken, ClearTagAt, Sound, NextToken, Has, ParseChild, ParseClear, ParseEndTag;
    NameToken(s, j, name);
    var t := NextToken(s, j);
    v' := v.(attrib := AttribEquals, temp := j, cbTemp := |name|);
    d' := d;
    if v.attrib == AttribEquals {
      AddAttributeKeeps(d, XMLAttribute(StringDup(s, v.temp, v.cbTemp), None));
      d' := d.AddAttribute(XMLAttribute(StringDup(s, v.temp, v.cbTemp), None));
    }
    NameSlice(s, j, name);
    assert ParseLoop(s, j, d, v) == ParseLoop(s, t.next, d', v');
    if IsSpace(s[j + |name|]) { LoopSkipsSpace(s, j + |name|, d', v'); }
  }

  lemma NameSlice(s: string, j: nat, name: string)
    requires Has(s, j, name) && NameOk(name)
    ensures j + |name| <= |s| && s[j..j + |name|] == name && |name| >= 1
  {
  }

  lemma {:induction false} QuoteEndAt(s: string, i: nat, e: nat)
    requires i <= e < |s| && s[e] == '"' && forall m | i <= m < e :: s[m] != '"' && s[m] != '<' && s[m] != NUL
    ensures QuoteEnd(s, i, '"') == Some(e)
    decreases e - i
  {
    if i < e { QuoteEndAt(s, i + 1, e); }
  }

  // x stands between two quotes at i.
  lemma QuotedParts(s: string, i: nat, x: string)
    requires Has(s, i, "\"" + x + "\"")
    ensures i + |x| + 2 <= |s| && s[i] == '"' && s[i + 1 + |x|] == '"' && Has(s, i + 1, x)
    ensures forall m | i + 1 <= m < i + 1 + |x| :: s[m] == x[m - i - 1]
  {
    HasSplit(s, i, "\"" + x, "\"");
    HasSplit(s, i, "\"", x);
    HasAt(s, i, "\"" + x + "\"");
    assert s[i + 0] == '"' && s[i + (1 + |x|)] == '"';
    HasAt(s, i + 1, x);
    forall m | i + 1 <= m < i + 1 + |x| ensures s[m] == x[m - i - 1] {
      assert s[i + 1 + (m - i - 1)] == x[m - i - 1];
    }
  }

  lemma QuotedToken(s: string, i: nat, value: string)
    requires NUL !in value && Has(s, i, "\"" + Escape(value) + "\"")
    ensures i + |Escape(value)| + 2 <= |s| && s[i + |Escape(value)| + 1] == '"'
    ensures NextToken(s, i) == Token(TokenQuotedText, i, |Escape(value)| + 2, SkipSpace(s, i + |Escape(value)| + 2))
    ensures Decoded(s, i + 1, |Escape(value)|) == value
  {
    hide Escape, Decoded, ClearTagAt, Has;
    var x := Escape(value);
    QuotedParts(s, i, x);
    EscapeIsInert(value);
    NoClearTag(s, i);
    assert forall m | i + 1 <= m < i + 1 + |x| :: s[m] != '"' && s[m] != '<' && s[m] != NUL;
    QuoteEndAt(s, i + 1, i + 1 + |x|);
    DecodeInvertsEscape(s, i + 1, value);
  }

  lemma AttributeValue(s: string, e: nat, d: NodeData, v: Locals, name: string, value: string) returns (d': NodeData, v': Locals)
    requires InList(s, e, d, v) && v.attrib == AttribEquals && v.cbTemp == |name| && s[v.temp..v.temp + v.cbTemp] == name
    requires NUL !in value && Has(s, e, "=" + ("\"" + Escape(value) + "\""))
    ensures ListReaches(s, e, d, v, e + 3 + |Escape(value)|, d', v')
    ensures OnlyAttributes(d, d') && Seen(s, d', v') == d.attributes + [XMLAttribute(name, Some(value))] && v'.attrib == AttribName
  {
    hide PlainToken, ClearTagAt, Sound, Has, ParseChild, ParseClear, ParseEndTag, Decoded, Escape;
    hide ParseLoop;
    HasSplit(s, e, "=", "\"" + Escape(value) + "\"");
    EqualsRead(s, e, d, v);
    var k := e + 3 + |Escape(value)|;
    v' := v.(attrib := AttribName);
    d' := d.AddAttribute(XMLAttribute(name, Some(value)));
    AddAttributeKeeps(d, XMLAttribute(name, Some(value)));
    QuotedRead(s, e + 1, d, v.(attrib := AttribValue), name, value);
    LoopSkipsAllSpace(s, k, d', v');
  }

  lemma EqualsRead(s: string, e: nat, d: NodeData, v: Locals)
    requires LocalsOk(s, e, v) && v.status == InsideTag && v.attrib == AttribEquals && Has(s, e, "=")
    ensures e < |s| && ParseLoop(s, e, d, v) == ParseLoop(s, e + 1, d, v.(attrib := AttribValue))
  {
    hide NextToken, Has, ParseChild, ParseClear, ParseEndTag;
    EqualsToken(s, e);
  }

  lemma QuotedRead(s: string, i: nat, d: NodeData, v: Locals, name: string, value: string)
    requires LocalsOk(s, i, v) && v.status == InsideTag && v.attrib == AttribValue
    requires v.cbTemp == |name| && v.temp + v.cbTemp <= |s| && s[v.temp..v.temp + v.cbTemp] == name
    requires NUL !in value && Has(s, i, "\"" + Escape(value) + "\"")
    ensures i + 2 + |Escape(value)| <= |s|
    ensures ParseLoop(s, i, d, v) ==
            ParseLoop(s, SkipSpace(s, i + 2 + |Escape(value)|), d.AddAttribute(XMLAttribute(name, Some(value))), v.(attrib := AttribName))
  {
    hide NextToken, Has, ParseChild, ParseClear, ParseEndTag, Decoded, Escape;
    QuotedToken(s, i, value);
    QuestionMarkOnlyAtEnd(s, d, i, |Escape(value)| + 2);
  }

  lemma EqualsToken(s: string, e: nat)
    requires Has(s, e, "=")
    ensures e < |s| && NextToken(s, e) == Token(TokenEquals, e, 1, e + 1)
  {
    HasOne(s, e, '=');
    NoClearTag(s, e);
  }

  lemma QuestionMarkOnlyAtEnd(s: string, d: NodeData, i: nat, n: nat)
    requires 1 <= n && i + n <= |s| && (d.isDeclaration ==> s[i + n - 1] != '?')
    ensures WithoutQuestionMark(s, d, i, n) == n
  {
  }

  // After an attribute comes another one, or the end of the tag.
  predicate EndsAttribute(s: string, k: nat) {
    k < |s| && (s[k] == ' ' || s[k] == '>' || (s[k] == '/' && At(s, k + 1) == '>'))
  }

  lemma OneAttribute(s: string, i: nat, d: NodeData, v: Locals, a: XMLAttribute) returns (d': NodeData, v': Locals)
    requires InList(s, i, d, v) && AttributeOk(a) && Has(s, i, PrintAttribute(a))
    requires a.value == Some("") ==> EndsAttribute(s, i + |PrintAttribute(a)|)
    ensures ListReaches(s, i, d, v, i + |PrintAttribute(a)|, d', v')
    ensures OnlyAttributes(d, d') && Seen(s, d', v') == Seen(s, d, v) + [ReadAttribute(a)]
    ensures a.value != Some("") ==> v'.attrib == AttribName
  {
    hide ParseLoop, Sound, NextToken, Escape, EndsAttribute, Has;
    var j := i + 1;
    var value := a.value.value;
    AttributeParts(s, i, a);
    LoopSkipsSpace(s, i, d, v);
    d', v' := AttributeName(s, j, d, v, a.name);
    if value != "" {
      var e := j + |a.name|;
      ghost var d1, v1 := d', v';
      NameSlice(s, j, a.name);
      d', v' := AttributeValue(s, e, d1, v1, a.name, value);
    }
  }

  // Behind the name of a printed attribute.
  function AttributeTail(a: XMLAttribute): string
    requires a.value.Some?
  {
    if a.value == Some("") then "" else "=" + ("\"" + Escape(a.value.value) + "\"")
  }

  lemma AttributePrinted(a: XMLAttribute)
    requires AttributeOk(a)
    ensures PrintAttribute(a) == " " + (a.name + AttributeTail(a))
    ensures AttributeTail(a) == "" <==> a.value == Some("")
    ensures AttributeTail(a) != "" ==> AttributeTail(a)[0] == '='
  {
    hide Escape;
  }

  lemma AttributeParts(s: string, i: nat, a: XMLAttribute)
    requires AttributeOk(a) && Has(s, i, PrintAttribute(a))
    requires a.value == Some("") ==> EndsAttribute(s, i + |PrintAttribute(a)|)
    ensures |PrintAttribute(a)| == 1 + |a.name| + |AttributeTail(a)|
    ensures i < |s| && s[i] == ' ' && Has(s, i + 1, a.name) && Has(s, i + 1 + |a.name|, AttributeTail(a))
    ensures EndsToken(s, i + 1 + |a.name|)
  {
    hide AttributeTail, PrintAttribute, Has, EndsToken, EndsAttribute, NameOk;
    var tail := AttributeTail(a);
    AttributePrinted(a);
    HasSplit(s, i, " ", a.name + tail);
    HasSplit(s, i + 1, a.name, tail);
    HasOne(s, i, ' ');
    EndsBefore(s, i + 1 + |a.name|, tail);
  }

  // A name ends before its "=", or where the attribute does.
  lemma EndsBefore(s: string, k: nat, tail: string)
    requires Has(s, k, tail) && (if tail == "" then EndsAttribute(s, k) else tail[0] == '=')
    ensures EndsToken(s, k)
  {
    if tail != "" {
      HasAt(s, k, tail);
      assert s[k + 0] == tail[0];
    }
  }

  // The cursor stands before a printed attribute list.
  predicate AtList(s: string, i: nat, d: NodeData, v: Locals, list: seq<XMLAttribute>) {
    && InList(s, i, d, v) && AttributesOk(list) && AttributesPrintable(list)
    && Has(s, i, PrintAttributes(list)) && EndsAttribute(s, i + |PrintAttributes(list)|)
  }

  predicate ListRead(s: string, i: nat, d: NodeData, v: Locals, k: nat, d': NodeData, v': Locals, read: seq<XMLAttribute>) {
    ListReaches(s, i, d, v, k, d', v') && OnlyAttributes(d, d') && Seen(s, d', v') == Seen(s, d, v) + read
  }

  lemma {:induction false} Attributes(s: string, i: nat, d: NodeData, v: Locals, list: seq<XMLAttribute>) returns (d': NodeData, v': Locals)
    requires AtList(s, i, d, v, list)
    ensures ListRead(s, i, d, v, i + |PrintAttributes(list)|, d', v', ReadAttributes(list))
    decreases |list|
  {
    hide AtList, ListRead, PrintAttributes, PrintAttribute, AttributesPrintable, ReadAttributes;
    if list == [] {
      d', v' := d, v;
      NoAttributesRead(s, i, d, v);
    } else {
      ghost var k, d1, v1 := FirstAttribute(s, i, d, v, list);
      d', v' := Attributes(s, k, d1, v1, list[1..]);
      RestRead(s, i, d, v, k, d1, v1, d', v', list);
    }
  }

  lemma NoAttributesRead(s: string, i: nat, d: NodeData, v: Locals)
    requires AtList(s, i, d, v, [])
    ensures ListRead(s, i, d, v, i + |PrintAttributes([])|, d, v, ReadAttributes([]))
  {
    hide ParseLoop;
    OnlyAttributesCompose(d, d, d);
  }

  lemma FirstAttribute(s: string, i: nat, d: NodeData, v: Locals, list: seq<XMLAttribute>) returns (k: nat, d1: NodeData, v1: Locals)
    requires list != [] && AtList(s, i, d, v, list)
    ensures AtList(s, k, d1, v1, list[1..]) && ListRead(s, i, d, v, k, d1, v1, [ReadAttribute(list[0])])
    ensures AttributesPrintable(list) && i + |PrintAttributes(list)| == k + |PrintAttributes(list[1..])|
  {
    hide ParseLoop, PrintAttribute, Sound, OnlyAttributes, Has, EndsAttribute, Seen, ReadAttribute, AttributeOk;
    AttributesSplit(s, i, list);
    k := i + |PrintAttribute(list[0])|;
    d1, v1 := OneAttribute(s, i, d, v, list[0]);
  }

  lemma RestRead(s: string, i: nat, d: NodeData, v: Locals, k: nat, d1: NodeData, v1: Locals, d2: NodeData, v2: Locals, list: seq<XMLAttribute>)
    requires list != [] && AttributesPrintable(list) && i + |PrintAttributes(list)| == k + |PrintAttributes(list[1..])|
    requires ListRead(s, i, d, v, k, d1, v1, [ReadAttribute(list[0])])
    requires ListRead(s, k, d1, v1, k + |PrintAttributes(list[1..])|, d2, v2, ReadAttributes(list[1..]))
    ensures ListRead(s, i, d, v, i + |PrintAttributes(list)|, d2, v2, ReadAttributes(list))
  {
    hide ParseLoop, PrintAttribute, PrintAttributes, Sound, OnlyAttributes, LocalsOk;
    OnlyAttributesCompose(d, d1, d2);
  }

  lemma AttributesSplit(s: string, i: nat, list: seq<XMLAttribute>)
    requires list != [] && AttributesOk(list) && AttributesPrintable(list) && Has(s, i, PrintAttributes(list))
    requires EndsAttribute(s, i + |PrintAttributes(list)|)
    ensures AttributeOk(list[0]) && AttributesOk(list[1..]) && AttributesPrintable(list[1..])
    ensures (list[0].name != "" ==> list[0].value.Some?) && Has(s, i, PrintAttribute(list[0]))
    ensures EndsAttribute(s, i + |PrintAttribute(list[0])|)
    ensures Has(s, i + |PrintAttribute(list[0])|, PrintAttributes(list[1..]))
    ensures |PrintAttributes(list)| == |PrintAttribute(list[0])| + |PrintAttributes(list[1..])|
  {
    hide PrintAttribute, Has, AttributeOk;
    HasSplit(s, i, PrintAttribute(list[0]), PrintAttributes(list[1..]));
    if |list| > 1 {
      StartsWithSpace(s, i + |PrintAttribute(list[0])|, list[1], PrintAttributes(list[2..]));
    }
  }

  lemma StartsWithSpace(s: string, k: nat, a: XMLAttribute, rest: string)
    requires AttributeOk(a) && Has(s, k, PrintAttribute(a) + rest)
    ensures EndsAttribute(s, k)
  {
    hide Escape;
    HasAt(s, k, PrintAttribute(a) + rest);
    assert s[k + 0] == ' ';
  }

  // ----- The end of the start tag -----

  lemma CloseOfTag(s: string, k: nat, d: NodeData, v: Locals) returns (d': NodeData)
    requires InList(s, k, d, v) && !d.isDeclaration && Has(s, k, ">")
    ensures OnlyAttributes(d, d') && d'.attributes == Seen(s, d, v) && !d'.isDeclaration
    ensures ParseLoop(s, k, d, v) == ParseLoop(s, k + 1, d', v.(status := OutsideTag))
  {
    hide Sound, ParseChild, ParseClear, ParseEndTag, NextToken, Has;
    d' := EndOfList(s, d, v);
    CloseToken(s, k);
    if v.attrib == AttribEquals { assert LastAttribute(s, d, v) == d'; }
  }

  lemma ShortClose(s: string, k: nat, d: NodeData, v: Locals) returns (d': NodeData)
    requires InList(s, k, d, v) && !d.isDeclaration && Has(s, k, "/>")
    ensures OnlyAttributes(d, d') && d'.attributes == Seen(s, d, v) && !d'.isDeclaration
    ensures ParseLoop(s, k, d, v) == Done(d', k + 2)
  {
    hide Sound, ParseChild, ParseClear, ParseEndTag, NextToken, Has;
    d' := EndOfList(s, d, v);
    ShortCloseToken(s, k);
    if v.attrib == AttribEquals { assert LastAttribute(s, d, v) == d'; }
  }

  lemma CloseToken(s: string, k: nat)
    requires Has(s, k, ">")
    ensures k < |s| && NextToken(s, k) == Token(TokenCloseTag, k, 1, k + 1)
  {
    HasOne(s, k, '>');
    NoClearTag(s, k);
  }

  lemma ShortCloseToken(s: string, k: nat)
    requires Has(s, k, "/>")
    ensures k + 1 < |s| && NextToken(s, k) == Token(TokenShortHandClose, k, 2, k + 2)
  {
    HasAt(s, k, "/>");
    assert s[k + 0] == "/>"[0] && s[k + 1] == "/>"[1];
    NoClearTag(s, k);
  }

  lemma EndOfList(s: string, d: NodeData, v: Locals) returns (d': NodeData)
    requires Sound(d) && !d.isDeclaration && v.attrib != AttribValue
    requires v.attrib == AttribEquals ==> v.cbTemp >= 1 && v.temp + v.cbTemp <= |s|
    ensures OnlyAttributes(d, d') && d'.attributes == Seen(s, d, v) && !d'.isDeclaration
    ensures v.attrib == AttribEquals ==> LastAttribute(s, d, v) == d'
    ensures v.attrib == AttribName ==> d' == d
  {
    d' := d;
    if v.attrib == AttribEquals {
      QuestionMarkOnlyAtEnd(s, d, v.temp, v.cbTemp);
      AddAttributeKeeps(d, XMLAttribute(StringDup(s, v.temp, v.cbTemp), None));
      d' := d.AddAttribute(XMLAttribute(StringDup(s, v.temp, v.cbTemp), None));
    }
  }

  // ----- Texts -----

  // From a cursor outside a tag the loop does what it would do from k.
  predicate Reaches(s: string, i: nat, d: NodeData, v: Locals, k: nat, d': NodeData, v': Locals) {
    && LocalsOk(s, i, v) && v.status == OutsideTag && LocalsOk(s, k, v') && v'.status == OutsideTag
    && ParseLoop(s, i, d, v) == ParseLoop(s, k, d', v')
  }

  // A text ends here: at white space, or before a tag.
  predicate Stops(s: string, e: nat) {
    e < |s| && (IsSpace(s[e]) || s[e] == '<')
  }

  lemma {:induction false} TextEndBefore(s: string, k: nat, e: nat)
    requires k <= e && Stops(s, e)
    ensures TextEnd(s, k) <= e
    decreases e - k
  {
    if k < e && TextEnd(s, k) != k { TextEndBefore(s, k + 1, e); }
  }

  lemma {:induction false} SkipSpaceBefore(s: string, i: nat, e: nat)
    requires i <= e < |s| && !IsSpace(s[e])
    ensures SkipSpace(s, i) <= e
    decreases e - i
  {
    if i < e { SkipSpaceBefore(s, i + 1, e); }
  }

  // Inside a run of escaped text every token is a word or an equals sign; the last one may
  // take one white space with it.
  lemma TokenOfText(s: string, k: nat, e: nat)
    requires k < e && Stops(s, e) && !IsSpace(s[e - 1])
    requires forall m | k <= m < e :: s[m] != '<' && s[m] != '>' && s[m] != '\'' && s[m] != '"' && s[m] != NUL
    ensures NextToken(s, k).kind == TokenText || NextToken(s, k).kind == TokenEquals
    ensures k < NextToken(s, k).next <= e || (NextToken(s, k).next == e + 1 && IsSpace(s[e]))
    ensures !IsSpace(s[k]) ==> NextToken(s, k).start == k
  {
    hide ClearTagAt;
    SkipSpaceBefore(s, k, e - 1);
    var j := SkipSpace(s, k);
    NoClearTag(s, j);
    TextEndBefore(s, j + 1, e);
  }

  // A pending text stays pending up to its end.
  lemma {:induction false} RestOfText(s: string, k: nat, e: nat, d: NodeData, v: Locals)
    requires LocalsOk(s, k, v) && v.status == OutsideTag && v.text.Some? && v.text.value < e
    requires Stops(s, e) && (k <= e || (k == e + 1 && IsSpace(s[e]))) && (k < e ==> !IsSpace(s[e - 1]))
    requires forall m | k <= m < e :: s[m] != '<' && s[m] != '>' && s[m] != '\'' && s[m] != '"' && s[m] != NUL
    ensures Reaches(s, k, d, v, e, d, v)
    decreases e + 1 - k
  {
    hide NextToken, ParseInside, ParseChild, ParseClear, ParseEndTag;
    if k < e {
      TokenOfText(s, k, e);
      RestOfText(s, NextToken(s, k).next, e, d, v);
    } else if k == e + 1 {
      LoopSkipsSpace(s, e, d, v);
    }
  }

  lemma TextItem(s: string, i: nat, d: NodeData, v: Locals, t: string) returns (v': Locals)
    requires LocalsOk(s, i, v) && v.status == OutsideTag && v.text.None?
    requires TextOk(t) && Has(s, i, Escape(t)) && Stops(s, i + |Escape(t)|)
    ensures v' == v.(text := Some(i)) && Reaches(s, i, d, v, i + |Escape(t)|, d, v')
  {
    hide NextToken, ParseInside, ParseChild, ParseClear, ParseEndTag, Escape, Has;
    var e := i + |Escape(t)|;
    v' := v.(text := Some(i));
    EscapeIsInert(t);
    TextChars(s, i, Escape(t));
    TokenOfText(s, i, e);
    assert ParseLoop(s, i, d, v) == ParseLoop(s, NextToken(s, i).next, d, v');
    RestOfText(s, NextToken(s, i).next, e, d, v');
  }

  lemma TextChars(s: string, i: nat, x: string)
    requires Has(s, i, x) && Inert(x) && x != [] && !IsSpace(x[0]) && !IsSpace(x[|x|-1])
    ensures i + |x| <= |s| && !IsSpace(s[i]) && !IsSpace(s[i + |x| - 1])
    ensures forall m | i <= m < i + |x| :: s[m] != '<' && s[m] != '>' && s[m] != '\'' && s[m] != '"' && s[m] != NUL
  {
    HasAt(s, i, x);
    assert s[i + 0] == x[0] && s[i + (|x| - 1)] == x[|x| - 1];
    forall m | i <= m < i + |x| ensures s[m] != '<' && s[m] != '>' && s[m] != '\'' && s[m] != '"' && s[m] != NUL {
      assert s[i + (m - i)] == x[m - i];
    }
  }

  // The pending text, escaped, with nothing but white space between it and the cursor.
  predicate Pending(s: string, i: nat, v: Locals, text: Option<string>) {
    if text.None? then v.text.None?
    else
      && TextOk(text.value) && v.text.Some? && Has(s, v.text.value, Escape(text.value))
      && v.text.value + |Escape(text.value)| <= i <= |s| && Blank(s[v.text.value + |Escape(text.value)|..i])
  }

  // White space does not end a pending text.
  lemma PendingOn(s: string, i: nat, w: string, v: Locals, text: Option<string>)
    requires Pending(s, i, v, text) && Has(s, i, w) && Blank(w)
    ensures Pending(s, i + |w|, v, text)
  {
    hide Escape;
    if text.Some? {
      var e := v.text.value + |Escape(text.value)|;
      assert s[e..i + |w|] == s[e..i] + w;
    }
  }

  lemma {:induction false} EndOfTrimmed(s: string, i: nat, n: nat, k: nat)
    requires i + n + k <= |s| && n > 0 && !IsSpace(s[i + n - 1]) && Blank(s[i + n..i + n + k])
    ensures EndOfText(s, i, n + k) == n
  {
    if k > 0 {
      assert s[i + n..i + n + k][k - 1] == s[i + (n + k) - 1];
      assert s[i + n..i + n + k][..k - 1] == s[i + n..i + n + (k - 1)];
      EndOfTrimmed(s, i, n, k - 1);
    }
  }

  // A pending text is stored escaped before another item, and decoded before the end tag.
  lemma FlushPending(s: string, i: nat, d: NodeData, v: Locals, text: Option<string>)
    requires Sound(d) && Pending(s, i, v, text) && i <= |s|
    ensures var raw, plain := FlushRaw(s, d, v.text, i), FlushDecoded(s, d, v.text, i);
            && Sound(raw) && View(raw) == WithItems(d, RawItems(text))
            && Sound(plain) && View(plain) == WithItems(d, PendingItems(text))
  {
    hide Escape, Decoded, UpToNul, EndOfText;
    if text.None? {
      assert View(d).contents + [] == View(d).contents;
    } else {
      var a, x := v.text.value, Escape(text.value);
      EscapeIsInert(text.value);
      TextChars(s, a, x);
      EndOfTrimmed(s, a, |x|, i - a - |x|);
      DecodeInvertsEscape(s, a, text.value);
      AddTextView(d, x);
      AddTextView(d, text.value);
    }
  }

  function WithItems(d: NodeData, items: seq<Item>): Element
    requires Sound(d)
  {
    View(d).(contents := View(d).contents + items)
  }

  // ----- Unformatted sections -----

  lemma ClearTagIs(s: string, i: nat, k: nat)
    requires k < N_CLEAR_TAGS && Has(s, i, CLEAR_TAGS[k].open)
    ensures ClearTagAt(s, i, 0) == Some(k)
  {
    var w := CLEAR_TAGS[k].open;
    HasAt(s, i, w);
    assert s[i + 1] == w[1] && s[i + 2] == w[2];
    SameText(s, i, w);
    forall m | 0 <= m < k ensures !SameLetters(s, i, CLEAR_TAGS[m].open) {
      var u := CLEAR_TAGS[m].open;
      assert Lower(w[1]) != Lower(u[1]) || Lower(w[2]) != Lower(u[2]);
    }
  }

  lemma {:induction false} FindsFirst(s: string, p: nat, q: nat, w: string)
    requires p <= q <= |s| && Has(s, q, w) && forall m | p <= m < q :: !Has(s, m, w) && s[m] != NUL
    ensures FindString(s, p, w) == Some(q)
    decreases q - p
  {
    hide Has;
    if p < q { FindsFirst(s, p + 1, q, w); }
  }

  lemma NotYet(s: string, p: nat, c: XMLClear, j: nat)
    requires ClearOk(c) && Has(s, p, c.value + c.close) && j < |c.value|
    ensures p + j < |s| && !Has(s, p + j, c.close) && s[p + j] != NUL
  {
    hide InTable, Has;
    var x := c.value + c.close;
    HasInside(s, p, x, j, c.close);
    HasAt(s, p, x);
    HasBound(s, p, x);
    assert s[p + j] == x[j] == c.value[j];
  }

  lemma CloseFound(s: string, p: nat, c: XMLClear)
    requires ClearOk(c) && Has(s, p, c.value + c.close)
    ensures p + |c.value| <= |s| && s[p..p + |c.value|] == c.value && |c.value| >= 1
    ensures FindString(s, p, c.close) == Some(p + |c.value|)
  {
    hide InTable, FindString;
    var x := c.value + c.close;
    HasSplit(s, p, c.value, c.close);
    HasAt(s, p, c.value);
    forall m | p <= m < p + |c.value| ensures !Has(s, m, c.close) && s[m] != NUL {
      NotYet(s, p, c, m - p);
    }
    FindsFirst(s, p, p + |c.value|, c.close);
  }

  lemma ClearToken(s: string, i: nat, c: XMLClear) returns (k: nat)
    requires ClearOk(c) && Has(s, i, c.open + (c.value + c.close))
    ensures k < N_CLEAR_TAGS && c.open == CLEAR_TAGS[k].open && c.close == CLEAR_TAGS[k].close
    ensures i + |c.open| <= |s| && NextToken(s, i) == Token(TokenClear(k), i, 0, i + |c.open|)
    ensures Has(s, i + |c.open|, c.value + c.close)
  {
    hide ClearTagAt, PlainToken;
    k :| 0 <= k < N_CLEAR_TAGS && c.open == CLEAR_TAGS[k].open && c.close == CLEAR_TAGS[k].close;
    HasSplit(s, i, c.open, c.value + c.close);
    ClearTagIs(s, i, k);
    HasAt(s, i, c.open);
    assert s[i + 0] == '<';
  }

  lemma ClearItem(s: string, i: nat, d: NodeData, v: Locals, c: XMLClear)
    requires LocalsOk(s, i, v) && v.status == OutsideTag
    requires ClearOk(c) && Has(s, i, c.open + (c.value + c.close))
    ensures Reaches(s, i, d, v, i + |c.open| + |c.value| + |c.close|, FlushRaw(s, d, v.text, i).AddClear(c), v.(text := None))
  {
    hide ParseLoop, NextToken, FindString, ClearOk, Has, FlushRaw;
    var k := ClearToken(s, i, c);
    var p := i + |c.open|;
    CloseFound(s, p, c);
    ClearLength(s, p, c);
    assert c == XMLClear(s[p..p + |c.value|], CLEAR_TAGS[k].open, CLEAR_TAGS[k].close);
    ClearRead(s, i, d, v, k, p, p + |c.value|);
  }

  // The opening of a section, whose closing text is found at q.
  lemma ClearRead(s: string, i: nat, d: NodeData, v: Locals, k: nat, p: nat, q: nat)
    requires LocalsOk(s, i, v) && v.status == OutsideTag && k < N_CLEAR_TAGS && p < q
    requires p <= |s| && NextToken(s, i) == Token(TokenClear(k), i, 0, p)
    requires FindString(s, p, CLEAR_TAGS[k].close) == Some(q)
    ensures q + |CLEAR_TAGS[k].close| <= |s|
    ensures var c := XMLClear(s[p..q], CLEAR_TAGS[k].open, CLEAR_TAGS[k].close);
            ParseLoop(s, i, d, v) == ParseLoop(s, q + |CLEAR_TAGS[k].close|, FlushRaw(s, d, v.text, i).AddClear(c), v.(text := None))
  {
    hide NextToken, ParseInside, ParseChild, ParseEndTag, FindString, FlushRaw;
    FoundInside(s, p, CLEAR_TAGS[k].close);
    assert ParseLoop(s, i, d, v) == ParseClear(s, i, d, v, NextToken(s, i));
  }

  lemma ClearLength(s: string, p: nat, c: XMLClear)
    requires Has(s, p, c.value + c.close)
    ensures p + |c.value| + |c.close| <= |s|
  {
  }

  // ----- End tags -----

  lemma EndTagItem(s: string, i: nat, d: NodeData, v: Locals, name: string)
    requires LocalsOk(s, i, v) && v.status == OutsideTag
    requires NameOk(name) && d.name == Some(name) && Has(s, i, "</" + (name + ">"))
    ensures ParseLoop(s, i, d, v) == Done(FlushDecoded(s, d, v.text, i), i + |name| + 3)
  {
    hide ParseInside, ParseChild, ParseClear, NextToken, FlushDecoded, SameTag, Has;
    HasSplit(s, i, "</", name + ">");
    HasSplit(s, i + 2, name, ">");
    EndTagToken(s, i);
    CloseToken(s, i + 2 + |name|);
    EndsHere(s, i + 2 + |name|);
    NameToken(s, i + 2, name);
    TagMatches(s, i + 2, name);
  }

  lemma EndsHere(s: string, k: nat)
    requires Has(s, k, ">")
    ensures k < |s| && s[k] == '>' && EndsToken(s, k)
  {
    HasOne(s, k, '>');
  }

  lemma EndTagToken(s: string, i: nat)
    requires Has(s, i, "</")
    ensures i + 2 <= |s| && NextToken(s, i) == Token(TokenTagEnd, i, 2, i + 2)
  {
    HasAt(s, i, "</");
    assert s[i + 0] == "</"[0] && s[i + 1] == "</"[1];
    forall k | 0 <= k < N_CLEAR_TAGS ensures !SameLetters(s, i, CLEAR_TAGS[k].open) {
      assert Lower(CLEAR_TAGS[k].open[1]) != Lower('/');
    }
  }

  lemma TagMatches(s: string, j: nat, name: string)
    requires Has(s, j, name) && Has(s, j + |name|, ">")
    ensures SameTag(Some(name), s, j)
  {
    SameText(s, j, name);
    EndsHere(s, j + |name|);
  }

  // ----- Elements -----

  // What follows the name in a printed start tag, up to the end of the element.
  function AfterName(e: Element, f: int): string
    requires Named(e) && Printable(e) && !e.isDeclaration
  {
    PrintAttributes(e.attributes) + AfterAttributes(e, f)
  }

  function AfterAttributes(e: Element, f: int): string
    requires Named(e) && Printable(e) && !e.isDeclaration
  {
    if e.contents == [] then "/>"
    else ">" + (LineEnd(f) + (PrintItems(e.contents, f, ChildFormat(e, f)) + (Indent(f) + EndOfElement(e))))
  }

  function EndOfElement(e: Element): string
    requires Named(e)
  {
    "</" + (e.name.value + ">")
  }

  // The printed element without the white space around it.
  function Core(e: Element, f: int): string
    requires Named(e) && Printable(e) && !e.isDeclaration
  {
    "<" + (e.name.value + AfterName(e, f))
  }

  lemma PrintParts(e: Element, f: int)
    requires Named(e) && Printable(e) && !e.isDeclaration
    ensures Print(e, f) == Indent(f) + (Core(e, f) + LineEnd(f))
  {
    hide PrintAttributes, PrintItems, Indent, LineEnd;
    var name, attributes, items := e.name.value, PrintAttributes(e.attributes), PrintItems(e.contents, f, ChildFormat(e, f));
    if e.contents == [] {
      NoItems(f, ChildFormat(e, f));
      RegroupEmpty(Indent(f), "<", name, attributes, "/>", LineEnd(f));
    } else {
      Regroup(Indent(f), "<", name, attributes, ">", LineEnd(f), items, "</", name, ">");
    }
  }

  lemma RegroupEmpty(i: string, a: string, b: string, c: string, d: string, l: string)
    ensures i + (a + "" + b + c) + d + l + "" + "" == i + ((a + (b + (c + d))) + l)
  {
  }

  lemma Regroup(i: string, a: string, b: string, c: string, d: string, l: string, e: string, g: string, h: string, k: string)
    ensures i + (a + "" + b + c) + d + l + e + (i + g + h + k + l)
         == i + ((a + (b + (c + (d + (l + (e + (i + (g + (h + k)))))))))  + l)
  {
    var x, y := i + (a + "" + b + c) + d + l + e, i + g + h + k + l;
    assert x + y == i + (a + (b + (c + (d + (l + e))))) + y;
    assert y == (i + (g + (h + k))) + l;
  }

  lemma NoItems(f: int, cf: int)
    ensures ItemsPrintable([]) && PrintItems([], f, cf) == ""
  {
  }

  lemma ReparseableIsPrintable(e: Element)
    requires Reparseable(e)
    ensures Printable(e)
    decreases e, 1
  {
    AttributesOkPrintable(e.attributes);
    ItemsOkPrintable(e.contents);
  }

  lemma AttributesOkPrintable(list: seq<XMLAttribute>)
    requires AttributesOk(list)
    ensures AttributesPrintable(list)
  {
  }

  lemma ItemsOkPrintable(items: seq<Item>)
    requires ItemsOk(items)
    ensures ItemsPrintable(items)
    decreases items, 0
  {
    if items != [] {
      ItemOkPrintable(items[0]);
      ItemsOkPrintable(items[1..]);
    }
  }

  lemma ItemOkPrintable(item: Item)
    requires ItemOk(item)
    ensures ItemPrintable(item)
    decreases item, 0
  {
    match item
    case Child(e) => ReparseableIsPrintable(e);
    case _ =>
  }

  // A start tag with this name stands at i.
  predicate OpensTag(s: string, i: nat, name: string) {
    i + |name| + 1 < |s| && s[i] == '<' && Has(s, i + 1, name) && s[i + 1 + |name|] in {' ', '/', '>'}
  }

  lemma LetterOfTag(s: string, i: nat, name: string, w: string, m: nat)
    requires OpensTag(s, i, name) && SameLetters(s, i, w) && 1 <= m < |w|
    ensures m <= |name| ==> Lower(name[m - 1]) == Lower(w[m])
    ensures m == |name| + 1 ==> Lower(s[i + m]) == Lower(w[m])
  {
    hide Has, Lower;
    HasAt(s, i + 1, name);
    if m <= |name| { assert s[i + 1 + (m - 1)] == name[m - 1]; }
  }

  // An opening that begins like a start tag is the whole of it.
  lemma OpeningIsTag(s: string, i: nat, name: string, k: nat)
    requires NameOk(name) && OpensTag(s, i, name) && k < N_CLEAR_TAGS && SameLetters(s, i, CLEAR_TAGS[k].open)
    ensures s[i + 1 + |name|] == '>' && OpensClear(name)
  {
    hide Has;
    var w, t := CLEAR_TAGS[k].open, "<" + name + ">";
    OpeningShape(k);
    LetterOfTag(s, i, name, w, 1);
    LetterOfTag(s, i, name, w, |w| - 1);
    if |name| + 1 < |w| { LetterOfTag(s, i, name, w, |name| + 1); }
    forall m | 0 <= m < |w| ensures Lower(t[0 + m]) == Lower(w[m]) {
      if 1 <= m < |w| - 1 { LetterOfTag(s, i, name, w, m); }
    }
  }

  lemma OpeningShape(k: nat)
    requires k < N_CLEAR_TAGS
    ensures var w := CLEAR_TAGS[k].open;
            && |w| >= 4 && w[0] == '<'
            && (w[1] == '!' || (w[|w|-1] == '>' && forall m | 1 <= m < |w| - 1 :: 'A' <= w[m] <= 'z'))
  {
  }

  lemma NameInTag(s: string, i: nat, e: Element, f: int)
    requires Reparseable(e) && Printable(e) && Has(s, i, Core(e, f))
    ensures var j := i + 1 + |e.name.value|;
            && OpensTag(s, i, e.name.value) && EndsAttribute(s, j) && Has(s, j, AfterName(e, f))
            && (s[j] == '>' ==> !OpensClear(e.name.value))
  {
    hide PrintItems, ItemsOk, AttributesOk, OpensClear, AfterName, Printable, Has;
    var name := e.name.value;
    HasSplit(s, i, "<", name + AfterName(e, f));
    HasSplit(s, i + 1, name, AfterName(e, f));
    HasOne(s, i, '<');
    AfterNameStarts(s, i + 1 + |name|, e, f);
  }

  lemma AfterNameStarts(s: string, k: nat, e: Element, f: int)
    requires Reparseable(e) && Printable(e) && Has(s, k, AfterName(e, f))
    ensures k < |s| && EndsAttribute(s, k)
    ensures s[k] == '>' ==> e.attributes == [] && e.contents != []
  {
    hide PrintItems, PrintAttribute, Indent, LineEnd;
    HasAt(s, k, AfterName(e, f));
    assert s[k + 0] == AfterName(e, f)[0];
    if e.attributes == [] {
      AfterAttributesStarts(s, k, e, f);
    } else {
      AttributeStarts(e.attributes[0]);
    }
  }

  lemma AttributeStarts(a: XMLAttribute)
    requires AttributeOk(a)
    ensures PrintAttribute(a) != "" && PrintAttribute(a)[0] == ' '
  {
    hide Escape;
  }

  // Behind the ">" of an element with contents.
  function Inside(e: Element, f: int): string
    requires Named(e) && Printable(e) && !e.isDeclaration
  {
    LineEnd(f) + (PrintItems(e.contents, f, ChildFormat(e, f)) + (Indent(f) + EndOfElement(e)))
  }

  lemma AfterAttributesStarts(s: string, k: nat, e: Element, f: int)
    requires Named(e) && Printable(e) && !e.isDeclaration && Has(s, k, AfterAttributes(e, f))
    ensures k < |s| && EndsAttribute(s, k) && (s[k] == '>' <==> e.contents != [])
    ensures e.contents == [] ==> Has(s, k, "/>")
    ensures e.contents != [] ==> Has(s, k, ">") && Has(s, k + 1, Inside(e, f))
  {
    hide PrintItems, Indent, LineEnd, EndOfElement;
    HasAt(s, k, AfterAttributes(e, f));
    assert s[k + 0] == AfterAttributes(e, f)[0];
    if e.contents == [] {
      assert s[k + 1] == "/>"[1];
    } else {
      HasSplit(s, k, ">", Inside(e, f));
    }
  }

  lemma StartToken(s: string, i: nat, name: string)
    requires NameOk(name) && OpensTag(s, i, name) && (s[i + 1 + |name|] == '>' ==> !OpensClear(name))
    ensures NextToken(s, i) == Token(TokenTagStart, i, 1, i + 1)
  {
    hide Has, OpensClear;
    forall k | 0 <= k < N_CLEAR_TAGS ensures !SameLetters(s, i, CLEAR_TAGS[k].open) {
      if SameLetters(s, i, CLEAR_TAGS[k].open) { OpeningIsTag(s, i, name, k); }
    }
    HasAt(s, i + 1, name);
    assert s[i + 1 + 0] == name[0];
  }

  // The items read so far, with the text that is still pending.
  function PendingItems(text: Option<string>): seq<Item> {
    if text.None? then [] else [Text(text.value)]
  }

  function Grown(e: Element, items: seq<Item>): Element {
    e.(contents := e.contents + items)
  }

  // From i to k the loop has read `all`; d' holds it, but for a text still pending.
  predicate ItemsRead(s: string, i: nat, d: NodeData, v: Locals, k: nat, d': NodeData, v': Locals, text: Option<string>, all: seq<Item>) {
    && Sound(d) && Sound(d') && Reaches(s, i, d, v, k, d', v') && Pending(s, k, v', text)
    && WithItems(d', PendingItems(text)) == Grown(View(d), ReadItems(all))
  }

  lemma {:induction false} ElementBody(s: string, j: nat, e: Element, f: int) returns (c: NodeData)
    requires Reparseable(e) && Printable(e) && Has(s, j, AfterName(e, f))
    ensures j <= |s| && ParseLoop(s, j, EmptyNode(e.name, false), INSIDE) == Done(c, j + |AfterName(e, f)|)
    ensures Sound(c) && View(c) == ReadBack(e)
    decreases e, 1
  {
    hide ParseLoop, Sound, View, Has, PrintAttributes, PrintItems, AttributesOk, ItemsOk, ReadAttributes, ReadItems;
    hide Pending, FlushDecoded, EndsAttribute, AfterAttributes, OpensClear;
    var d0 := EmptyNode(e.name, false);
    EmptySound(e.name, false);
    HasSplit(s, j, PrintAttributes(e.attributes), AfterAttributes(e, f));
    var k := j + |PrintAttributes(e.attributes)|;
    AfterAttributesStarts(s, k, e, f);
    HasBound(s, j, AfterName(e, f));
    ghost var d1, v1 := Attributes(s, j, d0, INSIDE, e.attributes);
    assert Seen(s, d0, INSIDE) == [];
    c := AfterList(s, k, e, f, d1, v1);
  }

  lemma {:induction false} AfterList(s: string, k: nat, e: Element, f: int, d: NodeData, v: Locals) returns (c: NodeData)
    requires Reparseable(e) && Printable(e) && Has(s, k, AfterAttributes(e, f)) && InList(s, k, d, v)
    requires OnlyAttributes(EmptyNode(e.name, false), d) && Seen(s, d, v) == ReadAttributes(e.attributes)
    ensures ParseLoop(s, k, d, v) == Done(c, k + |AfterAttributes(e, f)|)
    ensures Sound(c) && View(c) == ReadBack(e)
    decreases e, 0
  {
    hide ParseLoop, Sound, View, Has, PrintItems, AttributesOk, ItemsOk, ReadAttributes, Seen, Pending, FlushDecoded, EndsAttribute, OpensClear;
    hide LineEnd, Indent, EndOfElement;
    EmptySound(e.name, false);
    AfterAttributesStarts(s, k, e, f);
    ViewName(d);
    if e.contents == [] {
      c := ShortClose(s, k, d, v);
    } else {
      var d2 := CloseOfTag(s, k, d, v);
      ViewName(d2);
      c := Contained(s, k + 1, e, f, d2, v.(status := OutsideTag));
    }
  }

  // The contents of an element, from behind its start tag to its end tag.
  lemma {:induction false} Contained(s: string, k: nat, e: Element, f: int, d: NodeData, v: Locals) returns (c: NodeData)
    requires Reparseable(e) && Printable(e) && e.contents != [] && Has(s, k, Inside(e, f))
    requires LocalsOk(s, k, v) && v.status == OutsideTag && v.text.None? && Sound(d) && d.name == e.name
    requires View(d).contents == []
    ensures ParseLoop(s, k, d, v) == Done(c, k + |Inside(e, f)|)
    ensures Sound(c) && View(c) == Grown(View(d), ReadItems(e.contents))
    decreases e.contents, 3
  {
    hide ParseLoop, Sound, View, Has, PrintItems, AttributesOk, ItemsOk, Pending, FlushDecoded, ReadItems, LineEnd, Indent, EndOfElement;
    hide Reparseable, Printable, Inside, NameOk, ChildFormat, ItemsPrintable;
    ElementOk(e);
    var items, cf := e.contents, ChildFormat(e, f);
    var p := k + |LineEnd(f)|;
    var q := p + |PrintItems(items, f, cf)|;
    InsideSplit(s, k, e, f);
    LayoutBlank(f);
    SkipBlank(s, k, LineEnd(f), d, v);
    assert [] + items == items;
    PendingNone(s, p, v, None);
    ghost var d3, v3, text := Items(s, p, d, v, items, None, f, cf);
    ViewName(d3);
    ViewName(d);
    c := EndOfContents(s, q, e, f, d3, v3, text);
  }

  // The end tag, with the indentation before it; the pending text is stored decoded.
  lemma EndOfContents(s: string, q: nat, e: Element, f: int, d: NodeData, v: Locals, text: Option<string>) returns (c: NodeData)
    requires Named(e) && NameOk(e.name.value) && Sound(d) && d.name == e.name && LocalsOk(s, q, v) && v.status == OutsideTag
    requires Pending(s, q, v, text) && Has(s, q, Indent(f)) && Has(s, q + |Indent(f)|, EndOfElement(e))
    ensures ParseLoop(s, q, d, v) == Done(c, q + |Indent(f)| + |EndOfElement(e)|)
    ensures Sound(c) && View(c) == WithItems(d, PendingItems(text))
  {
    hide ParseLoop, Sound, View, Has, Pending, FlushDecoded, Indent, NameOk, PendingItems;
    var m := q + |Indent(f)|;
    LayoutBlank(f);
    PendingOn(s, q, Indent(f), v, text);
    SkipBlank(s, q, Indent(f), d, v);
    HasBound(s, m, EndOfElement(e));
    EndTagItem(s, m, d, v, e.name.value);
    FlushPending(s, m, d, v, text);
    c := FlushDecoded(s, d, v.text, m);
  }

  lemma InsideSplit(s: string, k: nat, e: Element, f: int)
    requires Named(e) && Printable(e) && !e.isDeclaration && Has(s, k, Inside(e, f))
    ensures var p := k + |LineEnd(f)|;
            var q := p + |PrintItems(e.contents, f, ChildFormat(e, f))|;
            var m := q + |Indent(f)|;
            && Has(s, k, LineEnd(f)) && Has(s, p, PrintItems(e.contents, f, ChildFormat(e, f))) && Has(s, q, Indent(f))
            && Has(s, m, EndOfElement(e)) && Stops(s, q) && m <= |s|
            && k + |Inside(e, f)| == m + |EndOfElement(e)|
  {
    hide PrintItems, LineEnd, Indent, Has, Stops;
    var items := PrintItems(e.contents, f, ChildFormat(e, f));
    var p := k + |LineEnd(f)|;
    var q := p + |items|;
    HasSplit(s, k, LineEnd(f), items + (Indent(f) + EndOfElement(e)));
    HasSplit(s, p, items, Indent(f) + EndOfElement(e));
    HasSplit(s, q, Indent(f), EndOfElement(e));
    HasBound(s, q + |Indent(f)|, EndOfElement(e));
    LayoutBlank(f);
    StopsBefore(s, q, Indent(f), EndOfElement(e));
  }

  // White space, or a tag behind it, ends a text.
  lemma StopsBefore(s: string, q: nat, w: string, tag: string)
    requires Has(s, q, w + tag) && Blank(w) && tag != "" && tag[0] == '<'
    ensures Stops(s, q)
  {
    HasAt(s, q, w + tag);
    assert s[q + 0] == (w + tag)[0];
  }

  lemma ViewName(d: NodeData)
    requires Sound(d)
    ensures View(d).name == d.name && View(d).isDeclaration == d.isDeclaration
  {
  }

  lemma {:induction false} ChildItem(s: string, i: nat, d: NodeData, v: Locals, e: Element, f: int) returns (c: NodeData)
    requires LocalsOk(s, i, v) && v.status == OutsideTag
    requires Reparseable(e) && Printable(e) && Has(s, i, Core(e, f))
    ensures Sound(c) && View(c) == ReadBack(e)
    ensures Reaches(s, i, d, v, i + |Core(e, f)|, FlushRaw(s, d, v.text, i).AddChild(c), v.(text := None))
    decreases e, 2
  {
    hide ParseLoop, Print, Sound, View, Has, NextToken, ReadBack, ParseInside, ParseClear, ParseEndTag, AfterName, FlushRaw, ItemsOk, AttributesOk, OpensClear;
    var name := e.name.value;
    NameInTag(s, i, e, f);
    StartToken(s, i, name);
    var j := i + 1 + |name|;
    EndsTokenToo(s, j);
    NameToken(s, i + 1, name);
    NameSlice(s, i + 1, name);
    HasBound(s, j, AfterName(e, f));
    c := ElementBody(s, j, e, f);
    if IsSpace(s[j]) { LoopSkipsSpace(s, j, EmptyNode(Some(name), false), INSIDE); }
    ChildRead(s, i, d, v, name, c, j + |AfterName(e, f)|);
  }

  // A start tag, and the child that was read from behind its name up to k.
  lemma ChildRead(s: string, i: nat, d: NodeData, v: Locals, name: string, c: NodeData, k: nat)
    requires LocalsOk(s, i, v) && v.status == OutsideTag && i < |s| && name != ""
    requires NextToken(s, i) == Token(TokenTagStart, i, 1, i + 1)
    requires var n := NextToken(s, i + 1);
             && n.kind == TokenText && n.start == i + 1 && n.size == |name| && s[i + 1..i + 1 + |name|] == name
             && ParseLoop(s, n.next, EmptyNode(Some(name), false), INSIDE) == Done(c, k)
    ensures k <= |s| && LocalsOk(s, k, v.(text := None))
    ensures ParseLoop(s, i, d, v) == ParseLoop(s, k, FlushRaw(s, d, v.text, i).AddChild(c), v.(text := None))
  {
    hide NextToken, ParseInside, ParseClear, ParseEndTag, FlushRaw, SameTag;
    assert ParseLoop(s, i, d, v) == ParseChild(s, i, d, v, NextToken(s, i));
  }

  lemma EndsTokenToo(s: string, j: nat)
    requires EndsAttribute(s, j)
    ensures EndsToken(s, j)
  {
  }

  // The cursor stands before printed items, perhaps with a text pending.
  predicate AtItems(s: string, i: nat, d: NodeData, v: Locals, items: seq<Item>, text: Option<string>, f: int, cf: int) {
    && Sound(d) && LocalsOk(s, i, v) && v.status == OutsideTag && Pending(s, i, v, text)
    && ItemsOk(PendingItems(text) + items) && ItemsPrintable(items) && Has(s, i, PrintItems(items, f, cf))
    && (EndsInText(items) ==> Stops(s, i + |PrintItems(items, f, cf)|))
  }

  predicate EndsInText(items: seq<Item>) {
    items != [] && items[|items| - 1].Text?
  }

  lemma {:induction false} Items(s: string, i: nat, d: NodeData, v: Locals, items: seq<Item>, text: Option<string>, f: int, cf: int)
    returns (d': NodeData, v': Locals, text': Option<string>)
    requires AtItems(s, i, d, v, items, text, f, cf)
    ensures ItemsRead(s, i, d, v, i + |PrintItems(items, f, cf)|, d', v', text', PendingItems(text) + items)
    ensures text'.Some? <==> EndsInText(PendingItems(text) + items)
    decreases items, 2
  {
    hide AtItems, ItemsRead, PrintItems, PrintItem, ItemsPrintable, Reaches, Sound, View, ReadItem, Grown, RawItems, ItemsOk;
    if items == [] {
      d', v', text' := d, v, text;
      NothingRead(s, i, d, v, text, f, cf);
    } else if items[0].Text? {
      ghost var k, v1 := TextFirst(s, i, d, v, items, text, f, cf);
      d', v', text' := Items(s, k, d, v1, items[1..], Some(items[0].text), f, cf);
      ReadAfterText(s, i, d, v, k, v1, d', v', text', items, text, f, cf);
    } else {
      ghost var k, d1 := ItemFirst(s, i, d, v, items, text, f, cf);
      d', v', text' := Items(s, k, d1, v.(text := None), items[1..], None, f, cf);
      ReadAfterItem(s, i, d, v, k, d1, d', v', text', text, items, f, cf);
    }
  }

  lemma TextFirst(s: string, i: nat, d: NodeData, v: Locals, items: seq<Item>, text: Option<string>, f: int, cf: int)
    returns (k: nat, v1: Locals)
    requires items != [] && items[0].Text? && AtItems(s, i, d, v, items, text, f, cf)
    ensures text.None? && AtItems(s, k, d, v1, items[1..], Some(items[0].text), f, cf) && Reaches(s, i, d, v, k, d, v1)
    ensures ItemsPrintable(items) && i + |PrintItems(items, f, cf)| == k + |PrintItems(items[1..], f, cf)|
  {
    hide ParseLoop, Sound, Has, PrintItem, PrintItems, ItemOk, Pending, ItemsOk, ItemsPrintable, TextOk, Stops;
    ItemsHead(s, i, items, text, f, cf);
    TextHead(s, i, items, text, f, cf);
    PendingNone(s, i, v, text);
    k := i + |PrintItem(items[0], f, cf)|;
    v1 := OneText(s, i, d, v, items[0].text, f, cf);
    assert PendingItems(Some(items[0].text)) + items[1..] == items;
  }

  // A text, with the white space around it.
  lemma OneText(s: string, i: nat, d: NodeData, v: Locals, t: string, f: int, cf: int) returns (v1: Locals)
    requires LocalsOk(s, i, v) && v.status == OutsideTag && v.text.None? && TextOk(t)
    requires Has(s, i, PrintItem(Text(t), f, cf)) && Stops(s, i + |ItemIndent(f)| + |Escape(t)|)
    ensures Reaches(s, i, d, v, i + |PrintItem(Text(t), f, cf)|, d, v1)
    ensures Pending(s, i + |PrintItem(Text(t), f, cf)|, v1, Some(t))
  {
    hide ParseLoop, Has, TextOk, Stops, Escape, Pending, ItemIndent, LineEnd, PrintItem;
    TextPrinted(t, f, cf);
    LayoutBlank(f);
    var a := i + |ItemIndent(f)|;
    var e := a + |Escape(t)|;
    HasSplit(s, i, ItemIndent(f), Escape(t) + LineEnd(f));
    HasSplit(s, a, Escape(t), LineEnd(f));
    HasBound(s, a, Escape(t));
    SkipBlank(s, i, ItemIndent(f), d, v);
    v1 := TextItem(s, a, d, v, t);
    TextPends(s, a, t, v1);
    PendingOn(s, e, LineEnd(f), v1, Some(t));
    SkipBlank(s, e, LineEnd(f), d, v1);
  }

  lemma {:induction false} ItemFirst(s: string, i: nat, d: NodeData, v: Locals, items: seq<Item>, text: Option<string>, f: int, cf: int)
    returns (k: nat, d1: NodeData)
    requires items != [] && !items[0].Text? && AtItems(s, i, d, v, items, text, f, cf)
    ensures AtItems(s, k, d1, v.(text := None), items[1..], None, f, cf) && Reaches(s, i, d, v, k, d1, v.(text := None))
    ensures Sound(d) && Sound(d1) && View(d1) == Grown(View(d), RawItems(text) + [ReadItem(items[0], false)])
    ensures ItemsPrintable(items) && i + |PrintItems(items, f, cf)| == k + |PrintItems(items[1..], f, cf)|
    decreases items, 1
  {
    hide ParseLoop, Sound, View, Has, PrintItem, PrintItems, ItemOk, ItemsOk, ItemsPrintable, Pending, Stops;
    ItemsHead(s, i, items, text, f, cf);
    k := i + |PrintItem(items[0], f, cf)|;
    d1 := OneItem(s, i, d, v, items[0], text, f, cf);
    PendingNone(s, k, v.(text := None), None);
    assert PendingItems(None) + items[1..] == items[1..];
  }

  lemma PendingNone(s: string, i: nat, v: Locals, text: Option<string>)
    ensures text.None? ==> (Pending(s, i, v, text) <==> v.text.None?)
  {
  }

  lemma NothingRead(s: string, i: nat, d: NodeData, v: Locals, text: Option<string>, f: int, cf: int)
    requires AtItems(s, i, d, v, [], text, f, cf)
    ensures ItemsRead(s, i, d, v, i + |PrintItems([], f, cf)|, d, v, text, PendingItems(text) + [])
  {
    hide Pending, Sound;
    assert PendingItems(text) + [] == PendingItems(text);
    if text.Some? { assert [Text(text.value)][1..] == []; }
    assert ReadItems(PendingItems(text)) == PendingItems(text);
  }

  lemma ItemsHead(s: string, i: nat, items: seq<Item>, text: Option<string>, f: int, cf: int)
    requires items != [] && ItemsOk(PendingItems(text) + items) && ItemsPrintable(items) && Has(s, i, PrintItems(items, f, cf))
    ensures ItemOk(items[0]) && ItemsOk(items[1..]) && ItemsOk(items) && ItemPrintable(items[0]) && ItemsPrintable(items[1..])
    ensures Has(s, i, PrintItem(items[0], f, cf))
    ensures |PrintItems(items, f, cf)| == |PrintItem(items[0], f, cf)| + |PrintItems(items[1..], f, cf)|
    ensures Has(s, i + |PrintItem(items[0], f, cf)|, PrintItems(items[1..], f, cf))
  {
    hide PrintItem, PrintItems, Has, ItemOk, ItemPrintable, ItemsOk, ItemsPrintable;
    ItemsOkTail(text, items);
    ItemsParts(items, f, cf);
    HasSplit(s, i, PrintItem(items[0], f, cf), PrintItems(items[1..], f, cf));
  }

  lemma ItemsParts(items: seq<Item>, f: int, cf: int)
    requires items != [] && ItemsOk(items) && ItemsPrintable(items)
    ensures ItemOk(items[0]) && ItemsOk(items[1..]) && ItemPrintable(items[0]) && ItemsPrintable(items[1..])
    ensures PrintItems(items, f, cf) == PrintItem(items[0], f, cf) + PrintItems(items[1..], f, cf)
  {
    hide PrintItem, ItemOk, ItemPrintable;
  }

  // A text at the head stands alone: none is pending, and white space or a tag follows.
  lemma TextHead(s: string, i: nat, items: seq<Item>, text: Option<string>, f: int, cf: int)
    requires items != [] && ItemsOk(PendingItems(text) + items) && ItemsPrintable(items)
    requires items[0].Text? && ItemPrintable(items[0]) && Has(s, i, PrintItems(items, f, cf))
    requires EndsInText(items) ==> Stops(s, i + |PrintItems(items, f, cf)|)
    ensures text.None? && TextOk(items[0].text)
    ensures Stops(s, i + |ItemIndent(f)| + |Escape(items[0].text)|)
  {
    hide PrintItem, PrintItems, Has, ItemOk, ItemPrintable, ItemsOk, ItemsPrintable, Stops, ItemIndent, Escape;
    ItemsOkTail(text, items);
    ItemsParts(items, f, cf);
    var t, rest := items[0].text, PrintItems(items[1..], f, cf);
    TextPrinted(t, f, cf);
    var e := i + |ItemIndent(f)| + |Escape(t)|;
    assert ItemIndent(f) + (Escape(t) + LineEnd(f)) + rest == ItemIndent(f) + (Escape(t) + (LineEnd(f) + rest));
    HasSplit(s, i, ItemIndent(f), Escape(t) + (LineEnd(f) + rest));
    HasSplit(s, i + |ItemIndent(f)|, Escape(t), LineEnd(f) + rest);
    if f != -1 {
      LineStops(s, e, rest);
    } else if |items| == 1 {
      NoItems(f, cf);
    } else {
      assert "" + rest == rest;
      ItemsParts(items[1..], f, cf);
      NoTextAfter(items);
      ItemStarts(s, e, items[1], PrintItems(items[1..][1..], f, cf), f, cf);
    }
  }

  lemma LineStops(s: string, e: nat, rest: string)
    requires Has(s, e, "\n" + rest)
    ensures Stops(s, e)
  {
    HasSplit(s, e, "\n", rest);
    HasOne(s, e, '\n');
  }

  lemma NoTextAfter(items: seq<Item>)
    requires |items| > 1 && ItemsOk(items) && items[0].Text?
    ensures !items[1].Text?
  {
  }

  lemma ItemsOkTail(text: Option<string>, items: seq<Item>)
    requires items != [] && ItemsOk(PendingItems(text) + items)
    ensures ItemsOk(items) && (items[0].Text? ==> text.None?)
  {
    if text.None? {
      assert PendingItems(text) + items == items;
    } else {
      assert (PendingItems(text) + items)[1..] == items;
    }
  }

  lemma TextPrinted(t: string, f: int, cf: int)
    requires TextOk(t) || ItemOk(Text(t))
    ensures TextOk(t) && PrintItem(Text(t), f, cf) == ItemIndent(f) + (Escape(t) + LineEnd(f))
  {
    hide ItemIndent, LineEnd, Escape;
    assert ItemIndent(f) + Escape(t) + LineEnd(f) == ItemIndent(f) + (Escape(t) + LineEnd(f));
  }

  lemma ClearPrinted(c: XMLClear, f: int, cf: int)
    requires ItemOk(Clear(c))
    ensures PrintItem(Clear(c), f, cf) == ItemIndent(f) + ((c.open + (c.value + c.close)) + LineEnd(f))
    ensures c.open != "" && c.open[0] == '<'
  {
    hide ItemIndent, LineEnd;
    assert (ItemIndent(f) + c.open) + c.value + c.close + LineEnd(f) == ItemIndent(f) + ((c.open + (c.value + c.close)) + LineEnd(f));
  }

  lemma ItemStarts(s: string, k: nat, item: Item, rest: string, f: int, cf: int)
    requires ItemOk(item) && ItemPrintable(item) && !item.Text? && Has(s, k, PrintItem(item, f, cf) + rest)
    ensures Stops(s, k)
  {
    hide Print, ClearOk, Reparseable, Stops, Indent, ItemIndent, LineEnd, Core;
    LayoutBlank(f);
    LayoutBlank(cf);
    match item
    case Clear(c) =>
      ClearPrinted(c, f, cf);
      var core := c.open + (c.value + c.close);
      assert ItemIndent(f) + (core + LineEnd(f)) + rest == ItemIndent(f) + ((core + LineEnd(f)) + rest);
      StopsBefore(s, k, ItemIndent(f), (core + LineEnd(f)) + rest);
    case Child(e) =>
      ElementOk(e);
      PrintParts(e, cf);
      CoreStarts(e, cf);
      assert Indent(cf) + (Core(e, cf) + LineEnd(cf)) + rest == Indent(cf) + ((Core(e, cf) + LineEnd(cf)) + rest);
      StopsBefore(s, k, Indent(cf), (Core(e, cf) + LineEnd(cf)) + rest);
  }

  lemma ElementOk(e: Element)
    requires Reparseable(e)
    ensures Named(e) && !e.isDeclaration && NameOk(e.name.value) && ItemsOk(e.contents)
    ensures Printable(e) ==> ItemsPrintable(e.contents)
  {
  }

  lemma CoreStarts(e: Element, f: int)
    requires Named(e) && Printable(e) && !e.isDeclaration
    ensures Core(e, f) != "" && Core(e, f)[0] == '<'
  {
    hide AfterName;
  }

  lemma TextPends(s: string, i: nat, t: string, v: Locals)
    requires TextOk(t) && Has(s, i, Escape(t)) && v.text == Some(i)
    ensures Pending(s, i + |Escape(t)|, v, Some(t))
  {
    EscapeIsInert(t);
  }

  function RawItems(text: Option<string>): seq<Item> {
    if text.None? then [] else [Text(Escape(text.value))]
  }

  // An item that is no text, with the white space around it.
  lemma {:induction false} OneItem(s: string, i: nat, d: NodeData, v: Locals, item: Item, text: Option<string>, f: int, cf: int)
    returns (d': NodeData)
    requires Sound(d) && LocalsOk(s, i, v) && v.status == OutsideTag && Pending(s, i, v, text)
    requires ItemOk(item) && ItemPrintable(item) && !item.Text? && Has(s, i, PrintItem(item, f, cf))
    ensures Reaches(s, i, d, v, i + |PrintItem(item, f, cf)|, d', v.(text := None))
    ensures Sound(d') && View(d') == Grown(View(d), RawItems(text) + [ReadItem(item, false)])
    decreases item, 0
  {
    hide ParseLoop, Sound, View, Has, Print, FlushRaw, Pending, ReadBack, ClearOk, Reparseable, Printable;
    hide Indent, ItemIndent, LineEnd, Core;
    match item
    case Clear(c) =>
      d' := OneClear(s, i, d, v, c, text, f, cf);
    case Child(e) =>
      d' := OneChild(s, i, d, v, e, text, cf);
  }

  lemma OneClear(s: string, i: nat, d: NodeData, v: Locals, c: XMLClear, text: Option<string>, f: int, cf: int)
    returns (d': NodeData)
    requires Sound(d) && LocalsOk(s, i, v) && v.status == OutsideTag && Pending(s, i, v, text)
    requires ClearOk(c) && Has(s, i, PrintItem(Clear(c), f, cf))
    ensures Reaches(s, i, d, v, i + |PrintItem(Clear(c), f, cf)|, d', v.(text := None))
    ensures Sound(d') && View(d') == Grown(View(d), RawItems(text) + [Clear(c)])
  {
    hide ParseLoop, Sound, View, Has, PrintItem, FlushRaw, Pending, ClearOk, ItemIndent, LineEnd, RawItems, Grown, WithItems;
    ClearPrinted(c, f, cf);
    var core := c.open + (c.value + c.close);
    var k := ToCore(s, i, d, v, text, ItemIndent(f), core, LineEnd(f), f, f);
    FlushPending(s, k, d, v, text);
    var d1 := FlushRaw(s, d, v.text, k);
    ClearItem(s, k, d, v, c);
    AddClearView(d1, c);
    d' := d1.AddClear(c);
    SkipBlank(s, k + |core|, LineEnd(f), d', v.(text := None));
    GrownBy(d, d1, d', text, Clear(c));
  }

  // The pending text, then one more item.
  lemma GrownBy(d: NodeData, d1: NodeData, d': NodeData, text: Option<string>, x: Item)
    requires Sound(d) && Sound(d1) && Sound(d') && View(d1) == WithItems(d, RawItems(text))
    requires View(d') == View(d1).(contents := View(d1).contents + [x])
    ensures View(d') == Grown(View(d), RawItems(text) + [x])
  {
    hide View, Sound, RawItems;
    assert View(d).contents + RawItems(text) + [x] == View(d).contents + (RawItems(text) + [x]);
  }

  lemma {:induction false} OneChild(s: string, i: nat, d: NodeData, v: Locals, e: Element, text: Option<string>, f: int)
    returns (d': NodeData)
    requires Sound(d) && LocalsOk(s, i, v) && v.status == OutsideTag && Pending(s, i, v, text)
    requires Reparseable(e) && Printable(e) && Has(s, i, Print(e, f))
    ensures Reaches(s, i, d, v, i + |Print(e, f)|, d', v.(text := None))
    ensures Sound(d') && View(d') == Grown(View(d), RawItems(text) + [Child(ReadBack(e))])
    decreases e, 3
  {
    hide ParseLoop, Sound, View, Has, Print, FlushRaw, Pending, ReadBack, Reparseable, Printable;
    hide Indent, LineEnd, Core, RawItems, Grown, WithItems;
    ElementOk(e);
    PrintParts(e, f);
    var k := ToCore(s, i, d, v, text, Indent(f), Core(e, f), LineEnd(f), f, f);
    FlushPending(s, k, d, v, text);
    var d1 := FlushRaw(s, d, v.text, k);
    var c := ChildItem(s, k, d, v, e, f);
    AddChildView(d1, c);
    d' := d1.AddChild(c);
    SkipBlank(s, k + |Core(e, f)|, LineEnd(f), d', v.(text := None));
    GrownBy(d, d1, d', text, Child(View(c)));
  }

  // Over the white space before an item, with a text perhaps pending.
  lemma ToCore(s: string, i: nat, d: NodeData, v: Locals, text: Option<string>, before: string, core: string, after: string, f: int, g: int)
    returns (k: nat)
    requires LocalsOk(s, i, v) && Pending(s, i, v, text) && Has(s, i, before + (core + after))
    requires before in [Indent(f), ItemIndent(f)] && after == LineEnd(g)
    ensures k == i + |before| && LocalsOk(s, k, v) && ParseLoop(s, i, d, v) == ParseLoop(s, k, d, v) && Pending(s, k, v, text)
    ensures Has(s, k, core) && Has(s, k + |core|, after) && Blank(after) && k <= |s|
  {
    hide ParseLoop, Pending, Has, Indent, ItemIndent, LineEnd;
    LayoutBlank(f);
    LayoutBlank(g);
    k := i + |before|;
    HasSplit(s, i, before, core + after);
    HasSplit(s, k, core, after);
    SkipBlank(s, i, before, d, v);
    PendingOn(s, i, before, v, text);
  }

  lemma ReadAfterText(s: string, i: nat, d: NodeData, v: Locals, k: nat, v1: Locals,
                      d': NodeData, v': Locals, text': Option<string>, items: seq<Item>, text: Option<string>, f: int, cf: int)
    requires items != [] && items[0].Text? && text.None? && Reaches(s, i, d, v, k, d, v1)
    requires ItemsPrintable(items) && i + |PrintItems(items, f, cf)| == k + |PrintItems(items[1..], f, cf)|
    requires ItemsRead(s, k, d, v1, k + |PrintItems(items[1..], f, cf)|, d', v', text', PendingItems(Some(items[0].text)) + items[1..])
    ensures ItemsRead(s, i, d, v, i + |PrintItems(items, f, cf)|, d', v', text', PendingItems(text) + items)
  {
    hide Sound, Pending, ReadItems, PrintItems, ParseLoop, LocalsOk;
    assert PendingItems(Some(items[0].text)) + items[1..] == items == PendingItems(text) + items;
  }

  lemma ReadAfterItem(s: string, i: nat, d: NodeData, v: Locals, k: nat, d1: NodeData,
                      d': NodeData, v': Locals, text': Option<string>, text: Option<string>, items: seq<Item>, f: int, cf: int)
    requires items != [] && !items[0].Text? && Sound(d) && Sound(d1)
    requires Reaches(s, i, d, v, k, d1, v.(text := None))
    requires View(d1) == Grown(View(d), RawItems(text) + [ReadItem(items[0], false)])
    requires ItemsPrintable(items) && i + |PrintItems(items, f, cf)| == k + |PrintItems(items[1..], f, cf)|
    requires ItemsRead(s, k, d1, v.(text := None), k + |PrintItems(items[1..], f, cf)|, d', v', text', PendingItems(None) + items[1..])
    ensures ItemsRead(s, i, d, v, i + |PrintItems(items, f, cf)|, d', v', text', PendingItems(text) + items)
  {
    hide Sound, Pending, View, ReadBack, ReadItem, ReadItems, PrintItems, ParseLoop, LocalsOk;
    hide RawItems;
    ReadItemsStep(text, items);
    assert PendingItems(None) + items[1..] == items[1..];
    GrownTwice(View(d), RawItems(text) + [ReadItem(items[0], false)], ReadItems(items[1..]));
  }

  lemma GrownTwice(e: Element, a: seq<Item>, b: seq<Item>)
    ensures Grown(Grown(e, a), b) == Grown(e, a + b)
  {
    assert e.contents + a + b == e.contents + (a + b);
  }

  lemma ReadItemsHead(items: seq<Item>)
    requires items != []
    ensures ReadItems(items) == [ReadItem(items[0], |items| == 1)] + ReadItems(items[1..])
  {
  }

  lemma NotLast(item: Item)
    ensures !item.Text? ==> ReadItem(item, true) == ReadItem(item, false)
  {
  }

  lemma NoRaw(text: Option<string>)
    ensures text.None? ==> RawItems(text) == []
  {
  }

  lemma RawRead(t: string)
    ensures ReadItem(Text(t), false) == Text(Escape(t)) && RawItems(Some(t)) == [Text(Escape(t))]
  {
  }

  lemma ReadItemsStep(text: Option<string>, items: seq<Item>)
    requires items != [] && !items[0].Text?
    ensures ReadItems(PendingItems(text) + items) == RawItems(text) + [ReadItem(items[0], false)] + ReadItems(items[1..])
  {
    hide ReadItem, ReadItems, RawItems;
    ReadItemsHead(items);
    NotLast(items[0]);
    if text.None? {
      assert PendingItems(text) + items == items;
      assert RawItems(text) + [ReadItem(items[0], false)] == [ReadItem(items[0], false)] by { NoRaw(text); }
    } else {
      var all := [Text(text.value)] + items;
      assert all[1..] == items;
      ReadItemsHead(all);
      RawRead(text.value);
      var x := [ReadItem(items[0], false)];
      assert [Text(Escape(text.value))] + (x + ReadItems(items[1..])) == [Text(Escape(text.value))] + x + ReadItems(items[1..]);
    }
  }

  // ----- Exactly when the tree comes back unchanged -----

  predicate ValuesKept(s: seq<XMLAttribute>)
  {
    s == [] || (s[0].value != Some("") && ValuesKept(s[1..]))
  }

  // No attribute value is empty, and a text that an item follows has nothing to escape.
  predicate Faithful(e: Element)
    decreases e, 1
  {
    ValuesKept(e.attributes) && ItemsFaithful(e.contents)
  }

  predicate ItemFaithful(item: Item, last: bool)
    decreases item, 0
  {
    match item
    case Text(t) => last || forall i | 0 <= i < |t| :: !Escapable(t[i])
    case Clear(c) => true
    case Child(e) => Faithful(e)
  }

  predicate ItemsFaithful(s: seq<Item>)
    decreases s, 0
  {
    s == [] || (ItemFaithful(s[0], |s| == 1) && ItemsFaithful(s[1..]))
  }

  lemma {:induction false} ReadAttributesIff(s: seq<XMLAttribute>)
    ensures ReadAttributes(s) == s <==> ValuesKept(s)
  {
    if s != [] {
      ReadAttributesIff(s[1..]);
      assert s == [s[0]] + s[1..];
      assert ReadAttributes(s)[0] == ReadAttribute(s[0]) && ReadAttributes(s)[1..] == ReadAttributes(s[1..]);
    }
  }

  lemma {:induction false} ReadBackIff(e: Element)
    ensures ReadBack(e) == e <==> Faithful(e)
    decreases e, 1
  {
    ReadAttributesIff(e.attributes);
    ReadItemsIff(e.contents);
  }

  lemma {:induction false} ReadItemsIff(s: seq<Item>)
    ensures ReadItems(s) == s <==> ItemsFaithful(s)
    decreases s, 0
  {
    if s != [] {
      ReadItemIff(s[0], |s| == 1);
      ReadItemsIff(s[1..]);
      assert s == [s[0]] + s[1..];
      assert ReadItems(s)[0] == ReadItem(s[0], |s| == 1) && ReadItems(s)[1..] == ReadItems(s[1..]);
    }
  }

  lemma {:induction false} ReadItemIff(item: Item, last: bool)
    ensures ReadItem(item, last) == item <==> ItemFaithful(item, last)
    decreases item, 0
  {
    match item
    case Text(t) => EscapeIsIdentityIff(t);
    case Clear(c) =>
    case Child(e) => ReadBackIff(e);
  }
}
