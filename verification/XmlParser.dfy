/**
  The recursive parser. `ParseLoop` is the token loop as a function of the cursor
  and the loop's variables; `XMLNode.ParseXMLElement` is the loop itself, working
  on the shared cursor and filling the node record in place.
*/
module XmlParser {
  import opened CText
  import opened Slices
  import opened Wrappers
  import opened XmlTree
  import opened XmlEscape
  import opened XmlTokenizer

  datatype Status = InsideTag | OutsideTag

  datatype Attrib = AttribName | AttribEquals | AttribValue

  // `ok` is the source's return value; a pending end tag has `cbEndTag > 0`.
  datatype ParseResult = ParseResult(
    ok: bool, node: NodeData, next: nat, error: XMLError, endTag: nat, cbEndTag: nat)

  function Fail(d: NodeData, next: nat, error: XMLError): ParseResult {
    ParseResult(false, d, next, error, 0, 0)
  }

  function Done(d: NodeData, next: nat): ParseResult {
    ParseResult(true, d, next, ErrorNone, 0, 0)
  }

  // The loop's variables besides the node: where the pending text starts, and the
  // pending attribute name.
  datatype Locals = Locals(status: Status, attrib: Attrib, text: Option<nat>, temp: nat, cbTemp: nat)

  const OUTSIDE := Locals(OutsideTag, AttribName, None, 0, 0)
  const INSIDE := Locals(InsideTag, AttribName, None, 0, 0)

  predicate LocalsOk(s: string, i: nat, v: Locals) {
    && i <= |s|
    && (v.text.Some? ==> v.text.value < i && !IsSpace(s[v.text.value]))
    && (v.status == InsideTag && v.attrib != AttribName ==> v.cbTemp >= 1 && v.temp + v.cbTemp <= i)
  }

  // stringDup: a zero length copies everything up to the terminator.
  function StringDup(s: string, i: nat, n: nat): string
    requires i + n <= |s|
  {
    if n == 0 then UpToNul(s[i..]) else s[i..i + n]
  }

  // FindEndOfText: the length without trailing white space.
  function EndOfText(s: string, i: nat, n: nat): (r: nat)
    requires i + n <= |s|
    ensures r <= n
    ensures r > 0 ==> !IsSpace(s[i + r - 1])
    ensures n > 0 && !IsSpace(s[i]) ==> r > 0
  {
    if n > 0 && IsSpace(s[i + n - 1]) then EndOfText(s, i, n - 1) else n
  }

  predicate EndsTagName(c: char) {
    IsSpace(c) || c == '/' || c == '<' || c == '>' || c == '='
  }

  // myTagCompare(name, s + i) == 0
  predicate SameTag(name: Option<string>, s: string, i: nat) {
    name.Some? && SameLetters(s, i, name.value) && EndsTagName(At(s, i + |name.value|))
  }

  // strstr(s + i, w)
  function FindString(s: string, i: nat, w: string): (r: Option<nat>)
    requires i <= |s|
    ensures r.Some? ==> i <= r.value && Has(s, r.value, w)
    decreases |s| - i
  {
    if Has(s, i, w) then Some(i)
    else if At(s, i) == NUL then None
    else FindString(s, i + 1, w)
  }

  // Text met before a child or a clear node is copied as it stands.
  function FlushRaw(s: string, d: NodeData, text: Option<nat>, upTo: nat): NodeData
    requires text.Some? ==> text.value <= upTo <= |s|
  {
    match text
    case None => d
    case Some(a) => d.AddText(StringDup(s, a, EndOfText(s, a, upTo - a)))
  }

  // Text met before an end tag is decoded.
  function FlushDecoded(s: string, d: NodeData, text: Option<nat>, upTo: nat): NodeData
    requires text.Some? ==> text.value <= upTo <= |s|
  {
    match text
    case None => d
    case Some(a) => d.AddText(Decoded(s, a, EndOfText(s, a, upTo - a)))
  }

  function ParseLoop(s: string, i: nat, d: NodeData, v: Locals): (r: ParseResult)
    requires LocalsOk(s, i, v)
    ensures i <= r.next <= |s| && (r.ok ==> r.error == ErrorNone)
    decreases |s| - i, 1
  {
    var t := NextToken(s, i);
    if t.kind == TokenError then Fail(d, t.next, ErrorNone)
    else if v.status == InsideTag then ParseInside(s, i, d, v, t)
    else if t.kind == TokenTagStart || t.kind == TokenDeclaration then ParseChild(s, i, d, v, t)
    else if t.kind == TokenTagEnd then ParseEndTag(s, d, v.text, t)
    else if t.kind.TokenClear? then ParseClear(s, i, d, v, t)
    else if t.kind == TokenCloseTag || t.kind == TokenShortHandClose then Fail(d, t.next, ErrorUnexpectedToken)
    else ParseLoop(s, t.next, d, if v.text.None? then v.(text := Some(t.start)) else v)
  }

  // An unformatted section, up to the closing text of its row of the table.
  function ParseClear(s: string, i: nat, d: NodeData, v: Locals, t: Token): (r: ParseResult)
    requires LocalsOk(s, i, v) && t == NextToken(s, i) && v.status == OutsideTag && t.kind.TokenClear?
    ensures i <= r.next <= |s| && (r.ok ==> r.error == ErrorNone)
    decreases |s| - i, 0
  {
    var d1, tag := FlushRaw(s, d, v.text, t.start), CLEAR_TAGS[t.kind.tag];
    match FindString(s, t.next, tag.close)
    case None => Fail(d1, t.next, ErrorUnmatchedEndTag)
    case Some(e) =>
      var d2 := d1.AddClear(XMLClear(StringDup(s, t.next, e - t.next), tag.open, tag.close));
      ParseLoop(s, e + |tag.close|, d2, v.(text := None))
  }

  // '<' or '<?', met outside a tag: a child, and the unwinding of end tags.
  function ParseChild(s: string, i: nat, d: NodeData, v: Locals, t: Token): (r: ParseResult)
    requires LocalsOk(s, i, v) && t == NextToken(s, i) && v.status == OutsideTag
    requires t.kind == TokenTagStart || t.kind == TokenDeclaration
    ensures i <= r.next <= |s| && (r.ok ==> r.error == ErrorNone)
    decreases |s| - i, 0
  {
    var d1 := FlushRaw(s, d, v.text, t.start);
    var n := NextToken(s, t.next);
    if n.kind != TokenText then Fail(d1, n.next, ErrorMissingTagName)
    else
      var c := EmptyNode(Some(StringDup(s, n.start, n.size)), t.kind == TokenDeclaration);
      var r := ParseLoop(s, n.next, c, INSIDE);
      var d2 := d1.AddChild(r.node);
      if !r.ok then r.(node := d2)
      else if r.cbEndTag > 0 then
        if d.name.None? then r.(ok := false, node := d2, error := ErrorUnmatchedEndTag)
        else if SameTag(d.name, s, r.endTag) then Done(d2, r.next)
        else r.(node := d2)
      else ParseLoop(s, r.next, d2, v.(text := None))
  }

  function ParseEndTag(s: string, d: NodeData, text: Option<nat>, t: Token): (r: ParseResult)
    requires t.start <= t.next <= |s| && (text.Some? ==> text.value <= t.start)
    ensures t.next <= r.next <= |s| && (r.ok ==> r.error == ErrorNone)
  {
    var d1 := FlushDecoded(s, d, text, t.start);
    var n := NextToken(s, t.next);
    if n.kind != TokenText then Fail(d1, n.next, ErrorMissingEndTagName)
    else
      var c := NextToken(s, n.next);
      if c.kind != TokenCloseTag then Fail(d1, c.next, ErrorMissingEndTagName)
      else if SameTag(d.name, s, n.start) then Done(d1, c.next)
      else ParseResult(true, d1, c.next, ErrorNone, n.start, n.size)
  }

  // A declaration's closing '?' is not part of its last word.
  function WithoutQuestionMark(s: string, d: NodeData, i: nat, n: nat): (r: nat)
    requires 1 <= n && i + n <= |s|
    ensures r <= n
  {
    if d.isDeclaration && s[i + n - 1] == '?' then n - 1 else n
  }

  // The attribute list of a start tag.
  function ParseInside(s: string, i: nat, d: NodeData, v: Locals, t: Token): (r: ParseResult)
    requires LocalsOk(s, i, v) && t == NextToken(s, i) && v.status == InsideTag && t.kind != TokenError
    ensures i <= r.next <= |s| && (r.ok ==> r.error == ErrorNone)
    decreases |s| - i, 0
  {
    match v.attrib
    case AttribName =>
      (match t.kind
       case TokenText => ParseLoop(s, t.next, d, v.(attrib := AttribEquals, temp := t.start, cbTemp := t.size))
       case TokenCloseTag => ParseLoop(s, t.next, d, v.(status := OutsideTag))
       case TokenShortHandClose => Done(d, t.next)
       case _ => Fail(d, t.next, ErrorUnexpectedToken))
    case AttribEquals =>
      (match t.kind
       case TokenText =>
         var d1 := d.AddAttribute(XMLAttribute(StringDup(s, v.temp, v.cbTemp), None));
         ParseLoop(s, t.next, d1, v.(temp := t.start, cbTemp := t.size))
       case TokenCloseTag => ParseLoop(s, t.next, LastAttribute(s, d, v), v.(status := OutsideTag))
       case TokenShortHandClose => Done(LastAttribute(s, d, v), t.next)
       case TokenEquals => ParseLoop(s, t.next, d, v.(attrib := AttribValue))
       case _ => Fail(d, t.next, ErrorUnexpectedToken))
    case AttribValue =>
      if t.kind == TokenText || t.kind == TokenQuotedText then
        ParseLoop(s, t.next, ValuedAttribute(s, d, v, t), v.(attrib := AttribName))
      else Fail(d, t.next, ErrorUnexpectedToken)
  }

  function LastAttribute(s: string, d: NodeData, v: Locals): NodeData
    requires v.cbTemp >= 1 && v.temp + v.cbTemp <= |s|
  {
    var n := WithoutQuestionMark(s, d, v.temp, v.cbTemp);
    if n > 0 then d.AddAttribute(XMLAttribute(StringDup(s, v.temp, n), None)) else d
  }

  function ValuedAttribute(s: string, d: NodeData, v: Locals, t: Token): NodeData
    requires v.cbTemp >= 1 && v.temp + v.cbTemp <= |s|
    requires t.size >= 1 && t.start + t.size <= |s|
    requires t.kind == TokenQuotedText ==> t.size >= 2 && s[t.start + t.size - 1] in {'\'', '"'}
  {
    var n := WithoutQuestionMark(s, d, t.start, t.size);
    var value := if t.kind == TokenQuotedText then Decoded(s, t.start + 1, n - 2) else Decoded(s, t.start, n);
    d.AddAttribute(XMLAttribute(StringDup(s, v.temp, v.cbTemp), Some(value)))
  }

  // parseString without a tag to look for: the root, unless an error was met.
  function ParseString(s: string): Option<NodeData> {
    var r := ParseLoop(s, 0, EmptyNode(None, false), OUTSIDE);
    if r.error == ErrorNone then Some(r.node) else None
  }

  // ----- Whatever the document, the order arrays of the tree agree and all in it is named -----

  predicate NamedInside(e: Element)
    decreases e, 1
  {
    AttributesNamed(e.attributes) && ItemsNamed(e.contents)
  }

  predicate AttributesNamed(s: seq<XMLAttribute>) {
    forall k | 0 <= k < |s| :: s[k].name != ""
  }

  predicate ItemsNamed(items: seq<Item>)
    decreases items, 0
  {
    forall k | 0 <= k < |items| :: ItemNamed(items[k])
  }

  predicate ItemNamed(item: Item)
    decreases item, 0
  {
    item.Child? ==> item.child.name.Some? && item.child.name.value != "" && NamedInside(item.child)
  }

  // What the parser keeps of the node it fills.
  predicate Proper(d: NodeData) {
    Sound(d) && NamedInside(View(d))
  }

  // What the parser makes of the node d.
  predicate Made(d: NodeData, d': NodeData) {
    Proper(d') && d'.name == d.name && d'.isDeclaration == d.isDeclaration
  }

  lemma NamedWith(e: Element, a: XMLAttribute, x: Item)
    requires NamedInside(e)
    ensures a.name != "" ==> NamedInside(e.(attributes := e.attributes + [a]))
    ensures ItemNamed(x) ==> NamedInside(e.(contents := e.contents + [x]))
  {
    hide ItemNamed;
  }

  lemma AttributeProper(d: NodeData, a: XMLAttribute)
    requires Proper(d) && a.name != ""
    ensures Made(d, d.AddAttribute(a))
  {
    hide Sound, View, NamedInside;
    AddAttributeView(d, a);
    ViewParts(d);
    NamedWith(View(d), a, Text(""));
  }

  lemma TextProper(d: NodeData, t: string)
    requires Proper(d)
    ensures Made(d, d.AddText(t))
  {
    hide Sound, View, NamedInside;
    AddTextView(d, t);
    NamedWith(View(d), XMLAttribute("", None), Text(t));
  }

  lemma ClearProper(d: NodeData, c: XMLClear)
    requires Proper(d)
    ensures Made(d, d.AddClear(c))
  {
    hide Sound, View, NamedInside;
    AddClearView(d, c);
    NamedWith(View(d), XMLAttribute("", None), Clear(c));
  }

  lemma ChildProper(d: NodeData, c: NodeData)
    requires Proper(d) && Proper(c) && c.name.Some? && c.name.value != ""
    ensures Made(d, d.AddChild(c))
  {
    hide Sound, View, NamedInside;
    AddChildView(d, c);
    ViewParts(c);
    NamedWith(View(d), XMLAttribute("", None), Child(View(c)));
  }

  lemma ViewParts(d: NodeData)
    requires Sound(d)
    ensures View(d).name == d.name && View(d).attributes == d.attributes
  {
  }

  lemma StringDupNotEmpty(s: string, i: nat, n: nat)
    requires 1 <= n && i + n <= |s|
    ensures StringDup(s, i, n) != ""
  {
  }

  lemma {:induction false} ParseLoopProper(s: string, i: nat, d: NodeData, v: Locals)
    requires LocalsOk(s, i, v) && Proper(d)
    ensures Made(d, ParseLoop(s, i, d, v).node)
    decreases |s| - i, 1
  {
    hide Proper, NextToken, StringDup, Decoded, EndOfText, FindString, SameTag, FlushRaw, FlushDecoded;
    var t := NextToken(s, i);
    if t.kind == TokenError {
    } else if v.status == InsideTag {
      ParseInsideProper(s, i, d, v, t);
    } else {
      FlushProper(s, d, v.text, t.start);
      if t.kind == TokenTagStart || t.kind == TokenDeclaration {
        ParseChildProper(s, i, d, v, t);
      } else if t.kind.TokenClear? {
        ParseClearProper(s, i, d, v, t);
      } else if t.kind == TokenText || t.kind == TokenQuotedText || t.kind == TokenEquals {
        ParseLoopProper(s, t.next, d, if v.text.None? then v.(text := Some(t.start)) else v);
      }
    }
  }

  lemma {:induction false} ParseClearProper(s: string, i: nat, d: NodeData, v: Locals, t: Token)
    requires LocalsOk(s, i, v) && t == NextToken(s, i) && v.status == OutsideTag && t.kind.TokenClear? && Proper(d)
    ensures Made(d, ParseClear(s, i, d, v, t).node)
    decreases |s| - i, 0
  {
    hide Proper, NextToken, StringDup, Decoded, EndOfText, FindString, SameTag, FlushRaw, FlushDecoded, ParseLoop;
    var d1, tag := FlushRaw(s, d, v.text, t.start), CLEAR_TAGS[t.kind.tag];
    FlushProper(s, d, v.text, t.start);
    var e := FindString(s, t.next, tag.close);
    if e.Some? {
      var c := XMLClear(StringDup(s, t.next, e.value - t.next), tag.open, tag.close);
      ClearProper(d1, c);
      FoundInside(s, t.next, tag.close);
      ParseLoopProper(s, e.value + |tag.close|, d1.AddClear(c), v.(text := None));
    }
  }

  lemma FoundInside(s: string, i: nat, w: string)
    requires i <= |s|
    ensures FindString(s, i, w).Some? ==> i <= FindString(s, i, w).value && FindString(s, i, w).value + |w| <= |s|
  {
  }

  lemma EmptySound(name: Option<string>, isDeclaration: bool)
    ensures Sound(EmptyNode(name, isDeclaration))
    ensures View(EmptyNode(name, isDeclaration)) == Element(name, isDeclaration, [], [])
  {
  }

  lemma FlushProper(s: string, d: NodeData, text: Option<nat>, upTo: nat)
    requires Proper(d) && (text.Some? ==> text.value <= upTo <= |s|)
    ensures Made(d, FlushRaw(s, d, text, upTo)) && Made(d, FlushDecoded(s, d, text, upTo))
  {
    hide Proper;
    if text.Some? {
      var n := EndOfText(s, text.value, upTo - text.value);
      TextProper(d, StringDup(s, text.value, n));
      TextProper(d, Decoded(s, text.value, n));
    }
  }

  lemma {:induction false} ParseChildProper(s: string, i: nat, d: NodeData, v: Locals, t: Token)
    requires LocalsOk(s, i, v) && t == NextToken(s, i) && v.status == OutsideTag && Proper(d)
    requires t.kind == TokenTagStart || t.kind == TokenDeclaration
    ensures Made(d, ParseChild(s, i, d, v, t).node)
    decreases |s| - i, 0
  {
    hide Proper, NextToken, StringDup, Decoded, EndOfText, FindString, SameTag, FlushRaw, FlushDecoded;
    FlushProper(s, d, v.text, t.start);
    var d1 := FlushRaw(s, d, v.text, t.start);
    var n := NextToken(s, t.next);
    if n.kind == TokenText {
      var c := EmptyNode(Some(StringDup(s, n.start, n.size)), t.kind == TokenDeclaration);
      var r := ParseLoop(s, n.next, c, INSIDE);
      EmptyProper(c.name, c.isDeclaration);
      ParseLoopProper(s, n.next, c, INSIDE);
      StringDupNotEmpty(s, n.start, n.size);
      ChildProper(d1, r.node);
      if r.ok && r.cbEndTag == 0 {
        ParseLoopProper(s, r.next, d1.AddChild(r.node), v.(text := None));
      }
    }
  }

  lemma EmptyProper(name: Option<string>, isDeclaration: bool)
    ensures Proper(EmptyNode(name, isDeclaration))
  {
    hide Sound, View;
    EmptySound(name, isDeclaration);
    assert ItemsNamed([]) && AttributesNamed([]);
  }

  lemma {:induction false} ParseInsideProper(s: string, i: nat, d: NodeData, v: Locals, t: Token)
    requires LocalsOk(s, i, v) && t == NextToken(s, i) && v.status == InsideTag && t.kind != TokenError && Proper(d)
    ensures Made(d, ParseInside(s, i, d, v, t).node)
    decreases |s| - i, 0
  {
    hide Proper, NextToken, StringDup, Decoded, EndOfText, FindString, SameTag, FlushRaw, FlushDecoded, LastAttribute, ValuedAttribute;
    if v.attrib == AttribName {
      if t.kind == TokenText {
        ParseLoopProper(s, t.next, d, v.(attrib := AttribEquals, temp := t.start, cbTemp := t.size));
      } else if t.kind == TokenCloseTag {
        ParseLoopProper(s, t.next, d, v.(status := OutsideTag));
      }
    } else if v.attrib == AttribEquals {
      LastAttributeProper(s, d, v);
      var a := XMLAttribute(StringDup(s, v.temp, v.cbTemp), None);
      StringDupNotEmpty(s, v.temp, v.cbTemp);
      AttributeProper(d, a);
      if t.kind == TokenText {
        ParseLoopProper(s, t.next, d.AddAttribute(a), v.(temp := t.start, cbTemp := t.size));
      } else if t.kind == TokenCloseTag {
        ParseLoopProper(s, t.next, LastAttribute(s, d, v), v.(status := OutsideTag));
      } else if t.kind == TokenEquals {
        ParseLoopProper(s, t.next, d, v.(attrib := AttribValue));
      }
    } else if t.kind == TokenText || t.kind == TokenQuotedText {
      ValuedAttributeProper(s, d, v, t);
      ParseLoopProper(s, t.next, ValuedAttribute(s, d, v, t), v.(attrib := AttribName));
    }
  }

  lemma LastAttributeProper(s: string, d: NodeData, v: Locals)
    requires Proper(d) && v.cbTemp >= 1 && v.temp + v.cbTemp <= |s|
    ensures Made(d, LastAttribute(s, d, v))
  {
    hide Proper, StringDup;
    var n := WithoutQuestionMark(s, d, v.temp, v.cbTemp);
    if n > 0 {
      StringDupNotEmpty(s, v.temp, n);
      AttributeProper(d, XMLAttribute(StringDup(s, v.temp, n), None));
    }
  }

  lemma ValuedAttributeProper(s: string, d: NodeData, v: Locals, t: Token)
    requires Proper(d) && v.cbTemp >= 1 && v.temp + v.cbTemp <= |s|
    requires t.size >= 1 && t.start + t.size <= |s|
    requires t.kind == TokenQuotedText ==> t.size >= 2 && s[t.start + t.size - 1] in {'\'', '"'}
    ensures Made(d, ValuedAttribute(s, d, v, t))
  {
    hide Proper, StringDup, Decoded;
    StringDupNotEmpty(s, v.temp, v.cbTemp);
    var n := WithoutQuestionMark(s, d, t.start, t.size);
    var value := if t.kind == TokenQuotedText then Decoded(s, t.start + 1, n - 2) else Decoded(s, t.start, n);
    AttributeProper(d, XMLAttribute(StringDup(s, v.temp, v.cbTemp), Some(value)));
  }

  // Every string parses, to an error or to a nameless root whose order arrays agree at every
  // depth, and in which every attribute and every element has a name.
  lemma ParseStringSound(s: string)
    ensures ParseString(s).Some? ==> Proper(ParseString(s).value) && Sound(ParseString(s).value)
    ensures ParseString(s).Some? ==> ParseString(s).value.name == None && !ParseString(s).value.isDeclaration
  {
    hide ParseLoop, Sound, View;
    EmptyProper(None, false);
    ParseLoopProper(s, 0, EmptyNode(None, false), OUTSIDE);
  }
}
