/**
  A node under construction, updated in place: additions and removals that keep the
  packed order array in step, and the parsing loop. Children are held as finished
  records; the reference counting of the handles is not part of this model.
*/
module XmlNode {
  import opened CText
  import opened Wrappers
  import opened XmlTree
  import opened XmlEscape
  import opened XmlTokenizer
  import opened XmlParser

  class XMLNode {
    var lpszName: Option<string>
    var isDeclaration: bool
    var pChild: seq<NodeData>
    var pAttribute: seq<XMLAttribute>
    var pText: seq<string>
    var pClear: seq<XMLClear>
    var pOrder: seq<int>

    function Value(): NodeData
      reads this
    {
      NodeData(lpszName, isDeclaration, pChild, pAttribute, pText, pClear, pOrder)
    }

    constructor (name: Option<string>, declaration: bool)
      ensures Value() == EmptyNode(name, declaration)
    {
      lpszName, isDeclaration := name, declaration;
      pChild, pAttribute, pText, pClear, pOrder := [], [], [], [], [];
    }

    // ----- Contents -----

    method AddToOrder(index: nat, t: nat)
      modifies this`pOrder
      ensures pOrder == old(pOrder) + [Packed(index, t)]
    {
      pOrder := pOrder + [index * 4 + t];
    }

    method AddChild(child: NodeData)
      modifies this
      ensures Value() == old(Value()).AddChild(child)
    {
      var nc := |pChild|;
      pChild := pChild + [child];
      AddToOrder(nc, CHILD);
    }

    method AddAttribute(name: string, value: Option<string>)
      modifies this
      ensures Value() == old(Value()).AddAttribute(XMLAttribute(name, value))
    {
      var na := |pAttribute|;
      pAttribute := pAttribute + [XMLAttribute(name, value)];
      AddToOrder(na, ATTRIBUTE);
    }

    method AddText(value: string)
      modifies this
      ensures Value() == old(Value()).AddText(value)
    {
      var nt := |pText|;
      pText := pText + [value];
      AddToOrder(nt, TEXT);
    }

    method AddClear(value: string, open: string, close: string)
      modifies this
      ensures Value() == old(Value()).AddClear(XMLClear(value, open, close))
    {
      var nc := |pClear|;
      pClear := pClear + [XMLClear(value, open, close)];
      AddToOrder(nc, CLEAR);
    }

    // The entry is searched, the later ones move down over it, and those of its
    // type are renumbered where they stand.
    method RemoveOrderElement(t: nat, index: nat, ghost p: nat)
      requires t < 4 && p < |pOrder| && pOrder[p] == Packed(index, t)
      requires forall i | 0 <= i < p :: pOrder[i] != Packed(index, t)
      modifies this`pOrder
      ensures pOrder == Removed(old(pOrder), p, t)
    {
      var j, i := index * 4 + t, 0;
      while pOrder[i] != j
        invariant 0 <= i <= p
        decreases p - i
      {
        i := i + 1;
      }
      pOrder := pOrder[..i] + pOrder[i + 1..];
      var n := |pOrder|;
      while i < n
        invariant p <= i <= n == |pOrder| == |old(pOrder)| - 1
        invariant forall m | 0 <= m < p :: pOrder[m] == old(pOrder)[m]
        invariant forall m | p <= m < i :: pOrder[m] == Shifted(old(pOrder)[m + 1], t)
        invariant forall m | i <= m < n :: pOrder[m] == old(pOrder)[m + 1]
      {
        if pOrder[i] % 4 == t { pOrder := pOrder[i := pOrder[i] - 4]; }
        i := i + 1;
      }
      RemovedAt(old(pOrder), p, t);
    }

    // What destroying a child's last handle does to its parent.
    method RemoveChild(k: nat) returns (ghost p: nat)
      requires Sound(Value()) && k < |pChild|
      modifies this
      ensures p < |old(pOrder)| && old(pOrder)[p] == Packed(k, CHILD)
      ensures Value() == old(Value()).RemoveChild(k, p)
      ensures Sound(Value())
    {
      p := RankedFind(pOrder, CHILD, k);
      RemovedSound(Value(), k, p);
      forall i | 0 <= i < p ensures pOrder[i] != Packed(k, CHILD) { IndexGrows(pOrder, i, p); }
      pChild := pChild[..k] + pChild[k + 1..];
      RemoveOrderElement(CHILD, k, p);
    }

    // ----- Parsing -----

    // The outcome of a call, against the loop as a function.
    ghost predicate Outcome(pXML: XML, ok: bool, r: ParseResult)
      reads this, pXML
    {
      && ok == r.ok && Value() == r.node && pXML.nIndex == r.next && pXML.error == r.error
      && pXML.cbEndTag == r.cbEndTag && (r.cbEndTag > 0 ==> pXML.lpEndTag == r.endTag)
    }

    // No error met and no end tag pending.
    ghost predicate Running(pXML: XML)
      reads pXML
    {
      pXML.Valid() && pXML.error == ErrorNone && pXML.cbEndTag == 0
    }

    method FindEndOfText(s: string, i: nat, cb: nat) returns (n: nat)
      requires i + cb <= |s| && cb > 0 && !IsSpace(s[i])
      ensures n == EndOfText(s, i, cb) && n > 0
    {
      n := cb;
      while IsSpace(s[i + n - 1])
        invariant 0 < n <= cb
        invariant EndOfText(s, i, n) == EndOfText(s, i, cb)
        decreases n
      {
        n := n - 1;
      }
    }

    method FlushText(s: string, text: Option<nat>, upTo: nat)
      requires text.Some? ==> text.value < upTo <= |s| && !IsSpace(s[text.value])
      modifies this
      ensures Value() == FlushRaw(s, old(Value()), text, upTo)
    {
      if text.Some? {
        var cb := FindEndOfText(s, text.value, upTo - text.value);
        AddText(StringDup(s, text.value, cb));
      }
    }

    method FlushEscapedText(s: string, text: Option<nat>, upTo: nat)
      requires text.Some? ==> text.value < upTo <= |s| && !IsSpace(s[text.value])
      modifies this
      ensures Value() == FlushDecoded(s, old(Value()), text, upTo)
    {
      if text.Some? {
        var cb := FindEndOfText(s, text.value, upTo - text.value);
        var x := FromXMLString(s, text.value, cb);
        AddText(x);
      }
    }

    method ParseClearTag(pXML: XML, pClear: ClearTag) returns (ok: bool)
      requires pXML.Valid()
      modifies this, pXML
      ensures pXML.Valid() && pXML.cbEndTag == old(pXML.cbEndTag) && pXML.nFirst == old(pXML.nFirst)
      ensures var e := FindString(pXML.lpXML, old(pXML.nIndex), pClear.close);
              && ok == e.Some?
              && (ok ==>
                    && pXML.nIndex == e.value + |pClear.close| && pXML.error == old(pXML.error)
                    && Value() == old(Value()).AddClear(XMLClear(StringDup(pXML.lpXML, old(pXML.nIndex), e.value - old(pXML.nIndex)), pClear.open, pClear.close)))
              && (!ok ==> pXML.nIndex == old(pXML.nIndex) && pXML.error == ErrorUnmatchedEndTag && Value() == old(Value()))
    {
      var found := FindString(pXML.lpXML, pXML.nIndex, pClear.close);
      if found.Some? {
        var cbTemp := found.value - pXML.nIndex;
        var value := StringDup(pXML.lpXML, pXML.nIndex, cbTemp);
        pXML.nIndex := pXML.nIndex + cbTemp;
        pXML.nIndex := pXML.nIndex + |pClear.close|;
        AddClear(value, pClear.open, pClear.close);
        return true;
      }
      pXML.error := ErrorUnmatchedEndTag;
      ok := false;
    }

    method ParseEndOfElement(pXML: XML, text: Option<nat>, token: Token) returns (ok: bool)
      requires Running(pXML) && token.start <= token.next == pXML.nIndex
      requires text.Some? ==> text.value < token.start && !IsSpace(pXML.lpXML[text.value])
      modifies this, pXML
      ensures pXML.Valid() && pXML.nIndex >= old(pXML.nIndex) && pXML.nFirst == old(pXML.nFirst)
      ensures Outcome(pXML, ok, ParseEndTag(pXML.lpXML, old(Value()), text, token))
    {
      hide NextToken, SameTag, Decoded, EndOfText;
      FlushEscapedText(pXML.lpXML, text, token.start);
      var name := pXML.GetNextToken();
      if name.kind != TokenText {
        pXML.error := ErrorMissingEndTagName;
        return false;
      }
      var close := pXML.GetNextToken();
      if close.kind != TokenCloseTag {
        pXML.error := ErrorMissingEndTagName;
        return false;
      }
      if !SameTag(lpszName, pXML.lpXML, name.start) {
        pXML.lpEndTag := name.start;
        pXML.cbEndTag := name.size;
      }
      return true;
    }

    // '<' or '<?', met by the loop at i: `stop` when the caller must return `ok`.
    method ParseChildElement(pXML: XML, ghost i: nat, v: Locals, token: Token) returns (stop: bool, ok: bool)
      requires Running(pXML) && !pXML.nFirst && LocalsOk(pXML.lpXML, i, v) && v.status == OutsideTag
      requires token == NextToken(pXML.lpXML, i) && pXML.nIndex == token.next
      requires token.kind == TokenTagStart || token.kind == TokenDeclaration
      modifies this, pXML
      ensures pXML.Valid() && !pXML.nFirst && pXML.nIndex >= old(pXML.nIndex)
      ensures stop ==> Outcome(pXML, ok, ParseChild(pXML.lpXML, i, old(Value()), v, token))
      ensures !stop ==> Running(pXML) &&
                        ParseLoop(pXML.lpXML, pXML.nIndex, Value(), v.(text := None)) ==
                        ParseChild(pXML.lpXML, i, old(Value()), v, token)
      decreases |pXML.lpXML| - pXML.nIndex, 0
    {
      hide NextToken, SameTag, Decoded, EndOfText, StringDup, ParseInside, ParseClear, ParseEndTag;
      var s := pXML.lpXML;
      FlushText(s, v.text, token.start);
      var name := pXML.GetNextToken();
      if name.kind != TokenText {
        pXML.error := ErrorMissingTagName;
        return true, false;
      }
      var pNew := new XMLNode(Some(StringDup(s, name.start, name.size)), token.kind == TokenDeclaration);
      ok := pNew.ParseXMLElement(pXML);
      AddChild(pNew.Value());
      if !ok {
        return true, false;
      }
      if pXML.cbEndTag > 0 {
        if lpszName.None? {
          pXML.error := ErrorUnmatchedEndTag;
          return true, false;
        }
        if SameTag(lpszName, s, pXML.lpEndTag) {
          pXML.cbEndTag := 0;
        }
        return true, true;
      }
      stop := false;
    }

    // The name read last has no value, and the tag ends.
    method AddLastAttribute(s: string, v: Locals)
      requires v.cbTemp >= 1 && v.temp + v.cbTemp <= |s|
      modifies this
      ensures Value() == LastAttribute(s, old(Value()), v)
    {
      var cbTemp := v.cbTemp;
      if isDeclaration && s[v.temp + cbTemp - 1] == '?' { cbTemp := cbTemp - 1; }
      if cbTemp > 0 { AddAttribute(StringDup(s, v.temp, cbTemp), None); }
    }

    method AddValuedAttribute(s: string, v: Locals, token: Token)
      requires v.cbTemp >= 1 && v.temp + v.cbTemp <= |s|
      requires token.size >= 1 && token.start + token.size <= |s|
      requires token.kind == TokenQuotedText ==> token.size >= 2 && s[token.start + token.size - 1] in {'\'', '"'}
      modifies this
      ensures Value() == ValuedAttribute(s, old(Value()), v, token)
    {
      hide Decoded, StringDup;
      var start, cbToken := token.start, token.size;
      if isDeclaration && s[start + cbToken - 1] == '?' { cbToken := cbToken - 1; }
      if token.kind == TokenQuotedText { start, cbToken := start + 1, cbToken - 2; }
      var value := FromXMLString(s, start, cbToken);
      AddAttribute(StringDup(s, v.temp, v.cbTemp), Some(value));
    }

    // A token inside the start tag, met by the loop at i.
    method ParseTagToken(pXML: XML, ghost i: nat, v: Locals, token: Token) returns (stop: bool, ok: bool, v': Locals)
      requires Running(pXML) && LocalsOk(pXML.lpXML, i, v) && v.status == InsideTag
      requires token == NextToken(pXML.lpXML, i) && pXML.nIndex == token.next && token.kind != TokenError
      modifies this, pXML`error
      ensures stop ==> Outcome(pXML, ok, ParseInside(pXML.lpXML, i, old(Value()), v, token))
      ensures !stop ==> Running(pXML) && LocalsOk(pXML.lpXML, pXML.nIndex, v') &&
                        ParseLoop(pXML.lpXML, pXML.nIndex, Value(), v') == ParseInside(pXML.lpXML, i, old(Value()), v, token)
    {
      hide NextToken, StringDup, LastAttribute, ValuedAttribute, ParseChild, ParseClear, ParseEndTag;
      var s := pXML.lpXML;
      stop, ok, v' := false, false, v;
      match v.attrib
      case AttribName =>
        if token.kind == TokenText {
          v' := v.(attrib := AttribEquals, temp := token.start, cbTemp := token.size);
        } else if token.kind == TokenCloseTag {
          v' := v.(status := OutsideTag);
        } else if token.kind == TokenShortHandClose {
          return true, true, v;
        } else {
          pXML.error := ErrorUnexpectedToken;
          return true, false, v;
        }
      case AttribEquals =>
        if token.kind == TokenText {
          AddAttribute(StringDup(s, v.temp, v.cbTemp), None);
          v' := v.(temp := token.start, cbTemp := token.size);
        } else if token.kind == TokenCloseTag || token.kind == TokenShortHandClose {
          AddLastAttribute(s, v);
          if token.kind == TokenShortHandClose { return true, true, v; }
          v' := v.(status := OutsideTag);
        } else if token.kind == TokenEquals {
          v' := v.(attrib := AttribValue);
        } else {
          pXML.error := ErrorUnexpectedToken;
          return true, false, v;
        }
      case AttribValue =>
        if token.kind == TokenText || token.kind == TokenQuotedText {
          AddValuedAttribute(s, v, token);
          v' := v.(attrib := AttribName);
        } else {
          pXML.error := ErrorUnexpectedToken;
          return true, false, v;
        }
    }

    // An opening of an unformatted section, met by the loop at i.
    method ParseClearElement(pXML: XML, ghost i: nat, v: Locals, token: Token) returns (ok: bool)
      requires Running(pXML) && LocalsOk(pXML.lpXML, i, v) && v.status == OutsideTag
      requires token == NextToken(pXML.lpXML, i) && pXML.nIndex == token.next && token.kind.TokenClear?
      modifies this, pXML
      ensures pXML.Valid() && pXML.nIndex >= old(pXML.nIndex) && pXML.nFirst == old(pXML.nFirst)
      ensures !ok ==> Outcome(pXML, false, ParseClear(pXML.lpXML, i, old(Value()), v, token))
      ensures ok ==> Running(pXML) && LocalsOk(pXML.lpXML, pXML.nIndex, v.(text := None)) &&
                     ParseLoop(pXML.lpXML, pXML.nIndex, Value(), v.(text := None)) ==
                     ParseClear(pXML.lpXML, i, old(Value()), v, token)
    {
      hide NextToken, ParseLoop, EndOfText, FindString, FlushRaw, StringDup;
      FlushText(pXML.lpXML, v.text, token.start);
      ok := ParseClearTag(pXML, CLEAR_TAGS[token.kind.tag]);
    }

    // A token outside a tag, met by the loop at i.
    method ParseContentToken(pXML: XML, ghost i: nat, v: Locals, token: Token) returns (stop: bool, ok: bool, v': Locals)
      requires Running(pXML) && !pXML.nFirst && LocalsOk(pXML.lpXML, i, v) && v.status == OutsideTag
      requires token == NextToken(pXML.lpXML, i) && pXML.nIndex == token.next && token.kind != TokenError
      modifies this, pXML
      ensures pXML.Valid() && !pXML.nFirst && pXML.nIndex >= old(pXML.nIndex)
      ensures stop ==> Outcome(pXML, ok, ParseLoop(pXML.lpXML, i, old(Value()), v))
      ensures !stop ==> Running(pXML) && LocalsOk(pXML.lpXML, pXML.nIndex, v') &&
                        ParseLoop(pXML.lpXML, pXML.nIndex, Value(), v') == ParseLoop(pXML.lpXML, i, old(Value()), v)
      decreases |pXML.lpXML| - pXML.nIndex, 1
    {
      hide NextToken, ParseInside, ParseChild, ParseEndTag, ParseClear, Decoded, EndOfText, FindString, FlushRaw, StringDup;
      stop, ok, v' := false, false, v;
      if token.kind == TokenText || token.kind == TokenQuotedText || token.kind == TokenEquals {
        if v.text.None? { v' := v.(text := Some(token.start)); }
      } else if token.kind == TokenTagStart || token.kind == TokenDeclaration {
        stop, ok := ParseChildElement(pXML, i, v, token);
        v' := v.(text := None);
      } else if token.kind == TokenTagEnd {
        stop := true;
        ok := ParseEndOfElement(pXML, v.text, token);
      } else if token.kind.TokenClear? {
        ok := ParseClearElement(pXML, i, v, token);
        stop := !ok;
        v' := v.(text := None);
      } else {
        pXML.error := ErrorUnexpectedToken;
        stop := true;
      }
    }

    method ParseXMLElement(pXML: XML) returns (ok: bool)
      requires Running(pXML)
      modifies this, pXML
      ensures pXML.Valid() && !pXML.nFirst
      ensures Outcome(pXML, ok, ParseLoop(pXML.lpXML, old(pXML.nIndex), old(Value()), if old(pXML.nFirst) then OUTSIDE else INSIDE))
      decreases |pXML.lpXML| - pXML.nIndex, 2
    {
      hide NextToken, ParseInside, ParseChild, ParseEndTag, ParseClear;
      var v := if pXML.nFirst then OUTSIDE else INSIDE;
      pXML.nFirst := false;
      ghost var r := ParseLoop(pXML.lpXML, pXML.nIndex, Value(), v);
      var stop := false;
      ok := false;
      while !stop
        invariant pXML.Valid() && !pXML.nFirst && pXML.nIndex >= old(pXML.nIndex)
        invariant !stop ==> Running(pXML) && LocalsOk(pXML.lpXML, pXML.nIndex, v)
        invariant !stop ==> ParseLoop(pXML.lpXML, pXML.nIndex, Value(), v) == r
        invariant stop ==> Outcome(pXML, ok, r)
        decreases !stop, |pXML.lpXML| - pXML.nIndex
      {
        ghost var i := pXML.nIndex;
        var token := pXML.GetNextToken();
        if token.kind == TokenError {
          return false;
        }
        if v.status == InsideTag {
          stop, ok, v := ParseTagToken(pXML, i, v, token);
        } else {
          stop, ok, v := ParseContentToken(pXML, i, v, token);
        }
      }
    }
  }

  // parseString, without a tag to look for.
  method ParseDocument(lpszXML: string) returns (r: Option<NodeData>)
    ensures r == ParseString(lpszXML)
  {
    hide ParseLoop;
    var xnode := new XMLNode(None, false);
    var xml := new XML(lpszXML);
    var _ := xnode.ParseXMLElement(xml);
    r := if xml.error == ErrorNone then Some(xnode.Value()) else None;
  }
}
