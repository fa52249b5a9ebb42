/**
  The two-pass printer: the same routine first counts (no buffer) and then fills a
  buffer of exactly that many characters and a terminator.
*/
module XmlWriter {
  import opened CText
  import opened Wrappers
  import opened XmlTree
  import opened XmlEscape
  import opened XmlPrinter

  // What stands before the text in a buffer, and its cells as they were allocated.
  datatype Frame = Frame(before: string, cells: string)

  // The buffer, if there is one, holds `text` up to position pos; behind that cell it is
  // as it was.
  ghost predicate Written(marker: array?<char>, f: Frame, pos: nat, text: string)
    reads marker
  {
    marker != null ==>
      pos < |f.cells| == marker.Length && marker[..pos] == f.before + text && marker[pos + 1..] == f.cells[pos + 1..]
  }

  predicate Room(marker: array?<char>, f: Frame, pos: nat) {
    marker != null ==> pos < |f.cells|
  }

  // What the cell behind the text holds: a terminator, what was there before, or a
  // character to be overwritten.
  datatype Tail = Ended | Untouched | Spoiled

  ghost predicate Tailed(marker: array?<char>, f: Frame, pos: nat, t: Tail)
    reads marker
  {
    marker != null ==>
      pos < |f.cells| == marker.Length && match t
                                          case Ended => marker[pos] == NUL
                                          case Untouched => marker[pos] == f.cells[pos]
                                          case Spoiled => true
  }

  ghost function Buffer(marker: array?<char>): set<object> {
    if marker == null then {} else {marker}
  }

  method PutChar(marker: array?<char>, pos: nat, c: char, ghost f: Frame, ghost text: string)
    requires Written(marker, f, pos, text) && Room(marker, f, pos + 1)
    modifies Buffer(marker)
    ensures Written(marker, f, pos + 1, text + [c]) && Tailed(marker, f, pos + 1, Untouched)
  {
    if marker != null {
      ghost var was := marker[..];
      marker[pos] := c;
      assert marker[..pos + 1] == was[..pos] + [c];
      assert marker[pos + 1..] == was[pos + 1..];
      FirstOfTail(marker[..], f.cells, pos + 1);
    }
  }

  lemma FirstOfTail(a: string, b: string, i: nat)
    requires i < |a| == |b| && a[i..] == b[i..]
    ensures a[i] == b[i] && a[i + 1..] == b[i + 1..]
  {
    assert a[i] == a[i..][0] && b[i] == b[i..][0];
    assert a[i + 1..] == a[i..][1..] && b[i + 1..] == b[i..][1..];
  }

  method PutString(marker: array?<char>, pos: nat, w: string, ghost f: Frame, ghost text: string)
    requires Written(marker, f, pos, text) && Room(marker, f, pos + |w|)
    modifies Buffer(marker)
    ensures Written(marker, f, pos + |w|, text + w) && Tailed(marker, f, pos + |w|, Ended)
  {
    if marker != null {
      ghost var was := marker[..];
      CopyString(marker, pos, w);
      TailKept(was, f.cells, pos + 1, pos + |w| + 1);
    }
  }

  method PutXMLString(marker: array?<char>, pos: nat, w: string, ghost f: Frame, ghost text: string)
    requires Written(marker, f, pos, text) && Room(marker, f, pos + |Escape(w)|)
    modifies Buffer(marker)
    ensures Written(marker, f, pos + |Escape(w)|, text + Escape(w)) && Tailed(marker, f, pos + |Escape(w)|, Ended)
  {
    hide Escape;
    if marker != null {
      ghost var was := marker[..];
      ToXMLString(marker, pos, w);
      TailKept(was, f.cells, pos + 1, pos + |Escape(w)| + 1);
    }
  }

  lemma {:induction false} TabsLength(n: int)
    ensures |Tabs(n)| == (if n <= 0 then 0 else n) && (n > 0 ==> Tabs(n) == Tabs(n - 1) + "\t")
    decreases n
  {
    if n > 0 { TabsLength(n - 1); }
  }

  lemma TabsStart(text: string)
    ensures Tabs(0) == "" && text + Tabs(0) == text
  {
  }

  method PutTabs(marker: array?<char>, pos: nat, n: nat, ghost f: Frame, ghost text: string)
    requires Written(marker, f, pos, text) && Room(marker, f, pos + n)
    modifies Buffer(marker)
    ensures Written(marker, f, pos + n, text + Tabs(n)) && |Tabs(n)| == n
    ensures n > 0 ==> Tailed(marker, f, pos + n, Untouched)
  {
    hide Written, Tailed, Tabs;
    TabsStart(text);
    var i := 0;
    while i < n
      invariant 0 <= i <= n && (i > 0 ==> Tailed(marker, f, pos + i, Untouched))
      invariant Written(marker, f, pos + i, text + Tabs(i))
    {
      TabsLength(i + 1);
      assert text + Tabs(i) + "\t" == text + Tabs(i + 1);
      PutChar(marker, pos + i, '\t', f, text + Tabs(i));
      i := i + 1;
    }
    TabsLength(n);
  }

  // The last character written is replaced.
  method Replace(marker: array?<char>, pos: nat, c: char, ghost f: Frame, ghost text: string, ghost last: char)
    requires pos > 0 && Written(marker, f, pos, text + [last]) && Tailed(marker, f, pos, Untouched)
    modifies Buffer(marker)
    ensures Written(marker, f, pos, text + [c]) && Tailed(marker, f, pos, Untouched)
  {
    if marker != null {
      ghost var was := marker[..];
      marker[pos - 1] := c;
      assert marker[..pos] == was[..pos][..pos - 1] + [c];
      assert marker[pos + 1..] == was[pos + 1..];
    }
  }

  lemma DropLast(marker: array?<char>, pos: nat, f: Frame, text: string, last: char)
    requires pos > 0 && Written(marker, f, pos, text + [last]) && Tailed(marker, f, pos, Untouched)
    ensures Written(marker, f, pos - 1, text)
  {
    if marker != null {
      assert marker[..pos - 1] == marker[..pos][..pos - 1];
      assert marker[..pos][..pos - 1] == f.before + text;
      assert marker[pos..] == [marker[pos]] + marker[pos + 1..];
      assert f.cells[pos..] == [f.cells[pos]] + f.cells[pos + 1..];
    }
  }

  // What the routine reads of a node whose text is e's.
  ghost predicate Describes(e: Element, name: string, declaration: bool, attributes: seq<XMLAttribute>, hasContents: bool) {
    && e.name == Some(name) && name != "" && e.isDeclaration == declaration
    && e.attributes == attributes && AttributesPrintable(attributes) && (hasContents <==> e.contents != [])
  }

  // ----- Start tag -----

  lemma {:induction false} AttributesSnoc(s: seq<XMLAttribute>, a: XMLAttribute)
    requires AttributesPrintable(s + [a])
    ensures AttributesPrintable(s) && (a.name != "" ==> a.value.Some?)
    ensures PrintAttributes(s + [a]) == PrintAttributes(s) + PrintAttribute(a)
  {
    hide PrintAttribute;
    if s == [] {
      assert s + [a] == [a] && [a][1..] == [];
      assert PrintAttributes([]) == "";
    } else {
      assert (s + [a])[1..] == s[1..] + [a];
      AttributesSnoc(s[1..], a);
    }
  }

  lemma {:induction false} PrefixPrintable(s: seq<XMLAttribute>, i: nat)
    requires AttributesPrintable(s) && i <= |s|
    ensures AttributesPrintable(s[..i])
    ensures i < |s| ==> s[..i + 1] == s[..i] + [s[i]] && AttributesPrintable(s[..i + 1]) && (s[i].name != "" ==> s[i].value.Some?)
    ensures i < |s| ==> |PrintAttributes(s[..i + 1])| <= |PrintAttributes(s)|
    ensures |PrintAttributes(s[..i])| <= |PrintAttributes(s)|
    decreases |s| - i
  {
    hide PrintAttribute;
    if i == |s| {
      assert s[..i] == s;
    } else {
      PrefixPrintable(s, i + 1);
      assert s[..i + 1] == s[..i] + [s[i]];
      AttributesSnoc(s[..i], s[i]);
    }
  }

  // What follows the name: nothing for an empty value.
  function ValueText(a: XMLAttribute): string
    requires a.value.Some?
  {
    if a.value.value == "" then "" else "=" + "\"" + Escape(a.value.value) + "\""
  }

  lemma AttributeText(a: XMLAttribute, text: string)
    requires a.name != "" && a.value.Some?
    ensures text + " " + a.name + ValueText(a) == text + PrintAttribute(a)
    ensures |PrintAttribute(a)| == 1 + |a.name| + |ValueText(a)|
  {
    hide Escape;
  }

  // One attribute, behind a text that ends in a space, and a space after it.
  method PutAttribute(marker: array?<char>, pos: nat, a: XMLAttribute, ghost f: Frame, ghost text: string) returns (next: nat)
    requires a.name != "" ==> a.value.Some?
    requires Written(marker, f, pos, text + " ") && Tailed(marker, f, pos, Untouched)
    requires Room(marker, f, pos + |PrintAttribute(a)|)
    modifies Buffer(marker)
    ensures next == pos + |PrintAttribute(a)|
    ensures Written(marker, f, next, text + PrintAttribute(a) + " ") && Tailed(marker, f, next, Untouched)
  {
    hide Escape, Written, Tailed, PrintAttribute, ValueText;
    next := pos;
    if a.name == "" {
      EmptyName(a, text);
      return;
    }
    AttributeText(a, text);
    PutString(marker, next, a.name, f, text + " ");
    next := next + |a.name|;
    next := PutValue(marker, next, a, f, text + " " + a.name);
    PutChar(marker, next, ' ', f, text + " " + a.name + ValueText(a));
    next := next + 1;
  }

  lemma EmptyName(a: XMLAttribute, text: string)
    requires a.name == ""
    ensures PrintAttribute(a) == "" && text + PrintAttribute(a) + " " == text + " "
  {
  }

  method PutValue(marker: array?<char>, pos: nat, a: XMLAttribute, ghost f: Frame, ghost text: string) returns (next: nat)
    requires a.value.Some? && Written(marker, f, pos, text) && Room(marker, f, pos + |ValueText(a)|)
    modifies Buffer(marker)
    ensures next == pos + |ValueText(a)| && Written(marker, f, next, text + ValueText(a))
  {
    hide Escape, Written, Tailed, ValueText;
    next := pos;
    var value := a.value.value;
    var cb := LengthXMLString(value);
    ValueParts(a, text);
    if cb != 0 {
      PutChar(marker, next, '=', f, text);
      PutChar(marker, next + 1, '"', f, text + "=");
      PutXMLString(marker, next + 2, value, f, text + "=" + "\"");
      PutChar(marker, next + 2 + cb, '"', f, text + "=" + "\"" + Escape(value));
      next := next + cb + 3;
    }
  }

  lemma ValueParts(a: XMLAttribute, text: string)
    requires a.value.Some?
    ensures var x := Escape(a.value.value);
            if x == "" then text + ValueText(a) == text && ValueText(a) == ""
            else text + "=" + "\"" + x + "\"" == text + ValueText(a) && |ValueText(a)| == |x| + 3
  {
    hide Escape;
    EscapeIsIdentityIff(a.value.value);
    if a.value.value == "" { assert Escape("") == "" by { EscapeOfEmpty(); } }
  }

  lemma EscapeOfEmpty()
    ensures Escape("") == ""
  {
  }

  method PutAttributes(marker: array?<char>, pos: nat, list: seq<XMLAttribute>, ghost f: Frame, ghost text: string) returns (next: nat)
    requires AttributesPrintable(list)
    requires Written(marker, f, pos, text + " ") && Tailed(marker, f, pos, Untouched)
    requires Room(marker, f, pos + |PrintAttributes(list)|)
    modifies Buffer(marker)
    ensures next == pos + |PrintAttributes(list)|
    ensures Written(marker, f, next, text + PrintAttributes(list) + " ") && Tailed(marker, f, next, Untouched)
  {
    hide PrintAttribute, PrintAttributes, AttributesPrintable, Written, Tailed;
    next := pos;
    NothingPrinted(list, text);
    var i := 0;
    while i < |list|
      invariant 0 <= i <= |list| && AttributesPrintable(list[..i])
      invariant next == pos + |PrintAttributes(list[..i])|
      invariant Written(marker, f, next, text + PrintAttributes(list[..i]) + " ") && Tailed(marker, f, next, Untouched)
    {
      PrefixPrintable(list, i);
      AttributesSnoc(list[..i], list[i]);
      next := PutAttribute(marker, next, list[i], f, text + PrintAttributes(list[..i]));
      assert text + PrintAttributes(list[..i]) + PrintAttribute(list[i]) == text + PrintAttributes(list[..i + 1]);
      i := i + 1;
    }
    assert list[..i] == list;
  }

  lemma NothingPrinted(list: seq<XMLAttribute>, text: string)
    ensures list[..0] == [] && AttributesPrintable(list[..0]) && PrintAttributes(list[..0]) == ""
    ensures text + PrintAttributes(list[..0]) == text
  {
  }

  function Head(e: Element, format: int): string
    requires Named(e) && AttributesPrintable(e.attributes)
  {
    Indent(format) + StartOfTag(e)
  }

  // The start tag, but for the "/>" of an element without contents.
  function Opened(e: Element, format: int): string
    requires Named(e) && AttributesPrintable(e.attributes)
  {
    if !e.isDeclaration && e.contents == [] then Head(e, format)
    else Head(e, format) + EndOfTag(e) + LineEnd(format)
  }

  method PutStartTag(marker: array?<char>, pos: nat, name: string, declaration: bool, attributes: seq<XMLAttribute>, hasContents: bool,
                     nFormat: int, ghost e: Element, ghost f: Frame, ghost text: string)
    returns (next: nat)
    requires Describes(e, name, declaration, attributes, hasContents) && nFormat >= -1
    requires Written(marker, f, pos, text)
    requires Room(marker, f, pos + |Head(e, nFormat)| + 1) && Room(marker, f, pos + |Opened(e, nFormat)|)
    modifies Buffer(marker)
    ensures next == pos + |Opened(e, nFormat)|
    ensures Written(marker, f, next, text + Opened(e, nFormat))
    ensures declaration || hasContents ==> Tailed(marker, f, next, Untouched)
  {
    hide PrintAttributes, AttributesPrintable, Written, Tailed, Tabs, Head, LineEnd;
    ghost var head := Head(e, nFormat);
    next := PutHead(marker, pos, name, declaration, attributes, nFormat, e, f, text);
    if declaration {
      Replace(marker, next, '?', f, text + head, ' ');
      PutChar(marker, next, '>', f, text + head + "?");
      next := next + 1;
      Joined(text + head, "?", ">");
      Joined(text, head, "?>");
      next := PutLineEnd(marker, next, nFormat, f, text + (head + "?>"), Untouched);
      Joined(text, head + "?>", LineEnd(nFormat));
    } else if hasContents {
      Replace(marker, next, '>', f, text + head, ' ');
      Joined(text, head, ">");
      next := PutLineEnd(marker, next, nFormat, f, text + (head + ">"), Untouched);
      Joined(text, head + ">", LineEnd(nFormat));
    } else {
      DropLast(marker, next, f, text + head, ' ');
      next := next - 1;
    }
  }

  lemma Joined(a: string, b: string, c: string)
    ensures a + b + c == a + (b + c)
  {
  }

  method PutLineEnd(marker: array?<char>, pos: nat, nFormat: int, ghost f: Frame, ghost text: string, ghost t: Tail) returns (next: nat)
    requires Written(marker, f, pos, text) && Tailed(marker, f, pos, t) && Room(marker, f, pos + |LineEnd(nFormat)|)
    modifies Buffer(marker)
    ensures next == pos + |LineEnd(nFormat)| && Written(marker, f, next, text + LineEnd(nFormat))
    ensures Tailed(marker, f, next, if nFormat == -1 then t else Untouched)
  {
    next := pos;
    if nFormat != -1 {
      PutChar(marker, pos, '\n', f, text);
      next := next + 1;
    }
    assert text + "" == text;
  }

  // "<name attr="value" ", with the space after the last word.
  method PutHead(marker: array?<char>, pos: nat, name: string, declaration: bool, attributes: seq<XMLAttribute>,
                 nFormat: int, ghost e: Element, ghost f: Frame, ghost text: string)
    returns (next: nat)
    requires Describes(e, name, declaration, attributes, e.contents != []) && nFormat >= -1
    requires Written(marker, f, pos, text) && Room(marker, f, pos + |Head(e, nFormat)| + 1)
    modifies Buffer(marker)
    ensures next == pos + |Head(e, nFormat)| + 1
    ensures Written(marker, f, next, text + Head(e, nFormat) + " ") && Tailed(marker, f, next, Untouched)
  {
    hide PrintAttributes, AttributesPrintable, Written, Tailed, Tabs, Head, Indent;
    var cb := if nFormat == -1 then 0 else nFormat;
    ghost var d := Bracket(declaration);
    HeadText(e, nFormat, text);
    next := pos;
    if marker != null {
      next := PutIndent(marker, next, cb, nFormat, f, text);
      ghost var t := text + Indent(nFormat);
      next := PutBracket(marker, next, declaration, f, t);
      PutString(marker, next, name, f, t + d);
      next := next + |name|;
      PutChar(marker, next, ' ', f, t + d + name);
      next := next + 1;
    } else {
      IndentLength(nFormat);
      next := next + |name| + 2 + cb;
      if declaration { next := next + 1; }
      NoBuffer(marker, f, next, text + Indent(nFormat) + d + name + " ");
    }
    next := PutAttributes(marker, next, attributes, f, text + Indent(nFormat) + d + name);
  }

  function Bracket(declaration: bool): string {
    if declaration then "<?" else "<"
  }

  method PutBracket(marker: array?<char>, pos: nat, declaration: bool, ghost f: Frame, ghost text: string) returns (next: nat)
    requires Written(marker, f, pos, text) && Room(marker, f, pos + |Bracket(declaration)|)
    modifies Buffer(marker)
    ensures next == pos + |Bracket(declaration)| && Written(marker, f, next, text + Bracket(declaration))
  {
    hide Written, Tailed;
    PutChar(marker, pos, '<', f, text);
    next := pos + 1;
    if declaration {
      PutChar(marker, next, '?', f, text + "<");
      next := next + 1;
      assert text + "<" + "?" == text + "<?";
    }
  }

  lemma IndentLength(nFormat: int)
    requires nFormat >= -1
    ensures |Indent(nFormat)| == if nFormat == -1 then 0 else nFormat
  {
    TabsLength(nFormat);
  }

  method PutIndent(marker: array?<char>, pos: nat, cb: nat, nFormat: int, ghost f: Frame, ghost text: string) returns (next: nat)
    requires nFormat >= -1 && cb == if nFormat == -1 then 0 else nFormat
    requires Written(marker, f, pos, text) && Room(marker, f, pos + |Indent(nFormat)|)
    modifies Buffer(marker)
    ensures next == pos + |Indent(nFormat)| == pos + cb && Written(marker, f, next, text + Indent(nFormat))
  {
    hide Written;
    IndentLength(nFormat);
    assert text + "" == text;
    if cb != 0 { PutTabs(marker, pos, cb, f, text); }
    next := pos + cb;
  }

  lemma HeadText(e: Element, nFormat: int, text: string)
    requires Named(e) && AttributesPrintable(e.attributes)
    ensures var d := Bracket(e.isDeclaration);
            && text + Indent(nFormat) + d + e.name.value + PrintAttributes(e.attributes) == text + Head(e, nFormat)
            && |Head(e, nFormat)| == |Indent(nFormat)| + |d| + |e.name.value| + |PrintAttributes(e.attributes)|
  {
    hide PrintAttributes, AttributesPrintable, Indent;
    var i, name, p := Indent(nFormat), e.name.value, PrintAttributes(e.attributes);
    if e.isDeclaration {
      assert "<" + "?" == "<?";
      assert text + i + "<?" + name + p == text + (i + ("<?" + name + p));
    } else {
      assert "<" + "" == "<";
      assert text + i + "<" + name + p == text + (i + ("<" + name + p));
    }
  }

  lemma NoBuffer(marker: array?<char>, f: Frame, pos: nat, text: string)
    requires marker == null
    ensures Written(marker, f, pos, text) && forall t :: Tailed(marker, f, pos, t)
  {
  }

  // ----- End tag -----

  // "/>" for an element without contents, otherwise the end tag.
  function Closing(e: Element, format: int): string
    requires Named(e)
  {
    if !e.isDeclaration && e.contents == [] then "/>" + LineEnd(format) else EndTag(e, format)
  }

  lemma PrintPieces(e: Element, format: int)
    requires Printable(e) && Named(e)
    ensures Print(e, format) == Opened(e, format) + PrintItems(e.contents, format, ChildFormat(e, format)) + Closing(e, format)
    ensures |Head(e, format)| + 1 <= |Print(e, format)|
  {
    hide PrintAttributes, AttributesPrintable, PrintItems, Tabs;
    ghost var head, items := Head(e, format), PrintItems(e.contents, format, ChildFormat(e, format));
    if !e.isDeclaration && e.contents == [] {
      assert items == "" by { NoItemsPrinted(format, ChildFormat(e, format)); }
      assert head + "/>" + LineEnd(format) + "" + "" == head + "" + ("/>" + LineEnd(format));
    } else {
      assert head + EndOfTag(e) + LineEnd(format) == Opened(e, format);
    }
  }

  lemma NoItemsPrinted(format: int, childFormat: int)
    ensures ItemsPrintable([]) && PrintItems([], format, childFormat) == ""
  {
  }

  method PutClosing(marker: array?<char>, pos: nat, name: string, declaration: bool, hasContents: bool,
                    nFormat: int, ghost e: Element, ghost f: Frame, ghost text: string, ghost t: Tail)
    returns (next: nat)
    requires Describes(e, name, declaration, e.attributes, hasContents) && nFormat >= -1
    requires Written(marker, f, pos, text) && Tailed(marker, f, pos, t) && Room(marker, f, pos + |Closing(e, nFormat)|)
    modifies Buffer(marker)
    ensures next == pos + |Closing(e, nFormat)|
    ensures Written(marker, f, next, text + Closing(e, nFormat))
    ensures Tailed(marker, f, next, if declaration then t else Ended)
  {
    hide Written, Tailed, Tabs;
    next := pos;
    assert text + "" == text;
    assert "/>" + LineEnd(nFormat) == if nFormat == -1 then "/>" else "/>\n";
    if !declaration {
      if hasContents {
        next := PutEndTag(marker, pos, name, nFormat, e, f, text);
      } else if marker != null {
        if nFormat == -1 {
          PutString(marker, next, "/>", f, text);
          next := next + 2;
        } else {
          PutString(marker, next, "/>\n", f, text);
          next := next + 3;
        }
      } else {
        next := next + if nFormat == -1 then 2 else 3;
        NoBuffer(marker, f, next, text + Closing(e, nFormat));
      }
    }
  }

  method PutEndTag(marker: array?<char>, pos: nat, name: string, nFormat: int, ghost e: Element, ghost f: Frame, ghost text: string)
    returns (next: nat)
    requires e.name == Some(name) && name != "" && !e.isDeclaration && e.contents != [] && nFormat >= -1
    requires Written(marker, f, pos, text) && Room(marker, f, pos + |EndTag(e, nFormat)|)
    modifies Buffer(marker)
    ensures next == pos + |EndTag(e, nFormat)|
    ensures Written(marker, f, next, text + EndTag(e, nFormat)) && Tailed(marker, f, next, Ended)
  {
    hide Written, Tailed, Indent, EndTag, EndOfLine;
    IndentLength(nFormat);
    EndOfLineLength(nFormat);
    EndTagText(e, nFormat, text);
    next := pos;
    if marker == null {
      next := next + if nFormat != -1 then |name| + 4 + nFormat else |name| + 3;
      NoBuffer(marker, f, next, text + EndTag(e, nFormat));
      return;
    }
    next := PutIndent(marker, next, if nFormat != -1 then nFormat else 0, nFormat, f, text);
    ghost var t := text + Indent(nFormat);
    PutString(marker, next, "</", f, t);
    next := next + 2;
    PutString(marker, next, name, f, t + "</");
    next := next + |name|;
    next := PutEndOfLine(marker, next, nFormat, f, t + "</" + name);
  }

  lemma EndOfLineLength(nFormat: int)
    ensures |EndOfLine(nFormat)| == if nFormat == -1 then 1 else 2
  {
  }

  function EndOfLine(nFormat: int): string {
    if nFormat == -1 then ">" else ">\n"
  }

  method PutEndOfLine(marker: array?<char>, pos: nat, nFormat: int, ghost f: Frame, ghost text: string) returns (next: nat)
    requires Written(marker, f, pos, text) && Room(marker, f, pos + |EndOfLine(nFormat)|)
    modifies Buffer(marker)
    ensures next == pos + |EndOfLine(nFormat)|
    ensures Written(marker, f, next, text + EndOfLine(nFormat)) && Tailed(marker, f, next, Ended)
  {
    hide Written, Tailed;
    if nFormat == -1 {
      PutString(marker, pos, ">", f, text);
      next := pos + 1;
    } else {
      PutString(marker, pos, ">\n", f, text);
      next := pos + 2;
    }
  }

  lemma EndTagText(e: Element, nFormat: int, text: string)
    requires Named(e) && !e.isDeclaration && e.contents != []
    ensures text + Indent(nFormat) + "</" + e.name.value + EndOfLine(nFormat) == text + EndTag(e, nFormat)
    ensures |EndTag(e, nFormat)| == |Indent(nFormat)| + 2 + |e.name.value| + |EndOfLine(nFormat)|
  {
    hide Indent;
    if nFormat == -1 {
      assert EndTag(e, nFormat) == Indent(nFormat) + "</" + e.name.value + ">" by {
        assert Indent(nFormat) + "</" + e.name.value + ">" + "" == Indent(nFormat) + "</" + e.name.value + ">";
      }
    } else {
      assert EndTag(e, nFormat) == Indent(nFormat) + "</" + e.name.value + ">\n" by {
        assert Indent(nFormat) + "</" + e.name.value + ">" + "\n" == Indent(nFormat) + "</" + e.name.value + ">\n";
      }
    }
  }

  // ----- Contents -----

  // What the cell behind an item holds, when the cell before it held t.
  function AfterItem(item: Item, format: int, childFormat: int, t: Tail): Tail
    decreases item, 0
  {
    match item
    case Text(s) => if s == "" then t else if format == -1 then Ended else Untouched
    case Clear(c) =>
      if format != -1 then Untouched else if c.open == "" && c.value == "" && c.close == "" then t else Ended
    case Child(e) => AfterPrint(e, childFormat, t)
  }

  function AfterItems(items: seq<Item>, format: int, childFormat: int, t: Tail): Tail
    decreases items, 0
  {
    if items == [] then t else AfterItems(items[1..], format, childFormat, AfterItem(items[0], format, childFormat, t))
  }

  // An end tag is copied with its terminator, the tag of a declaration is not.
  function AfterPrint(e: Element, format: int, t: Tail): Tail
    decreases e, 1
  {
    if !Named(e) then AfterItems(e.contents, format, ChildFormat(e, format), t)
    else if e.isDeclaration then AfterItems(e.contents, format, ChildFormat(e, format), Untouched)
    else Ended
  }

  lemma {:induction false} AfterAppend(a: seq<Item>, b: seq<Item>, format: int, childFormat: int, t: Tail)
    ensures AfterItems(a + b, format, childFormat, t) == AfterItems(b, format, childFormat, AfterItems(a, format, childFormat, t))
    decreases |a|
  {
    hide AfterItem;
    if a == [] {
      assert a + b == b;
    } else {
      assert (a + b)[1..] == a[1..] + b;
      AfterAppend(a[1..], b, format, childFormat, AfterItem(a[0], format, childFormat, t));
    }
  }

  lemma AfterNone(format: int, childFormat: int, t: Tail)
    ensures AfterItems([], format, childFormat, t) == t
  {
  }

  lemma AfterOne(item: Item, format: int, childFormat: int, t: Tail)
    ensures AfterItems([item], format, childFormat, t) == AfterItem(item, format, childFormat, t)
  {
    hide AfterItem;
    assert [item][1..] == [];
  }

  lemma {:induction false} ItemsAppend(s: seq<Item>, t: seq<Item>, format: int, childFormat: int)
    ensures ItemsPrintable(s + t) <==> ItemsPrintable(s) && ItemsPrintable(t)
    ensures ItemsPrintable(s + t) ==>
              PrintItems(s + t, format, childFormat) == PrintItems(s, format, childFormat) + PrintItems(t, format, childFormat)
    decreases |s|
  {
    hide PrintItem, ItemPrintable;
    if s == [] {
      assert s + t == t;
    } else {
      assert (s + t)[1..] == s[1..] + t;
      ItemsAppend(s[1..], t, format, childFormat);
    }
  }

  lemma OneItemPrinted(item: Item, format: int, childFormat: int)
    ensures ItemsPrintable([item]) <==> ItemPrintable(item)
    ensures ItemPrintable(item) ==> PrintItems([item], format, childFormat) == PrintItem(item, format, childFormat)
  {
    hide PrintItem, ItemPrintable;
    assert [item][1..] == [];
    NoItemsPrinted(format, childFormat);
  }

  method PutText(marker: array?<char>, pos: nat, value: string, nFormat: int, childFormat: int,
                 ghost f: Frame, ghost text: string, ghost t: Tail)
    returns (next: nat)
    requires nFormat >= -1 && Written(marker, f, pos, text) && Tailed(marker, f, pos, t)
    requires Room(marker, f, pos + |PrintItem(Text(value), nFormat, childFormat)|)
    modifies Buffer(marker)
    ensures next == pos + |PrintItem(Text(value), nFormat, childFormat)|
    ensures Written(marker, f, next, text + PrintItem(Text(value), nFormat, childFormat))
    ensures Tailed(marker, f, next, AfterItem(Text(value), nFormat, childFormat, t))
  {
    hide Escape, Written, Tailed, Tabs;
    next := pos;
    assert text + "" == text;
    TabsLength(nFormat + 1);
    EscapeIsIdentityIff(value);
    var cb := LengthXMLString(value);
    if cb != 0 {
      if nFormat != -1 {
        if marker != null {
          ghost var head := text + Tabs(nFormat + 1);
          PutTabs(marker, pos, nFormat + 1, f, text);
          PutXMLString(marker, pos + nFormat + 1, value, f, head);
          PutChar(marker, pos + nFormat + 1 + cb, '\n', f, head + Escape(value));
          assert head + Escape(value) + "\n" == text + (Tabs(nFormat + 1) + Escape(value) + "\n");
        } else {
          NoBuffer(marker, f, pos + cb + nFormat + 2, text + PrintItem(Text(value), nFormat, childFormat));
        }
        next := next + cb + nFormat + 2;
      } else {
        PutXMLString(marker, pos, value, f, text);
        next := next + cb;
        assert "" + Escape(value) + "" == Escape(value);
      }
    }
  }

  method PutClear(marker: array?<char>, pos: nat, c: XMLClear, nFormat: int, childFormat: int,
                  ghost f: Frame, ghost text: string, ghost t: Tail)
    returns (next: nat)
    requires nFormat >= -1 && Written(marker, f, pos, text) && Tailed(marker, f, pos, t)
    requires Room(marker, f, pos + |PrintItem(Clear(c), nFormat, childFormat)|)
    modifies Buffer(marker)
    ensures next == pos + |PrintItem(Clear(c), nFormat, childFormat)|
    ensures Written(marker, f, next, text + PrintItem(Clear(c), nFormat, childFormat))
    ensures Tailed(marker, f, next, AfterItem(Clear(c), nFormat, childFormat, t))
  {
    hide Written, Tailed, ItemIndent;
    ghost var head := if c.open == "" then "" else ItemIndent(nFormat) + c.open;
    assert text + head + c.value + c.close + LineEnd(nFormat) == text + (head + c.value + c.close + LineEnd(nFormat));
    next := PutOpening(marker, pos, c.open, nFormat, f, text, t);
    ghost var t1 := if c.open == "" then t else Ended;
    next := PutPart(marker, next, c.value, f, text + head, t1);
    ghost var t2 := if c.value == "" then t1 else Ended;
    next := PutPart(marker, next, c.close, f, text + head + c.value, t2);
    ghost var t3 := if c.close == "" then t2 else Ended;
    next := PutLineEnd(marker, next, nFormat, f, text + head + c.value + c.close, t3);
  }

  // A part of a section, unless it is empty.
  method PutPart(marker: array?<char>, pos: nat, w: string, ghost f: Frame, ghost text: string, ghost t: Tail) returns (next: nat)
    requires Written(marker, f, pos, text) && Tailed(marker, f, pos, t) && Room(marker, f, pos + |w|)
    modifies Buffer(marker)
    ensures next == pos + |w| && Written(marker, f, next, text + w)
    ensures Tailed(marker, f, next, if w == "" then t else Ended)
  {
    hide Written, Tailed;
    next := pos;
    assert text + "" == text;
    if |w| != 0 {
      PutString(marker, pos, w, f, text);
      next := next + |w|;
    }
  }

  method PutOpening(marker: array?<char>, pos: nat, open: string, nFormat: int, ghost f: Frame, ghost text: string, ghost t: Tail)
    returns (next: nat)
    requires nFormat >= -1 && Tailed(marker, f, pos, t)
    requires var head := if open == "" then "" else ItemIndent(nFormat) + open;
             Written(marker, f, pos, text) && Room(marker, f, pos + |head|)
    modifies Buffer(marker)
    ensures var head := if open == "" then "" else ItemIndent(nFormat) + open;
            next == pos + |head| && Written(marker, f, next, text + head)
    ensures Tailed(marker, f, next, if open == "" then t else Ended)
  {
    hide Written, Tailed, Tabs;
    next := pos;
    assert text + "" == text;
    TabsLength(nFormat + 1);
    if |open| != 0 {
      if nFormat != -1 {
        PutTabs(marker, pos, nFormat + 1, f, text);
        PutString(marker, pos + nFormat + 1, open, f, text + Tabs(nFormat + 1));
        next := next + |open| + nFormat + 1;
        assert text + Tabs(nFormat + 1) + open == text + (Tabs(nFormat + 1) + open);
      } else {
        PutString(marker, pos, open, f, text);
        next := next + |open|;
        assert "" + open == open;
      }
    }
  }

  // ----- The routine -----

  lemma NamedView(n: NodeData)
    requires Sound(n)
    ensures View(n).name == n.name && View(n).isDeclaration == n.isDeclaration && View(n).attributes == n.attributes
  {
  }

  // An element has contents when it counts more entries than attributes.
  lemma HasContents(n: NodeData)
    requires Sound(n)
    ensures View(n).contents != [] <==> |n.attributes| != n.NElement()
    ensures n.NElement() == |n.order|
  {
    SoundInRange(n);
    CountTotal(n.order);
    ContentsCount(n, n.order);
  }

  lemma {:induction false} ContentsCount(n: NodeData, o: seq<int>)
    requires InRange(n, o) && AllSound(n.children)
    ensures |Contents(n, o)| + Count(o, ATTRIBUTE) == |o|
  {
    hide View;
    if o != [] { ContentsCount(n, o[..|o|-1]); }
  }

  lemma SoundParts(n: NodeData)
    requires Sound(n)
    ensures OrderAgrees(n) && AllSound(n.children) && InRange(n, n.order)
    ensures View(n).contents == Contents(n, n.order)
  {
    SoundInRange(n);
  }

  lemma {:induction false} ContentsPrefix(n: NodeData, i: nat)
    requires Sound(n) && i <= |n.order|
    ensures InRange(n, n.order[..i]) && InRange(n, n.order)
    ensures Contents(n, n.order[..i]) <= Contents(n, n.order)
    ensures i < |n.order| ==>
              && Resolves(n, n.order[i]) && InRange(n, n.order[..i + 1])
              && Contents(n, n.order[..i + 1]) == Contents(n, n.order[..i]) + Entry(n, n.order[i])
              && Contents(n, n.order[..i + 1]) <= Contents(n, n.order)
    decreases |n.order| - i
  {
    hide View, Entry, Sound, OrderAgrees;
    SoundParts(n);
    PrefixInRange(n, i);
    PrefixInRange(n, |n.order|);
    assert n.order[..|n.order|] == n.order;
    if i < |n.order| {
      ContentsPrefix(n, i + 1);
      assert n.order[..i + 1][..i] == n.order[..i];
    }
  }

  // The text of the first i entries, and what the next one adds.
  lemma NextEntry(n: NodeData, i: nat, format: int, childFormat: int)
    requires Sound(n) && i < |n.order| && ItemsPrintable(View(n).contents)
    ensures InRange(n, n.order[..i]) && InRange(n, n.order[..i + 1]) && Resolves(n, n.order[i])
    ensures Contents(n, n.order[..i + 1]) == Contents(n, n.order[..i]) + Entry(n, n.order[i])
    ensures ItemsPrintable(Contents(n, n.order[..i])) && ItemsPrintable(Contents(n, n.order[..i + 1])) && ItemsPrintable(Entry(n, n.order[i]))
    ensures PrintItems(Contents(n, n.order[..i + 1]), format, childFormat) ==
            PrintItems(Contents(n, n.order[..i]), format, childFormat) + PrintItems(Entry(n, n.order[i]), format, childFormat)
    ensures |PrintItems(Contents(n, n.order[..i + 1]), format, childFormat)| <= |PrintItems(View(n).contents, format, childFormat)|
  {
    hide Entry, PrintItems, ItemsPrintable, Sound, OrderAgrees, View, Contents;
    SoundParts(n);
    ContentsPrefix(n, i);
    var c, all := Contents(n, n.order[..i + 1]), View(n).contents;
    assert all == c + all[|c|..];
    ItemsAppend(c, all[|c|..], format, childFormat);
    ItemsAppend(Contents(n, n.order[..i]), Entry(n, n.order[i]), format, childFormat);
  }

  lemma NoEntries(n: NodeData, format: int, childFormat: int)
    ensures n.order[..0] == [] && InRange(n, [])
    ensures AllSound(n.children) ==> Contents(n, []) == [] && ItemsPrintable([]) && PrintItems([], format, childFormat) == ""
  {
  }

  method PutEntry(n: NodeData, x: int, marker: array?<char>, pos: nat, nFormat: int, nChildFormat: int,
                  ghost f: Frame, ghost text: string, ghost t: Tail)
    returns (next: nat)
    requires Sound(n) && Resolves(n, x) && ItemsPrintable(Entry(n, x)) && nFormat >= -1 && nChildFormat >= -1
    requires Written(marker, f, pos, text) && Tailed(marker, f, pos, t)
    requires Room(marker, f, pos + |PrintItems(Entry(n, x), nFormat, nChildFormat)|)
    modifies Buffer(marker)
    ensures next == pos + |PrintItems(Entry(n, x), nFormat, nChildFormat)|
    ensures Written(marker, f, next, text + PrintItems(Entry(n, x), nFormat, nChildFormat))
    ensures Tailed(marker, f, next, AfterItems(Entry(n, x), nFormat, nChildFormat, t))
    decreases n, 0
  {
    hide Written, Tailed, View, PrintItems, ItemsPrintable, Print, AfterItems, AfterPrint;
    var nodeType, i := x % 4, x / 4;
    if nodeType == TEXT {
      OneItemPrinted(Text(n.texts[i]), nFormat, nChildFormat);
      AfterOne(Text(n.texts[i]), nFormat, nChildFormat, t);
      next := PutText(marker, pos, n.texts[i], nFormat, nChildFormat, f, text, t);
    } else if nodeType == CLEAR {
      OneItemPrinted(Clear(n.clears[i]), nFormat, nChildFormat);
      AfterOne(Clear(n.clears[i]), nFormat, nChildFormat, t);
      next := PutClear(marker, pos, n.clears[i], nFormat, nChildFormat, f, text, t);
    } else if nodeType == CHILD {
      OneItemPrinted(Child(View(n.children[i])), nFormat, nChildFormat);
      AfterOne(Child(View(n.children[i])), nFormat, nChildFormat, t);
      var nResult := CreateXMLStringR(n.children[i], marker, pos, nChildFormat, f, text, t);
      next := pos + nResult;
    } else {
      NoItemsPrinted(nFormat, nChildFormat);
      AfterNone(nFormat, nChildFormat, t);
      assert text + "" == text;
      next := pos;
    }
  }

  method PutContents(n: NodeData, marker: array?<char>, pos: nat, nFormat: int, nChildFormat: int,
                     ghost f: Frame, ghost text: string, ghost t: Tail)
    returns (next: nat)
    requires Sound(n) && ItemsPrintable(View(n).contents) && nFormat >= -1 && nChildFormat >= -1
    requires Written(marker, f, pos, text) && Tailed(marker, f, pos, t)
    requires Room(marker, f, pos + |PrintItems(View(n).contents, nFormat, nChildFormat)|)
    modifies Buffer(marker)
    ensures next == pos + |PrintItems(View(n).contents, nFormat, nChildFormat)|
    ensures Written(marker, f, next, text + PrintItems(View(n).contents, nFormat, nChildFormat))
    ensures Tailed(marker, f, next, AfterItems(View(n).contents, nFormat, nChildFormat, t))
    decreases n, 1
  {
    hide Written, Tailed, Entry, PrintItems, ItemsPrintable, Sound, OrderAgrees, Contents, View, AfterItems;
    SoundParts(n);
    HasContents(n);
    NoEntries(n, nFormat, nChildFormat);
    AfterNone(nFormat, nChildFormat, t);
    assert text + "" == text;
    next := pos;
    var nIndex, i := n.NElement(), 0;
    while i < nIndex
      invariant 0 <= i <= nIndex == |n.order|
      invariant InRange(n, n.order[..i]) && ItemsPrintable(Contents(n, n.order[..i]))
      invariant next == pos + |PrintItems(Contents(n, n.order[..i]), nFormat, nChildFormat)|
      invariant Written(marker, f, next, text + PrintItems(Contents(n, n.order[..i]), nFormat, nChildFormat))
      invariant Tailed(marker, f, next, AfterItems(Contents(n, n.order[..i]), nFormat, nChildFormat, t))
    {
      NextEntry(n, i, nFormat, nChildFormat);
      ghost var sofar := PrintItems(Contents(n, n.order[..i]), nFormat, nChildFormat);
      ghost var piece := PrintItems(Entry(n, n.order[i]), nFormat, nChildFormat);
      ghost var t1 := AfterItems(Contents(n, n.order[..i]), nFormat, nChildFormat, t);
      AfterAppend(Contents(n, n.order[..i]), Entry(n, n.order[i]), nFormat, nChildFormat, t);
      next := PutEntry(n, n.order[i], marker, next, nFormat, nChildFormat, f, text + sofar, t1);
      assert text + sofar + piece == text + (sofar + piece);
      i := i + 1;
    }
    assert n.order[..i] == n.order;
  }

  method CreateXMLStringR(pEntry: NodeData, marker: array?<char>, start: nat, nFormat: int,
                          ghost f: Frame, ghost text: string, ghost t: Tail)
    returns (nResult: nat)
    requires Sound(pEntry) && Printable(View(pEntry)) && nFormat >= -1
    requires Written(marker, f, start, text) && Tailed(marker, f, start, t)
    requires Room(marker, f, start + |Print(View(pEntry), nFormat)|)
    modifies Buffer(marker)
    ensures nResult == |Print(View(pEntry), nFormat)|
    ensures Written(marker, f, start + nResult, text + Print(View(pEntry), nFormat))
    ensures Tailed(marker, f, start + nResult, AfterPrint(View(pEntry), nFormat, t))
    decreases pEntry, 2
  {
    hide Written, Tailed, Contents, Sound, PrintItems, Head, Opened, Closing, AttributesPrintable, ItemsPrintable, View, Print, Printable, AfterItems;
    ghost var e := View(pEntry);
    NamedView(pEntry);
    HasContents(pEntry);
    PrintableParts(e, nFormat);
    var cbElement := if pEntry.name.Some? then |pEntry.name.value| else 0;
    var nChildFormat := -1;
    if nFormat != -1 {
      nChildFormat := if cbElement != 0 then nFormat + 1 else nFormat;
    }
    var next := start;
    if cbElement == 0 {
      next := PutContents(pEntry, marker, start, nFormat, nChildFormat, f, text, t);
    } else {
      var name := pEntry.name.value;
      PrintPieces(e, nFormat);
      var bHasChildren := |pEntry.attributes| != pEntry.NElement();
      ghost var t1 := text + Opened(e, nFormat);
      ghost var t2 := t1 + PrintItems(e.contents, nFormat, nChildFormat);
      ghost var tail := if pEntry.isDeclaration || bHasChildren then Untouched else Spoiled;
      next := PutStartTag(marker, next, name, pEntry.isDeclaration, pEntry.attributes, bHasChildren, nFormat, e, f, text);
      AnyTail(marker, f, next, t1);
      next := PutContents(pEntry, marker, next, nFormat, nChildFormat, f, t1, tail);
      next := PutClosing(marker, next, name, pEntry.isDeclaration, bHasChildren, nFormat, e, f, t2,
                         AfterItems(e.contents, nFormat, nChildFormat, tail));
      assert t2 + Closing(e, nFormat) == text + Print(e, nFormat);
    }
    nResult := next - start;
  }

  lemma AnyTail(marker: array?<char>, f: Frame, pos: nat, text: string)
    requires Written(marker, f, pos, text)
    ensures Tailed(marker, f, pos, Spoiled)
  {
  }

  lemma PrintableParts(e: Element, format: int)
    requires Printable(e)
    ensures ItemsPrintable(e.contents) && (Named(e) ==> AttributesPrintable(e.attributes))
    ensures !Named(e) ==> Print(e, format) == PrintItems(e.contents, format, ChildFormat(e, format))
  {
  }

  // The cell behind the printed text gets a terminator.
  predicate Terminated(e: Element, format: int) {
    AfterPrint(e, format, Untouched) == Ended
  }

  lemma {:induction false} NeverSpoiled(e: Element, format: int, t: Tail)
    requires t != Spoiled
    ensures AfterPrint(e, format, t) != Spoiled
    decreases e, 1
  {
    NoneSpoiled(e.contents, format, ChildFormat(e, format), if Named(e) then Untouched else t);
  }

  lemma {:induction false} NoneSpoiled(items: seq<Item>, format: int, childFormat: int, t: Tail)
    requires t != Spoiled
    ensures AfterItems(items, format, childFormat, t) != Spoiled
    decreases items, 0
  {
    if items != [] {
      ItemNotSpoiled(items[0], format, childFormat, t);
      NoneSpoiled(items[1..], format, childFormat, AfterItem(items[0], format, childFormat, t));
    }
  }

  lemma {:induction false} ItemNotSpoiled(item: Item, format: int, childFormat: int, t: Tail)
    requires t != Spoiled
    ensures AfterItem(item, format, childFormat, t) != Spoiled
    decreases item, 0
  {
    if item.Child? { NeverSpoiled(item.child, childFormat, t); }
  }

  // createXMLString: nFormat is 0 for one line. The string is what the printer says. The
  // cell behind it holds a terminator, or else what the allocation left there.
  method CreateXMLString(d: NodeData, nFormat: int) returns (lpszResult: array<char>, pnSize: nat, ghost cells: string)
    requires Sound(d) && Printable(View(d))
    ensures fresh(lpszResult) && pnSize + 1 == lpszResult.Length == |cells|
    ensures var format := if nFormat == 0 then -1 else 0;
            && lpszResult[..pnSize] == Print(View(d), format)
            && lpszResult[pnSize] == if Terminated(View(d), format) then NUL else cells[pnSize]
  {
    hide View, Sound, Print, AfterPrint;
    var format := if nFormat == 0 then -1 else 0;
    var cbStr := CreateXMLStringR(d, null, 0, format, Frame("", ""), "", Untouched);
    lpszResult := new char[cbStr + 1];
    cells := lpszResult[..];
    ghost var f := Frame("", cells);
    assert lpszResult[..0] == "" + "" && lpszResult[1..] == cells[1..];
    var again := CreateXMLStringR(d, lpszResult, 0, format, f, "", Untouched);
    assert again == cbStr;
    pnSize := cbStr;
    NeverSpoiled(View(d), format, Untouched);
    assert lpszResult[..pnSize] == "" + ("" + Print(View(d), format));
  }

  // What an element prints is terminated, unless it is a declaration.
  lemma ElementTerminated(e: Element, format: int)
    requires Named(e) && !e.isDeclaration
    ensures Terminated(e, format)
  {
  }

  // A declaration with nothing in it leaves the cell as it was.
  lemma DeclarationNotTerminated(e: Element, format: int)
    requires Named(e) && e.isDeclaration && e.contents == []
    ensures !Terminated(e, format)
  {
    AfterNone(format, ChildFormat(e, format), Untouched);
  }

  // So does, when formatting, a text or a section at the end: its line break covers the terminator.
  lemma LineNotTerminated(e: Element, format: int, last: Item)
    requires format != -1 && (!Named(e) || e.isDeclaration) && e.contents != [] && last == e.contents[|e.contents| - 1]
    requires last.Clear? || (last.Text? && last.text != "")
    ensures !Terminated(e, format)
  {
    hide AfterItems;
    var init, childFormat := e.contents[..|e.contents| - 1], ChildFormat(e, format);
    assert e.contents == init + [last];
    AfterAppend(init, [last], format, childFormat, Untouched);
    AfterOne(last, format, childFormat, AfterItems(init, format, childFormat, Untouched));
  }
}
