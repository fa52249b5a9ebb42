/** The tokenizer: a cursor over the document that every token moves forward. */
module XmlTokenizer {
  import opened CText
  import opened Wrappers

  datatype TokenType =
    | TokenText | TokenQuotedText | TokenTagStart | TokenTagEnd | TokenCloseTag | TokenEquals
    | TokenDeclaration | TokenShortHandClose | TokenClear(tag: nat) | TokenError

  // Where the token starts, how many characters it counts, where the cursor goes.
  // A clear tag has no size: the source leaves it unset.
  datatype Token = Token(kind: TokenType, start: nat, size: nat, next: nat)

  datatype ClearTag = ClearTag(open: string, close: string)

  const CLEAR_TAGS: seq<ClearTag> :=
    [ClearTag("<![CDATA[", "]]>"), ClearTag("<PRE>", "</PRE>"), ClearTag("<Script>", "</Script>"),
     ClearTag("<!--", "-->"), ClearTag("<!DOCTYPE", ">")]

  const N_CLEAR_TAGS: nat := 5

  // The first clear tag, from number k on, whose opening stands at i.
  function ClearTagAt(s: string, i: nat, k: nat): (r: Option<nat>)
    requires k <= N_CLEAR_TAGS
    ensures r.Some? ==> k <= r.value < N_CLEAR_TAGS && SameLetters(s, i, CLEAR_TAGS[r.value].open)
    decreases N_CLEAR_TAGS - k
  {
    if k == N_CLEAR_TAGS then None
    else if SameLetters(s, i, CLEAR_TAGS[k].open) then Some(k)
    else ClearTagAt(s, i, k + 1)
  }

  function SkipSpace(s: string, i: nat): (r: nat)
    requires i <= |s|
    ensures i <= r <= |s|
    ensures r < |s| ==> !IsSpace(s[r])
    decreases |s| - i
  {
    if i < |s| && IsSpace(s[i]) then SkipSpace(s, i + 1) else i
  }

  // The closing quote, unless the document ends or a tag opens before it.
  function QuoteEnd(s: string, i: nat, quote: char): (r: Option<nat>)
    requires i <= |s|
    ensures r.Some? ==> i <= r.value < |s| && s[r.value] == quote
    decreases |s| - i
  {
    if At(s, i) == NUL then None
    else if s[i] == quote then Some(i)
    else if s[i] == '<' then None
    else QuoteEnd(s, i + 1, quote)
  }

  // Where a text token that has reached i ends.
  function TextEnd(s: string, i: nat): (r: nat)
    requires i <= |s|
    ensures i <= r <= |s|
    decreases |s| - i
  {
    if At(s, i) == NUL || IsSpace(s[i]) || s[i] == '<' || s[i] == '>' || s[i] == '=' then i
    else if s[i] == '/' && At(s, i + 1) == '>' then i
    else TextEnd(s, i + 1)
  }

  function TextToken(s: string, j: nat): Token
    requires j < |s|
  {
    var e := TextEnd(s, j + 1);
    Token(TokenText, j, e - j, if e < |s| && IsSpace(s[e]) then e + 1 else e)
  }

  function NextToken(s: string, i: nat): (t: Token)
    requires i <= |s|
    ensures i <= t.next <= |s|
    ensures t.kind != TokenError ==> i < t.next && i <= t.start < t.next
    ensures t.kind != TokenError ==> s[t.start] != NUL && !IsSpace(s[t.start])
    ensures t.kind.TokenClear? ==> t.kind.tag < N_CLEAR_TAGS
    ensures t.kind == TokenText ==> t.size >= 1 && t.start + t.size <= t.next
    ensures t.kind == TokenQuotedText ==>
              t.size >= 2 && t.start + t.size <= t.next && s[t.start + t.size - 1] in {'\'', '"'}
  {
    var j := SkipSpace(s, i);
    if At(s, j) == NUL then Token(TokenError, j, 0, j)
    else
      match ClearTagAt(s, j, 0)
      case Some(k) => Token(TokenClear(k), j, 0, j + |CLEAR_TAGS[k].open|)
      case None => PlainToken(s, j)
  }

  function PlainToken(s: string, j: nat): (t: Token)
    requires j < |s|
    ensures j == t.start < t.next <= |s| && t.kind != TokenError && !t.kind.TokenClear?
    ensures t.kind == TokenText ==> t.size >= 1 && t.start + t.size <= t.next
    ensures t.kind == TokenQuotedText ==>
              t.size >= 2 && t.start + t.size <= t.next && s[t.start + t.size - 1] in {'\'', '"'}
  {
    var c, d := s[j], At(s, j + 1);
    if c == '\'' || c == '"' then
      match QuoteEnd(s, j + 1, c)
      case Some(e) => Token(TokenQuotedText, j, e - j + 1, SkipSpace(s, e + 1))
      case None => TextToken(s, j)
    else if c == '=' then Token(TokenEquals, j, 1, j + 1)
    else if c == '>' then Token(TokenCloseTag, j, 1, j + 1)
    else if c == '<' then
      if d == '/' then Token(TokenTagEnd, j, 2, j + 2)
      else if d == '?' then Token(TokenDeclaration, j, 2, j + 2)
      else Token(TokenTagStart, j, 1, j + 1)
    else if c == '/' && d == '>' then Token(TokenShortHandClose, j, 2, j + 2)
    else TextToken(s, j)
  }

  datatype XMLError = ErrorNone | ErrorMissingTagName | ErrorMissingEndTagName | ErrorUnmatchedEndTag | ErrorUnexpectedToken

  /** The parser's shared state: the document, the cursor and the pending end tag. */
  class XML {
    const lpXML: string
    var nIndex: nat
    var error: XMLError
    var lpEndTag: nat
    var cbEndTag: nat
    var nFirst: bool

    ghost predicate Valid()
      reads this
    {
      nIndex <= |lpXML|
    }

    constructor (document: string)
      ensures Valid() && lpXML == document && nIndex == 0
      ensures error == ErrorNone && cbEndTag == 0 && nFirst
    {
      lpXML := document;
      nIndex, error, lpEndTag, cbEndTag, nFirst := 0, ErrorNone, 0, 0, true;
    }

    method GetNextChar() returns (ch: char)
      requires Valid()
      modifies this`nIndex
      ensures Valid() && ch == At(lpXML, old(nIndex))
      ensures nIndex == if ch != NUL then old(nIndex) + 1 else old(nIndex)
    {
      ch := At(lpXML, nIndex);
      if ch != NUL { nIndex := nIndex + 1; }
    }

    method FindNonWhiteSpace() returns (ch: char)
      requires Valid()
      modifies this`nIndex
      ensures Valid() && ch == At(lpXML, SkipSpace(lpXML, old(nIndex)))
      ensures nIndex == SkipSpace(lpXML, old(nIndex)) + if ch != NUL then 1 else 0
    {
      ch := GetNextChar();
      while ch != NUL && IsSpace(ch)
        invariant Valid()
        invariant ch == NUL ==> nIndex == SkipSpace(lpXML, old(nIndex)) && ch == At(lpXML, nIndex)
        invariant ch != NUL ==> 1 <= nIndex && ch == lpXML[nIndex - 1]
        invariant ch != NUL ==> SkipSpace(lpXML, nIndex - 1) == SkipSpace(lpXML, old(nIndex))
        decreases |lpXML| - nIndex, ch != NUL
      {
        ch := GetNextChar();
      }
    }

    // The search for a clear tag among the rows of the table.
    method FindClearTag(j: nat) returns (r: Option<nat>)
      ensures r == ClearTagAt(lpXML, j, 0)
    {
      var n := 0;
      while n < N_CLEAR_TAGS
        invariant n <= N_CLEAR_TAGS
        invariant ClearTagAt(lpXML, j, n) == ClearTagAt(lpXML, j, 0)
      {
        if SameLetters(lpXML, j, CLEAR_TAGS[n].open) { return Some(n); }
        n := n + 1;
      }
      r := None;
    }

    // The cursor stands after the opening quote; it ends after the closing one and
    // the white space behind it, or where it was.
    method ReadQuoted(quote: char) returns (found: bool, size: nat)
      requires Valid() && 1 <= nIndex && quote != NUL
      modifies this`nIndex
      ensures Valid() && found == QuoteEnd(lpXML, old(nIndex), quote).Some?
      ensures found ==> var e := QuoteEnd(lpXML, old(nIndex), quote).value;
                        size == e - old(nIndex) + 2 && nIndex == SkipSpace(lpXML, e + 1)
      ensures !found ==> nIndex == old(nIndex)
    {
      var n := nIndex;
      size, found := 1, false;
      var ch := GetNextChar();
      while ch != NUL
        invariant Valid() && nIndex == n + size - if ch != NUL then 0 else 1
        invariant ch != NUL ==> ch == lpXML[nIndex - 1] && QuoteEnd(lpXML, nIndex - 1, quote) == QuoteEnd(lpXML, n, quote)
        invariant ch == NUL ==> QuoteEnd(lpXML, n, quote).None?
        decreases |lpXML| - nIndex, ch != NUL
      {
        size := size + 1;
        if ch == quote { found := true; break; }
        if ch == '<' { break; }
        ch := GetNextChar();
      }
      if !found {
        nIndex := n;
      } else {
        var c := FindNonWhiteSpace();
        if c != NUL { nIndex := nIndex - 1; }
      }
    }

    // The rest of a text token whose first character has been read.
    method ReadText() returns (size: nat)
      requires Valid() && 1 <= nIndex
      modifies this`nIndex
      ensures Valid()
      ensures Token(TokenText, old(nIndex) - 1, size, nIndex) == TextToken(lpXML, old(nIndex) - 1)
    {
      size := 1;
      var n := nIndex;
      var exit := false;
      while !exit
        invariant Valid() && n <= nIndex
        invariant !exit ==> nIndex == n + size - 1 && TextEnd(lpXML, nIndex) == TextEnd(lpXML, n)
        invariant exit ==> Token(TokenText, n - 1, size, nIndex) == TextToken(lpXML, n - 1)
        decreases !exit, |lpXML| - nIndex
      {
        var ch := GetNextChar();
        if ch == NUL || IsSpace(ch) {
          exit := true;
        } else if ch == '/' {
          if At(lpXML, nIndex) == '>' {
            nIndex := nIndex - 1;
            exit := true;
          } else {
            size := size + 1;
          }
        } else if ch == '<' || ch == '>' || ch == '=' {
          nIndex := nIndex - 1;
          exit := true;
        } else {
          size := size + 1;
        }
      }
    }

    method GetNextToken() returns (t: Token)
      requires Valid()
      modifies this`nIndex
      ensures Valid() && nIndex == t.next
      ensures t == NextToken(lpXML, old(nIndex))
    {
      hide TextEnd, QuoteEnd, SkipSpace, ClearTagAt;
      var ch := FindNonWhiteSpace();
      if ch == NUL { return Token(TokenError, nIndex, 0, nIndex); }
      var start := nIndex - 1;
      var clear := FindClearTag(start);
      if clear.Some? {
        nIndex := nIndex + (|CLEAR_TAGS[clear.value].open| - 1);
        return Token(TokenClear(clear.value), start, 0, nIndex);
      }
      var kind, size, isText := TokenText, 1, false;
      if ch == '\'' || ch == '"' {
        kind := TokenQuotedText;
        var found;
        found, size := ReadQuoted(ch);
        isText := !found;
      } else if ch == '=' {
        kind := TokenEquals;
      } else if ch == '>' {
        kind := TokenCloseTag;
      } else if ch == '<' {
        var peek := At(lpXML, nIndex);
        if peek == '/' {
          var _ := GetNextChar();
          kind, size := TokenTagEnd, 2;
        } else if peek == '?' {
          var _ := GetNextChar();
          kind, size := TokenDeclaration, 2;
        } else {
          kind := TokenTagStart;
        }
      } else if ch == '/' && At(lpXML, nIndex) == '>' {
        var _ := GetNextChar();
        kind, size := TokenShortHandClose, 2;
      } else {
        isText := true;
      }
      if isText {
        kind := TokenText;
        size := ReadText();
      }
      t := Token(kind, start, size, nIndex);
    }
  }
}
