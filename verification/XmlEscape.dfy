/** The five character entities: escaping into a buffer, and the two-pass decoder. */
module XmlEscape {
  import opened CText
  import opened Slices
  import opened Wrappers

  function EscapeChar(c: char): string
  {
    if c == '<' then "&lt;"
    else if c == '>' then "&gt;"
    else if c == '&' then "&amp;"
    else if c == '\'' then "&apos;"
    else if c == '"' then "&quot;"
    else [c]
  }

  function Escape(s: string): string
  {
    if s == [] then [] else EscapeChar(s[0]) + Escape(s[1..])
  }

  predicate Escapable(c: char) {
    c == '<' || c == '>' || c == '&' || c == '\'' || c == '"'
  }

  lemma EscapeSnoc(s: string, c: char)
    ensures Escape(s + [c]) == Escape(s) + EscapeChar(c)
  {
    if s == [] {
      assert s + [c] == [c];
      assert Escape([]) == [];
    } else {
      assert (s + [c])[1..] == s[1..] + [c];
    }
  }

  // Escaping changes a text exactly when it holds one of the five characters.
  lemma {:induction false} EscapeIsIdentityIff(s: string)
    ensures Escape(s) == s <==> forall i | 0 <= i < |s| :: !Escapable(s[i])
    ensures |Escape(s)| >= |s|
    ensures |Escape(s)| == |s| ==> forall i | 0 <= i < |s| :: !Escapable(s[i])
  {
    hide EscapeChar;
    if s != [] {
      EscapeIsIdentityIff(s[1..]);
      EscapeCharLength(s[0]);
      assert forall i | 1 <= i < |s| :: s[i] == s[1..][i - 1];
    }
  }

  lemma EscapeCharLength(c: char)
    ensures Escapable(c) <==> |EscapeChar(c)| > 1
    ensures Escapable(c) ==> EscapeChar(c) != [] && EscapeChar(c)[0] == '&'
    ensures !Escapable(c) ==> EscapeChar(c) == [c]
  {
  }

  // No character of an escaped text can end a quoted value or open a tag.
  predicate Inert(s: string) {
    forall i | 0 <= i < |s| :: s[i] != '<' && s[i] != '>' && s[i] != '\'' && s[i] != '"' && s[i] != NUL
  }

  lemma EscapeCharIsInert(c: char)
    requires c != NUL
    ensures Inert(EscapeChar(c)) && EscapeChar(c) != []
    ensures !IsSpace(c) ==> forall i | 0 <= i < |EscapeChar(c)| :: !IsSpace(EscapeChar(c)[i])
  {
  }

  lemma {:induction false} EscapeIsInert(s: string)
    requires NUL !in s
    ensures Inert(Escape(s))
    ensures s != [] ==> Escape(s) != []
    ensures s != [] && !IsSpace(s[0]) ==> !IsSpace(Escape(s)[0])
    ensures s != [] && !IsSpace(s[|s|-1]) ==> !IsSpace(Escape(s)[|Escape(s)|-1])
  {
    hide EscapeChar;
    if s != [] {
      EscapeCharIsInert(s[0]);
      EscapeIsInert(s[1..]);
    }
  }

  // The entity whose text, after the ampersand, stands at i: its character and length.
  function Entity(s: string, i: nat): (r: Option<(char, nat)>)
    ensures r.Some? ==> 3 <= r.value.1 <= 5
  {
    if SameLetters(s, i, "lt;") then Some(('<', 3))
    else if SameLetters(s, i, "gt;") then Some(('>', 3))
    else if SameLetters(s, i, "amp;") then Some(('&', 4))
    else if SameLetters(s, i, "apos;") then Some(('\'', 5))
    else if SameLetters(s, i, "quot;") then Some(('"', 5))
    else None
  }

  // How far an unknown entity reaches: to a semicolon, the end, or ten characters.
  function UnknownSpan(s: string, i: nat, k: nat): (r: nat)
    requires k <= 10
    ensures k <= r <= 10
    decreases 10 - k
  {
    if At(s, i + k) != NUL && At(s, i + k) != ';' && k < 10 then UnknownSpan(s, i, k + 1) else k
  }

  // First pass of fromXMLString: how many characters the result has.
  function DecodedLength(s: string, i: nat, lo: int): nat
    decreases lo
  {
    if lo <= 0 || At(s, i) == NUL then 0
    else if s[i] != '&' then 1 + DecodedLength(s, i + 1, lo - 1)
    else
      match Entity(s, i + 1)
      case Some((c, k)) => 1 + DecodedLength(s, i + 1 + k, lo - 1 - k)
      case None =>
        var k := UnknownSpan(s, i + 1, 0) + 1;
        2 + DecodedLength(s, i + 1 + k + 1, lo - 1 - (k + 1))
  }

  // The character read at i, and where the next one starts.
  function DecodeOne(s: string, i: nat): (char, nat)
  {
    if At(s, i) != '&' then (At(s, i), i + 1)
    else
      match Entity(s, i + 1)
      case Some((c, k)) => (c, i + 1 + k)
      case None => (' ', i + 1 + UnknownSpan(s, i + 1, 0) + 1)
  }

  // Second pass: the next n characters of the result.
  function DecodedChars(s: string, i: nat, n: nat): (r: string)
    ensures |r| == n
    decreases n
  {
    if n == 0 then []
    else
      var d := DecodeOne(s, i);
      [d.0] + DecodedChars(s, d.1, n - 1)
  }

  function Decoded(s: string, i: nat, lo: nat): string {
    UpToNul(DecodedChars(s, i, DecodedLength(s, i, lo)))
  }

  lemma Differs(s: string, i: nat, p: string)
    requires |p| > 0 && Lower(At(s, i)) != Lower(p[0])
    ensures !SameLetters(s, i, p)
  {
    if i + |p| <= |s| { assert s[i + 0] == At(s, i); }
  }

  lemma SameText(s: string, i: nat, p: string)
    requires Has(s, i, p)
    ensures SameLetters(s, i, p)
  {
    HasAt(s, i, p);
  }

  lemma AposIsNotAmp(s: string, i: nat)
    requires Has(s, i, "apos;")
    ensures !SameLetters(s, i, "amp;")
  {
    HasAt(s, i, "apos;");
    assert s[i + 1] == "apos;"[1];
    assert "amp;"[1] == 'm';
  }

  lemma EscapedEntity(s: string, i: nat, c: char)
    requires Escapable(c) && Has(s, i, EscapeChar(c))
    ensures s[i] == '&'
    ensures Entity(s, i + 1) == Some((c, |EscapeChar(c)| - 1))
  {
    var p := EscapeChar(c)[1..];
    assert EscapeChar(c) == "&" + p;
    HasSplit(s, i, "&", p);
    HasOne(s, i, '&');
    EntityText(s, i + 1, c, p);
  }

  lemma EntityText(s: string, i: nat, c: char, p: string)
    requires Escapable(c) && "&" + p == EscapeChar(c) && Has(s, i, p)
    ensures Entity(s, i) == Some((c, |p|))
  {
    hide SameLetters, Has;
    assert p == EscapeChar(c)[1..];
    SameText(s, i, p);
    FirstLetter(s, i, p);
    if c != '<' { Differs(s, i, "lt;"); }
    if c != '<' && c != '>' { Differs(s, i, "gt;"); }
    if c == '\'' { AposIsNotAmp(s, i); }
    if c == '"' { Differs(s, i, "amp;"); Differs(s, i, "apos;"); }
  }

  lemma FirstLetter(s: string, i: nat, p: string)
    requires Has(s, i, p) && p != []
    ensures At(s, i) == p[0]
  {
    HasAt(s, i, p);
    assert s[i + 0] == p[0];
  }

  // Decoding inverts escaping, wherever in a document the escaped text stands.
  lemma DecodeInvertsEscape(s: string, i: nat, v: string)
    requires Has(s, i, Escape(v)) && NUL !in v
    ensures Decoded(s, i, |Escape(v)|) == v
  {
    UpToNulId(v);
    LengthOfEscaped(s, i, v);
    CharsOfEscaped(s, i, v);
  }

  // The first character of an escaped text, decoded, and what is left.
  lemma EscapedHead(s: string, i: nat, v: string)
    requires Has(s, i, Escape(v)) && v != []
    ensures Has(s, i + |EscapeChar(v[0])|, Escape(v[1..]))
    ensures |Escape(v)| == |EscapeChar(v[0])| + |Escape(v[1..])|
    ensures if Escapable(v[0]) then At(s, i) == '&' && Entity(s, i + 1) == Some((v[0], |EscapeChar(v[0])| - 1))
            else At(s, i) == v[0] && EscapeChar(v[0]) == [v[0]]
    ensures i < |s| && 1 <= |EscapeChar(v[0])|
  {
    hide Entity, EscapeChar, Has, Escape;
    var e := EscapeChar(v[0]);
    EscapeParts(v);
    EscapeCharLength(v[0]);
    HasSplit(s, i, e, Escape(v[1..]));
    HasBound(s, i, e);
    HasAt(s, i, e);
    assert s[i + 0] == e[0];
    if Escapable(v[0]) { EscapedEntity(s, i, v[0]); }
  }

  lemma EscapeParts(v: string)
    requires v != []
    ensures Escape(v) == EscapeChar(v[0]) + Escape(v[1..])
  {
  }

  lemma {:induction false} LengthOfEscaped(s: string, i: nat, v: string)
    requires Has(s, i, Escape(v)) && NUL !in v
    ensures DecodedLength(s, i, |Escape(v)|) == |v|
    decreases |v|
  {
    hide Entity, EscapeChar, Has;
    if v != [] {
      EscapedHead(s, i, v);
      LengthOfEscaped(s, i + |EscapeChar(v[0])|, v[1..]);
    }
  }

  lemma {:induction false} CharsOfEscaped(s: string, i: nat, v: string)
    requires Has(s, i, Escape(v)) && NUL !in v
    ensures DecodedChars(s, i, |v|) == v
    decreases |v|
  {
    hide Entity, EscapeChar, Escape, Has;
    if v != [] {
      EscapedHead(s, i, v);
      CharsOfEscaped(s, i + |EscapeChar(v[0])|, v[1..]);
    }
  }

  // ----- The routines of the library -----

  method LengthXMLString(source: string) returns (r: nat)
    ensures r == |Escape(source)|
  {
    r := 0;
    var i := 0;
    while i < |source|
      invariant 0 <= i <= |source|
      invariant r == |Escape(source[..i])|
    {
      EscapeSnoc(source[..i], source[i]);
      assert source[..i + 1] == source[..i] + [source[i]];
      match source[i] {
        case '<' => r := r + 3;
        case '>' => r := r + 3;
        case '&' => r := r + 4;
        case '\'' => r := r + 5;
        case '"' => r := r + 5;
        case _ =>
      }
      i := i + 1;
      r := r + 1;
    }
    assert source[..i] == source;
  }

  // _tcscpy: the characters of w at pos, and the terminator after them.
  method CopyString(dest: array<char>, pos: nat, w: string)
    requires pos + |w| < dest.Length
    modifies dest
    ensures dest[..pos + |w|] == old(dest[..pos]) + w && dest[pos + |w|] == NUL
    ensures dest[pos + |w| + 1..] == old(dest[pos + |w| + 1..])
  {
    var i := 0;
    while i < |w|
      invariant 0 <= i <= |w|
      invariant dest[..pos + i] == old(dest[..pos]) + w[..i]
      invariant dest[pos + |w| + 1..] == old(dest[pos + |w| + 1..])
    {
      dest[pos + i] := w[i];
      i := i + 1;
    }
    dest[pos + |w|] := NUL;
  }

  method ToXMLString(dest: array<char>, start: nat, source: string)
    requires start + |Escape(source)| < dest.Length
    modifies dest
    ensures dest[..start + |Escape(source)|] == old(dest[..start]) + Escape(source)
    ensures dest[start + |Escape(source)|] == NUL
    ensures dest[start + |Escape(source)| + 1..] == old(dest[start + |Escape(source)| + 1..])
  {
    hide EscapeChar;
    var i, pos := 0, start;
    ghost var bound := start + |Escape(source)|;
    while i < |source|
      invariant 0 <= i <= |source|
      invariant start <= pos <= bound == pos + |Escape(source[i..])|
      invariant dest[..pos] == old(dest[..start]) + Escape(source[..i])
      invariant dest[bound + 1..] == old(dest[bound + 1..])
    {
      var c := source[i];
      EscapeSnoc(source[..i], c);
      assert source[..i + 1] == source[..i] + [c];
      assert source[i..][1..] == source[i + 1..];
      pos := PutEscaped(dest, pos, c, bound);
      i := i + 1;
    }
    assert source[..i] == source;
    dest[pos] := NUL;
  }

  // One turn of the loop: the switch on the character.
  method PutEscaped(dest: array<char>, pos: nat, c: char, ghost bound: nat) returns (next: nat)
    requires pos + |EscapeChar(c)| <= bound < dest.Length
    modifies dest
    ensures next == pos + |EscapeChar(c)|
    ensures dest[..next] == old(dest[..pos]) + EscapeChar(c)
    ensures dest[bound + 1..] == old(dest[bound + 1..])
  {
    ghost var before := dest[..];
    match c {
      case '<' => CopyString(dest, pos, "&lt;"); next := pos + 4;
      case '>' => CopyString(dest, pos, "&gt;"); next := pos + 4;
      case '&' => CopyString(dest, pos, "&amp;"); next := pos + 5;
      case '\'' => CopyString(dest, pos, "&apos;"); next := pos + 6;
      case '"' => CopyString(dest, pos, "&quot;"); next := pos + 6;
      case _ => dest[pos] := c; next := pos + 1;
    }
    TailKept(before, dest[..], next + 1, bound + 1);
  }

  lemma TailKept(a: string, b: string, i: nat, j: nat)
    requires i <= j <= |a| == |b| && a[i..] == b[i..]
    ensures a[j..] == b[j..]
  {
    assert a[j..] == a[i..][j - i..];
  }

  method FromXMLString(s: string, start: nat, length: nat) returns (r: string)
    ensures r == Decoded(s, start, length)
  {
    var ll := CountDecoded(s, start, length);
    var d := CopyDecoded(s, start, ll);
    r := UpToNul(d);
  }

  method CountDecoded(s: string, start: nat, length: nat) returns (ll: nat)
    ensures ll == DecodedLength(s, start, length)
  {
    hide Entity;
    ll := 0;
    var i: nat := start;
    var lo: int := length;
    while lo > 0 && At(s, i) != NUL
      invariant ll + DecodedLength(s, i, lo) == DecodedLength(s, start, length)
      decreases lo
    {
      lo := lo - 1;
      if s[i] == '&' {
        i := i + 1;
        match Entity(s, i) {
          case Some((c, k)) =>
            i := i + k - 1;
            lo := lo - k;
          case None =>
            var k := UnknownSpan(s, i, 0) + 1;
            i := i + k;
            lo := lo - (k + 1);
            ll := ll + 1;
        }
      }
      ll := ll + 1;
      i := i + 1;
    }
  }

  method CopyDecoded(s: string, start: nat, n: nat) returns (d: string)
    ensures d == DecodedChars(s, start, n)
  {
    hide DecodeOne;
    d := "";
    var i: nat := start;
    var ll := n;
    while ll > 0
      invariant 0 <= ll <= n
      invariant DecodedChars(s, start, n) == d + DecodedChars(s, i, ll)
    {
      ghost var rest := DecodedChars(s, i, ll);
      var c, next := CopyOne(s, i);
      ll := ll - 1;
      assert rest == [c] + DecodedChars(s, next, ll);
      d := d + [c];
      i := next;
    }
  }

  // One turn of the loop: a character, or an entity.
  method CopyOne(s: string, i: nat) returns (c: char, next: nat)
    ensures (c, next) == DecodeOne(s, i)
  {
    hide Entity;
    c, next := At(s, i), i + 1;
    if c == '&' {
      match Entity(s, next) {
        case Some((e, k)) => c := e; next := next + k;
        case None => c := ' '; next := next + UnknownSpan(s, next, 0) + 1;
      }
    }
  }
}
