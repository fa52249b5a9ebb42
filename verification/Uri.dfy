/** Percent-encoding of byte strings (section 2.2 of RFC 1738). */
module Uri {
  import opened Bytes
  import opened Wrappers

  type Text = seq<Byte>

  const AMPERSAND: Byte := 38
  const EQUALS: Byte := 61
  const PERCENT: Byte := 37
  const PLUS: Byte := 43
  const MINUS: Byte := 45
  const SPACE: Byte := 32

  // ----- Encoding -----

  predicate IsAlphanumeric(c: Byte) {
    48 <= c <= 57 || 65 <= c <= 90 || 97 <= c <= 122
  }

  // A hexadecimal digit, in lower case.
  function HexDigit(n: nat): Byte
    requires n < 16
  {
    if n < 10 then 48 + n else 87 + n
  }

  function Code(c: Byte): Text {
    if IsAlphanumeric(c) then [c] else [PERCENT, HexDigit(c / 16), HexDigit(c % 16)]
  }

  function Encoded(value: Text): Text {
    if value == [] then [] else Code(value[0]) + Encoded(value[1..])
  }

  // What operator<< writes for an unsigned int below 256, in hexadecimal.
  function Hex(n: nat): Text
    requires n < 256
  {
    if n < 16 then [HexDigit(n)] else [HexDigit(n / 16), HexDigit(n % 16)]
  }

  method Encode(value: Text) returns (result: Text)
    ensures result == Encoded(value)
  {
    hide Encoded;
    result := [];
    var i := 0;
    assert value[0..] == value && [] + Encoded(value) == Encoded(value);
    while i < |value|
      invariant 0 <= i <= |value| && result + Encoded(value[i..]) == Encoded(value)
    {
      var c := value[i];
      ghost var before := result;
      EncodedAt(value, i, result);
      if 48 <= c <= 57 || 65 <= c <= 90 || 97 <= c <= 122 {
        result := result + [c];
      } else {
        result := result + [PERCENT];
        if c < 16 { result := result + [48]; }
        result := result + Hex(c);
      }
      assert result == before + Code(c);
      i := i + 1;
    }
    EncodedAt(value, i, result);
  }

  lemma EncodedAt(value: Text, i: nat, before: Text)
    requires i <= |value|
    ensures before + Encoded(value[i..]) ==
            if i == |value| then before else before + Code(value[i]) + Encoded(value[i + 1..])
  {
    hide Code;
    if i < |value| {
      assert value[i..][1..] == value[i + 1..];
      assert before + (Code(value[i]) + Encoded(value[i + 1..])) == before + Code(value[i]) + Encoded(value[i + 1..]);
    }
  }

  // ----- Decoding -----

  function HexValue(c: Byte): Option<nat> {
    if 48 <= c <= 57 then Some(c - 48)
    else if 97 <= c <= 102 then Some(c - 87)
    else if 65 <= c <= 70 then Some(c - 55)
    else None
  }

  predicate IsBlank(c: Byte) {
    c == SPACE || 9 <= c <= 13
  }

  function Signed(x: Byte, digit: Byte): Option<int> {
    match HexValue(digit)
    case None => None
    case Some(v) => Some(if x == MINUS then 0 - v as int else v as int)
  }

  // What a stream reads from two characters as a hexadecimal int: blanks are skipped, a
  // sign may stand first, reading stops at a character that is no digit, and the prefix
  // 0x alone is an error.
  function ReadHex(x: Byte, y: Byte): Option<int> {
    if IsBlank(x) then Signed(PLUS, y)
    else if x == PLUS || x == MINUS then Signed(x, y)
    else if x == 48 && (y == 120 || y == 88) then None
    else
      match (HexValue(x), HexValue(y))
      case (None, _) => None
      case (Some(h), None) => Some(h)
      case (Some(h), Some(l)) => Some(16 * h + l)
  }

  function Prepend(x: Text, rest: Option<Text>): Option<Text> {
    match rest
    case None => None
    case Some(r) => Some(x + r)
  }

  function Decoded(text: Text): Option<Text> {
    if text == [] then Some([])
    else if text[0] == PERCENT then
      if |text| >= 2 && text[1] == 117 then if |text| >= 6 then Decoded(text[6..]) else Some([])
      else if |text| < 3 then None
      else
        match ReadHex(text[1], text[2])
        case None => None
        case Some(value) => Prepend([value % 256], Decoded(text[3..]))
    else Prepend([if text[0] == PLUS then SPACE else text[0]], Decoded(text[1..]))
  }

  method Decode(text: Text) returns (ok: bool, out: Text)
    ensures Decoded(text) == if ok then Some(out) else None
  {
    hide ReadHex, Decoded, Prepend;
    out := [];
    var i := 0;
    DecodedWhole(text);
    while i < |text|
      invariant 0 <= i
      invariant Decoded(text) == if i <= |text| then Prepend(out, Decoded(text[i..])) else Some(out)
    {
      DecodedAt(text, i, out);
      if text[i] == PERCENT {
        if i + 2 <= |text| && text[i + 1] == 117 {
          i := i + 5;
        } else if i + 3 <= |text| {
          match ReadHex(text[i + 1], text[i + 2])
          case None => return false, out;
          case Some(value) =>
            out := out + [value % 256];
            i := i + 2;
        } else {
          return false, out;
        }
      } else if text[i] == PLUS {
        out := out + [SPACE];
      } else {
        out := out + [text[i]];
      }
      i := i + 1;
    }
    DecodedEnd(text, i, out);
    ok := true;
  }

  lemma DecodedWhole(text: Text)
    ensures Prepend([], Decoded(text[0..])) == Decoded(text)
  {
    assert text[0..] == text;
    if Decoded(text).Some? { assert [] + Decoded(text).value == Decoded(text).value; }
  }

  lemma DecodedEnd(text: Text, i: nat, out: Text)
    ensures i == |text| ==> Prepend(out, Decoded(text[i..])) == Some(out)
  {
    assert out + [] == out;
  }

  lemma DecodedAt(text: Text, i: nat, out: Text)
    requires i < |text|
    ensures Prepend(out, Decoded(text[i..])) ==
            if text[i] == PERCENT then
              if i + 2 <= |text| && text[i + 1] == 117 then
                if i + 6 <= |text| then Prepend(out, Decoded(text[i + 6..])) else Some(out)
              else if i + 3 > |text| then None
              else
                match ReadHex(text[i + 1], text[i + 2])
                case None => None
                case Some(value) => Prepend(out + [value % 256], Decoded(text[i + 3..]))
            else Prepend(out + [if text[i] == PLUS then SPACE else text[i]], Decoded(text[i + 1..]))
  {
    var t := text[i..];
    hide ReadHex;
    assert t[1..] == text[i + 1..];
    if |t| >= 3 { assert t[3..] == text[i + 3..]; }
    if |t| >= 6 { assert t[6..] == text[i + 6..]; }
    PrependTwice(out, [if text[i] == PLUS then SPACE else text[i]], Decoded(text[i + 1..]));
    if |t| >= 3 && ReadHex(text[i + 1], text[i + 2]).Some? {
      PrependTwice(out, [ReadHex(text[i + 1], text[i + 2]).value % 256], Decoded(text[i + 3..]));
    }
    assert out + [] == out;
  }

  lemma PrependTwice(a: Text, b: Text, rest: Option<Text>)
    ensures Prepend(a, Prepend(b, rest)) == Prepend(a + b, rest)
  {
    if rest.Some? { assert a + b + rest.value == a + (b + rest.value); }
  }

  // ----- Decoding undoes encoding -----

  lemma ReadCode(c: Byte)
    ensures ReadHex(HexDigit(c / 16), HexDigit(c % 16)) == Some(c as int)
    ensures HexDigit(c / 16) != 117
  {
    HexRead(c / 16);
    HexRead(c % 16);
  }

  lemma HexRead(n: nat)
    requires n < 16
    ensures HexValue(HexDigit(n)) == Some(n) && IsAlphanumeric(HexDigit(n)) && HexDigit(n) !in [88, 117, 120]
  {
  }

  lemma DecodeCode(c: Byte, rest: Text)
    ensures Decoded(Code(c) + rest) == Prepend([c], Decoded(rest))
  {
    ReadCode(c);
    hide ReadHex, HexDigit;
    var t := Code(c) + rest;
    if IsAlphanumeric(c) {
      assert t[1..] == rest;
    } else {
      assert t[3..] == rest && t[..3] == Code(c);
    }
  }

  lemma {:induction false} DecodeInvertsEncode(value: Text)
    ensures Decoded(Encoded(value)) == Some(value)
  {
    if value != [] {
      var c, rest := value[0], Encoded(value[1..]);
      DecodeInvertsEncode(value[1..]);
      assert Encoded(value) == Code(c) + rest && value == [c] + value[1..];
      DecodeCode(c, rest);
    }
  }

  // The separators of a query never appear in an encoded value.
  lemma {:induction false} EncodedIsFree(value: Text)
    ensures AMPERSAND !in Encoded(value) && EQUALS !in Encoded(value)
  {
    if value != [] {
      HexRead(value[0] / 16);
      HexRead(value[0] % 16);
      EncodedIsFree(value[1..]);
    }
  }
}
