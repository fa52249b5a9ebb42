/** Base 64 (section 4 of RFC 4648), with the group buffers of the source. */
module Base64 {
  import opened Bytes
  import opened Slices

  const PAD: Byte := 61

  // base64_chars: upper case, lower case, digits, plus, slash.
  function Digit(n: nat): Byte
    requires n < 64
  {
    if n < 26 then 65 + n else if n < 52 then 71 + n else if n < 62 then n - 4 else if n == 62 then 43 else 47
  }

  // The position of a character, or the low byte of npos.
  function Find(c: Byte): Byte {
    if 65 <= c <= 90 then c - 65
    else if 97 <= c <= 122 then c - 71
    else if 48 <= c <= 57 then c + 4
    else if c == 43 then 62
    else if c == 47 then 63
    else 255
  }

  predicate IsBase64(c: Byte) {
    65 <= c <= 90 || 97 <= c <= 122 || 48 <= c <= 57 || c == 43 || c == 47
  }

  lemma FindDigit(n: nat)
    requires n < 64
    ensures Find(Digit(n)) == n && IsBase64(Digit(n)) && Digit(n) != PAD
  {
  }

  // ----- Groups of three bytes, and of four digits -----

  // The masks and shifts of the encoder.
  function Sextet0(a: Byte): (r: nat)
    ensures r < 64
  {
    a / 4
  }

  function Sextet1(a: Byte, b: Byte): (r: nat)
    ensures r < 64
  {
    a % 4 * 16 + b / 16
  }

  function Sextet2(b: Byte, c: Byte): (r: nat)
    ensures r < 64
  {
    b % 16 * 4 + c / 64
  }

  function Sextet3(c: Byte): (r: nat)
    ensures r < 64
  {
    c % 64
  }

  function Sextets(a: Byte, b: Byte, c: Byte): (r: seq<nat>)
    ensures |r| == 4 && forall k | 0 <= k < 4 :: r[k] < 64
  {
    [Sextet0(a), Sextet1(a, b), Sextet2(b, c), Sextet3(c)]
  }

  // Those of the decoder, whose results are cut to a byte.
  function Octet0(a: Byte, b: Byte): Byte {
    (a * 4 + b / 16 % 4) % 256
  }

  function Octet1(b: Byte, c: Byte): Byte {
    (b % 16 * 16 + c / 4 % 16) % 256
  }

  function Octet2(c: Byte, d: Byte): Byte {
    (c % 4 * 64 + d) % 256
  }

  function Octets(a: Byte, b: Byte, c: Byte, d: Byte): (r: seq<Byte>)
    ensures |r| == 3
  {
    [Octet0(a, b), Octet1(b, c), Octet2(c, d)]
  }

  function Digits(sextets: seq<nat>): (r: seq<Byte>)
    requires forall k | 0 <= k < |sextets| :: sextets[k] < 64
    ensures |r| == |sextets|
  {
    seq(|sextets|, k requires 0 <= k < |sextets| => Digit(sextets[k]))
  }

  lemma FirstOctet(q: nat, r: nat, s: nat)
    requires q < 64 && r < 4 && s < 16
    ensures (q * 4 + (r * 16 + s) / 16 % 4) % 256 == q * 4 + r
  {
    assert (r * 16 + s) / 16 == r && r % 4 == r;
  }

  lemma SecondOctet(r: nat, s: nat, t: nat, u: nat)
    requires r < 4 && s < 16 && t < 16 && u < 4
    ensures ((r * 16 + s) % 16 * 16 + (t * 4 + u) / 4 % 16) % 256 == s * 16 + t
  {
    assert (r * 16 + s) % 16 == s && (t * 4 + u) / 4 == t;
  }

  lemma ThirdOctet(t: nat, u: nat, v: nat)
    requires t < 16 && u < 4 && v < 64
    ensures ((t * 4 + u) % 4 * 64 + v) % 256 == u * 64 + v
  {
    assert (t * 4 + u) % 4 == u;
  }

  lemma FirstByte(a: Byte, b: Byte)
    ensures Octet0(Sextet0(a), Sextet1(a, b)) == a
  {
    FirstOctet(a / 4, a % 4, b / 16);
  }

  lemma SecondByte(a: Byte, b: Byte, c: Byte)
    ensures Octet1(Sextet1(a, b), Sextet2(b, c)) == b
  {
    SecondOctet(a % 4, b / 16, b % 16, c / 64);
  }

  lemma ThirdByte(b: Byte, c: Byte)
    ensures Octet2(Sextet2(b, c), Sextet3(c)) == c
  {
    ThirdOctet(b % 16, c / 64, c % 64);
  }

  lemma FirstBack(a: Byte, b: Byte, c: Byte, x: Byte, y: Byte)
    ensures var s := Sextets(a, b, c); Octets(s[0], s[1], x, y)[0] == a
  {
    hide Sextet0, Sextet1, Sextet2, Sextet3, Octet0, Octet1, Octet2;
    FirstByte(a, b);
  }

  lemma SecondBack(a: Byte, b: Byte, c: Byte, y: Byte)
    ensures var s := Sextets(a, b, c); Octets(s[0], s[1], s[2], y)[1] == b
  {
    hide Sextet0, Sextet1, Sextet2, Sextet3, Octet0, Octet1, Octet2;
    SecondByte(a, b, c);
  }

  lemma ThirdBack(a: Byte, b: Byte, c: Byte)
    ensures var s := Sextets(a, b, c); Octets(s[0], s[1], s[2], s[3])[2] == c
  {
    hide Sextet0, Sextet1, Sextet2, Sextet3, Octet0, Octet1, Octet2;
    ThirdByte(b, c);
  }

  // ----- Whole texts -----

  function Encoded(b: seq<Byte>): seq<Byte>
  {
    if b == [] then []
    else if |b| == 1 then Digits(Sextets(b[0], 0, 0)[..2]) + [PAD, PAD]
    else if |b| == 2 then Digits(Sextets(b[0], b[1], 0)[..3]) + [PAD]
    else Digits(Sextets(b[0], b[1], b[2])) + Encoded(b[3..])
  }

  // The first character that is no digit stops the decoder; s starts a group.
  function Decoded(s: seq<Byte>): seq<Byte>
  {
    if s == [] || !IsBase64(s[0]) || |s| == 1 || !IsBase64(s[1]) then []
    else if |s| == 2 || !IsBase64(s[2]) then Octets(Find(s[0]), Find(s[1]), 255, 255)[..1]
    else if |s| == 3 || !IsBase64(s[3]) then Octets(Find(s[0]), Find(s[1]), Find(s[2]), 255)[..2]
    else Octets(Find(s[0]), Find(s[1]), Find(s[2]), Find(s[3])) + Decoded(s[4..])
  }

  // ----- The encoder -----

  method AppendDigits(ret: seq<Byte>, charArray4: array<nat>, n: nat) returns (r: seq<Byte>)
    requires n <= charArray4.Length == 4 && forall k | 0 <= k < 4 :: charArray4[k] < 64
    ensures r == ret + Digits(charArray4[..n])
  {
    r := ret;
    var j := 0;
    while j < n
      invariant 0 <= j <= n && r == ret + Digits(charArray4[..j])
    {
      r := r + [Digit(charArray4[j])];
      assert Digits(charArray4[..j + 1]) == Digits(charArray4[..j]) + [Digit(charArray4[j])];
      j := j + 1;
    }
  }

  method Split3(charArray3: array<Byte>, charArray4: array<nat>)
    requires charArray3.Length == 3 && charArray4.Length == 4
    modifies charArray4
    ensures charArray4[..] == Sextets(charArray3[0], charArray3[1], charArray3[2])
  {
    charArray4[0] := charArray3[0] / 4;
    charArray4[1] := charArray3[0] % 4 * 16 + charArray3[1] / 16;
    charArray4[2] := charArray3[1] % 16 * 4 + charArray3[2] / 64;
    charArray4[3] := charArray3[2] % 64;
  }

  method Encode(bytes: seq<Byte>) returns (ret: seq<Byte>)
    ensures ret == Encoded(bytes)
  {
    hide Encoded, Digits, Sextets;
    ret := [];
    var i, k := 0, 0;
    EncodedStart(bytes);
    var charArray3, charArray4 := new Byte[3], new nat[4];
    while k < |bytes|
      invariant 0 <= i < 3 && i <= k <= |bytes|
      invariant charArray3[..i] == bytes[k - i..k]
      invariant ret + Encoded(bytes[k - i..]) == Encoded(bytes)
    {
      ghost var group := bytes[k - i..k];
      charArray3[i] := bytes[k];
      SliceGrows(bytes, k - i, k);
      assert charArray3[..i] == group;
      assert charArray3[..i + 1] == charArray3[..i] + [bytes[k]];
      i, k := i + 1, k + 1;
      if i == 3 {
        EncodedGroup(bytes, k - 3, ret, charArray3[0], charArray3[1], charArray3[2]);
        Split3(charArray3, charArray4);
        assert charArray4[..4] == charArray4[..];
        ret := AppendDigits(ret, charArray4, 4);
        i := 0;
      }
    }
    if i > 0 {
      ret := EncodeTail(ret, charArray3, charArray4, i);
      assert bytes[k - i..] == charArray3[..i];
    } else {
      assert bytes[k..] == [];
    }
  }

  // The last group, of one or two bytes.
  method EncodeTail(ret: seq<Byte>, charArray3: array<Byte>, charArray4: array<nat>, i: nat) returns (r: seq<Byte>)
    requires charArray3.Length == 3 && charArray4.Length == 4 && 0 < i < 3
    modifies charArray3, charArray4
    ensures r == ret + Encoded(old(charArray3[..i])) && charArray3[..i] == old(charArray3[..i])
  {
    ghost var tail := charArray3[..i];
    var j := i;
    while j < 3
      invariant i <= j <= 3 && charArray3[..i] == tail
      invariant forall l | i <= l < j :: charArray3[l] == 0
    {
      charArray3[j] := 0;
      j := j + 1;
    }
    assert tail[0] == charArray3[0] && (i == 2 ==> tail[1] == charArray3[1]);
    Split3(charArray3, charArray4);
    r := AppendDigits(ret, charArray4, i + 1);
    assert charArray4[..i + 1] == Sextets(charArray3[0], charArray3[1], charArray3[2])[..i + 1];
    ghost var digits := r;
    var padding := i;
    while padding < 3
      invariant i <= padding <= 3 && r == digits + seq(padding - i, n => PAD)
    {
      r := r + [PAD];
      padding := padding + 1;
    }
  }

  lemma EncodedGroup(b: seq<Byte>, p: nat, before: seq<Byte>, x: Byte, y: Byte, z: Byte)
    requires p + 3 <= |b| && [x, y, z] == b[p..p + 3]
    ensures before + Encoded(b[p..]) == before + Digits(Sextets(x, y, z)) + Encoded(b[p + 3..])
  {
    assert b[p..][3..] == b[p + 3..];
    assert before + (Digits(Sextets(x, y, z)) + Encoded(b[p + 3..])) == before + Digits(Sextets(x, y, z)) + Encoded(b[p + 3..]);
  }

  lemma EncodedStart(b: seq<Byte>)
    ensures [] + Encoded(b[0..]) == Encoded(b) && Encoded([]) == []
  {
    assert b[0..] == b;
  }

  // ----- The decoder -----

  method Lookup(charArray4: array<Byte>)
    requires charArray4.Length == 4
    modifies charArray4
    ensures forall k | 0 <= k < 4 :: charArray4[k] == Find(old(charArray4[k]))
  {
    hide Find;
    var i := 0;
    while i < 4
      invariant 0 <= i <= 4
      invariant forall k | 0 <= k < 4 :: charArray4[k] == if k < i then Find(old(charArray4[k])) else old(charArray4[k])
    {
      charArray4[i] := Find(charArray4[i]);
      i := i + 1;
    }
  }

  method Join4(charArray4: array<Byte>, charArray3: array<Byte>)
    requires charArray3.Length == 3 && charArray4.Length == 4 && charArray3 != charArray4
    modifies charArray3
    ensures charArray3[..] == Octets(charArray4[0], charArray4[1], charArray4[2], charArray4[3])
  {
    var a: nat, b: nat, c: nat, d: nat := charArray4[0], charArray4[1], charArray4[2], charArray4[3];
    charArray3[0] := (a * 4 + b / 16 % 4) % 256;
    charArray3[1] := (b % 16 * 16 + c / 4 % 16) % 256;
    charArray3[2] := (c % 4 * 64 + d) % 256;
  }

  method AppendBytes(ret: seq<Byte>, charArray3: array<Byte>, n: nat) returns (r: seq<Byte>)
    requires n <= charArray3.Length
    ensures r == ret + charArray3[..n]
  {
    r := ret;
    var j := 0;
    while j < n
      invariant 0 <= j <= n && r == ret + charArray3[..j]
    {
      r := r + [charArray3[j]];
      j := j + 1;
    }
  }

  method Decode(encoded: seq<Byte>) returns (ret: seq<Byte>)
    ensures ret == Decoded(encoded)
  {
    hide Find, IsBase64, Octets, Decoded, TailOctets;
    NoPad();
    ret := [];
    var i, k := 0, 0;
    DecodedStart(encoded);
    var charArray4, charArray3 := new Byte[4], new Byte[3];
    while k < |encoded| && encoded[k] != PAD && IsBase64(encoded[k])
      invariant 0 <= i < 4 && i <= k <= |encoded|
      invariant charArray4[..i] == encoded[k - i..k]
      invariant forall l | k - i <= l < k :: IsBase64(encoded[l])
      invariant ret + Decoded(encoded[k - i..]) == Decoded(encoded)
    {
      ghost var group := encoded[k - i..k];
      charArray4[i] := encoded[k];
      SliceGrows(encoded, k - i, k);
      assert charArray4[..i] == group;
      assert charArray4[..i + 1] == charArray4[..i] + [encoded[k]];
      i, k := i + 1, k + 1;
      if i == 4 {
        DecodedGroup(encoded, k - 4, ret, charArray4[0], charArray4[1], charArray4[2], charArray4[3]);
        Lookup(charArray4);
        Join4(charArray4, charArray3);
        ret := AppendBytes(ret, charArray3, 3);
        assert charArray3[..3] == charArray3[..];
        i := 0;
      }
    }
    DecodedTail(encoded, k - i, i, charArray4[..i]);
    if i > 0 {
      ret := DecodeTail(ret, charArray4, charArray3, i);
    }
  }

  // The last group, of one to three digits; a missing digit is looked up as a NUL.
  method DecodeTail(ret: seq<Byte>, charArray4: array<Byte>, charArray3: array<Byte>, i: nat) returns (r: seq<Byte>)
    requires charArray3.Length == 3 && charArray4.Length == 4 && charArray3 != charArray4 && 0 < i < 4
    modifies charArray3, charArray4
    ensures r == ret + TailOctets(old(charArray4[..i]))
  {
    hide Octets;
    ghost var tail := charArray4[..i];
    var j := i;
    while j < 4
      invariant i <= j <= 4 && charArray4[..i] == tail
      invariant forall l | i <= l < j :: charArray4[l] == 0
    {
      charArray4[j] := 0;
      j := j + 1;
    }
    assert forall l | 0 <= l < 4 :: charArray4[l] == if l < i then tail[l] else 0;
    Lookup(charArray4);
    Join4(charArray4, charArray3);
    r := AppendBytes(ret, charArray3, i - 1);
    assert charArray3[..i - 1] == charArray3[..][..i - 1];
  }

  function TailOctets(tail: seq<Byte>): seq<Byte>
    requires 0 < |tail| < 4
  {
    var digit := (k: nat) => if k < |tail| then Find(tail[k]) else 255;
    Octets(digit(0), digit(1), digit(2), digit(3))[..|tail| - 1]
  }

  lemma NoPad()
    ensures !IsBase64(PAD)
  {
  }

  lemma DecodedStart(s: seq<Byte>)
    ensures [] + Decoded(s[0..]) == Decoded(s)
  {
    assert s[0..] == s;
  }

  lemma DecodedGroup(s: seq<Byte>, p: nat, before: seq<Byte>, a: Byte, b: Byte, c: Byte, d: Byte)
    requires p + 4 <= |s| && [a, b, c, d] == s[p..p + 4] && forall l | p <= l < p + 4 :: IsBase64(s[l])
    ensures before + Decoded(s[p..]) == before + Octets(Find(a), Find(b), Find(c), Find(d)) + Decoded(s[p + 4..])
  {
    hide Octets, Find, IsBase64;
    var t := s[p..];
    assert t[4..] == s[p + 4..];
    assert t[..4] == [a, b, c, d];
    assert before + (Octets(Find(a), Find(b), Find(c), Find(d)) + Decoded(s[p + 4..]))
        == before + Octets(Find(a), Find(b), Find(c), Find(d)) + Decoded(s[p + 4..]);
  }

  // The digits left when the loop of the decoder ends.
  lemma DecodedTail(s: seq<Byte>, p: nat, i: nat, tail: seq<Byte>)
    requires i < 4 && p + i <= |s| && tail == s[p..p + i] && forall l | p <= l < p + i :: IsBase64(s[l])
    requires p + i < |s| ==> !IsBase64(s[p + i])
    ensures Decoded(s[p..]) == if i == 0 then [] else TailOctets(tail)
  {
    hide Octets, Find, IsBase64;
    var t := s[p..];
    assert t[..i] == tail;
  }

  // ----- Decoding undoes encoding -----

  lemma DigitsBack(sextets: seq<nat>, k: nat)
    requires k < |sextets| && forall j | 0 <= j < |sextets| :: sextets[j] < 64
    ensures Find(Digits(sextets)[k]) == sextets[k] && IsBase64(Digits(sextets)[k])
  {
    FindDigit(sextets[k]);
  }

  // What follows the text of some bytes is decoded with it, unless padding stops the decoder.
  lemma {:induction false} DecodedThen(b: seq<Byte>, more: seq<Byte>)
    ensures Decoded(Encoded(b) + more) == b + if |b| % 3 == 0 then Decoded(more) else []
    decreases |b|
  {
    hide Encoded, Decoded, Digits, Sextets;
    EncodedAt(b);
    if b == [] {
      assert [] + more == more && [] + Decoded(more) == Decoded(more);
    } else if |b| >= 3 {
      DecodedThen(b[3..], more);
      var group, rest := Digits(Sextets(b[0], b[1], b[2])), Encoded(b[3..]);
      GroupBack(b[0], b[1], b[2], rest + more);
      assert group + rest + more == group + (rest + more);
      ThreeMore(b, if |b| % 3 == 0 then Decoded(more) else []);
    } else {
      TailBack(b, more);
      assert b + [] == b;
    }
  }

  lemma EncodedAt(b: seq<Byte>)
    ensures b == [] ==> Encoded(b) == []
    ensures |b| >= 3 ==> Encoded(b) == Digits(Sextets(b[0], b[1], b[2])) + Encoded(b[3..])
  {
    hide Digits, Sextets;
  }

  lemma ThreeMore(b: seq<Byte>, x: seq<Byte>)
    requires |b| >= 3
    ensures [b[0], b[1], b[2]] + (b[3..] + x) == b + x && |b[3..]| % 3 == |b| % 3
  {
  }

  lemma GroupBack(a: Byte, b: Byte, c: Byte, rest: seq<Byte>)
    ensures Decoded(Digits(Sextets(a, b, c)) + rest) == [a, b, c] + Decoded(rest)
  {
    var s := Sextets(a, b, c);
    var t := Digits(s) + rest;
    forall k: nat | k < 4 ensures Find(t[k]) == s[k] && IsBase64(t[k]) { DigitsBack(s, k); }
    assert t[4..] == rest;
    FirstBack(a, b, c, s[2], s[3]);
    SecondBack(a, b, c, s[3]);
    ThirdBack(a, b, c);
    hide Sextets, Octets, Digits, Find, IsBase64;
  }

  lemma TailBack(b: seq<Byte>, more: seq<Byte>)
    requires 0 < |b| < 3
    ensures Decoded(Encoded(b) + more) == b
  {
    NoPad();
    var s := Sextets(b[0], if |b| == 2 then b[1] else 0, 0);
    var n := |b| + 1;
    var t := Encoded(b) + more;
    assert t[..n] == Digits(s[..n]) && t[n] == PAD;
    forall k: nat | k < n ensures Find(t[k]) == s[k] && IsBase64(t[k]) { DigitsBack(s[..n], k); }
    FirstBack(b[0], if |b| == 2 then b[1] else 0, 0, if |b| == 2 then s[2] else 255, 255);
    SecondBack(b[0], if |b| == 2 then b[1] else 0, 0, 255);
    hide Sextets, Octets, Digits, Find, IsBase64;
  }

  lemma DecodeInvertsEncode(b: seq<Byte>)
    ensures Decoded(Encoded(b)) == b
  {
    DecodedThen(b, []);
    assert Encoded(b) + [] == Encoded(b);
  }

  // Texts can be put end to end exactly after whole groups.
  lemma JoinIff(a: seq<Byte>, b: seq<Byte>)
    ensures Decoded(Encoded(a) + Encoded(b)) == a + b <==> |a| % 3 == 0 || b == []
  {
    DecodedThen(a, Encoded(b));
    DecodeInvertsEncode(b);
    assert |a + b| == |a| + |b|;
  }

  // The text is padded at its end, to whole groups of four.
  predicate PaddedBy(s: seq<Byte>, n: nat) {
    forall k | 0 <= k < |s| :: s[k] == PAD <==> k + n >= |s|
  }

  lemma {:induction false} Shape(b: seq<Byte>)
    ensures |Encoded(b)| == 4 * ((|b| + 2) / 3) && PaddedBy(Encoded(b), (3 - |b| % 3) % 3)
    decreases |b|
  {
    hide Encoded, Digits, Sextets, PaddedBy;
    Thirds(|b|);
    if |b| < 3 {
      TailShape(b);
    } else {
      EncodedAt(b);
      Shape(b[3..]);
      NoPadIn(Sextets(b[0], b[1], b[2]));
      NoneBefore(Digits(Sextets(b[0], b[1], b[2])), Encoded(b[3..]), (3 - |b| % 3) % 3);
    }
  }

  lemma Thirds(n: nat)
    ensures n >= 3 ==> 4 * ((n + 2) / 3) == 4 + 4 * ((n - 3 + 2) / 3) && (3 - n % 3) % 3 == (3 - (n - 3) % 3) % 3
    ensures n >= 3 ==> 0 <= (3 - n % 3) % 3 <= 4 * ((n - 3 + 2) / 3)
    ensures n < 3 ==> 4 * ((n + 2) / 3) == (if n == 0 then 0 else 4) && (3 - n % 3) % 3 == (3 - n) % 3
  {
    var q := n / 3;
    assert n == 3 * q + n % 3;
  }

  lemma EncodedTail(b: seq<Byte>)
    requires 0 < |b| < 3
    ensures Encoded(b) == Digits(Sextets(b[0], if |b| == 2 then b[1] else 0, 0)[..|b| + 1]) + if |b| == 2 then [PAD] else [PAD, PAD]
  {
    hide Digits, Sextets;
  }

  lemma TailShape(b: seq<Byte>)
    requires |b| < 3
    ensures |Encoded(b)| == (if b == [] then 0 else 4) && PaddedBy(Encoded(b), (3 - |b|) % 3)
  {
    hide Encoded, Sextets, Digits;
    if b == [] {
      EncodedAt(b);
    } else {
      var s := Sextets(b[0], if |b| == 2 then b[1] else 0, 0)[..|b| + 1];
      EncodedTail(b);
      NoPadIn(s);
      NoneBefore(Digits(s), if |b| == 2 then [PAD] else [PAD, PAD], 3 - |b|);
    }
  }

  lemma NoneBefore(s: seq<Byte>, t: seq<Byte>, n: nat)
    requires PAD !in s && PaddedBy(t, n) && n <= |t|
    ensures PaddedBy(s + t, n)
  {
  }

  lemma NoPadIn(sextets: seq<nat>)
    requires forall k | 0 <= k < |sextets| :: sextets[k] < 64
    ensures PAD !in Digits(sextets)
  {
    forall k: nat | k < |sextets| ensures Digits(sextets)[k] != PAD { FindDigit(sextets[k]); }
  }
}
