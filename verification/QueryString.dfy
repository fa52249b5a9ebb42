/** A map of parameters printed as a query, and read back. */
module QueryString {
  import Bytes
  import opened Split
  import opened Uri

  type Map = map<Text, Text>

  // ----- Reading -----

  // One token of a query: the first value of a name is kept.
  function AddToken(m: Map, token: Text): Map {
    var pos := Find(token, EQUALS);
    if pos == |token| then m
    else
      match Decoded(token[pos + 1..])
      case None => m
      case Some(value) => if token[..pos] in m then m else m[token[..pos] := value]
  }

  function AddTokens(tokens: seq<Text>): Map {
    if tokens == [] then map[] else AddToken(AddTokens(tokens[..|tokens| - 1]), tokens[|tokens| - 1])
  }

  // The map read from a query.
  function Read(text: Text): Map {
    AddTokens(Pieces(text, AMPERSAND))
  }

  // The constructor from a query: empty tokens are passed over, and so are the tokens
  // without an assignment and the values that do not decode.
  method ReadQuery(text: Text) returns (values: Map)
    ensures values == Read(text)
  {
    hide Decoded;
    var tokens := Pieces(text, AMPERSAND);
    values := map[];
    var i := 0;
    while i < |tokens|
      invariant 0 <= i <= |tokens| && values == AddTokens(tokens[..i])
    {
      var token := tokens[i];
      assert tokens[..i + 1][..i] == tokens[..i];
      if token != [] {
        var pos := Find(token, EQUALS);
        if pos < |token| {
          var name := token[..pos];
          var ok, value := Uri.Decode(token[pos + 1..]);
          if ok && name !in values { values := values[name := value]; }
        }
      }
      i := i + 1;
    }
    assert tokens[..i] == tokens;
  }

  // ----- Printing -----

  function Item(m: Map, key: Text): Text
    requires key in m
  {
    key + [EQUALS] + Encoded(m[key])
  }

  // The keys of m, each once, in the order in which the map is walked.
  ghost predicate Enumerates(keys: seq<Text>, m: Map) {
    && (forall k | 0 <= k < |keys| :: keys[k] in m)
    && (forall k <- m :: k in keys)
    && (forall i, j | 0 <= i < j < |keys| :: keys[i] != keys[j])
  }

  function Printed(m: Map, keys: seq<Text>): Text
    requires forall k | 0 <= k < |keys| :: keys[k] in m
  {
    if keys == [] then []
    else
      var item := Item(m, keys[|keys| - 1]);
      if |keys| == 1 then item else Printed(m, keys[..|keys| - 1]) + [AMPERSAND] + item
  }

  // _pmToString
  method PmToString(m: Map, keys: seq<Text>) returns (s: Text)
    requires forall k | 0 <= k < |keys| :: keys[k] in m
    ensures s == Printed(m, keys)
  {
    s := [];
    var first := true;
    var i := 0;
    while i < |keys|
      invariant 0 <= i <= |keys| && first == (i == 0) && s == Printed(m, keys[..i])
    {
      hide Item;
      ghost var before := s;
      if first {
        first := false;
      } else {
        s := s + [AMPERSAND];
      }
      ghost var joined := s;
      var value := Uri.Encode(m[keys[i]]);
      s := s + keys[i] + [EQUALS] + value;
      assert s == joined + Item(m, keys[i]) by { Spell(m, keys[i], joined); }
      assert keys[..i + 1][..i] == keys[..i];
      assert [] + Item(m, keys[i]) == Item(m, keys[i]);
      i := i + 1;
    }
    assert keys[..i] == keys;
  }

  lemma Spell(m: Map, key: Text, before: Text)
    requires key in m
    ensures before + key + [EQUALS] + Encoded(m[key]) == before + Item(m, key)
  {
    hide Encoded;
    assert before + key + [EQUALS] + Encoded(m[key]) == before + (key + [EQUALS] + Encoded(m[key]));
  }

  // ----- Reading what was printed -----

  predicate Plain(key: Text) {
    AMPERSAND !in key && EQUALS !in key
  }

  lemma ItemIsFree(m: Map, key: Text)
    requires key in m && AMPERSAND !in key
    ensures AMPERSAND !in Item(m, key)
  {
    EncodedIsFree(m[key]);
  }

  lemma AddItem(read: Map, m: Map, key: Text)
    requires key in m && EQUALS !in key
    ensures AddToken(read, Item(m, key)) == if key in read then read else read[key := m[key]]
  {
    var item := Item(m, key);
    FindAfter(key, Encoded(m[key]), EQUALS);
    assert item[..|key|] == key && item[|key| + 1..] == Encoded(m[key]);
    Uri.DecodeInvertsEncode(m[key]);
  }

  function Items(m: Map, keys: seq<Text>): (r: seq<Text>)
    requires forall k | 0 <= k < |keys| :: keys[k] in m
    ensures |r| == |keys|
  {
    seq(|keys|, i requires 0 <= i < |keys| => Item(m, keys[i]))
  }

  lemma {:induction false} PiecesOfPrinted(m: Map, keys: seq<Text>)
    requires keys != [] && forall k | 0 <= k < |keys| :: keys[k] in m && AMPERSAND !in keys[k]
    ensures Pieces(Printed(m, keys), AMPERSAND) == Items(m, keys)
    decreases |keys|
  {
    hide Item;
    var init, last := keys[..|keys| - 1], keys[|keys| - 1];
    ItemIsFree(m, last);
    if init == [] {
      PiecesOne(Item(m, last), AMPERSAND);
    } else {
      PiecesOfPrinted(m, init);
      PiecesSnoc(Printed(m, init), Item(m, last), AMPERSAND);
    }
    assert Items(m, keys) == Items(m, init) + [Item(m, last)];
  }

  lemma {:induction false} AddItems(m: Map, keys: seq<Text>)
    requires forall k | 0 <= k < |keys| :: keys[k] in m && Plain(keys[k])
    ensures AddTokens(Items(m, keys)) == map k | k in keys :: m[k]
    decreases |keys|
  {
    hide Item, AddToken;
    if keys != [] {
      var init, last := keys[..|keys| - 1], keys[|keys| - 1];
      AddItems(m, init);
      assert Items(m, keys)[..|init|] == Items(m, init);
      AddItem(AddTokens(Items(m, init)), m, last);
      assert keys == init + [last];
    }
  }

  lemma PlainKeysComeBack(m: Map, keys: seq<Text>)
    requires Enumerates(keys, m) && forall k <- m :: Plain(k)
    ensures Read(Printed(m, keys)) == m
  {
    if keys == [] {
      PiecesOne<Bytes.Byte>([], AMPERSAND);
      assert Pieces<Bytes.Byte>([], AMPERSAND)[..0] == [];
      assert AddTokens([[]]) == AddToken(map[], []);
      assert m == map[];
    } else {
      PiecesOfPrinted(m, keys);
      AddItems(m, keys);
    }
  }

  // Whatever the query, the names read from it are free of both separators.
  lemma {:induction false} NamesAreFree(tokens: seq<Text>)
    requires forall k | 0 <= k < |tokens| :: AMPERSAND !in tokens[k]
    ensures forall k <- AddTokens(tokens) :: Plain(k)
  {
    if tokens != [] { NamesAreFree(tokens[..|tokens| - 1]); }
  }

  // A map comes back exactly when none of its keys holds a separator.
  lemma RoundTripIff(m: Map, keys: seq<Text>)
    requires Enumerates(keys, m)
    ensures Read(Printed(m, keys)) == m <==> forall k <- m :: Plain(k)
  {
    var tokens := Pieces(Printed(m, keys), AMPERSAND);
    PiecesAreFree(Printed(m, keys), AMPERSAND);
    NamesAreFree(tokens);
    if forall k <- m :: Plain(k) { PlainKeysComeBack(m, keys); }
  }

  // The key "a&" does not come back.
  lemma AmpersandIsLost()
    ensures var key := [97, AMPERSAND]; var m: Map := map[key := []];
            Enumerates([key], m) && Read(Printed(m, [key])) != m
  {
    hide Read, Printed;
    var key: Text := [97, AMPERSAND];
    var m: Map := map[key := []];
    assert key in m && key[1] == AMPERSAND && !Plain(key);
    RoundTripIff(m, [key]);
  }
}
