/**
  The node record of the XML library: four content arrays and the packed order
  array that says how their entries interleave. An order entry is
  `index * 4 + type`, with the type codes of the source.
*/
module XmlTree {
  import opened Wrappers

  const CHILD: nat := 0
  const ATTRIBUTE: nat := 1
  const TEXT: nat := 2
  const CLEAR: nat := 3

  // `value.None?` is the source's NULL attribute value.
  datatype XMLAttribute = XMLAttribute(name: string, value: Option<string>)

  datatype XMLClear = XMLClear(value: string, open: string, close: string)

  datatype NodeData = NodeData(
    name: Option<string>,
    isDeclaration: bool,
    children: seq<NodeData>,
    attributes: seq<XMLAttribute>,
    texts: seq<string>,
    clears: seq<XMLClear>,
    order: seq<int>)
  {
    function Size(t: int): nat
    {
      if t == CHILD then |children|
      else if t == ATTRIBUTE then |attributes|
      else if t == TEXT then |texts|
      else if t == CLEAR then |clears|
      else 0
    }

    function NElement(): nat {
      |children| + |texts| + |clears| + |attributes|
    }

    function AddChild(c: NodeData): NodeData {
      this.(children := children + [c], order := order + [Packed(|children|, CHILD)])
    }

    function AddAttribute(a: XMLAttribute): NodeData {
      this.(attributes := attributes + [a], order := order + [Packed(|attributes|, ATTRIBUTE)])
    }

    function AddText(s: string): NodeData {
      this.(texts := texts + [s], order := order + [Packed(|texts|, TEXT)])
    }

    function AddClear(c: XMLClear): NodeData {
      this.(clears := clears + [c], order := order + [Packed(|clears|, CLEAR)])
    }

    // The record once the child at k, whose order entry is at p, is gone.
    function RemoveChild(k: nat, p: nat): NodeData
      requires k < |children| && p < |order|
    {
      this.(children := Without(children, k), order := Removed(order, p, CHILD))
    }
  }

  // The entry of the order array for entry `index` of the array of type t.
  function Packed(index: nat, t: nat): int {
    index * 4 + t
  }

  function EmptyNode(name: Option<string>, isDeclaration: bool): NodeData {
    NodeData(name, isDeclaration, [], [], [], [], [])
  }

  // ----- The tree a node record stands for -----

  datatype Element = Element(
    name: Option<string>,
    isDeclaration: bool,
    attributes: seq<XMLAttribute>,
    contents: seq<Item>)

  datatype Item = Child(child: Element) | Text(text: string) | Clear(clear: XMLClear)

  // How many entries of type t the order array holds.
  function Count(o: seq<int>, t: int): nat
  {
    if o == [] then 0
    else Count(o[..|o|-1], t) + if o[|o|-1] % 4 == t then 1 else 0
  }

  // Every entry's index is the number of earlier entries of its own type.
  predicate Ranked(o: seq<int>)
  {
    o == [] ||
    (Ranked(o[..|o|-1]) && o[|o|-1] / 4 == Count(o[..|o|-1], o[|o|-1] % 4))
  }

  // The order array agrees with the four content arrays.
  predicate OrderAgrees(n: NodeData)
  {
    && Ranked(n.order)
    && Count(n.order, CHILD) == |n.children|
    && Count(n.order, ATTRIBUTE) == |n.attributes|
    && Count(n.order, TEXT) == |n.texts|
    && Count(n.order, CLEAR) == |n.clears|
  }

  predicate Sound(n: NodeData)
  {
    OrderAgrees(n) && AllSound(n.children)
  }

  predicate AllSound(s: seq<NodeData>)
  {
    forall i | 0 <= i < |s| :: Sound(s[i])
  }

  predicate Resolves(n: NodeData, x: int) {
    0 <= x / 4 < n.Size(x % 4)
  }

  predicate InRange(n: NodeData, o: seq<int>)
  {
    o == [] || (InRange(n, o[..|o|-1]) && Resolves(n, o[|o|-1]))
  }

  function View(n: NodeData): Element
    requires Sound(n)
    decreases n, 2
  {
    SoundInRange(n);
    Element(n.name, n.isDeclaration, n.attributes, Contents(n, n.order))
  }

  // The items that the entries of o name.
  function Contents(n: NodeData, o: seq<int>): seq<Item>
    requires InRange(n, o) && AllSound(n.children)
    decreases n, 1, |o|
  {
    if o == [] then [] else Contents(n, o[..|o|-1]) + Entry(n, o[|o|-1])
  }

  // An attribute entry names no item: attributes are listed in the tag itself.
  function Entry(n: NodeData, x: int): seq<Item>
    requires Resolves(n, x) && AllSound(n.children)
    decreases n, 0
  {
    if x % 4 == CHILD then [Child(View(n.children[x / 4]))]
    else if x % 4 == TEXT then [Text(n.texts[x / 4])]
    else if x % 4 == CLEAR then [Clear(n.clears[x / 4])]
    else []
  }

  lemma CountPrefix(o: seq<int>, i: nat, t: int)
    requires i <= |o|
    ensures Count(o[..i], t) <= Count(o, t)
    ensures i < |o| && o[i] % 4 == t ==> Count(o[..i], t) < Count(o, t)
    decreases |o|
  {
    if i < |o| {
      var init := o[..|o|-1];
      assert init[..i] == o[..i];
      if i < |init| { CountPrefix(init, i, t); }
    } else {
      assert o[..i] == o;
    }
  }

  lemma RankedAt(o: seq<int>, i: nat)
    requires Ranked(o) && i < |o|
    ensures Ranked(o[..i])
    ensures o[i] / 4 == Count(o[..i], o[i] % 4) < Count(o, o[i] % 4)
    decreases |o|
  {
    CountPrefix(o, i, o[i] % 4);
    var init := o[..|o|-1];
    if i < |init| {
      RankedAt(init, i);
      assert init[..i] == o[..i];
    }
  }

  lemma InRangeFrom(n: NodeData, o: seq<int>)
    requires forall i | 0 <= i < |o| :: Resolves(n, o[i])
    ensures InRange(n, o)
  {
    if o != [] { InRangeFrom(n, o[..|o|-1]); }
  }

  lemma SoundInRange(n: NodeData)
    requires OrderAgrees(n)
    ensures InRange(n, n.order)
    ensures forall i | 0 <= i < |n.order| :: Resolves(n, n.order[i])
  {
    forall i | 0 <= i < |n.order| ensures Resolves(n, n.order[i]) {
      RankedAt(n.order, i);
    }
    InRangeFrom(n, n.order);
  }

  // ----- What agreement means for an enumeration -----

  function Indices(o: seq<int>, t: int): seq<int>
  {
    if o == [] then []
    else Indices(o[..|o|-1], t) + if o[|o|-1] % 4 == t then [o[|o|-1] / 4] else []
  }

  // The entries of each type decode, in order, to 0, 1, ..., size - 1.
  lemma {:induction false} DecodesInOrder(o: seq<int>, t: int)
    requires Ranked(o)
    ensures Indices(o, t) == seq(Count(o, t), i => i)
  {
    if o != [] {
      DecodesInOrder(o[..|o|-1], t);
    }
  }

  // Enumerating the order array visits every entry of every content array, and once.
  lemma EnumerationIsBijective(n: NodeData)
    requires OrderAgrees(n)
    ensures |n.order| == n.NElement()
    ensures forall i | 0 <= i < |n.order| :: Resolves(n, n.order[i])
    ensures forall t: nat, k: nat | t < 4 && k < n.Size(t) :: Packed(k, t) in n.order
    ensures forall i, j | 0 <= i < j < |n.order| :: n.order[i] != n.order[j]
  {
    SoundInRange(n);
    CountTotal(n.order);
    forall t: nat, k: nat | t < 4 && k < n.Size(t) ensures Packed(k, t) in n.order {
      var p := RankedFind(n.order, t, k);
      assert n.order[p] == Packed(k, t);
    }
    forall i, j | 0 <= i < j < |n.order| ensures n.order[i] != n.order[j] {
      RankedAt(n.order, i);
      RankedAt(n.order, j);
      assert n.order[..j][..i] == n.order[..i];
      CountPrefix(n.order[..j], i, n.order[i] % 4);
    }
  }

  lemma CountTotal(o: seq<int>)
    ensures Count(o, 0) + Count(o, 1) + Count(o, 2) + Count(o, 3) == |o|
  {
    if o != [] { CountTotal(o[..|o|-1]); }
  }

  lemma RankedFind(o: seq<int>, t: nat, k: nat) returns (p: nat)
    requires Ranked(o) && t < 4 && k < Count(o, t)
    ensures p < |o| && o[p] == Packed(k, t)
  {
    var last := |o| - 1;
    if k == Count(o[..last], t) {
      p := last;
    } else {
      p := RankedFind(o[..last], t, k);
    }
  }

  // ----- Additions keep the agreement and append one item -----

  lemma Snoc(n: NodeData, o: seq<int>, x: int, t: int)
    ensures Count(o + [x], t) == Count(o, t) + if x % 4 == t then 1 else 0
    ensures Ranked(o + [x]) <==> Ranked(o) && x / 4 == Count(o, x % 4)
    ensures InRange(n, o + [x]) <==> InRange(n, o) && Resolves(n, x)
    ensures AllSound(n.children) && InRange(n, o + [x]) ==> Contents(n, o + [x]) == Contents(n, o) + Entry(n, x)
  {
    assert (o + [x])[..|o|] == o;
  }

  lemma {:induction false} ContentsAgree(n: NodeData, m: NodeData, o: seq<int>)
    requires InRange(n, o) && AllSound(n.children) && AllSound(m.children)
    requires forall i | 0 <= i < |o| :: Resolves(n, o[i]) && Resolves(m, o[i]) && Entry(m, o[i]) == Entry(n, o[i])
    ensures InRange(m, o) && Contents(m, o) == Contents(n, o)
    decreases |o|
  {
    if o != [] { ContentsAgree(n, m, o[..|o|-1]); }
  }

  lemma AddEntry(n: NodeData, m: NodeData, x: int)
    requires Sound(n) && m.order == n.order + [x] && AllSound(m.children)
    requires n.children <= m.children && n.attributes <= m.attributes
    requires n.texts <= m.texts && n.clears <= m.clears
    requires x / 4 == n.Size(x % 4)
    requires forall t: int | 0 <= t < 4 :: m.Size(t) == n.Size(t) + if t == x % 4 then 1 else 0
    ensures Sound(m) && InRange(n, n.order) && InRange(m, m.order) && Resolves(m, x)
    ensures Contents(m, m.order) == Contents(n, n.order) + Entry(m, x)
  {
    hide View, Contents, Ranked, Count;
    forall t: int | 0 <= t < 4 ensures Count(m.order, t) == m.Size(t) { Snoc(m, n.order, x, t); }
    Snoc(m, n.order, x, x % 4);
    SoundInRange(n);
    SoundInRange(m);
    assert forall i | 0 <= i < |n.order| :: m.order[i] == n.order[i];
    ContentsAgree(n, m, n.order);
  }

  lemma AddChildView(n: NodeData, c: NodeData)
    requires Sound(n) && Sound(c)
    ensures Sound(n.AddChild(c))
    ensures View(n.AddChild(c)) == View(n).(contents := View(n).contents + [Child(View(c))])
  {
    hide Contents, Ranked, Count, InRange;
    AddEntry(n, n.AddChild(c), Packed(|n.children|, CHILD));
  }

  lemma AddAttributeView(n: NodeData, a: XMLAttribute)
    requires Sound(n)
    ensures Sound(n.AddAttribute(a))
    ensures View(n.AddAttribute(a)) == View(n).(attributes := n.attributes + [a])
  {
    hide Contents, Ranked, Count, InRange;
    AddEntry(n, n.AddAttribute(a), Packed(|n.attributes|, ATTRIBUTE));
  }

  lemma AddTextView(n: NodeData, s: string)
    requires Sound(n)
    ensures Sound(n.AddText(s))
    ensures View(n.AddText(s)) == View(n).(contents := View(n).contents + [Text(s)])
  {
    hide Contents, Ranked, Count, InRange;
    AddEntry(n, n.AddText(s), Packed(|n.texts|, TEXT));
  }

  lemma AddClearView(n: NodeData, c: XMLClear)
    requires Sound(n)
    ensures Sound(n.AddClear(c))
    ensures View(n.AddClear(c)) == View(n).(contents := View(n).contents + [Clear(c)])
  {
    hide Contents, Ranked, Count, InRange;
    AddEntry(n, n.AddClear(c), Packed(|n.clears|, CLEAR));
  }

  // ----- Removal -----

  function Without<T>(s: seq<T>, q: nat): seq<T>
    requires q < |s|
  {
    s[..q] + s[q+1..]
  }

  // A later entry of the removed entry's type moves down by one.
  function Shifted(x: int, t: int): int
  {
    if x % 4 == t then x - 4 else x
  }

  // The order array once its entry at p, of type t, is gone.
  function Removed(o: seq<int>, p: nat, t: int): seq<int>
    requires p < |o|
  {
    if p == |o| - 1 then o[..p] else Removed(o[..|o|-1], p, t) + [Shifted(o[|o|-1], t)]
  }

  lemma {:induction false} RemovedAt(o: seq<int>, p: nat, t: int)
    requires p < |o|
    ensures |Removed(o, p, t)| == |o| - 1
    ensures forall i | 0 <= i < p :: Removed(o, p, t)[i] == o[i]
    ensures forall i | p <= i < |o| - 1 :: Removed(o, p, t)[i] == Shifted(o[i+1], t)
  {
    if p < |o| - 1 { RemovedAt(o[..|o|-1], p, t); }
  }

  // Removing the entry at p keeps ranks right, for an entry of any type.
  lemma {:induction false} RemoveKeepsRanks(n: NodeData, o: seq<int>, p: nat, u: int)
    requires Ranked(o) && p < |o|
    ensures Ranked(Removed(o, p, o[p] % 4))
    ensures Count(o, u) == Count(Removed(o, p, o[p] % 4), u) + if u == o[p] % 4 then 1 else 0
    decreases |o|
  {
    var t := o[p] % 4;
    if p < |o| - 1 {
      var init, x := o[..|o|-1], o[|o|-1];
      RemoveKeepsRanks(n, init, p, u);
      RemoveKeepsRanks(n, init, p, x % 4);
      assert Shifted(x, t) % 4 == x % 4;
      Snoc(n, Removed(init, p, t), Shifted(x, t), u);
      Snoc(n, Removed(init, p, t), Shifted(x, t), x % 4);
    }
  }

  lemma AllSoundWithout(s: seq<NodeData>, k: nat)
    requires AllSound(s) && k < |s|
    ensures AllSound(Without(s, k))
  {
  }

  lemma RemovedSound(n: NodeData, k: nat, p: nat)
    requires Sound(n) && k < |n.children| && p < |n.order| && n.order[p] == Packed(k, CHILD)
    ensures Sound(n.RemoveChild(k, p))
  {
    hide Ranked, Count, Removed, AllSound;
    AllSoundWithout(n.children, k);
    RemoveKeepsRanks(n, n.order, p, CHILD);
    RemoveKeepsRanks(n, n.order, p, ATTRIBUTE);
    RemoveKeepsRanks(n, n.order, p, TEXT);
    RemoveKeepsRanks(n, n.order, p, CLEAR);
  }

  // A removed child leaves every other item, and their sequence, as they were.
  lemma RemoveChildView(n: NodeData, k: nat, p: nat)
    requires Sound(n) && k < |n.children| && p < |n.order| && n.order[p] == Packed(k, CHILD)
    ensures InRange(n, n.order[..p])
    ensures Sound(n.RemoveChild(k, p))
    ensures OneChildLess(View(n).contents, View(n.RemoveChild(k, p)).contents,
                         |Contents(n, n.order[..p])|, Child(View(n.children[k])))
    ensures View(n.RemoveChild(k, p)).attributes == View(n).attributes
  {
    RemovedSound(n, k, p);
    var m := n.RemoveChild(k, p);
    SoundInRange(n);
    SoundInRange(m);
    assert n.order[..|n.order|] == n.order;
    RemovedContents(n, m, k, p, |n.order|);
  }

  // What the first j entries of the two order arrays name, c items against d.
  ghost predicate OneChildLess(c: seq<Item>, d: seq<Item>, q: nat, x: Item) {
    q < |c| && c[q] == x && d == Without(c, q)
  }

  // The same for the first j entries of the order array.
  lemma {:induction false} RemovedContents(n: NodeData, m: NodeData, k: nat, p: nat, j: nat)
    requires Sound(n) && k < |n.children| && p < j <= |n.order| && n.order[p] == Packed(k, CHILD)
    requires m == n.RemoveChild(k, p) && AllSound(m.children)
    requires InRange(m, Removed(n.order[..j], p, CHILD))
    ensures InRange(n, n.order[..p]) && InRange(n, n.order[..j])
    ensures OneChildLess(Contents(n, n.order[..j]), Contents(m, Removed(n.order[..j], p, CHILD)),
                         |Contents(n, n.order[..p])|, Child(View(n.children[k])))
    decreases j
  {
    hide Contents, Removed, Entry, View, Ranked, Count, InRange, Without;
    PrefixInRange(n, p);
    PrefixInRange(n, j);
    PrefixInRange(n, j - 1);
    assert n.order[..j] == n.order[..j-1] + [n.order[j-1]];
    Snoc(n, n.order[..j-1], n.order[j-1], CHILD);
    if p == j - 1 {
      LastRemoved(n.order[..j]);
      ChildEntry(n, k);
      EntriesBefore(n, m, k, p);
      WithoutLast(Contents(n, n.order[..p]), Child(View(n.children[k])));
    } else {
      RemovedStep(n, m, k, p, j);
      RemovedContents(n, m, k, p, j - 1);
      WithoutSnoc(Contents(n, n.order[..j-1]), Entry(n, n.order[j-1]), |Contents(n, n.order[..p])|);
    }
  }

  lemma LastRemoved(o: seq<int>)
    requires o != []
    ensures Removed(o, |o| - 1, CHILD) == o[..|o| - 1]
  {
  }

  lemma ChildEntry(n: NodeData, k: nat)
    requires k < |n.children| && AllSound(n.children)
    ensures Resolves(n, Packed(k, CHILD)) && Entry(n, Packed(k, CHILD)) == [Child(View(n.children[k]))]
  {
  }

  lemma PrefixInRange(n: NodeData, j: nat)
    requires OrderAgrees(n) && j <= |n.order|
    ensures InRange(n, n.order[..j])
  {
    SoundInRange(n);
    InRangeFrom(n, n.order[..j]);
  }

  lemma RemovedStep(n: NodeData, m: NodeData, k: nat, p: nat, j: nat)
    requires Sound(n) && k < |n.children| && p < j - 1 < |n.order| && n.order[p] == Packed(k, CHILD)
    requires m == n.RemoveChild(k, p) && AllSound(m.children)
    requires InRange(m, Removed(n.order[..j], p, CHILD))
    ensures InRange(m, Removed(n.order[..j-1], p, CHILD)) && Resolves(n, n.order[j-1])
    ensures Contents(m, Removed(n.order[..j], p, CHILD)) ==
            Contents(m, Removed(n.order[..j-1], p, CHILD)) + Entry(n, n.order[j-1])
  {
    hide View, Entry, Ranked, Count;
    EntryAfter(n, m, k, p, j - 1);
    assert n.order[..j][..j-1] == n.order[..j-1];
    Snoc(m, Removed(n.order[..j-1], p, CHILD), Shifted(n.order[j-1], CHILD), 0);
  }

  lemma WithoutLast(s: seq<Item>, x: Item)
    ensures OneChildLess(s + [x], s, |s|, x)
  {
  }

  lemma WithoutSnoc<T>(s: seq<T>, e: seq<T>, q: nat)
    requires q < |s|
    ensures q < |s + e| && (s + e)[q] == s[q]
    ensures Without(s + e, q) == Without(s, q) + e
  {
  }

  lemma EntriesBefore(n: NodeData, m: NodeData, k: nat, p: nat)
    requires Sound(n) && k < |n.children| && p < |n.order| && n.order[p] == Packed(k, CHILD)
    requires m == n.RemoveChild(k, p) && AllSound(m.children)
    ensures InRange(n, n.order[..p]) && InRange(m, n.order[..p])
    ensures Contents(m, n.order[..p]) == Contents(n, n.order[..p])
  {
    var o := n.order[..p];
    SoundInRange(n);
    InRangeFrom(n, o);
    forall i | 0 <= i < |o| ensures Resolves(m, o[i]) && Entry(m, o[i]) == Entry(n, o[i]) {
      IndexGrows(n.order, i, p);
    }
    ContentsAgree(n, m, o);
  }

  // Of two entries of one type, the later has the larger index.
  lemma IndexGrows(o: seq<int>, i: nat, j: nat)
    requires Ranked(o) && i < j < |o|
    ensures o[i] / 4 >= 0
    ensures o[i] % 4 == o[j] % 4 ==> o[i] / 4 < o[j] / 4
  {
    RankedAt(o, i);
    RankedAt(o, j);
    assert o[..j][..i] == o[..i];
    CountPrefix(o[..j], i, o[i] % 4);
  }

  lemma EntryAfter(n: NodeData, m: NodeData, k: nat, p: nat, i: nat)
    requires Sound(n) && k < |n.children| && p < i < |n.order| && n.order[p] == Packed(k, CHILD)
    requires m == n.RemoveChild(k, p) && AllSound(m.children)
    ensures Resolves(n, n.order[i]) && Resolves(m, Shifted(n.order[i], CHILD))
    ensures Entry(m, Shifted(n.order[i], CHILD)) == Entry(n, n.order[i])
  {
    IndexGrows(n.order, p, i);
    SoundInRange(n);
    var x := n.order[i];
    if x % 4 == CHILD {
      assert Shifted(x, CHILD) % 4 == CHILD && Shifted(x, CHILD) / 4 == x / 4 - 1;
      assert m.children[x / 4 - 1] == n.children[x / 4];
    }
  }
}
