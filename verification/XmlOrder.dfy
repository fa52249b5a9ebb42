/** Runs of additions and removals on a node: the order array keeps up with the contents. */
module XmlOrder {
  import opened XmlTree

  // One addition, or one removal of a child.
  ghost predicate CanFollow(n: NodeData, m: NodeData) {
    || (exists c :: Sound(c) && m == n.AddChild(c))
    || (exists a :: m == n.AddAttribute(a))
    || (exists s :: m == n.AddText(s))
    || (exists c :: m == n.AddClear(c))
    || exists k: nat, p: nat :: RemovesChild(n, m, k, p)
  }

  predicate RemovesChild(n: NodeData, m: NodeData, k: nat, p: nat) {
    k < |n.children| && p < |n.order| && n.order[p] == Packed(k, CHILD) && m == n.RemoveChild(k, p)
  }

  ghost predicate IsRun(nodes: seq<NodeData>) {
    nodes != [] && Sound(nodes[0]) && forall i | 0 <= i < |nodes| - 1 :: CanFollow(nodes[i], nodes[i + 1])
  }

  lemma StepKeepsSound(n: NodeData, m: NodeData)
    requires Sound(n) && CanFollow(n, m)
    ensures Sound(m)
  {
    hide Sound;
    if c :| Sound(c) && m == n.AddChild(c) {
      AddChildView(n, c);
    } else if a :| m == n.AddAttribute(a) {
      AddAttributeView(n, a);
    } else if s :| m == n.AddText(s) {
      AddTextView(n, s);
    } else if c :| m == n.AddClear(c) {
      AddClearView(n, c);
    } else {
      var k: nat, p: nat :| RemovesChild(n, m, k, p);
      RemovedSound(n, k, p);
    }
  }

  // After any run, the entries of each type decode, in order, to 0, 1, ..., size - 1.
  lemma {:induction false} RunKeepsOrder(nodes: seq<NodeData>, i: nat, t: nat)
    requires IsRun(nodes) && i < |nodes| && t < 4
    ensures Sound(nodes[i]) && Indices(nodes[i].order, t) == seq(nodes[i].Size(t), k => k)
  {
    if i > 0 {
      RunKeepsOrder(nodes, i - 1, t);
      assert CanFollow(nodes[i - 1], nodes[i - 1 + 1]);
      StepKeepsSound(nodes[i - 1], nodes[i]);
    }
    DecodesInOrder(nodes[i].order, t);
  }
}
