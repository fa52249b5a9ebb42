/**
  The streaming hash: a context that takes a message piece by piece, against the
  digest of RFC 1321 on the whole message.
*/
module MD5 {
  import opened Bytes
  import opened MachineWords
  import opened MD5Transform

  // ----- The digest of a whole message -----

  // The blocks of m, folded by the block function.
  function Fold(m: seq<Byte>): State
    requires |m| % 64 == 0
  {
    if m == [] then INITIAL else Transform(Fold(m[..|m| - 64]), m[|m| - 64..])
  }

  // Section 3.1: how many bytes bring the length to 56 modulo 64; at least one.
  function PadLength(n: nat): nat {
    var index := n % 64;
    if index < 56 then 56 - index else 120 - index
  }

  function Padding(n: nat): (r: seq<Byte>)
    requires n >= 1
    ensures |r| == n
  {
    [0x80] + seq(n - 1, i => 0)
  }

  // Sections 3.1 and 3.2: a one bit, zeros, and the length in bits on 64 bits.
  function Padded(m: seq<Byte>): seq<Byte> {
    m + Padding(PadLength(|m|)) + Little(8 * |m| % TWO64, 8)
  }

  function Output(s: State): seq<Byte> {
    Little(s.a as nat, 4) + Little(s.b as nat, 4) + Little(s.c as nat, 4) + Little(s.d as nat, 4)
  }

  lemma PaddedLength(m: seq<Byte>)
    ensures |Padded(m)| % 64 == 0
    ensures |Padded(m)| == |m| + PadLength(|m|) + 8
  {
    hide Little, Padding;
    PadFills(|m|);
  }

  lemma PadFills(n: nat)
    ensures (n + PadLength(n) + 8) % 64 == 0 && 1 <= PadLength(n) <= 64
  {
    var q := n / 64;
    assert n == 64 * q + n % 64;
    assert n + PadLength(n) + 8 == 64 * (q + 1) || n + PadLength(n) + 8 == 64 * (q + 2);
  }

  function Digest(m: seq<Byte>): seq<Byte> {
    PaddedLength(m);
    Output(Fold(Padded(m)))
  }

  // ----- The bit counter, in two words of 32 bits -----

  // The counter after n more bytes, computed as the source does.
  function CountOn(c0: nat, c1: nat, n: nat): (nat, nat)
  {
    var low := U32(n * 8);
    var d0 := U32(c0 + low);
    var d1 := if d0 < low then U32(c1 + 1) else c1;
    (d0, U32(d1 + n / 0x2000_0000))
  }

  lemma CountIsLength(c0: nat, c1: nat, total: nat, n: nat)
    requires c0 < TWO32 && c1 < TWO32 && c0 + TWO32 * c1 == 8 * total % TWO64
    ensures var (d0, d1) := CountOn(c0, c1, n);
            d0 < TWO32 && d1 < TWO32 && d0 + TWO32 * d1 == 8 * (total + n) % TWO64
  {
    hide U32;
    var low, high := U32(n * 8), n / 0x2000_0000;
    SplitBits(n);
    var d0 := U32(c0 + low);
    var carry := if d0 < low then 1 else 0;
    LowWord(c0, low);
    var d1 := U32(c1 + carry + high);
    HighWord(c1, carry, high);
    var k := (c1 + carry + high) / TWO32;
    var q := 8 * total / TWO64;
    assert 8 * total == c0 + TWO32 * c1 + TWO64 * q;
    Remainder(8 * (total + n), d0 + TWO32 * d1, k + q);
  }

  lemma SplitBits(n: nat)
    ensures U32(n * 8) < TWO32 && n * 8 == U32(n * 8) + TWO32 * (n / 0x2000_0000)
  {
  }

  lemma LowWord(c0: nat, low: nat)
    requires c0 < TWO32 && low < TWO32
    ensures U32(c0 + low) < TWO32 && c0 + low == U32(c0 + low) + TWO32 * if U32(c0 + low) < low then 1 else 0
  {
  }

  lemma HighWord(c1: nat, carry: nat, high: nat)
    requires carry <= 1
    ensures U32((if carry == 1 then U32(c1 + 1) else c1) + high) == U32(c1 + carry + high)
    ensures U32(c1 + carry + high) < TWO32
    ensures c1 + carry + high == U32(c1 + carry + high) + TWO32 * ((c1 + carry + high) / TWO32)
  {
  }

  lemma Remainder(x: nat, r: nat, k: int)
    requires r < TWO64 && x == r + TWO64 * k
    ensures x % TWO64 == r
  {
  }

  // The low word tells how many bytes are waiting in the buffer.
  lemma IndexFromCount(c0: nat, c1: nat, total: nat)
    requires c0 < TWO32 && c0 + TWO32 * c1 == 8 * total % TWO64
    ensures c0 / 8 % 64 == total % 64
  {
    var q := 8 * total / TWO64;
    assert 8 * total == c0 + TWO32 * (c1 + TWO32 * q);
    var k := c1 + TWO32 * q;
    assert c0 == 8 * (total - 0x2000_0000 * k);
    assert c0 / 8 == total - 0x2000_0000 * k;
    assert total == total % 64 + 64 * (total / 64);
    assert c0 / 8 == total % 64 + 64 * (total / 64 - 0x80_0000 * k);
  }

  // The counter's eight bytes are the length field.
  lemma CountBytes(c0: nat, c1: nat)
    requires c0 < TWO32
    ensures Little(c0, 4) + Little(c1, 4) == Little(c0 + TWO32 * c1, 8)
  {
    LittleSplit(c0, c1, 4);
    assert Power256(3) == 256 * Power256(2) && Power256(4) == TWO32;
  }

  lemma {:induction false} LittleSplit(v: nat, w: nat, k: nat)
    requires v < Power256(k)
    ensures Little(v, k) + Little(w, 4) == Little(v + Power256(k) * w, k + 4)
  {
    hide Little;
    LittleStep(v, k);
    LittleStep(v + Power256(k) * w, k + 4);
    if k == 0 {
      assert [] + Little(w, 4) == Little(w, 4);
    } else {
      var p := Power256(k - 1);
      Below(v, p);
      LittleSplit(v / 256, w, k - 1);
      Shift(p, w);
      DropByte(v, p * w);
      Grouped(v % 256, Little(v / 256, k - 1), Little(w, 4));
    }
  }

  lemma LittleStep(v: nat, n: nat)
    ensures Little(v, n) == if n == 0 then [] else [v % 256] + Little(v / 256, n - 1)
  {
  }

  lemma Grouped(b: Byte, x: seq<Byte>, y: seq<Byte>)
    ensures ([b] + x) + y == [b] + (x + y)
  {
  }

  lemma Below(v: nat, p: nat)
    requires v < 256 * p
    ensures v / 256 < p
  {
  }

  lemma Shift(p: nat, w: nat)
    ensures 256 * p * w == 256 * (p * w)
  {
  }

  lemma DropByte(v: nat, x: nat)
    ensures (v + 256 * x) % 256 == v % 256 && (v + 256 * x) / 256 == v / 256 + x
  {
  }

  // ----- The context -----

  // How much of a message has gone through the block function.
  function Done(m: seq<Byte>): nat {
    |m| - |m| % 64
  }

  lemma DoneWhole(m: seq<Byte>)
    ensures Done(m) % 64 == 0 && Done(m) <= |m|
  {
  }

  lemma FoldSnoc(m: seq<Byte>, block: seq<Byte>)
    requires |m| % 64 == 0 && |block| == 64
    ensures (|m| + 64) % 64 == 0 && Fold(m + block) == Transform(Fold(m), block)
  {
    hide Transform;
    assert (m + block)[..|m|] == m && (m + block)[|m|..] == block;
  }

  // The loop over blocks from start ends behind the last whole one.
  predicate LoopStops(start: nat, size: nat)
    requires start <= size
  {
    size < TWO32 && U32(size - (size - start) % 64 + 63) >= size
  }

  lemma LoopStopsIff(start: nat, size: nat)
    requires start <= size < TWO32
    ensures LoopStops(start, size) <==> size - (size - start) % 64 <= TWO32 - 64
  {
    var i := size - (size - start) % 64;
    if i > TWO32 - 64 { assert U32(i + 63) == i + 63 - TWO32; }
  }

  // With i on a block boundary at or before the end, the guard tells whether a block is left.
  lemma NextBlock(start: nat, i: nat, size: nat)
    requires start <= i <= size - (size - start) % 64 <= TWO32 - 64 && (i - start) % 64 == 0
    ensures U32(i + 63) < size <==> i + 64 <= size - (size - start) % 64
    ensures i + 64 <= size - (size - start) % 64 ==> (i + 64 - start) % 64 == 0
    ensures i + 64 > size - (size - start) % 64 ==> i == size - (size - start) % 64
  {
    var q, r := (size - start) / 64, (i - start) / 64;
    assert size - (size - start) % 64 == start + 64 * q && i == start + 64 * r;
    assert i + 64 - start == 64 * (r + 1);
  }

  lemma NextSlice(before: seq<Byte>, input: seq<Byte>, start: nat, i: nat)
    requires start <= i && i + 64 <= |input|
    ensures before + input[start..i] + input[i..i + 64] == before + input[start..i + 64]
  {
  }

  // A piece of size bytes after n others: the loop counter stays in its 32 bits.
  predicate CounterHolds(n: nat, size: nat) {
    size - (n + size) % 64 <= TWO32 - 64
  }

  // The bound is exact: the loop ends where it should exactly for the pieces it admits.
  lemma CounterHoldsIff(n: nat, size: nat)
    requires 64 - n % 64 <= size < TWO32
    ensures LoopStops(64 - n % 64, size) <==> CounterHolds(n, size)
  {
    var start := 64 - n % 64;
    LoopStopsIff(start, size);
    var q := n / 64;
    assert n + size == 64 * (q + 1) + (size - start);
    SameRemainder(q + 1, size - start);
  }

  // A piece of 2^32 - 1 bytes after a single one: the guard lets the loop run past its end.
  lemma LoopRunsAway()
    ensures !CounterHolds(1, TWO32 - 1) && !LoopStops(63, TWO32 - 1)
  {
    CounterHoldsIff(1, TWO32 - 1);
  }

  lemma SameRemainder(q: nat, r: nat)
    ensures (64 * q + r) % 64 == r % 64
  {
  }

  class MD5_CTX {
    var state: State
    var count0: nat
    var count1: nat
    const buffer: array<Byte>
    // Everything given to the context so far.
    ghost var message: seq<Byte>

    ghost predicate Counts(n: nat)
      reads this
    {
      count0 < TWO32 && count1 < TWO32 && count0 + TWO32 * count1 == 8 * n % TWO64
    }

    ghost predicate Valid()
      reads this, buffer
    {
      && buffer.Length == 64 && Counts(|message|)
      && Done(message) % 64 == 0 && state == Fold(message[..Done(message)])
      && buffer[..|message| % 64] == message[Done(message)..]
    }

    // MD5Init on a new context.
    constructor ()
      ensures Valid() && message == [] && fresh(buffer)
    {
      buffer := new Byte[64];
      count0, count1, state := 0, 0, INITIAL;
      message := [];
    }

    // MD5_memcpy into the buffer.
    method CopyToBuffer(index: nat, input: seq<Byte>)
      requires buffer.Length == 64 && index + |input| <= 64
      modifies buffer
      ensures buffer[..index + |input|] == old(buffer[..index]) + input
    {
      var i := 0;
      while i < |input|
        invariant 0 <= i <= |input|
        invariant buffer[..index + i] == old(buffer[..index]) + input[..i]
      {
        buffer[index + i] := input[i];
        i := i + 1;
      }
    }

    method AddToCount(n: nat)
      requires n < TWO32 && Counts(|message|)
      modifies this`count0, this`count1
      ensures Counts(|message| + n)
    {
      hide U32;
      CountIsLength(count0, count1, |message|, n);
      var low := U32(n * 8);
      count0 := U32(count0 + low);
      if count0 < low { count1 := U32(count1 + 1); }
      count1 := U32(count1 + n / 0x2000_0000);
    }

    // The loop over the whole blocks of the input; its counter is an unsigned int.
    method TransformBlocks(input: seq<Byte>, start: nat, ghost before: seq<Byte>) returns (i: nat)
      requires start <= |input| && LoopStops(start, |input|) && |before| % 64 == 0 && state == Fold(before)
      modifies this`state
      ensures start <= i <= |input| < i + 64 && (i - start) % 64 == 0
      ensures |before + input[start..i]| % 64 == 0 && state == Fold(before + input[start..i])
    {
      hide Transform, Fold, U32;
      i := start;
      assert before + input[start..i] == before;
      LoopStopsIff(start, |input|);
      while U32(i + 63) < |input|
        invariant start <= i <= |input| - (|input| - start) % 64 && (i - start) % 64 == 0
        invariant |before + input[start..i]| % 64 == 0 && state == Fold(before + input[start..i])
        decreases |input| - i
      {
        NextBlock(start, i, |input|);
        FoldSnoc(before + input[start..i], input[i..i + 64]);
        NextSlice(before, input, start, i);
        state := Transform(state, input[i..i + 64]);
        i := i + 64;
      }
      NextBlock(start, i, |input|);
    }

    // The waiting block and the whole blocks of the input; start is where the rest of it goes.
    method WholeBlocks(input: seq<Byte>, index: nat) returns (i: nat, start: nat)
      requires buffer.Length == 64 && index == |message| % 64 && Done(message) % 64 == 0
      requires state == Fold(message[..Done(message)]) && buffer[..index] == message[Done(message)..]
      requires |input| >= 64 - index ==> LoopStops(64 - index, |input|)
      modifies this`state, buffer
      ensures i <= |input| && start + (|input| - i) == |message + input| % 64
      ensures var all := message + input;
              && Done(all) % 64 == 0 && state == Fold(all[..Done(all)])
              && buffer[..start] + input[i..] == all[Done(all)..]
    {
      hide Transform, Fold, Done, MD5_CTX.Counts;
      DoneWhole(message);
      var partLen := 64 - index;
      if |input| >= partLen {
        CopyToBuffer(index, input[..partLen]);
        FoldSnoc(message[..Done(message)], buffer[..]);
        FirstBlock(message, input, index, buffer[..]);
        state := Transform(state, buffer[..]);
        i := TransformBlocks(input, partLen, (message + input)[..|message| + partLen]);
        start := 0;
        Remaining(message, input, partLen, i);
      } else {
        i, start := 0, index;
        NoBlock(message, input, index);
      }
    }

    // The length of one piece is an unsigned int, and the loop counter must not wrap around.
    method Update(input: seq<Byte>)
      requires Valid() && |input| < TWO32 && CounterHolds(|message|, |input|)
      modifies this, buffer
      ensures Valid() && message == old(message) + input
    {
      hide Transform, Fold, Done;
      IndexFromCount(count0, count1, |message|);
      var index := count0 / 8 % 64;
      AddToCount(|input|);
      hide MD5_CTX.Counts;
      if |input| >= 64 - index { CounterHoldsIff(|message|, |input|); }
      var i, start := WholeBlocks(input, index);
      CopyToBuffer(start, input[i..]);
      message := message + input;
    }

    // The digest, and a context wiped clean.
    method Final() returns (digest: seq<Byte>)
      requires Valid()
      modifies this, buffer
      ensures digest == Digest(old(message))
      ensures count0 == count1 == 0 && state == State(0, 0, 0, 0)
      ensures forall k | 0 <= k < buffer.Length :: buffer[k] == 0
    {
      hide Transform, Fold, Little, Output, Padding;
      ghost var m := message;
      var bits := Little(count0, 4) + Little(count1, 4);
      CountBytes(count0, count1);
      IndexFromCount(count0, count1, |message|);
      var index := count0 / 8 % 64;
      var padLen := if index < 56 then 56 - index else 120 - index;
      PadFills(|m|);
      PaddedLength(m);
      Update(Padding(padLen));
      Update(bits);
      assert message == Padded(m) && message[..Done(message)] == message;
      digest := Output(state);
      Wipe();
    }

    // MD5_memset of the whole context.
    method Wipe()
      requires buffer.Length == 64
      modifies this, buffer
      ensures count0 == count1 == 0 && state == State(0, 0, 0, 0)
      ensures forall k | 0 <= k < buffer.Length :: buffer[k] == 0
    {
      count0, count1, state := 0, 0, State(0, 0, 0, 0);
      var i := 0;
      while i < 64
        invariant 0 <= i <= 64 == buffer.Length
        invariant count0 == count1 == 0 && state == State(0, 0, 0, 0)
        invariant forall k | 0 <= k < i :: buffer[k] == 0
      {
        buffer[i] := 0;
        i := i + 1;
      }
    }
  }

  function Concat(pieces: seq<seq<Byte>>): seq<Byte>
  {
    if pieces == [] then [] else Concat(pieces[..|pieces| - 1]) + pieces[|pieces| - 1]
  }

  // However a message is cut into pieces, the digest is that of the whole.
  method HashPieces(pieces: seq<seq<Byte>>) returns (digest: seq<Byte>)
    requires forall k | 0 <= k < |pieces| :: |pieces[k]| < TWO32 && CounterHolds(|Concat(pieces[..k])|, |pieces[k]|)
    ensures digest == Digest(Concat(pieces))
  {
    hide Digest, MD5_CTX.Valid;
    var ctx := new MD5_CTX();
    var i := 0;
    while i < |pieces|
      invariant 0 <= i <= |pieces|
      invariant fresh(ctx) && fresh(ctx.buffer) && ctx.Valid()
      invariant ctx.message == Concat(pieces[..i])
    {
      assert pieces[..i + 1][..i] == pieces[..i];
      ctx.Update(pieces[i]);
      i := i + 1;
    }
    assert pieces[..i] == pieces;
    digest := ctx.Final();
  }

  // The waiting bytes and the first of the input are the next block.
  lemma FirstBlock(m: seq<Byte>, input: seq<Byte>, index: nat, block: seq<Byte>)
    requires index == |m| % 64 && |input| >= 64 - index && block == m[Done(m)..] + input[..64 - index]
    ensures m[..Done(m)] + block == (m + input)[..|m| + 64 - index]
    ensures (|m| + 64 - index) % 64 == 0
  {
  }

  lemma Remaining(m: seq<Byte>, input: seq<Byte>, partLen: nat, i: nat)
    requires partLen == 64 - |m| % 64 && partLen <= i <= |input| < i + 64 && (i - partLen) % 64 == 0
    ensures var all := m + input;
            && all[..|m| + partLen] + input[partLen..i] == all[..|m| + i]
            && Done(all) == |m| + i && |all| % 64 == |input| - i && input[i..] == all[Done(all)..]
  {
    var q, r := |m| / 64, (i - partLen) / 64;
    assert |m| + i == 64 * (q + 1 + r);
    assert |m + input| == 64 * (q + 1 + r) + (|input| - i);
  }

  lemma NoBlock(m: seq<Byte>, input: seq<Byte>, index: nat)
    requires index == |m| % 64 && |input| < 64 - index
    ensures var all := m + input;
            && Done(all) == Done(m) && |all| % 64 == index + |input|
            && m[..Done(m)] == all[..Done(all)] && m[Done(m)..] + input == all[Done(all)..]
  {
    var q := |m| / 64;
    assert |m + input| == 64 * q + (index + |input|);
  }
}
