/**
 * Address blocks as CIDR prefixes (section 3.1 of RFC 4632): comparison by end points,
 * and the fact about prefixes that makes subtraction by repeated halving correct.
 */
module AddressBlocks {

  datatype Version = V4 | V6

  /** The addresses whose bits before the last `hostBits` spell `prefix`. */
  datatype Block = Block(version: Version, prefix: nat, hostBits: nat)

  function Pow2(n: nat): (p: nat)
    ensures p >= 1
  {
    if n == 0 then 1 else 2 * Pow2(n - 1)
  }

  function First(b: Block): nat { b.prefix * Pow2(b.hostBits) }

  function Last(b: Block): nat { First(b) + Pow2(b.hostBits) - 1 }

  predicate Contains(b: Block, address: nat) {
    First(b) <= address <= Last(b)
  }

  predicate SubnetOf(inner: Block, outer: Block) {
    && inner.version == outer.version
    && First(outer) <= First(inner) && Last(inner) <= Last(outer)
  }

  /** One end of one block lies in the other. */
  predicate Overlaps(a: Block, b: Block) {
    || Contains(a, First(b)) || Contains(a, Last(b))
    || Contains(b, First(a)) || Contains(b, Last(a))
  }

  lemma OverlapMeansShared(a: Block, b: Block)
    ensures Overlaps(a, b) <==> exists address :: Contains(a, address) && Contains(b, address)
  {
    if Overlaps(a, b) {
      var shared := if First(a) <= First(b) then First(b) else First(a);
      assert Contains(a, shared) && Contains(b, shared);
    }
  }

  // ---- prefixes -------------------------------------------------------------------

  /** An address without its last `n` bits. */
  function Shift(address: nat, n: nat): nat {
    if n == 0 then address else Shift(address, n - 1) / 2
  }

  lemma {:induction false} ShiftInterval(address: nat, n: nat, prefix: nat)
    ensures Shift(address, n) == prefix <==> prefix * Pow2(n) <= address < (prefix + 1) * Pow2(n)
  {
    if n > 0 {
      var half := Pow2(n - 1);
      ShiftInterval(address, n - 1, 2 * prefix);
      ShiftInterval(address, n - 1, 2 * prefix + 1);
      TwoHalves(prefix, half);
    }
  }

  lemma TwoHalves(prefix: nat, half: nat)
    ensures prefix * (2 * half) == (2 * prefix) * half
    ensures (2 * prefix + 1) * half == (2 * prefix) * half + half
    ensures (prefix + 1) * (2 * half) == (2 * prefix + 1 + 1) * half == (2 * prefix + 1) * half + half
  {
  }

  lemma ContainsIsPrefix(b: Block, address: nat)
    ensures Contains(b, address) <==> Shift(address, b.hostBits) == b.prefix
  {
    ShiftInterval(address, b.hostBits, b.prefix);
    assert (b.prefix + 1) * Pow2(b.hostBits) == First(b) + Pow2(b.hostBits);
  }

  lemma {:induction false} ShiftTwice(address: nat, m: nat, n: nat)
    ensures Shift(address, m + n) == Shift(Shift(address, m), n)
  {
    if n > 0 {
      ShiftTwice(address, m, n - 1);
    }
  }

  /** A block is determined inside a larger one by a single common address. */
  lemma SharedAddressNests(small: Block, large: Block, address: nat)
    requires small.version == large.version && small.hostBits <= large.hostBits
    requires Contains(small, address) && Contains(large, address)
    ensures SubnetOf(small, large)
  {
    var up := large.hostBits - small.hostBits;
    ContainsIsPrefix(small, address);
    ContainsIsPrefix(large, address);
    ShiftTwice(address, small.hostBits, up);
    ContainsIsPrefix(small, First(small));
    ContainsIsPrefix(small, Last(small));
    ShiftTwice(First(small), small.hostBits, up);
    ShiftTwice(Last(small), small.hostBits, up);
    ContainsIsPrefix(large, First(small));
    ContainsIsPrefix(large, Last(small));
  }

  /** Blocks of one version nest or are disjoint. */
  lemma MeetingBlocksNest(a: Block, b: Block)
    requires a.version == b.version && Overlaps(a, b)
    ensures SubnetOf(a, b) || SubnetOf(b, a)
  {
    OverlapMeansShared(a, b);
    var address :| Contains(a, address) && Contains(b, address);
    if a.hostBits <= b.hostBits {
      SharedAddressNests(a, b, address);
    } else {
      SharedAddressNests(b, a, address);
    }
  }

  lemma {:induction false} Pow2Grows(m: nat, n: nat)
    requires m < n
    ensures Pow2(m) < Pow2(n)
  {
    if m < n - 1 {
      Pow2Grows(m, n - 1);
    }
  }

  /** A block inside another has fewer host bits, or is the same block. */
  lemma InsideIsSmaller(inner: Block, outer: Block)
    requires SubnetOf(inner, outer)
    ensures inner.hostBits <= outer.hostBits
    ensures inner.hostBits == outer.hostBits ==> inner == outer
  {
    if inner.hostBits > outer.hostBits {
      Pow2Grows(outer.hostBits, inner.hostBits);
    }
    if inner.hostBits == outer.hostBits {
      ContainsIsPrefix(inner, First(inner));
      ContainsIsPrefix(outer, First(inner));
    }
  }

  // ---- halves ---------------------------------------------------------------------

  function LowerHalf(b: Block): Block
    requires b.hostBits > 0
  {
    Block(b.version, 2 * b.prefix, b.hostBits - 1)
  }

  function UpperHalf(b: Block): Block
    requires b.hostBits > 0
  {
    Block(b.version, 2 * b.prefix + 1, b.hostBits - 1)
  }

  /** Every address of a block is in exactly one of its halves. */
  lemma HalvesSplit(b: Block, address: nat)
    requires b.hostBits > 0
    ensures Contains(b, address) <==>
            Contains(LowerHalf(b), address) || Contains(UpperHalf(b), address)
    ensures !(Contains(LowerHalf(b), address) && Contains(UpperHalf(b), address))
  {
    ContainsIsPrefix(b, address);
    ContainsIsPrefix(LowerHalf(b), address);
    ContainsIsPrefix(UpperHalf(b), address);
  }

  /** A proper sub-block lies in one half. */
  lemma InOneHalf(inner: Block, outer: Block)
    requires SubnetOf(inner, outer) && inner != outer
    ensures outer.hostBits > 0
    ensures SubnetOf(inner, LowerHalf(outer)) || SubnetOf(inner, UpperHalf(outer))
  {
    InsideIsSmaller(inner, outer);
    HalvesSplit(outer, First(inner));
    assert Contains(inner, First(inner)) && Contains(outer, First(inner));
    if Contains(LowerHalf(outer), First(inner)) {
      SharedAddressNests(inner, LowerHalf(outer), First(inner));
    } else {
      SharedAddressNests(inner, UpperHalf(outer), First(inner));
    }
  }

  // ---- lists of blocks ------------------------------------------------------------

  /** The address lies in a block of the list, all of which have one version. */
  predicate Covered(blocks: seq<Block>, address: nat) {
    exists i | 0 <= i < |blocks| :: Contains(blocks[i], address)
  }

  /** No address is counted twice. */
  ghost predicate Disjoint(blocks: seq<Block>) {
    forall i, j, address | 0 <= i < j < |blocks| && Contains(blocks[i], address) ::
      !Contains(blocks[j], address)
  }

  predicate OfVersion(blocks: seq<Block>, version: Version) {
    forall i | 0 <= i < |blocks| :: blocks[i].version == version
  }

  predicate AllInside(blocks: seq<Block>, outer: Block) {
    forall i | 0 <= i < |blocks| :: SubnetOf(blocks[i], outer)
  }
}
