/** Removing excluded blocks from a list of blocks, as the scope check does it. */
module BlockSubtraction {
  import opened AddressBlocks

  /** `rest` is, without overlap, the addresses of `network` that are not in `excluded`. */
  ghost predicate IsRemainder(rest: seq<Block>, network: Block, excluded: Block) {
    && Disjoint(rest) && AllInside(rest, network)
    && forall a: nat :: Covered(rest, a) <==> Contains(network, a) && !Contains(excluded, a)
  }

  lemma CoveredAppend(blocks: seq<Block>, more: seq<Block>, address: nat)
    ensures Covered(blocks + more, address) <==> Covered(blocks, address) || Covered(more, address)
  {
    var all := blocks + more;
    if Covered(blocks, address) {
      var i :| 0 <= i < |blocks| && Contains(blocks[i], address);
      assert Contains(all[i], address);
    }
    if Covered(more, address) {
      var i :| 0 <= i < |more| && Contains(more[i], address);
      assert Contains(all[|blocks| + i], address);
    }
    if Covered(all, address) {
      var i :| 0 <= i < |all| && Contains(all[i], address);
      assert i < |blocks| || Contains(more[i - |blocks|], address);
    }
  }

  lemma DisjointAppend(blocks: seq<Block>, more: seq<Block>)
    requires Disjoint(blocks) && Disjoint(more)
    requires forall a: nat :: !(Covered(blocks, a) && Covered(more, a))
    ensures Disjoint(blocks + more)
  {
    var all := blocks + more;
    forall i, j, a: nat | 0 <= i < j < |all| && Contains(all[i], a) ensures !Contains(all[j], a) {
      if i < |blocks| <= j {
        assert Covered(blocks, a) && !Covered(more, a);
        assert all[j] == more[j - |blocks|];
      }
    }
  }

  /** Give up one half that the excluded block is not in. */
  lemma HalfMoves(out: seq<Block>, network: Block, parent: Block, kept: Block, dropped: Block)
    requires parent.hostBits > 0 && SubnetOf(parent, network)
    requires (kept == LowerHalf(parent) && dropped == UpperHalf(parent)) ||
             (kept == UpperHalf(parent) && dropped == LowerHalf(parent))
    requires IsRemainder(out, network, parent)
    ensures IsRemainder(out + [dropped], network, kept) && SubnetOf(kept, network)
  {
    forall a: nat
      ensures Covered(out + [dropped], a) <==> Contains(network, a) && !Contains(kept, a)
      ensures !(Covered(out, a) && Covered([dropped], a))
    {
      HalvesSplit(parent, a);
      CoveredAppend(out, [dropped], a);
      assert Covered([dropped], a) <==> Contains(dropped, a) by {
        assert Contains(dropped, a) ==> Contains([dropped][0], a);
      }
    }
    HalvesInside(parent);
    DisjointAppend(out, [dropped]);
  }

  lemma HalvesInside(b: Block)
    requires b.hostBits > 0
    ensures SubnetOf(LowerHalf(b), b) && SubnetOf(UpperHalf(b), b)
  {
    HalvesSplit(b, First(LowerHalf(b)));
    HalvesSplit(b, Last(LowerHalf(b)));
    HalvesSplit(b, First(UpperHalf(b)));
    HalvesSplit(b, Last(UpperHalf(b)));
  }

  /** What is left of a block without one sub-block: one piece per halving. */
  method AddressExclude(network: Block, excluded: Block) returns (out: seq<Block>)
    requires SubnetOf(excluded, network)
    ensures IsRemainder(out, network, excluded)
    ensures excluded.hostBits <= network.hostBits && |out| == network.hostBits - excluded.hostBits
  {
    out := [];
    if excluded == network {
      return;
    }
    InOneHalf(excluded, network);
    HalvesInside(network);
    ghost var parent := network;
    var s1, s2 := LowerHalf(network), UpperHalf(network);
    while s1 != excluded && s2 != excluded
      invariant parent.hostBits > 0 && s1 == LowerHalf(parent) && s2 == UpperHalf(parent)
      invariant SubnetOf(parent, network) && IsRemainder(out, network, parent)
      invariant SubnetOf(excluded, s1) || SubnetOf(excluded, s2)
      invariant |out| == network.hostBits - parent.hostBits
      decreases s1.hostBits
    {
      var kept, dropped := s2, s1;
      if SubnetOf(excluded, s1) {
        kept, dropped := s1, s2;
      }
      HalfMoves(out, network, parent, kept, dropped);
      out := out + [dropped];
      InOneHalf(excluded, kept);
      parent := kept;
      s1, s2 := LowerHalf(kept), UpperHalf(kept);
    }
    if s1 == excluded {
      HalfMoves(out, network, parent, s1, s2);
      out := out + [s2];
    } else {
      HalfMoves(out, network, parent, s2, s1);
      out := out + [s1];
    }
  }

  /** Remove one block from every block of a list. */
  method Subtract(networks: seq<Block>, excluded: Block) returns (result: seq<Block>)
    requires OfVersion(networks, excluded.version)
    ensures OfVersion(result, excluded.version)
    ensures forall a: nat :: Covered(result, a) <==> Covered(networks, a) && !Contains(excluded, a)
    ensures Disjoint(networks) ==> Disjoint(result)
  {
    result := [];
    for n := 0 to |networks|
      invariant OfVersion(result, excluded.version)
      invariant forall a: nat ::
                  Covered(result, a) <==> Covered(networks[..n], a) && !Contains(excluded, a)
      invariant Disjoint(networks) ==> Disjoint(result)
    {
      var network := networks[n];
      var pieces := [];
      if !Overlaps(network, excluded) {
        pieces := [network];
        OverlapMeansShared(network, excluded);
      } else {
        MeetingBlocksNest(network, excluded);
        if !SubnetOf(network, excluded) {
          pieces := AddressExclude(network, excluded);
        }
      }
      PiecesExtend(networks, n, result, pieces, excluded);
      result := result + pieces;
    }
    assert networks[..|networks|] == networks;
  }

  lemma PiecesExtend(networks: seq<Block>, n: nat, result: seq<Block>, pieces: seq<Block>, excluded: Block)
    requires n < |networks|
    requires forall a: nat ::
               Covered(result, a) <==> Covered(networks[..n], a) && !Contains(excluded, a)
    requires || (pieces == [networks[n]] &&
                 forall a: nat :: !(Contains(networks[n], a) && Contains(excluded, a)))
             || (pieces == [] && SubnetOf(networks[n], excluded))
             || IsRemainder(pieces, networks[n], excluded)
    ensures forall a: nat ::
              Covered(result + pieces, a) <==> Covered(networks[..n + 1], a) && !Contains(excluded, a)
    ensures Disjoint(networks) && Disjoint(result) ==> Disjoint(result + pieces)
  {
    forall a: nat
      ensures Covered(pieces, a) <==> Contains(networks[n], a) && !Contains(excluded, a)
      ensures Covered(result + pieces, a) <==>
              Covered(networks[..n + 1], a) && !Contains(excluded, a)
    {
      assert pieces == [networks[n]] ==> (Contains(pieces[0], a) <==> Covered(pieces, a));
      CoveredAppend(result, pieces, a);
      CoveredAppend(networks[..n], [networks[n]], a);
      assert networks[..n] + [networks[n]] == networks[..n + 1];
      assert Contains(networks[n], a) <==> Contains([networks[n]][0], a);
      assert Covered([networks[n]], a) <==> Contains(networks[n], a);
    }
    if Disjoint(networks) && Disjoint(result) {
      forall a: nat ensures !(Covered(result, a) && Covered(pieces, a)) {
        if Covered(networks[..n], a) {
          var i :| 0 <= i < n && Contains(networks[..n][i], a);
          assert Contains(networks[i], a);
        }
      }
      DisjointAppend(result, pieces);
    }
  }

  lemma PrefixCovers(blocks: seq<Block>, n: nat, address: nat)
    requires n < |blocks|
    ensures Covered(blocks[..n + 1], address) <==>
            Covered(blocks[..n], address) || Contains(blocks[n], address)
    ensures Covered(blocks[..n + 1], address) ==> Covered(blocks, address)
  {
    CoveredAppend(blocks[..n], [blocks[n]], address);
    assert blocks[..n] + [blocks[n]] == blocks[..n + 1];
    assert Contains(blocks[n], address) <==> Contains([blocks[n]][0], address);
    CoveredAppend(blocks[..n + 1], blocks[n + 1..], address);
    assert blocks[..n + 1] + blocks[n + 1..] == blocks;
  }

  /** What a loop over the exclusions has left of the network after `n` of them. */
  ghost predicate Remaining(left: seq<Block>, network: Block, exclusions: seq<Block>) {
    forall a: nat :: Covered(left, a) <==> Contains(network, a) && !Covered(exclusions, a)
  }

  lemma RemainingStarts(network: Block)
    ensures Remaining([network], network, [])
  {
    assert forall a: nat :: Contains(network, a) <==> Contains([network][0], a);
  }

  lemma RemainingSteps(left: seq<Block>, after: seq<Block>, network: Block, exclusions: seq<Block>, n: nat)
    requires n < |exclusions| && Remaining(left, network, exclusions[..n])
    requires forall a: nat :: Covered(after, a) <==> Covered(left, a) && !Contains(exclusions[n], a)
    ensures Remaining(after, network, exclusions[..n + 1])
    ensures after == [] ==> forall a: nat | Contains(network, a) :: Covered(exclusions, a)
  {
    forall a: nat
      ensures Covered(after, a) <==> Contains(network, a) && !Covered(exclusions[..n + 1], a)
      ensures after == [] && Contains(network, a) ==> Covered(exclusions, a)
    {
      PrefixCovers(exclusions, n, a);
    }
  }

  /** The list is used up exactly when every address of the network is in some exclusion. */
  method FullyExcluded(network: Block, overlapping: seq<Block>) returns (all: bool)
    requires OfVersion(overlapping, network.version)
    ensures all <==> forall a: nat | Contains(network, a) :: Covered(overlapping, a)
  {
    var remaining := [network];
    RemainingStarts(network);
    for n := 0 to |overlapping|
      invariant OfVersion(remaining, network.version) && remaining != []
      invariant Remaining(remaining, network, overlapping[..n])
    {
      var before := remaining;
      remaining := Subtract(remaining, overlapping[n]);
      RemainingSteps(before, remaining, network, overlapping, n);
      if remaining == [] {
        return true;
      }
    }
    assert overlapping[..|overlapping|] == overlapping;
    assert Contains(remaining[0], First(remaining[0]));
    assert Covered(remaining, First(remaining[0]));
    return false;
  }
}
