// The partial Merkle tree as an object: built by pushing bits and hashes, read
// back by advancing two counters.
module PartialMerkleTree {
  import opened Basics
  import opened PartialMerkle
  import opened PartialMerkleRoundTrip

  class CPartialMerkleTree {
    const H: PairHash
    var nTransactions: nat
    var vBits: seq<bool>
    var vHash: seq<Hash>
    var fBad: bool

    method HashOf(height: nat, pos: nat, txids: seq<Hash>) returns (r: Hash)
      requires |txids| == nTransactions && pos < Width(|txids|, height)
      ensures r == CalcHash(H, height, pos, txids)
      decreases height
    {
      if height == 0 {
        NodeHasLeaves(|txids|, 0, pos);
        r := txids[pos];
      } else {
        LeftChildExists(|txids|, height, pos);
        var left := HashOf(height - 1, pos * 2, txids);
        var right := left;
        if pos * 2 + 1 < Width(nTransactions, height - 1) {
          right := HashOf(height - 1, pos * 2 + 1, txids);
        }
        r := H(left, right);
      }
    }

    /** Whether a leaf below the node is matched. */
    method MatchBelow(height: nat, pos: nat, matches: seq<bool>) returns (r: bool)
      requires |matches| == nTransactions && pos < Width(|matches|, height)
      ensures r == ParentOfMatch(matches, height, pos)
    {
      hide Width, First, Last;
      NodeHasLeaves(|matches|, height, pos);
      r := false;
      for p := First(height, pos) to Last(nTransactions, height, pos)
        invariant r <==> exists q :: First(height, pos) <= q < p && matches[q]
      {
        r := r || matches[p];
      }
    }

    method TraverseAndBuild(height: nat, pos: nat, txids: seq<Hash>, matches: seq<bool>)
      requires |matches| == |txids| == nTransactions && pos < Width(|txids|, height)
      modifies this
      ensures nTransactions == old(nTransactions) && fBad == old(fBad)
      ensures vBits == old(vBits) + Build(H, height, pos, txids, matches).0
      ensures vHash == old(vHash) + Build(H, height, pos, txids, matches).1
      decreases height
    {
      hide Width, CalcHash, ParentOfMatch, Build;
      BuildUnfold(H, height, pos, txids, matches);
      ghost var bits, hashes := vBits, vHash;
      var parentOfMatch := MatchBelow(height, pos, matches);
      vBits := vBits + [parentOfMatch];
      if height == 0 || !parentOfMatch {
        var hash := HashOf(height, pos, txids);
        vHash := vHash + [hash];
      } else {
        TraverseAndBuild(height - 1, pos * 2, txids, matches);
        if pos * 2 + 1 < Width(nTransactions, height - 1) {
          ghost var (b1, h1) := Build(H, height - 1, 2 * pos, txids, matches);
          ghost var (b2, h2) := Build(H, height - 1, 2 * pos + 1, txids, matches);
          TraverseAndBuild(height - 1, pos * 2 + 1, txids, matches);
          assert vBits == bits + ([true] + b1 + b2) && vHash == hashes + (h1 + h2);
        } else {
          ghost var (b1, h1) := Build(H, height - 1, 2 * pos, txids, matches);
          assert vBits == bits + ([true] + b1) && vHash == hashes + h1;
        }
      }
    }

    /** From a list of ids and the mask of those that match. */
    constructor FromTxids(H: PairHash, txids: seq<Hash>, matches: seq<bool>)
      requires txids != [] && |matches| == |txids|
      ensures this.H == H && nTransactions == |txids| && !fBad
      ensures (vBits, vHash) == BuildAll(H, txids, matches)
    {
      this.H := H;
      nTransactions := |txids|;
      vBits, vHash, fBad := [], [], false;
      new;
      var height := FindHeight(nTransactions);
      RootCoversAll(nTransactions, height);
      TraverseAndBuild(height, 0, txids, matches);
      assert vBits == Build(H, height, 0, txids, matches).0 && vHash == Build(H, height, 0, txids, matches).1;
    }

    /** From the serialised form: the hashes and the packed flag bits. */
    constructor FromBytes(H: PairHash, nTransactions: nat, hashes: seq<Hash>, bytes: seq<bv8>)
      ensures this.H == H && this.nTransactions == nTransactions && !fBad
      ensures vBits == Unpacked(bytes) && vHash == hashes
    {
      var bits := Unpack(bytes);
      this.H, this.nTransactions := H, nTransactions;
      vBits, vHash, fBad := bits, hashes, false;
    }

    method TraverseAndExtract(height: nat, pos: nat, bitsUsed: nat, hashUsed: nat, matched: seq<Hash>)
      returns (hash: Hash, bitsUsed': nat, hashUsed': nat, matched': seq<Hash>)
      modifies this`fBad
      ensures (hash, Cursor(bitsUsed', hashUsed', matched', fBad))
              == Extract(H, nTransactions, vBits, vHash, height, pos, Cursor(bitsUsed, hashUsed, matched, old(fBad)))
      decreases height
    {
      hide Width;
      hash, bitsUsed', hashUsed', matched' := 0, bitsUsed, hashUsed, matched;
      if bitsUsed >= |vBits| {
        fBad := true;
        return;
      }
      var parentOfMatch := vBits[bitsUsed'];
      bitsUsed' := bitsUsed' + 1;
      if height == 0 || !parentOfMatch {
        if hashUsed >= |vHash| {
          fBad := true;
          return;
        }
        hash := vHash[hashUsed'];
        hashUsed' := hashUsed' + 1;
        if height == 0 && parentOfMatch {
          matched' := matched' + [hash];
        }
      } else {
        var left, right;
        left, bitsUsed', hashUsed', matched' := TraverseAndExtract(height - 1, pos * 2, bitsUsed', hashUsed', matched');
        if pos * 2 + 1 < Width(nTransactions, height - 1) {
          right, bitsUsed', hashUsed', matched' := TraverseAndExtract(height - 1, pos * 2 + 1, bitsUsed', hashUsed', matched');
          if right == left {
            fBad := true;
          }
        } else {
          right := left;
        }
        hash := H(left, right);
      }
    }

    /** The root, or zero when something is wrong, and the matched ids. */
    method Matches() returns (root: Hash, matched: seq<Hash>)
      modifies this`fBad
      ensures (root, matched) == ExtractMatches(H, nTransactions, vBits, vHash, old(fBad))
    {
      matched := [];
      if nTransactions == 0 {
        return 0, [];
      }
      if nTransactions > MAX_BLOCK_SIZE / 60 {
        return 0, [];
      }
      if |vHash| > nTransactions {
        return 0, [];
      }
      if |vBits| < |vHash| {
        return 0, [];
      }
      var height := FindHeight(nTransactions);
      var bitsUsed, hashUsed;
      root, bitsUsed, hashUsed, matched := TraverseAndExtract(height, 0, 0, 0, matched);
      if fBad {
        return 0, matched;
      }
      if (bitsUsed + 7) / 8 != (|vBits| + 7) / 8 {
        return 0, matched;
      }
      if hashUsed != |vHash| {
        return 0, matched;
      }
    }
  }

  // Building, sending and reading back, as one run of the code.
  method Relay(H: PairHash, txids: seq<Hash>, matches: seq<bool>) returns (root: Hash, matched: seq<Hash>)
    requires Injective(H) && Distinct(txids)
    requires txids != [] && |matches| == |txids| && |txids| <= MAX_BLOCK_SIZE / 60
    ensures root == MerkleRoot(H, txids) && matched == Selected(txids, matches)
  {
    var sent := new CPartialMerkleTree.FromTxids(H, txids, matches);
    var bytes := Pack(sent.vBits);
    var received := new CPartialMerkleTree.FromBytes(H, sent.nTransactions, sent.vHash, bytes);
    DistinctRoundTrip(H, txids, matches, bytes);
    root, matched := received.Matches();
  }
}
