/** The finished blocks of an epoch, walked back from a version: what a gas estimate is made from. */
module BlockHistory {
  import opened Ledger

  datatype Block = Block(first: nat, last: nat)

  function BlockAt(l: seq<Txn>, w: nat): Block
    requires w < |l| && l[0].Genesis?
  {
    Block(First(l, w), Last(l, w))
  }

  /** Newest first, the blocks of epoch `e` from the one that holds `w` downwards. */
  function Back(l: seq<Txn>, w: nat, e: nat): seq<Block>
    requires w < |l| && l[0].Genesis?
  {
    if EpochOf(l, w) != e then []
    else [BlockAt(l, w)] + if First(l, w) == 0 then [] else Back(l, First(l, w) - 1, e)
  }

  /** Newest first, with strictly falling ends. */
  ghost predicate Falling(bs: seq<Block>) {
    forall i, j :: 0 <= i < j < |bs| ==> bs[i].last > bs[j].last
  }

  /** A version an estimate may look back from: it ends a block, and the next block is of epoch `e`. */
  ghost predicate LookupPoint(l: seq<Txn>, w: nat, e: nat) {
    EndsBlock(l, w) && EventEpoch(l[w + 1]) == e
  }

  /** The walk from a finished block of the epoch: that block, and the walk from the end of the one before. */
  lemma BackUnfold(l: seq<Txn>, w: nat, e: nat)
    requires WellFormed(l) && e >= 1 && EndsBlock(l, w) && EpochOf(l, w) == e
    ensures First(l, w) > 0 && EndsBlock(l, First(l, w) - 1)
    ensures Back(l, w, e) == [Block(First(l, w), w)] + Back(l, First(l, w) - 1, e)
  {
    hide EpochsRise;
  }

  lemma {:induction false} BackFacts(l: seq<Txn>, w: nat, e: nat)
    requires WellFormed(l) && w < |l| && e >= 1 && EndsBlock(l, w)
    ensures var bs := Back(l, w, e);
            && Falling(bs)
            && (bs != [] ==> bs[0].last == w)
            && (forall i :: 0 <= i < |bs| ==>
                  && 1 <= bs[i].first <= bs[i].last <= w
                  && EpochOf(l, bs[i].last) == e)
  {
    hide EpochsRise, First, Last, Back, EpochOf;
    if EpochOf(l, w) == e {
      BackUnfold(l, w, e);
      BackFacts(l, First(l, w) - 1, e);
    } else {
      BackStep(l, w, e);
    }
  }

  lemma BackStep(l: seq<Txn>, w: nat, e: nat)
    requires w < |l| && l[0].Genesis?
    ensures Back(l, w, e) ==
            if EpochOf(l, w) != e then []
            else [BlockAt(l, w)] + if First(l, w) == 0 then [] else Back(l, First(l, w) - 1, e)
  {
    hide First, Last, EpochOf;
  }

  /** A block in full: it starts with the only new-block event in it, and the next version starts another. */
  ghost predicate WholeBlock(l: seq<Txn>, b: Block) {
    && 0 < b.first <= b.last && b.last + 1 < |l|
    && StartsBlock(l[b.first]) && StartsBlock(l[b.last + 1])
    && forall i :: b.first < i <= b.last ==> !StartsBlock(l[i])
  }

  /** Whole blocks of an epoch: the one that ends at `w`, the one that ends right before it, and so on back to the
      first of the epoch. */
  ghost predicate EpochBlocks(l: seq<Txn>, w: nat, e: nat, bs: seq<Block>)
    requires w < |l| && l[0].Genesis?
    decreases |bs|
  {
    if bs == [] then EpochOf(l, w) != e
    else
      && WholeBlock(l, bs[0]) && bs[0].last == w && EventEpoch(l[bs[0].first]) == e
      && EpochBlocks(l, bs[0].first - 1, e, bs[1..])
  }

  /** That is what the walk back lists. */
  lemma {:induction false} BackIs(l: seq<Txn>, w: nat, e: nat)
    requires WellFormed(l) && w < |l| && e >= 1 && EndsBlock(l, w)
    ensures EpochBlocks(l, w, e, Back(l, w, e))
  {
    hide EpochsRise, Back, First, Last, EpochOf, WholeBlock;
    if EpochOf(l, w) == e {
      BackUnfold(l, w, e);
      WholeBlockAt(l, w);
      BackIs(l, First(l, w) - 1, e);
      WholeBlockStarts(l, Block(First(l, w), w));
      assert ([Block(First(l, w), w)] + Back(l, First(l, w) - 1, e))[1..] == Back(l, First(l, w) - 1, e);
    } else {
      BackStep(l, w, e);
    }
  }

  lemma WholeBlockStarts(l: seq<Txn>, b: Block)
    requires WholeBlock(l, b)
    ensures 0 < b.first <= b.last && b.last + 1 < |l| && StartsBlock(l[b.first])
  {
  }

  lemma WholeBlockAt(l: seq<Txn>, w: nat)
    requires WellFormed(l) && EndsBlock(l, w) && First(l, w) > 0
    ensures WholeBlock(l, Block(First(l, w), w)) && EventEpoch(l[First(l, w)]) == EpochOf(l, w)
  {
    hide EpochsRise;
    NoStartBelow(l, w);
  }

  /** A finished block never changes, so neither does the walk back from it. */
  lemma {:induction false} BackStable(l: seq<Txn>, l': seq<Txn>, w: nat, e: nat)
    requires WellFormed(l) && WellFormed(l') && l <= l' && EndsBlock(l, w)
    ensures EndsBlock(l', w) && Back(l', w, e) == Back(l, w, e)
  {
    hide EpochsRise, First, Last, EpochOf, Back;
    BlockStable(l, l', w);
    BackStep(l, w, e);
    BackStep(l', w, e);
    var f := First(l, w);
    if f > 0 {
      BackStable(l, l', f - 1, e);
    }
  }

  lemma EpochBetween(l: seq<Txn>, w: nat, w': nat, e: nat)
    requires WellFormed(l) && w < w' && LookupPoint(l, w, e) && LookupPoint(l, w', e)
    ensures First(l, w') > w && EpochOf(l, w') == e && LookupPoint(l, First(l, w') - 1, e)
  {
    EpochMonotone(l, w + 1, w');
    EpochMonotone(l, w', w' + 1);
    FirstIsLatest(l, w', w + 1);
    assert First(l, w + 1) == w + 1 && First(l, w' + 1) == w' + 1;
  }

  /** `b` is what remains of `a` after dropping some newer blocks. */
  ghost predicate Suffix(b: seq<Block>, a: seq<Block>) {
    |b| <= |a| && a[|a| - |b|..] == b
  }

  lemma SuffixCons(b: seq<Block>, a: seq<Block>, x: Block)
    requires Suffix(b, a)
    ensures Suffix(b, [x] + a)
  {
    assert ([x] + a)[1 + |a| - |b|..] == a[|a| - |b|..];
  }

  /** Looking back from a later point of the same epoch only puts newer blocks in front. */
  lemma {:induction false} BackExtends(l: seq<Txn>, w: nat, w': nat, e: nat)
    requires WellFormed(l) && w <= w' && LookupPoint(l, w, e) && LookupPoint(l, w', e)
    ensures Suffix(Back(l, w, e), Back(l, w', e))
    ensures w < w' ==> |Back(l, w, e)| < |Back(l, w', e)|
    decreases w'
  {
    if w < w' {
      EpochBetween(l, w, w', e);
      BackExtends(l, w, First(l, w') - 1, e);
      SuffixCons(Back(l, w, e), Back(l, First(l, w') - 1, e), BlockAt(l, w'));
    }
  }
}
