/** Feeding a retriever piece by piece. */
module Feeding {
  import opened Common
  import opened Bits
  import opened BlockFormat
  import opened Bitstreams
  import opened Retrieval
  import opened Retrievers

  lemma FlatNext<T>(pieces: seq<seq<T>>, i: nat)
    requires i < |pieces|
    ensures Flat(pieces[i..]) == pieces[i] + Flat(pieces[i + 1..])
  {
    assert pieces[i..][1..] == pieces[i + 1..];
  }

  /** The words of all pieces still to come, as bits. */
  ghost function Future(pieces: seq<seq<uint32>>, i: nat): seq<bit>
    requires i <= |pieces|
  {
    WordBits(Flat(pieces[i..]))
  }

  lemma FutureNext(held: seq<bit>, pieces: seq<seq<uint32>>, i: nat)
    requires i < |pieces|
    ensures held + WordBits(pieces[i]) + Future(pieces, i + 1) == held + Future(pieces, i)
  {
    FlatNext(pieces, i);
    WordBitsConcat(pieces[i], Flat(pieces[i + 1..]));
    Regrouped(held, WordBits(pieces[i]), Future(pieces, i + 1));
  }

  /** However the words of a block are cut into pieces, retrieving them piece by piece
      comes to what all of them together mean. */
  method RetrieveInPieces(bs: Bitstream, pieces: seq<seq<uint32>>) returns (rv: Status, r: Retriever, ghost taken: nat)
    requires bs.Valid()
    modifies bs
    ensures fresh(r) && bs.Valid() && taken <= |pieces| && rv != MORE
    ensures r.Leads(rv, ReadBlock(old(bs.Bits()) + WordBits(Flat(pieces))), bs.Bits() + Future(pieces, taken))
  {
    hide Retriever.Leads, Retriever.Valid, ReadBlock, Future, Meaning;
    r := new Retriever();
    FreshMeaning(bs.Bits() + WordBits(Flat(pieces)));
    ghost var goal := ReadBlock(bs.Bits() + WordBits(Flat(pieces)));
    var i := 0;
    bs.eof := i == |pieces|;
    NoFuture(pieces, i);
    WholeFuture(pieces);
    rv := r.Retrieve(bs, Future(pieces, i));
    while rv == MORE
      invariant i <= |pieces| && bs.Valid() && r.Free(bs) && fresh(r) && fresh(r.treeArrays)
      invariant fresh(r.row) && fresh(r.slide) && fresh(r.tt) && fresh(r.ftab)
      invariant r.Leads(rv, goal, bs.Bits() + Future(pieces, i))
      invariant rv == MORE ==> i < |pieces| && bs.data == []
      decreases |pieces| - i, if rv == MORE then 1 else 0
    {
      r.LeadsOn(goal, bs.Bits() + Future(pieces, i));
      FutureNext(bs.held, pieces, i);
      NothingBefore(bs.held);
      bs.data := pieces[i];
      i := i + 1;
      bs.eof := i == |pieces|;
      NoFuture(pieces, i);
      rv := r.Retrieve(bs, Future(pieces, i));
    }
    taken := i;
  }

  lemma WholeFuture(pieces: seq<seq<uint32>>)
    ensures Future(pieces, 0) == WordBits(Flat(pieces))
  {
    assert pieces[0..] == pieces;
  }

  lemma FreshMeaning(b: seq<bit>)
    ensures Meaning(AtStart, b) == ReadBlock(b)
  {
    hide ReadBlock;
  }

  lemma NoFuture(pieces: seq<seq<uint32>>, i: nat)
    requires i <= |pieces|
    ensures i == |pieces| ==> Future(pieces, i) == []
  {
  }
}
