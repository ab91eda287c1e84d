/**
  Paging partitions of the default pager: a bitmap of blocks with a free count, and
  the page stored in each block.
*/
module PagerParts {
  import opened Prelude

  const NB_BM := 32

  type Page = seq<byte>

  /** An allocation-map word, least significant bit first. */
  type Word = w: seq<bool> | |w| == NB_BM witness seq(NB_BM, _ => false)

  datatype Partition = Partition(
    total: nat,
    free: int,
    id: nat,
    bitmap: seq<Word>,
    goingAway: bool,
    blocks: seq<Page>)

  function HowMany(a: nat, b: nat): nat
    requires b > 0
  {
    (a + b - 1) / b
  }

  predicate Bit(p: Partition, o: nat) {
    o / NB_BM < |p.bitmap| && p.bitmap[o / NB_BM][o % NB_BM]
  }

  ghost function Used(p: Partition): set<nat> {
    set o: nat | o < p.total && Bit(p, o)
  }

  /** The free count is exact, and the bits behind the end are clear. */
  ghost predicate PartOk(p: Partition) {
    |p.bitmap| == HowMany(p.total, NB_BM) && |p.blocks| == p.total
    && (forall o :: 0 <= o < |p.blocks| ==> |p.blocks[o]| == PAGE_SIZE)
    && (forall o: nat :: Bit(p, o) ==> o < p.total)
    && p.free == p.total - |Used(p)|
  }

  function WithBit(p: Partition, o: nat, b: bool): (p': Partition)
    requires o / NB_BM < |p.bitmap|
    ensures forall q :: Bit(p', q) <==> if q == o then b else Bit(p, q)
  {
    var p' := p.(bitmap := p.bitmap[o / NB_BM := p.bitmap[o / NB_BM][o % NB_BM := b]]);
    assert forall q: nat :: q / NB_BM == o / NB_BM && q % NB_BM == o % NB_BM ==> q == o;
    p'
  }

  /** Block `o` taken. */
  function Taken(p: Partition, o: nat): Partition
    requires o / NB_BM < |p.bitmap|
  {
    WithBit(p, o, true).(free := p.free - 1)
  }

  /** Block `o` given back. */
  function Given(p: Partition, o: nat): Partition
    requires o / NB_BM < |p.bitmap|
  {
    WithBit(p, o, false).(free := p.free + 1)
  }

  lemma TakenOk(p: Partition, o: nat)
    requires PartOk(p) && o < p.total && !Bit(p, o)
    ensures o / NB_BM < |p.bitmap| && PartOk(Taken(p, o)) && forall q :: Bit(Taken(p, o), q) <==> q == o || Bit(p, q)
  {
    var p' := Taken(p, o);
    assert forall q :: Bit(p', q) == Bit(WithBit(p, o, true), q);
    assert Used(p') == Used(p) + {o};
  }

  lemma GivenOk(p: Partition, o: nat)
    requires PartOk(p) && Bit(p, o)
    ensures o / NB_BM < |p.bitmap| && PartOk(Given(p, o)) && forall q :: Bit(Given(p, o), q) <==> q != o && Bit(p, q)
  {
    var p' := Given(p, o);
    assert forall q :: Bit(p', q) == Bit(WithBit(p, o, false), q);
    assert Used(p') == Used(p) - {o};
  }

  lemma {:induction false} RangeCard(n: nat, s: set<nat>)
    requires forall o :: 0 <= o < n ==> o in s
    ensures |s| >= n
  {
    if n > 0 {
      RangeCard(n - 1, s - {n - 1});
    }
  }

  /** A positive free count means some block in range is clear: the allocator's panics are unreachable. */
  lemma FreeMeansClear(p: Partition) returns (o: nat)
    requires PartOk(p) && p.free > 0
    ensures o < p.total && !Bit(p, o)
  {
    if forall q :: 0 <= q < p.total ==> q in Used(p) {
      RangeCard(p.total, Used(p));
    }
    o :| o < p.total && o !in Used(p);
  }

  /** The word and bit scans of pager_alloc_page: the lowest clear block, always in range. */
  method FindClear(p: Partition) returns (o: nat)
    requires PartOk(p) && p.free > 0
    ensures o < p.total && !Bit(p, o) && forall q :: 0 <= q < o ==> Bit(p, q)
  {
    ghost var c := FreeMeansClear(p);
    var e := 0;
    while e < |p.bitmap| && !(false in p.bitmap[e])
      invariant e <= |p.bitmap| && c >= e * NB_BM
      invariant forall q :: 0 <= q < e * NB_BM ==> Bit(p, q)
    {
      assert forall b :: 0 <= b < NB_BM ==> p.bitmap[e][b];
      WordFull(p, e, c);
      e := e + 1;
    }
    assert c / NB_BM < |p.bitmap|;
    var bit := 0;
    while bit < NB_BM && p.bitmap[e][bit]
      invariant bit <= NB_BM && forall b :: 0 <= b < bit ==> p.bitmap[e][b]
    {
      bit := bit + 1;
    }
    o := e * NB_BM + bit;
    assert o / NB_BM == e && o % NB_BM == bit;
    forall q | 0 <= q < o ensures Bit(p, q) {
      if q >= e * NB_BM { assert q / NB_BM == e && q % NB_BM == q - e * NB_BM; }
    }
  }

  lemma WordFull(p: Partition, e: nat, c: nat)
    requires e < |p.bitmap| && !Bit(p, c) && c >= e * NB_BM && forall b :: 0 <= b < NB_BM ==> p.bitmap[e][b]
    ensures c >= (e + 1) * NB_BM && forall q :: e * NB_BM <= q < (e + 1) * NB_BM ==> Bit(p, q)
  {
    forall q | e * NB_BM <= q < (e + 1) * NB_BM ensures Bit(p, q) {
      assert q / NB_BM == e && 0 <= q % NB_BM < NB_BM;
    }
  }
}
