/** The confetti generator (confetti.js): fifty pieces whose horizontal
    position, duration, colour and size follow from their index alone. */
module Confetti {
  const ConfettiCount: nat := 50

  const BrandOrange: string := "var(--color-brand-orange)"
  const BrandGold: string := "var(--color-brand-gold)"
  const ConfettiColors: seq<string> := [BrandOrange, BrandGold]

  /** The integer fields of one piece; its float delay is not modelled. */
  datatype ConfettiItem = ConfettiItem(id: nat, left: nat, duration: nat, color: string, size: nat)

  /** The horizontal position, in percent, of piece `i`. */
  function Left(i: nat): (l: nat)
    ensures l <= 99
  {
    (i * 37 + 13) % 100
  }

  /** The piece at index `i`. */
  function ItemAt(i: nat): (c: ConfettiItem)
    ensures c.id == i
    ensures c.left <= 99
    ensures c.duration in {2, 3, 4}
    ensures c.size in {8, 10, 12, 14}
    ensures i % 2 == 0 ==> c.color == BrandOrange
    ensures i % 2 == 1 ==> c.color == BrandGold
  {
    ConfettiItem(i, Left(i), 2 + i % 3, ConfettiColors[i % 2], 8 + (i % 4) * 2)
  }

  /** generateConfettiItems: one piece per index 0..49. */
  function GenerateConfettiItems(): (r: seq<ConfettiItem>)
    ensures |r| == ConfettiCount
    ensures forall i :: 0 <= i < |r| ==> r[i].id == i && r[i].left <= 99
    ensures forall i :: 0 <= i < |r| ==> r[i].duration in {2, 3, 4} && r[i].size in {8, 10, 12, 14}
    ensures forall i :: 0 <= i < |r| ==> (r[i].color == BrandOrange <==> i % 2 == 0)
  {
    seq(ConfettiCount, i requires 0 <= i => ItemAt(i))
  }

  /** Multiplying by 73 undoes the step of 37, because 37 * 73 is one more
      than a multiple of 100: the index is recovered from the position. */
  lemma LeftInverse(i: nat)
    requires i < 100
    ensures (73 * Left(i) + 51) % 100 == i
  {
    var l := Left(i);
    var q := (i * 37 + 13) / 100;
    assert i * 37 + 13 == 100 * q + l;
    var k := 27 * i + 10 - 73 * q;
    assert 73 * l + 51 == i + 100 * k;
    RemainderOfShift(i, k);
  }

  /** Adding a multiple of 100 leaves a remainder below 100 unchanged. */
  lemma RemainderOfShift(r: int, k: int)
    requires 0 <= r < 100
    ensures (r + 100 * k) % 100 == r
  {
  }

  /** No two pieces of a burst share a horizontal position. */
  lemma LeftDistinct(i: nat, j: nat)
    requires i < j < ConfettiCount
    ensures GenerateConfettiItems()[i].left != GenerateConfettiItems()[j].left
  {
    LeftInverse(i);
    LeftInverse(j);
  }
}
