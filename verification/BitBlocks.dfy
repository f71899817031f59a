/** The fixed-size blocks of the sparse bit vector: two 64-bit words of 128 bits in all. A word is
    the sequence of its bits, lowest first. */
module BitBlocks {

  const WORD: nat := 64
  const WORDS: nat := 2
  const BLOCK: nat := 128

  /** Bit numbers are unsigned 32-bit, so block indices are below 2^32 / 128. */
  const LIMIT: nat := 0x1_0000_0000
  const BLOCKS: nat := 0x200_0000

  type Word = w: seq<bool> | |w| == 64 witness seq(64, _ => false)

  datatype Element = Element(index: nat, bits: seq<Word>)

  type Block = e: Element | |e.bits| == 2 && e.index < 0x200_0000 witness Element(0, [ZeroWord(), ZeroWord()])

  type BitNumber = x: nat | x < 0x1_0000_0000

  function ZeroWord(): Word {
    seq(64, _ => false)
  }

  predicate IsZero(w: Word) {
    true !in w
  }

  function Or(a: Word, b: Word): Word {
    seq(64, i requires 0 <= i < 64 => a[i] || b[i])
  }

  function And(a: Word, b: Word): Word {
    seq(64, i requires 0 <= i < 64 => a[i] && b[i])
  }

  function AndNot(a: Word, b: Word): Word {
    seq(64, i requires 0 <= i < 64 => a[i] && !b[i])
  }

  /** Right shift: bit i of the result is bit i + n of the word. */
  function ShiftRight(a: Word, n: nat): Word {
    seq(64, i requires 0 <= i < 64 => i + n < 64 && a[i + n])
  }

  /** Keeps the bits from position from on, as masking with ~0 << from does. */
  function MaskFrom(a: Word, from: nat): Word {
    seq(64, i requires 0 <= i < 64 => i >= from && a[i])
  }

  predicate Bit(e: Block, i: nat)
    requires i < BLOCK
  {
    e.bits[i / WORD][i % WORD]
  }

  function NewBlock(index: nat): (e: Block)
    requires index < BLOCKS
    ensures e.index == index && NoBits(e)
  {
    Element(index, [ZeroWord(), ZeroWord()])
  }

  function WithBit(e: Block, i: nat, value: bool): (r: Block)
    requires i < BLOCK
    ensures r.index == e.index && Bit(r, i) == value
  {
    Element(e.index, e.bits[i / WORD := e.bits[i / WORD][i % WORD := value]])
  }

  lemma WithBitSetsOne(e: Block, i: nat, value: bool, k: nat)
    requires i < BLOCK && k < BLOCK
    ensures Bit(WithBit(e, i, value), k) == if k == i then value else Bit(e, k)
  {
    if k != i {
      assert k / WORD != i / WORD || k % WORD != i % WORD;
    }
  }

  ghost predicate NoBits(e: Block) {
    forall i | 0 <= i < BLOCK :: !Bit(e, i)
  }

  predicate IsEmpty(e: Block) {
    IsZero(e.bits[0]) && IsZero(e.bits[1])
  }

  lemma EmptyHasNoBits(e: Block)
    ensures IsEmpty(e) <==> NoBits(e)
  {
    if NoBits(e) {
      forall i | 0 <= i < WORD ensures !e.bits[0][i] && !e.bits[1][i] {
        assert !Bit(e, i) && !Bit(e, WORD + i);
      }
    }
  }

  /** Blocks of the same index with the same bits are equal. */
  lemma SameBitsSameBlock(a: Block, b: Block)
    requires a.index == b.index && forall i | 0 <= i < BLOCK :: Bit(a, i) == Bit(b, i)
    ensures a == b
  {
    forall w, i | 0 <= w < WORDS && 0 <= i < WORD ensures a.bits[w][i] == b.bits[w][i] {
      assert Bit(a, w * WORD + i) == Bit(b, w * WORD + i);
    }
    assert a.bits[0] == b.bits[0] && a.bits[1] == b.bits[1];
    assert a.bits == b.bits;
  }

  /** The position of the lowest set bit. */
  function TrailingZeros(w: Word, from: nat := 0): (r: nat)
    requires from < WORD && exists i :: from <= i < WORD && w[i]
    ensures from <= r < WORD && w[r] && forall i | from <= i < r :: !w[i]
    decreases WORD - from
  {
    if w[from] then from else TrailingZeros(w, from + 1)
  }

  function Population(w: seq<bool>): nat {
    if w == [] then 0 else (if w[0] then 1 else 0) + Population(w[1..])
  }

  /** The lowest set bit of a block that has one. */
  method FindFirst(e: Block) returns (r: nat)
    requires !IsEmpty(e)
    ensures r < BLOCK && Bit(e, r) && forall i | 0 <= i < r :: !Bit(e, i)
  {
    r := 0;
    for i := 0 to WORDS
      invariant forall k | 0 <= k < i :: IsZero(e.bits[k])
    {
      if !IsZero(e.bits[i]) {
        r := i * WORD + TrailingZeros(e.bits[i]);
        assert r / WORD == i && r % WORD == TrailingZeros(e.bits[i]);
        return;
      }
    }
    assert false;
  }

  /** The lowest set bit at or after curr, or -1. */
  method FindNext(e: Block, curr: nat) returns (r: int)
    ensures r == -1 ==> forall i | curr <= i < BLOCK :: !Bit(e, i)
    ensures r != -1 ==> curr <= r < BLOCK && Bit(e, r) && forall i | curr <= i < r :: !Bit(e, i)
  {
    if curr >= BLOCK {
      return -1;
    }
    var wordPos, bitPos := curr / WORD, curr % WORD;
    var copy := MaskFrom(e.bits[wordPos], bitPos);
    if !IsZero(copy) {
      r := wordPos * WORD + TrailingZeros(copy);
      assert r / WORD == wordPos && r % WORD == TrailingZeros(copy);
      forall i | curr <= i < r ensures !Bit(e, i) {
        assert i / WORD == wordPos && !copy[i % WORD];
      }
      return;
    }
    assert forall i | bitPos <= i < WORD :: !copy[i];
    for i := wordPos + 1 to WORDS
      invariant forall k | wordPos < k < i :: IsZero(e.bits[k])
    {
      if !IsZero(e.bits[i]) {
        r := i * WORD + TrailingZeros(e.bits[i]);
        assert r / WORD == i && r % WORD == TrailingZeros(e.bits[i]);
        forall j | curr <= j < r ensures !Bit(e, j) {
          assert j / WORD == wordPos ==> !copy[j % WORD];
        }
        return;
      }
    }
    forall j | curr <= j < BLOCK ensures !Bit(e, j) {
      assert j / WORD == wordPos ==> !copy[j % WORD];
    }
    r := -1;
  }

  /** Union with rhs; changed tells whether a bit was added. */
  method UnionWith(e: Block, rhs: Block) returns (r: Block, changed: bool)
    ensures r.index == e.index && forall i | 0 <= i < BLOCK :: Bit(r, i) == (Bit(e, i) || Bit(rhs, i))
    ensures changed <==> exists i | 0 <= i < BLOCK :: Bit(rhs, i) && !Bit(e, i)
  {
    var bits: seq<Word> := e.bits;
    changed := false;
    for i := 0 to WORDS
      invariant |bits| == WORDS
      invariant forall k | 0 <= k < i :: bits[k] == Or(e.bits[k], rhs.bits[k])
      invariant forall k | i <= k < WORDS :: bits[k] == e.bits[k]
      invariant changed <==> exists k | 0 <= k < i :: bits[k] != e.bits[k]
    {
      var old' := if changed then ZeroWord() else bits[i];
      bits := bits[i := Or(bits[i], rhs.bits[i])];
      if !changed && old' != bits[i] {
        changed := true;
      }
    }
    r := Element(e.index, bits);
    DifferingWords(e, r);
  }

  lemma DifferingWords(e: Block, r: Block)
    ensures (exists k | 0 <= k < WORDS :: r.bits[k] != e.bits[k])
        <==> (exists i | 0 <= i < BLOCK :: Bit(r, i) != Bit(e, i))
  {
    if k :| 0 <= k < WORDS && r.bits[k] != e.bits[k] {
      var j :| 0 <= j < WORD && r.bits[k][j] != e.bits[k][j];
      assert Bit(r, k * WORD + j) != Bit(e, k * WORD + j);
    }
    if i :| 0 <= i < BLOCK && Bit(r, i) != Bit(e, i) {
      assert r.bits[i / WORD] != e.bits[i / WORD];
    }
  }

  method Intersects(e: Block, rhs: Block) returns (r: bool)
    ensures r <==> exists i | 0 <= i < BLOCK :: Bit(e, i) && Bit(rhs, i)
  {
    for i := 0 to WORDS
      invariant forall k | 0 <= k < i * WORD :: !(Bit(e, k) && Bit(rhs, k))
    {
      var both := And(rhs.bits[i], e.bits[i]);
      if !IsZero(both) {
        var j :| 0 <= j < WORD && both[j];
        assert Bit(e, i * WORD + j) && Bit(rhs, i * WORD + j);
        return true;
      }
      forall k | i * WORD <= k < (i + 1) * WORD ensures !(Bit(e, k) && Bit(rhs, k)) {
        assert k / WORD == i && !both[k % WORD];
      }
    }
    r := false;
  }

  /** Intersection with rhs; changed tells whether a bit was dropped. */
  method IntersectWith(e: Block, rhs: Block) returns (r: Block, changed: bool, becameZero: bool)
    ensures r.index == e.index && forall i | 0 <= i < BLOCK :: Bit(r, i) == (Bit(e, i) && Bit(rhs, i))
    ensures changed <==> exists i | 0 <= i < BLOCK :: Bit(e, i) && !Bit(rhs, i)
    ensures becameZero <==> IsEmpty(r)
  {
    var bits: seq<Word> := e.bits;
    changed, becameZero := false, true;
    for i := 0 to WORDS
      invariant |bits| == WORDS
      invariant forall k | 0 <= k < i :: bits[k] == And(e.bits[k], rhs.bits[k])
      invariant forall k | i <= k < WORDS :: bits[k] == e.bits[k]
      invariant changed <==> exists k | 0 <= k < i :: bits[k] != e.bits[k]
      invariant becameZero <==> forall k | 0 <= k < i :: IsZero(bits[k])
    {
      var old' := if changed then ZeroWord() else bits[i];
      bits := bits[i := And(bits[i], rhs.bits[i])];
      if !IsZero(bits[i]) {
        becameZero := false;
      }
      if !changed && old' != bits[i] {
        changed := true;
      }
    }
    r := Element(e.index, bits);
    DifferingWords(e, r);
  }

  /** Intersection with the complement of rhs; changed tells whether a bit was dropped. */
  method IntersectWithComplement(e: Block, rhs: Block) returns (r: Block, changed: bool, becameZero: bool)
    ensures r.index == e.index && forall i | 0 <= i < BLOCK :: Bit(r, i) == (Bit(e, i) && !Bit(rhs, i))
    ensures changed <==> exists i | 0 <= i < BLOCK :: Bit(e, i) && Bit(rhs, i)
    ensures becameZero <==> IsEmpty(r)
  {
    var bits: seq<Word> := e.bits;
    changed, becameZero := false, true;
    for i := 0 to WORDS
      invariant |bits| == WORDS
      invariant forall k | 0 <= k < i :: bits[k] == AndNot(e.bits[k], rhs.bits[k])
      invariant forall k | i <= k < WORDS :: bits[k] == e.bits[k]
      invariant changed <==> exists k | 0 <= k < i :: bits[k] != e.bits[k]
      invariant becameZero <==> forall k | 0 <= k < i :: IsZero(bits[k])
    {
      var old' := if changed then ZeroWord() else bits[i];
      bits := bits[i := AndNot(bits[i], rhs.bits[i])];
      if !IsZero(bits[i]) {
        becameZero := false;
      }
      if !changed && old' != bits[i] {
        changed := true;
      }
    }
    r := Element(e.index, bits);
    DifferingWords(e, r);
  }

  function Xor(a: Word, b: Word): Word {
    seq(64, i requires 0 <= i < 64 => a[i] != b[i])
  }

  /** The lowest binary digits of a number, lowest first. */
  function Digits(n: nat, count: nat): (w: seq<bool>)
    ensures |w| == count
  {
    if count == 0 then [] else [n % 2 == 1] + Digits(n / 2, count - 1)
  }

  /** A block index as a word. */
  function IndexWord(index: nat): Word {
    Digits(index, 64)
  }

  /** The number a word stands for. */
  function Value(w: seq<bool>): nat {
    if w == [] then 0 else (if w[0] then 1 else 0) + 2 * Value(w[1..])
  }

  ghost function Power(i: nat): nat {
    if i == 0 then 1 else 2 * Power(i - 1)
  }

  lemma {:induction false} DigitsValue(n: nat, count: nat)
    requires n < Power(count)
    ensures Value(Digits(n, count)) == n
  {
    if count > 0 {
      DigitsValue(n / 2, count - 1);
    }
  }

  lemma FiveMore(i: nat)
    ensures Power(i + 5) == 32 * Power(i)
  {
    assert Power(i + 2) == 4 * Power(i);
    assert Power(i + 4) == 4 * Power(i + 2);
  }

  lemma {:induction false} PowerGrows(i: nat, j: nat)
    requires i <= j
    ensures Power(i) <= Power(j)
  {
    if i < j {
      PowerGrows(i, j - 1);
    }
  }

  /** The word of a block index stands for that index. */
  lemma IndexWordStandsFor(index: nat)
    requires index < BLOCKS
    ensures Value(IndexWord(index)) == index
  {
    FiveMore(0);
    FiveMore(5);
    FiveMore(10);
    FiveMore(15);
    FiveMore(20);
    PowerGrows(25, 64);
    DigitsValue(index, 64);
  }

  /** Bit i is set if exactly one of the words has it. */
  method BlockHash(e: Block) returns (h: Word)
    ensures forall i | 0 <= i < WORD :: h[i] == (Bit(e, i) != Bit(e, WORD + i))
  {
    h := ZeroWord();
    for k := 0 to WORDS
      invariant forall i | 0 <= i < WORD :: h[i] == ((k >= 1 && e.bits[0][i]) != (k >= 2 && e.bits[1][i]))
    {
      h := Xor(h, e.bits[k]);
    }
    forall i | 0 <= i < WORD ensures h[i] == (Bit(e, i) != Bit(e, WORD + i)) {
      BitOfWord(e, i);
    }
  }

  lemma BitOfWord(e: Block, i: nat)
    requires i < WORD
    ensures Bit(e, i) == e.bits[0][i] && Bit(e, WORD + i) == e.bits[1][i]
  {
    assert i / WORD == 0 && (WORD + i) / WORD == 1 && (WORD + i) % WORD == i;
  }
}
