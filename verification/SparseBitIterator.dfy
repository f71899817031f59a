/** The iterator over the set bits of a sparse bit vector. It walks the bits of one word by shifting a
    copy of it, and looks for the next word or block when the copy runs out of bits. */
module SparseBitIterator {
  import opened BitBlocks
  import opened SparseBitVector

  /** No member of es lies strictly between x and y. */
  ghost predicate NoneBetween(es: seq<Block>, x: BitNumber, y: int) {
    forall z: BitNumber :: x < z < y ==> !Has(es, z)
  }

  ghost predicate NoneBelow(es: seq<Block>, y: int) {
    forall z: BitNumber :: z < y ==> !Has(es, z)
  }

  /** Block e has no bit strictly between lo and hi. */
  ghost predicate Gap(e: Block, lo: int, hi: int) {
    forall n: nat | lo < n < hi && n < BLOCK :: !Bit(e, n)
  }

  lemma WordPosition(x: nat)
    ensures x % BLOCK % WORD == x % WORD && x % BLOCK == x % BLOCK / WORD * WORD + x % WORD
  {
  }

  /** Where a member can be, seen from block k. */
  lemma MemberAround(es: seq<Block>, k: nat, z: BitNumber)
    requires Canonical(es) && k < |es| && Has(es, z)
    ensures z / BLOCK == es[k].index ==> Bit(es[k], z % BLOCK)
    ensures z / BLOCK < es[k].index ==> 0 < k && z / BLOCK <= es[k - 1].index
    ensures z / BLOCK > es[k].index ==> k + 1 < |es| && z / BLOCK >= es[k + 1].index
  {
    var m :| 0 <= m < |es| && HasBit(es[m], z);
  }

  lemma NothingBeforeFirst(es: seq<Block>, y: BitNumber)
    requires Canonical(es) && es != [] && y / BLOCK == es[0].index
    requires Gap(es[0], -1, y % BLOCK)
    ensures NoneBelow(es, y)
  {
    forall z: BitNumber | z < y ensures !Has(es, z) {
      if Has(es, z) {
        MemberAround(es, 0, z);
      }
    }
  }

  /** Between x in block k and y in the same block. */
  lemma NothingInBlock(es: seq<Block>, k: nat, x: BitNumber, y: BitNumber)
    requires Canonical(es) && k < |es| && x / BLOCK == y / BLOCK == es[k].index
    requires Gap(es[k], x % BLOCK, y % BLOCK)
    ensures NoneBetween(es, x, y)
  {
    forall z: BitNumber | x < z < y ensures !Has(es, z) {
      if Has(es, z) {
        MemberAround(es, k, z);
      }
    }
  }

  /** Between x, the highest member of block k, and y, the lowest of the next block. */
  lemma NothingBetweenBlocks(es: seq<Block>, k: nat, x: BitNumber, y: BitNumber)
    requires Canonical(es) && k + 1 < |es| && x / BLOCK == es[k].index && y / BLOCK == es[k + 1].index
    requires Gap(es[k], x % BLOCK, BLOCK)
    requires Gap(es[k + 1], -1, y % BLOCK)
    ensures x < y && NoneBetween(es, x, y)
  {
    forall z: BitNumber | x < z < y ensures !Has(es, z) {
      if Has(es, z) {
        MemberAround(es, k, z);
        MemberAround(es, k + 1, z);
      }
    }
  }

  lemma NothingAfterLast(es: seq<Block>, x: BitNumber)
    requires Canonical(es) && es != [] && x / BLOCK == es[|es| - 1].index
    requires Gap(es[|es| - 1], x % BLOCK, BLOCK)
    ensures NoneBetween(es, x, LIMIT)
  {
    forall z: BitNumber | x < z ensures !Has(es, z) {
      if Has(es, z) {
        MemberAround(es, |es| - 1, z);
      }
    }
  }

  lemma ShiftTwice(w: Word, n: nat)
    ensures ShiftRight(ShiftRight(w, n), 1) == ShiftRight(w, n + 1)
  {
  }

  /** The iterator stands on the set bit x of block k, with its copy of the word shifted to it. */
  ghost predicate Stands(es: seq<Block>, k: nat, x: BitNumber, word: nat, bits: Word) {
    && k < |es| && x / BLOCK == es[k].index
    && word == x % BLOCK / WORD && bits == ShiftRight(es[k].bits[word], x % BLOCK % WORD)
    && Bit(es[k], x % BLOCK)
  }

  class BitIterator {
    const vec: BitVector
    var atEnd: bool
    var iter: nat
    var bitNumber: BitNumber
    var wordNumber: nat
    /** What is left of the current word, shifted so that the current bit comes first. */
    var bits: Word

    ghost predicate OnBit()
      reads this, vec
    {
      Stands(vec.elements, iter, bitNumber, wordNumber, bits)
    }

    ghost predicate Valid()
      reads this, vec
    {
      Canonical(vec.elements) && (atEnd || OnBit())
    }

    lemma OnMember()
      requires Valid() && !atEnd
      ensures Has(vec.elements, bitNumber)
    {
      assert HasBit(vec.elements[iter], bitNumber);
    }

    constructor (vec: BitVector, end: bool)
      requires Canonical(vec.elements)
      ensures this.vec == vec && Valid()
      ensures end ==> atEnd
      ensures !end && atEnd ==> vec.elements == []
      ensures !atEnd ==> NoneBelow(vec.elements, bitNumber)
    {
      this.vec := vec;
      iter, bitNumber, bits, wordNumber, atEnd := 0, 0, ZeroWord(), 0, end;
      new;
      AdvanceToFirstNonZero();
    }

    method AdvanceToFirstNonZero()
      requires Canonical(vec.elements)
      modifies this
      ensures Valid()
      ensures atEnd <==> old(atEnd) || vec.elements == []
      ensures !atEnd ==> NoneBelow(vec.elements, bitNumber)
    {
      if atEnd {
        return;
      }
      if vec.elements == [] {
        atEnd := true;
        return;
      }
      iter := 0;
      EnterBlock();
      NothingBeforeFirst(vec.elements, bitNumber);
    }

    /** Moves to the lowest bit of block iter. */
    method EnterBlock()
      requires Canonical(vec.elements) && iter < |vec.elements|
      modifies `bitNumber, `wordNumber, `bits
      ensures OnBit() && Gap(vec.elements[iter], -1, bitNumber % BLOCK)
    {
      hide Bit;
      var e := vec.elements[iter];
      var bitPos := BitBlocks.FindFirst(e);
      bitNumber := Number(e, bitPos);
      wordNumber := bitNumber % BLOCK / WORD;
      bits := ShiftRight(e.bits[wordNumber], bitPos % WORD);
    }

    /** Preincrement. The bit number wraps after the largest one. */
    method Next()
      requires Valid() && !atEnd
      modifies this
      ensures Valid()
      ensures atEnd ==> NoneBetween(vec.elements, old(bitNumber), LIMIT)
      ensures !atEnd ==> old(bitNumber) < bitNumber && NoneBetween(vec.elements, old(bitNumber), bitNumber)
    {
      ghost var x := bitNumber;
      WordPosition(x);
      ShiftTwice(vec.elements[iter].bits[wordNumber], x % WORD);
      bitNumber := if bitNumber + 1 == LIMIT then 0 else bitNumber + 1;
      bits := ShiftRight(bits, 1);
      AdvanceToNextNonZero(x);
    }

    /** x is the bit the iterator has just left. */
    method AdvanceToNextNonZero(ghost x: BitNumber)
      requires !atEnd && Canonical(vec.elements)
      requires iter < |vec.elements| && x / BLOCK == vec.elements[iter].index && wordNumber == x % BLOCK / WORD
      requires bitNumber == if x + 1 == LIMIT then 0 else x + 1
      requires bits == ShiftRight(vec.elements[iter].bits[x % BLOCK / WORD], x % WORD + 1)
      modifies this
      ensures Valid()
      ensures atEnd ==> NoneBetween(vec.elements, x, LIMIT)
      ensures !atEnd ==> x < bitNumber && NoneBetween(vec.elements, x, bitNumber)
    {
      hide Has, HasBit, Canonical, NoneBetween, Gap, IsZero, Bit, ShiftRight;
      SkipZeroBits(x);
      ghost var es, e := vec.elements, vec.elements[iter];
      if !IsZero(bits) {
        NothingInBlock(es, iter, x, bitNumber);
      } else {
        var next := BitBlocks.FindNext(vec.elements[iter], bitNumber % BLOCK);
        RestOfWord(e, x, next, bitNumber);
        if next == -1 || bitNumber % BLOCK == 0 {
          iter := iter + 1;
          wordNumber := 0;
          if iter == |vec.elements| {
            atEnd := true;
            NothingAfterLast(es, x);
            return;
          }
          EnterBlock();
          NothingBetweenBlocks(es, iter - 1, x, bitNumber);
        } else {
          wordNumber := next % BLOCK / WORD;
          bits := ShiftRight(vec.elements[iter].bits[wordNumber], next % WORD);
          bitNumber := Number(vec.elements[iter], next);
          NothingInBlock(es, iter, x, bitNumber);
        }
      }
    }

    /** The first loop of the advance: drops zero bits from the copy of the word while it has ones. */
    method SkipZeroBits(ghost x: BitNumber)
      requires !atEnd && iter < |vec.elements| && x / BLOCK == vec.elements[iter].index
          && wordNumber == x % BLOCK / WORD
      requires bitNumber == if x + 1 == LIMIT then 0 else x + 1
      requires bits == ShiftRight(vec.elements[iter].bits[x % BLOCK / WORD], x % WORD + 1)
      modifies `bits, `bitNumber
      ensures if IsZero(bits) then bitNumber == old(bitNumber) && bits == old(bits)
              else x < bitNumber && OnBit() && Gap(vec.elements[iter], x % BLOCK, bitNumber % BLOCK)
    {
      hide ShiftRight, IsZero, Gap, Stands, Bit, Has, Canonical;
      ghost var w, from, skipped := vec.elements[iter].bits[wordNumber], x % WORD + 1, 0;
      ShiftIsZero(w, from);
      while !IsZero(bits) && !bits[0]
        invariant from + skipped <= WORD && bits == ShiftRight(w, from + skipped)
        invariant skipped > 0 ==> !IsZero(bits)
        invariant !IsZero(bits) ==> from + skipped < WORD && bitNumber == x + 1 + skipped
        invariant IsZero(bits) ==> bitNumber == old(bitNumber) && bits == old(bits)
        invariant forall k | from <= k < from + skipped :: !w[k]
        decreases WORD - skipped
      {
        ShiftTwice(w, from + skipped);
        ShiftIsZero(w, from + skipped);
        ShiftIsZero(w, from + skipped + 1);
        BelowLimit(x, skipped + 1);
        bits := ShiftRight(bits, 1);
        bitNumber := bitNumber + 1;
        skipped := skipped + 1;
      }
      if !IsZero(bits) {
        LandsOnBit(vec.elements, iter, x, skipped, bits);
      }
    }

    static lemma BelowLimit(x: BitNumber, skipped: nat)
      requires x % WORD + 1 + skipped < WORD
      ensures x + 1 + skipped < LIMIT
    {
      StaysInWord(x, skipped);
    }

    /** The first bit left in the copy, skipped zero bits after x. */
    static lemma LandsOnBit(es: seq<Block>, k: nat, x: BitNumber, skipped: nat, bits: Word)
      requires k < |es| && x / BLOCK == es[k].index && x % WORD + 1 + skipped < WORD
      requires bits == ShiftRight(es[k].bits[x % BLOCK / WORD], x % WORD + 1 + skipped) && bits[0] && !IsZero(bits)
      requires forall i | x % WORD + 1 <= i < x % WORD + 1 + skipped :: !es[k].bits[x % BLOCK / WORD][i]
      ensures x + 1 + skipped < LIMIT && Stands(es, k, x + 1 + skipped, x % BLOCK / WORD, bits)
      ensures Gap(es[k], x % BLOCK, (x + 1 + skipped) % BLOCK)
    {
      hide ShiftRight, IsZero, Gap, Stands, Bit;
      ShiftIsZero(es[k].bits[x % BLOCK / WORD], x % WORD + 1 + skipped);
      StaysInWord(x, skipped);
      GapInWord(es[k], x, skipped);
      StandsThere(es, k, x + 1 + skipped);
    }

    static lemma StandsThere(es: seq<Block>, k: nat, x: BitNumber)
      requires k < |es| && x / BLOCK == es[k].index && es[k].bits[x % BLOCK / WORD][x % BLOCK % WORD]
      ensures Stands(es, k, x, x % BLOCK / WORD, ShiftRight(es[k].bits[x % BLOCK / WORD], x % BLOCK % WORD))
    {
    }

    /** A shifted word with bits left starts with bit n of the word, or has a later bit. */
    static lemma ShiftIsZero(w: Word, n: nat)
      ensures !IsZero(ShiftRight(w, n)) ==> n < WORD && ShiftRight(w, n)[0] == w[n]
      ensures !IsZero(ShiftRight(w, n)) && !w[n] ==> n + 1 < WORD && !IsZero(ShiftRight(w, n + 1))
    {
      if !IsZero(ShiftRight(w, n)) && !w[n] {
        var k :| 0 <= k < WORD && ShiftRight(w, n)[k];
        assert ShiftRight(w, n + 1)[k - 1];
      }
    }

    static lemma StaysInWord(x: BitNumber, skipped: nat)
      requires x % WORD + 1 + skipped < WORD
      ensures x + 1 + skipped < LIMIT && (x + 1 + skipped) / BLOCK == x / BLOCK
      ensures (x + 1 + skipped) % BLOCK == x % BLOCK + 1 + skipped
      ensures (x + 1 + skipped) % BLOCK / WORD == x % BLOCK / WORD
      ensures (x + 1 + skipped) % BLOCK % WORD == x % WORD + 1 + skipped
    {
      WordPosition(x);
      var q, word, i := x / BLOCK, x % BLOCK / WORD, x % WORD + 1 + skipped;
      assert word < 2 && q < BLOCKS;
      Recompose(q, word, i);
      assert x + 1 + skipped == q * BLOCK + word * WORD + i;
    }

    static lemma Recompose(q: nat, word: nat, i: nat)
      requires word < 2 && i < WORD
      ensures (q * BLOCK + word * WORD + i) / BLOCK == q && (q * BLOCK + word * WORD + i) % BLOCK == word * WORD + i
      ensures (word * WORD + i) / WORD == word && (word * WORD + i) % WORD == i
    {
    }

    static lemma GapInWord(e: Block, x: BitNumber, skipped: nat)
      requires x % WORD + 1 + skipped < WORD
      requires forall k | x % WORD + 1 <= k < x % WORD + 1 + skipped :: !e.bits[x % BLOCK / WORD][k]
      ensures Gap(e, x % BLOCK, x % BLOCK + 1 + skipped)
    {
      WordPosition(x);
      forall n: nat | x % BLOCK < n < x % BLOCK + 1 + skipped ensures !Bit(e, n) {
        assert n / WORD == x % BLOCK / WORD && n % WORD == x % WORD + (n - x % BLOCK);
      }
    }

    /** The copy ran out: together with the search from the next bit, no bit of the block follows x
        before next. */
    lemma RestOfWord(e: Block, x: BitNumber, next: int, b: BitNumber)
      requires b == if x + 1 == LIMIT then 0 else x + 1
      requires next == -1 ==> forall i | b % BLOCK <= i < BLOCK :: !Bit(e, i)
      requires next != -1 ==> b % BLOCK <= next < BLOCK && forall i | b % BLOCK <= i < next :: !Bit(e, i)
      ensures next == -1 || b % BLOCK == 0 ==> Gap(e, x % BLOCK, BLOCK)
      ensures next != -1 && b % BLOCK != 0 ==> x % BLOCK < next && Gap(e, x % BLOCK, next)
    {
    }
  }

  /** The loop from begin to end that prints a vector visits every member once, in increasing order. */
  method Enumerate(vec: BitVector) returns (out: seq<BitNumber>)
    requires vec.Valid()
    ensures forall i, j | 0 <= i < j < |out| :: out[i] < out[j]
    ensures forall x: BitNumber :: x in out <==> x in vec.Contents()
  {
    hide Canonical, BitIterator.OnBit;
    out := [];
    var bi := new BitIterator(vec, false);
    while !bi.atEnd
      invariant bi.vec == vec && bi.Valid() && fresh(bi)
      invariant forall i, j | 0 <= i < j < |out| :: out[i] < out[j]
      invariant !bi.atEnd ==> forall i | 0 <= i < |out| :: out[i] < bi.bitNumber
      invariant forall x: BitNumber :: x in out <==> x in vec.Contents() && (bi.atEnd || x < bi.bitNumber)
      decreases if bi.atEnd then 0 else LIMIT - bi.bitNumber
    {
      bi.OnMember();
      ghost var x := bi.bitNumber;
      out := out + [bi.bitNumber];
      bi.Next();
    }
  }
}
