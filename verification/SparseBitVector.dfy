/** The sparse bit vector: an ordered list of non-empty blocks with a roving cursor. It refines a
    plain set of bit numbers. */
module SparseBitVector {
  import opened BitBlocks

  /** Bit x is set in some block. */
  ghost predicate Has(es: seq<Block>, x: BitNumber) {
    exists k :: 0 <= k < |es| && HasBit(es[k], x)
  }

  ghost predicate HasBit(e: Block, x: BitNumber) {
    e.index == x / BLOCK && Bit(e, x % BLOCK)
  }

  ghost function Members(es: seq<Block>): set<BitNumber> {
    set x: BitNumber | 0 <= x < LIMIT && Has(es, x)
  }

  ghost predicate Sorted(es: seq<Block>) {
    forall i, j | 0 <= i < j < |es| :: es[i].index < es[j].index
  }

  /** Strictly sorted by block index, and no block is all zero. */
  ghost predicate Canonical(es: seq<Block>) {
    Sorted(es) && forall k | 0 <= k < |es| :: !IsEmpty(es[k])
  }

  lemma HasConcat(a: seq<Block>, b: seq<Block>, x: BitNumber)
    ensures Has(a + b, x) <==> Has(a, x) || Has(b, x)
  {
    if k :| 0 <= k < |a| && HasBit(a[k], x) {
      assert (a + b)[k] == a[k];
    }
    if k :| 0 <= k < |b| && HasBit(b[k], x) {
      assert (a + b)[|a| + k] == b[k];
    }
  }

  lemma HasOne(e: Block, x: BitNumber)
    ensures Has([e], x) <==> HasBit(e, x)
  {
    assert HasBit([e][0], x) <==> HasBit(e, x);
  }

  /** Replacing the blocks from i to j of es by those of mid. */
  function Splice(es: seq<Block>, i: nat, j: nat, mid: seq<Block>): seq<Block>
    requires i <= j <= |es|
  {
    es[..i] + mid + es[j..]
  }

  lemma HasSplice(es: seq<Block>, i: nat, j: nat, mid: seq<Block>, x: BitNumber)
    requires i <= j <= |es|
    ensures Has(es, x) <==> Has(es[..i], x) || Has(es[i..j], x) || Has(es[j..], x)
    ensures Has(Splice(es, i, j, mid), x) <==> Has(es[..i], x) || Has(mid, x) || Has(es[j..], x)
  {
    assert es == es[..i] + es[i..j] + es[j..];
    HasConcat(es[..i] + es[i..j], es[j..], x);
    HasConcat(es[..i], es[i..j], x);
    HasConcat(es[..i] + mid, es[j..], x);
    HasConcat(es[..i], mid, x);
  }

  /** In a sorted list only the block of x's index can hold x. */
  lemma HasAt(es: seq<Block>, k: nat, x: BitNumber)
    requires Sorted(es) && k < |es| && es[k].index == x / BLOCK
    ensures Has(es, x) <==> Bit(es[k], x % BLOCK)
  {
    if Bit(es[k], x % BLOCK) {
      assert HasBit(es[k], x);
    }
  }

  /** The number of bit i of block e. */
  function Number(e: Block, i: nat): (x: BitNumber)
    requires i < BLOCK
    ensures x / BLOCK == e.index && x % BLOCK == i
  {
    e.index * BLOCK + i
  }

  // ----- Canonical lists and sets correspond one to one

  lemma NonEmptyHasMember(e: Block) returns (x: BitNumber)
    requires !IsEmpty(e)
    ensures HasBit(e, x)
  {
    EmptyHasNoBits(e);
    var i :| 0 <= i < BLOCK && Bit(e, i);
    x := Number(e, i);
  }

  /** Where a list without the other's members must lack the other's blocks. */
  lemma BlockIsPresent(es: seq<Block>, k: nat, fs: seq<Block>)
    requires Canonical(es) && Canonical(fs) && k < |es|
    requires forall x: BitNumber :: Has(es, x) <==> Has(fs, x)
    ensures exists j :: 0 <= j < |fs| && fs[j] == es[k]
  {
    var x := NonEmptyHasMember(es[k]);
    assert Has(es, x);
    var j :| 0 <= j < |fs| && HasBit(fs[j], x);
    forall i | 0 <= i < BLOCK ensures Bit(es[k], i) == Bit(fs[j], i) {
      var y := Number(es[k], i);
      HasAt(es, k, y);
      HasAt(fs, j, y);
    }
    SameBitsSameBlock(es[k], fs[j]);
  }

  lemma {:induction false} SameMembersSameBlocks(es: seq<Block>, fs: seq<Block>)
    requires Canonical(es) && Canonical(fs)
    requires forall x: BitNumber :: Has(es, x) <==> Has(fs, x)
    ensures es == fs
    decreases |es|
  {
    if es == [] {
      if fs != [] {
        BlockIsPresent(fs, 0, es);
      }
    } else {
      BlockIsPresent(es, 0, fs);
      BlockIsPresent(fs, 0, es);
      assert es[0] == fs[0];
      forall x: BitNumber ensures Has(es[1..], x) <==> Has(fs[1..], x) {
        TailHas(es, x);
        TailHas(fs, x);
      }
      SameMembersSameBlocks(es[1..], fs[1..]);
      assert es == [es[0]] + es[1..] && fs == [fs[0]] + fs[1..];
    }
  }

  lemma TailHas(es: seq<Block>, x: BitNumber)
    requires Canonical(es) && es != []
    ensures Has(es[1..], x) <==> Has(es, x) && es[0].index != x / BLOCK
  {
    assert es == [es[0]] + es[1..];
    HasConcat([es[0]], es[1..], x);
    HasOne(es[0], x);
  }

  /** The canonical list of a set is unique: operator== decides set equality. */
  lemma EqualListsAreEqualSets(es: seq<Block>, fs: seq<Block>)
    requires Canonical(es) && Canonical(fs)
    ensures es == fs <==> Members(es) == Members(fs)
  {
    if Members(es) == Members(fs) {
      forall x: BitNumber ensures Has(es, x) <==> Has(fs, x) {
        assert x in Members(es) <==> Has(es, x);
        assert x in Members(fs) <==> Has(fs, x);
      }
      SameMembersSameBlocks(es, fs);
    }
  }

  // ----- Cardinality

  /** The numbers of the set bits of w when its first bit has number first. */
  ghost function Marks(w: seq<bool>, first: nat): set<nat> {
    set i | 0 <= i < |w| && w[i] :: first + i
  }

  lemma {:induction false} MarksCount(w: seq<bool>, first: nat)
    ensures |Marks(w, first)| == Population(w)
  {
    if w != [] {
      var rest := Marks(w[1..], first + 1);
      MarksCount(w[1..], first + 1);
      forall i | 0 < i < |w| && w[i] ensures first + i in rest {
        assert w[1..][i - 1];
      }
      forall x <- rest ensures x in Marks(w, first) && x > first {
        var i :| 0 <= i < |w| - 1 && w[1..][i] && x == first + 1 + i;
        assert w[i + 1];
      }
      assert Marks(w, first) == (if w[0] then {first} else {}) + rest;
    }
  }

  function BlockCount(e: Block): nat {
    Population(e.bits[0]) + Population(e.bits[1])
  }

  function TotalCount(es: seq<Block>): nat {
    if es == [] then 0 else TotalCount(es[..|es| - 1]) + BlockCount(es[|es| - 1])
  }

  lemma BlockMembers(e: Block)
    ensures |Members([e])| == BlockCount(e)
  {
    var low, high := Marks(e.bits[0], e.index * BLOCK), Marks(e.bits[1], e.index * BLOCK + WORD);
    MarksCount(e.bits[0], e.index * BLOCK);
    MarksCount(e.bits[1], e.index * BLOCK + WORD);
    forall x: nat ensures x in low + high <==> x < LIMIT && Has([e], x) {
      if x < LIMIT {
        HasOne(e, x);
      }
      if e.index * BLOCK <= x < e.index * BLOCK + BLOCK {
        var i := x - e.index * BLOCK;
        assert x / BLOCK == e.index && x % BLOCK == i;
        if i < WORD {
          assert e.bits[0][i] <==> x in low;
        } else {
          assert e.bits[1][i - WORD] <==> x in high;
        }
      }
    }
    var members: set<nat> := Members([e]);
    assert members == low + high;
    assert low !! high;
  }

  /** Adding up the population of the words counts the members. */
  lemma {:induction false} CountIsCardinality(es: seq<Block>)
    requires Sorted(es)
    ensures TotalCount(es) == |Members(es)|
  {
    if es == [] {
      assert Members(es) == {};
    } else {
      var init, last := es[..|es| - 1], es[|es| - 1];
      CountIsCardinality(init);
      BlockMembers(last);
      forall x: BitNumber ensures Has(es, x) <==> Has(init, x) || Has([last], x) {
        assert es == init + [last];
        HasConcat(init, [last], x);
      }
      forall x: BitNumber | Has(init, x) ensures !Has([last], x) {
        HasOne(last, x);
      }
      assert Members(es) == Members(init) + Members([last]);
      assert Members(init) !! Members([last]);
    }
  }

  predicate IsBelow(x: nat, n: nat) {
    x < n
  }

  ghost function AllNumbers(n: nat): set<nat> {
    set x: nat | x < n && IsBelow(x, n)
  }

  lemma {:induction false} NumbersBelow(n: nat)
    ensures |AllNumbers(n)| == n
  {
    if n > 0 {
      NumbersBelow(n - 1);
      forall x: nat ensures x in AllNumbers(n) <==> x in AllNumbers(n - 1) + {n - 1} {
        assert IsBelow(x, n) <==> IsBelow(x, n - 1) || x == n - 1;
      }
      assert AllNumbers(n) == AllNumbers(n - 1) + {n - 1};
    }
  }

  /** Only the set of all bit numbers has too many members for an unsigned 32-bit number. */
  lemma MembersAreCounted(xs: set<BitNumber>)
    ensures |xs| % LIMIT == if xs == AllNumbers(LIMIT) then 0 else |xs|
  {
    NumbersBelow(LIMIT);
    var rest := AllNumbers(LIMIT) - xs;
    assert AllNumbers(LIMIT) == xs + rest;
  }

  // ----- Steps of the merge loops

  /** Everything before pos is below index and everything after pos above it. */
  ghost predicate Near(es: seq<Block>, index: nat, pos: nat) {
    && pos <= |es|
    && (forall k | 0 <= k < pos :: es[k].index < index)
    && (forall k | pos < k < |es| :: es[k].index > index)
  }

  lemma NearFacts(es: seq<Block>, index: nat, pos: nat)
    requires Near(es, index, pos)
    ensures pos <= |es|
  {
  }

  lemma EmptyLacks(x: BitNumber)
    ensures !Has([], x) && Members([]) == {}
  {
  }

  lemma NotNear(es: seq<Block>, pos: nat, x: BitNumber)
    requires Near(es, x / BLOCK, pos) && (pos == |es| || es[pos].index != x / BLOCK)
    ensures !Has(es, x)
  {
  }

  lemma HasTake(es: seq<Block>, n: nat, x: BitNumber)
    requires n < |es|
    ensures Has(es[..n + 1], x) <==> Has(es[..n], x) || HasBit(es[n], x)
  {
    assert es[..n + 1] == es[..n] + [es[n]];
    HasConcat(es[..n], [es[n]], x);
    HasOne(es[n], x);
  }

  /** A processed prefix grows by what is kept of the next block. */
  lemma PrefixStep(prefix: seq<Block>, mid: seq<Block>, es: seq<Block>, p: nat, x: BitNumber, keep: bool)
    requires p < |es|
    requires Has(prefix, x) <==> Has(es[..p], x) && keep
    requires Has(mid, x) <==> HasBit(es[p], x) && keep
    ensures Has(prefix + mid, x) <==> Has(es[..p + 1], x) && keep
  {
    HasConcat(prefix, mid, x);
    HasTake(es, p, x);
  }

  ghost predicate HasBlock(es: seq<Block>, index: nat) {
    exists k :: 0 <= k < |es| && es[k].index == index
  }

  /** All blocks of a below all blocks of b from j on, and all of b before j below those of a from i on. */
  ghost predicate Aligned(a: seq<Block>, i: nat, b: seq<Block>, j: nat) {
    && i <= |a| && j <= |b|
    && (forall k | 0 <= k < i :: j < |b| ==> a[k].index < b[j].index)
    && (forall k | 0 <= k < j :: i < |a| ==> b[k].index < a[i].index)
  }

  lemma NoPartner(a: seq<Block>, i: nat, b: seq<Block>, j: nat)
    requires Sorted(b) && Aligned(a, i, b, j) && i < |a| && (j == |b| || a[i].index < b[j].index)
    ensures !HasBlock(b, a[i].index)
    ensures forall x: BitNumber :: HasBit(a[i], x) ==> !Has(b, x)
  {
  }

  /** One block of b merged into the list a, where all earlier blocks of b already are. */
  lemma UnionStep(es: seq<Block>, rs: seq<Block>, j: nat, cur: seq<Block>, next: seq<Block>, i: nat, x: BitNumber)
    requires j < |rs| && i <= |cur| && Sorted(cur)
    requires Has(cur, x) <==> Has(es, x) || Has(rs[..j], x)
    requires next == Splice(cur, i, i, [rs[j]])
          || (i < |cur| && |next| == |cur| && next == cur[i := next[i]] && cur[i].index == next[i].index == rs[j].index
              && forall k | 0 <= k < BLOCK :: Bit(next[i], k) == (Bit(cur[i], k) || Bit(rs[j], k)))
    ensures Has(next, x) <==> Has(es, x) || Has(rs[..j + 1], x)
  {
    HasTake(rs, j, x);
    if next == Splice(cur, i, i, [rs[j]]) {
      HasSplice(cur, i, i, [rs[j]], x);
      HasOne(rs[j], x);
    } else {
      assert next == Splice(cur, i, i + 1, [next[i]]);
      HasSplice(cur, i, i + 1, [next[i]], x);
      assert cur[i..i + 1] == [cur[i]];
      HasOne(cur[i], x);
      HasOne(next[i], x);
    }
  }

  /** Block j of rs has a bit that es lacks exactly when its union with the block at hand adds one. */
  lemma AddsBit(es: seq<Block>, rs: seq<Block>, j: nat, cur: seq<Block>, i: nat)
    requires j < |rs| && i < |cur| && Sorted(cur) && Sorted(rs) && cur[i].index == rs[j].index
    requires forall x: BitNumber :: Has(cur, x) <==> Has(es, x) || Has(rs[..j], x)
    ensures (exists k | 0 <= k < BLOCK :: Bit(rs[j], k) && !Bit(cur[i], k))
       <==> (exists x: BitNumber :: HasBit(rs[j], x) && !Has(es, x))
  {
    forall x: BitNumber | x / BLOCK == rs[j].index ensures Has(es, x) <==> Bit(cur[i], x % BLOCK) {
      HasAt(cur, i, x);
      assert !Has(rs[..j], x);
    }
    if k :| 0 <= k < BLOCK && Bit(rs[j], k) && !Bit(cur[i], k) {
      var x := Number(rs[j], k);
      assert HasBit(rs[j], x) && !Has(es, x);
    }
  }

  /** A block with no counterpart adds all its bits. */
  lemma AddsBlock(es: seq<Block>, rs: seq<Block>, j: nat, cur: seq<Block>)
    requires j < |rs| && !IsEmpty(rs[j]) && !HasBlock(cur, rs[j].index)
    requires forall x: BitNumber :: Has(cur, x) <==> Has(es, x) || Has(rs[..j], x)
    ensures exists x: BitNumber :: HasBit(rs[j], x) && !Has(es, x)
  {
    var x := NonEmptyHasMember(rs[j]);
    assert !Has(cur, x);
  }

  ghost predicate AddsSome(es: seq<Block>, rs: seq<Block>, j: nat)
    requires j <= |rs|
  {
    exists x: BitNumber :: Has(rs[..j], x) && !Has(es, x)
  }

  lemma AddsSomeStep(es: seq<Block>, rs: seq<Block>, j: nat)
    requires j < |rs|
    ensures AddsSome(es, rs, j + 1) <==> AddsSome(es, rs, j) || exists x: BitNumber :: HasBit(rs[j], x) && !Has(es, x)
  {
    if x: BitNumber :| Has(rs[..j + 1], x) && !Has(es, x) {
      HasTake(rs, j, x);
    }
    if x: BitNumber :| Has(rs[..j], x) && !Has(es, x) {
      HasTake(rs, j, x);
    }
    if x: BitNumber :| HasBit(rs[j], x) && !Has(es, x) {
      HasTake(rs, j, x);
    }
  }

  lemma NothingYet(es: seq<Block>, rs: seq<Block>)
    ensures Members([]) == {} && (forall x: BitNumber :: !Has([], x) && !Has(rs[..0], x)) && !AddsSome(es, rs, 0)
  {
  }

  lemma InsertKeepsCanonical(es: seq<Block>, i: nat, e: Block)
    requires Canonical(es) && i <= |es| && !IsEmpty(e)
    requires 0 < i ==> es[i - 1].index < e.index
    requires i < |es| ==> es[i].index > e.index
    ensures Canonical(Splice(es, i, i, [e]))
  {
  }

  lemma AddsSomeIsGrowth(es: seq<Block>, rs: seq<Block>)
    ensures AddsSome(es, rs, |rs|) <==> !(Members(rs) <= Members(es))
  {
    assert rs[..|rs|] == rs;
    if x: BitNumber :| Has(rs, x) && !Has(es, x) {
      assert x in Members(rs) && x !in Members(es);
    }
  }

  lemma UnionNotEmpty(e: Block, r: Block)
    requires !IsEmpty(e) && forall i | 0 <= i < BLOCK :: Bit(e, i) ==> Bit(r, i)
    ensures !IsEmpty(r)
  {
    EmptyHasNoBits(e);
    EmptyHasNoBits(r);
  }

  lemma NoBlockAt(es: seq<Block>, i: nat, index: nat)
    requires Sorted(es) && i <= |es|
    requires 0 < i ==> es[i - 1].index < index
    requires i < |es| ==> es[i].index > index
    ensures !HasBlock(es, index)
  {
  }

  lemma CanonicalIsSorted(es: seq<Block>)
    requires Canonical(es)
    ensures Sorted(es)
  {
  }

  lemma TakeKeepsCanonical(es: seq<Block>, i: nat)
    requires Canonical(es) && i <= |es|
    ensures Canonical(es[..i])
  {
  }

  lemma EraseKeepsCanonical(es: seq<Block>, i: nat)
    requires Canonical(es) && i < |es|
    ensures Canonical(es[..i] + es[i + 1..])
  {
  }

  /** Some bit in the first p blocks of es that rs lacks is in a block that rs has. */
  ghost predicate LosesShared(es: seq<Block>, rs: seq<Block>, p: nat)
    requires p <= |es|
  {
    exists x: BitNumber :: Has(es[..p], x) && !Has(rs, x) && HasBlock(rs, x / BLOCK)
  }

  lemma LosesSharedStep(es: seq<Block>, rs: seq<Block>, p: nat)
    requires p < |es|
    ensures LosesShared(es, rs, p + 1)
       <==> (LosesShared(es, rs, p)
             || (HasBlock(rs, es[p].index) && exists x: BitNumber :: HasBit(es[p], x) && !Has(rs, x)))
  {
    if x: BitNumber :| Has(es[..p + 1], x) && !Has(rs, x) && HasBlock(rs, x / BLOCK) {
      HasTake(es, p, x);
    }
    if x: BitNumber :| Has(es[..p], x) && !Has(rs, x) && HasBlock(rs, x / BLOCK) {
      HasTake(es, p, x);
    }
    if x: BitNumber :| HasBit(es[p], x) && !Has(rs, x) {
      HasTake(es, p, x);
    }
  }

  /** Some bit in the first p blocks of es is in rs. */
  ghost predicate MeetsSome(es: seq<Block>, rs: seq<Block>, p: nat)
    requires p <= |es|
  {
    exists x: BitNumber :: Has(es[..p], x) && Has(rs, x)
  }

  lemma MeetsSomeStep(es: seq<Block>, rs: seq<Block>, p: nat)
    requires p < |es|
    ensures MeetsSome(es, rs, p + 1) <==> MeetsSome(es, rs, p) || exists x: BitNumber :: HasBit(es[p], x) && Has(rs, x)
  {
    if x: BitNumber :| Has(es[..p + 1], x) && Has(rs, x) {
      HasTake(es, p, x);
    }
    if x: BitNumber :| Has(es[..p], x) && Has(rs, x) {
      HasTake(es, p, x);
    }
    if x: BitNumber :| HasBit(es[p], x) && Has(rs, x) {
      HasTake(es, p, x);
    }
  }

  /** Two blocks of the same index: what holds of bits holds of bit numbers. */
  lemma SharedBlock(es: seq<Block>, p: nat, rs: seq<Block>, j: nat)
    requires p < |es| && j < |rs| && Sorted(rs) && es[p].index == rs[j].index
    ensures HasBlock(rs, es[p].index)
    ensures (exists k | 0 <= k < BLOCK :: Bit(es[p], k) && !Bit(rs[j], k))
        <==> (exists x: BitNumber :: HasBit(es[p], x) && !Has(rs, x))
    ensures (exists k | 0 <= k < BLOCK :: Bit(es[p], k) && Bit(rs[j], k))
        <==> (exists x: BitNumber :: HasBit(es[p], x) && Has(rs, x))
    ensures forall x: BitNumber :: HasBit(es[p], x) ==> (Has(rs, x) <==> Bit(rs[j], x % BLOCK))
  {
    forall x: BitNumber | x / BLOCK == rs[j].index ensures Has(rs, x) <==> Bit(rs[j], x % BLOCK) {
      HasAt(rs, j, x);
    }
    if k :| 0 <= k < BLOCK && Bit(es[p], k) && !Bit(rs[j], k) {
      var x := Number(es[p], k);
      assert HasBit(es[p], x) && !Has(rs, x);
    }
    if k :| 0 <= k < BLOCK && Bit(es[p], k) && Bit(rs[j], k) {
      var x := Number(es[p], k);
      assert HasBit(es[p], x) && Has(rs, x);
    }
  }

  /** The state of an in-place merge: blocks of es before p are processed into prefix. */
  ghost predicate Merged(es: seq<Block>, p: nat, rs: seq<Block>, prefix: seq<Block>, complement: bool)
    requires p <= |es|
  {
    forall x: BitNumber :: Has(prefix, x) <==> Has(es[..p], x) && Has(rs, x) != complement
  }

  lemma MergedStep(es: seq<Block>, p: nat, rs: seq<Block>, prefix: seq<Block>, mid: seq<Block>, complement: bool)
    requires p < |es| && Merged(es, p, rs, prefix, complement)
    requires forall x: BitNumber :: Has(mid, x) <==> HasBit(es[p], x) && Has(rs, x) != complement
    ensures Merged(es, p + 1, rs, prefix + mid, complement)
  {
    forall x: BitNumber ensures Has(prefix + mid, x) <==> Has(es[..p + 1], x) && Has(rs, x) != complement {
      PrefixStep(prefix, mid, es, p, x, Has(rs, x) != complement);
    }
  }

  /** The step for blocks with a counterpart: e is what the block operation made of block p. */
  lemma MergedShared(es: seq<Block>, p: nat, rs: seq<Block>, j: nat, prefix: seq<Block>, e: Block, mid: seq<Block>,
      complement: bool)
    requires p < |es| && j < |rs| && Sorted(rs) && es[p].index == rs[j].index == e.index
    requires Merged(es, p, rs, prefix, complement)
    requires forall k | 0 <= k < BLOCK :: Bit(e, k) == (Bit(es[p], k) && Bit(rs[j], k) != complement)
    requires mid == if IsEmpty(e) then [] else [e]
    ensures Merged(es, p + 1, rs, prefix + mid, complement)
  {
    SharedBlock(es, p, rs, j);
    EmptyHasNoBits(e);
    forall x: BitNumber ensures Has(mid, x) <==> HasBit(es[p], x) && Has(rs, x) != complement {
      HasOne(e, x);
    }
    MergedStep(es, p, rs, prefix, mid, complement);
  }

  /** The step for blocks without one: dropped by intersection, kept by difference. */
  lemma MergedAlone(es: seq<Block>, p: nat, rs: seq<Block>, j: nat, prefix: seq<Block>, mid: seq<Block>,
      complement: bool)
    requires Sorted(rs) && Aligned(es, p, rs, j) && p < |es| && (j == |rs| || es[p].index < rs[j].index)
    requires Merged(es, p, rs, prefix, complement) && mid == if complement then [es[p]] else []
    ensures Merged(es, p + 1, rs, prefix + mid, complement)
    ensures !HasBlock(rs, es[p].index) && !exists x: BitNumber :: HasBit(es[p], x) && Has(rs, x)
  {
    NoPartner(es, p, rs, j);
    forall x: BitNumber ensures Has(mid, x) <==> HasBit(es[p], x) && Has(rs, x) != complement {
      HasOne(es[p], x);
    }
    MergedStep(es, p, rs, prefix, mid, complement);
  }

  /** Blocks left over when rs is exhausted have no counterpart. */
  lemma {:induction false} MergedRest(es: seq<Block>, p: nat, rs: seq<Block>, prefix: seq<Block>, complement: bool)
    requires Sorted(es) && Sorted(rs) && Aligned(es, p, rs, |rs|) && Merged(es, p, rs, prefix, complement)
    ensures Merged(es, |es|, rs, if complement then prefix + es[p..] else prefix, complement)
    ensures LosesShared(es, rs, p) <==> LosesShared(es, rs, |es|)
    ensures MeetsSome(es, rs, p) <==> MeetsSome(es, rs, |es|)
    decreases |es| - p
  {
    hide Merged, HasBlock, Has, HasBit, LosesShared, MeetsSome;
    if p < |es| {
      var mid := if complement then [es[p]] else [];
      MergedAlone(es, p, rs, |rs|, prefix, mid, complement);
      LosesSharedStep(es, rs, p);
      MeetsSomeStep(es, rs, p);
      MergedRest(es, p + 1, rs, prefix + mid, complement);
      assert complement ==> prefix + mid + es[p + 1..] == prefix + es[p..];
      assert !complement ==> prefix + mid == prefix;
    } else {
      assert prefix + es[p..] == prefix;
    }
  }

  lemma MergedIsResult(es: seq<Block>, rs: seq<Block>, result: seq<Block>, complement: bool)
    requires Merged(es, |es|, rs, result, complement)
    ensures Members(result) == if complement then Members(es) - Members(rs) else Members(es) * Members(rs)
    ensures MeetsSome(es, rs, |es|) <==> Members(es) * Members(rs) != {}
  {
    assert es[..|es|] == es;
    if x: BitNumber :| Has(es, x) && Has(rs, x) {
      assert x in Members(es) * Members(rs);
    }
  }

  lemma AlignedSteps(a: seq<Block>, i: nat, b: seq<Block>, j: nat)
    requires Sorted(a) && Sorted(b) && Aligned(a, i, b, j) && i < |a| && j < |b|
    ensures a[i].index > b[j].index ==> Aligned(a, i, b, j + 1)
    ensures a[i].index == b[j].index ==> Aligned(a, i + 1, b, j + 1)
    ensures a[i].index < b[j].index ==> Aligned(a, i + 1, b, j)
  {
  }

  /** What replacing, erasing or skipping block i does to the two parts of a list being merged. */
  lemma MergeSlices(cur: seq<Block>, i: nat, es: seq<Block>, p: nat, e: Block)
    requires i < |cur| && p <= |es| && cur[i..] == es[p..]
    ensures p < |es| && cur[i] == es[p]
    ensures cur[i := e][..i + 1] == cur[..i] + [e] && cur[i := e][i + 1..] == es[p + 1..]
    ensures var erased := cur[..i] + cur[i + 1..]; erased[..i] == cur[..i] + [] && erased[i..] == es[p + 1..]
    ensures cur[..i + 1] == cur[..i] + [es[p]] && cur[i + 1..] == es[p + 1..]
  {
    assert cur[i..][0] == es[p..][0];
    assert cur[i + 1..] == cur[i..][1..] && es[p + 1..] == es[p..][1..];
  }

  lemma ReplaceKeepsCanonical(es: seq<Block>, i: nat, e: Block)
    requires Canonical(es) && i < |es| && es[i].index == e.index && !IsEmpty(e)
    ensures Canonical(es[i := e])
  {
  }

  /** A block on both sides loses a bit: a member is lost although the other set has one in its block. */
  lemma LosesSharedMeans(es: seq<Block>, rs: seq<Block>)
    requires Canonical(es) && Canonical(rs)
    ensures LosesShared(es, rs, |es|) <==> exists x <- Members(es) - Members(rs) ::
              x / BLOCK in (set y | y in Members(rs) :: y / BLOCK)
  {
    assert es[..|es|] == es;
    if x: BitNumber :| Has(es, x) && !Has(rs, x) && HasBlock(rs, x / BLOCK) {
      var k :| 0 <= k < |rs| && rs[k].index == x / BLOCK;
      var y := NonEmptyHasMember(rs[k]);
      assert Has(rs, y) && y in Members(rs);
      assert x in Members(es) - Members(rs);
    }
  }

  /** When the flag of the in-place intersection is right: it is exactly when some shared block loses
      a bit or no block is without a counterpart. */
  lemma IntersectionFlagExact(es: seq<Block>, rs: seq<Block>)
    requires Canonical(es) && Canonical(rs)
    ensures LosesShared(es, rs, |es|) ==> !(Members(es) <= Members(rs))
    ensures (LosesShared(es, rs, |es|) <==> !(Members(es) <= Members(rs)))
       <==> (LosesShared(es, rs, |es|) || forall k | 0 <= k < |es| :: HasBlock(rs, es[k].index))
  {
    assert es[..|es|] == es;
    if x: BitNumber :| Has(es, x) && !Has(rs, x) && HasBlock(rs, x / BLOCK) {
      assert x in Members(es) && x !in Members(rs);
    }
    if k :| 0 <= k < |es| && !HasBlock(rs, es[k].index) {
      var x := NonEmptyHasMember(es[k]);
      assert x in Members(es) && x !in Members(rs);
    }
    if x :| x in Members(es) && x !in Members(rs) && !HasBlock(rs, x / BLOCK) {
      var k :| 0 <= k < |es| && HasBit(es[k], x);
      assert !HasBlock(rs, es[k].index);
    }
  }

  /** A vector holding bit 0, intersected with an empty one, shrinks without raising the flag. */
  lemma IntersectionFlagMisses() returns (es: seq<Block>, rs: seq<Block>)
    ensures Canonical(es) && Canonical(rs) && Members(es) == {0} && Members(rs) == {}
    ensures !LosesShared(es, rs, |es|)
  {
    var e := WithBit(NewBlock(0), 0, true);
    es, rs := [e], [];
    EmptyHasNoBits(e);
    forall x: BitNumber ensures Has(es, x) <==> x == 0 {
      HasOne(e, x);
      WithBitSetsOne(NewBlock(0), 0, true, x % BLOCK);
    }
    NothingShared(es, rs);
  }

  lemma MeetsSomeMeets(es: seq<Block>, rs: seq<Block>, p: nat)
    requires p <= |es| && MeetsSome(es, rs, p)
    ensures Members(es) * Members(rs) != {}
  {
    var x: BitNumber :| Has(es[..p], x) && Has(rs, x);
    HasConcat(es[..p], es[p..], x);
    assert es == es[..p] + es[p..];
    assert x in Members(es) * Members(rs);
  }

  lemma AloneMeetsNone(es: seq<Block>, p: nat, rs: seq<Block>, j: nat)
    requires Sorted(rs) && Aligned(es, p, rs, j) && p < |es| && (j == |rs| || es[p].index < rs[j].index)
    ensures !exists x: BitNumber :: HasBit(es[p], x) && Has(rs, x)
  {
    NoPartner(es, p, rs, j);
  }

  lemma {:induction false} RestMeetsNone(es: seq<Block>, p: nat, rs: seq<Block>)
    requires Sorted(es) && Sorted(rs) && Aligned(es, p, rs, |rs|) && !MeetsSome(es, rs, p)
    ensures Members(es) * Members(rs) == {}
    decreases |es| - p
  {
    if p < |es| {
      AloneMeetsNone(es, p, rs, |rs|);
      MeetsSomeStep(es, rs, p);
      RestMeetsNone(es, p + 1, rs);
    } else {
      NothingMet(es, rs);
    }
  }

  lemma NothingMet(es: seq<Block>, rs: seq<Block>)
    ensures !MeetsSome(es, rs, |es|) ==> Members(es) * Members(rs) == {}
    ensures es == [] ==> Members(es) * Members(rs) == {}
  {
    assert es[..|es|] == es;
  }

  lemma MergeStarts(es: seq<Block>, rs: seq<Block>, complement: bool)
    ensures Aligned(es, 0, rs, 0) && Merged(es, 0, rs, [], complement) && !LosesShared(es, rs, 0)
        && !MeetsSome(es, rs, 0)
  {
  }

  lemma NothingShared(es: seq<Block>, rs: seq<Block>)
    requires es == [] || rs == []
    ensures Members(es) * Members(rs) == {} && Members(es) - Members(rs) == Members(es) && !LosesShared(es, rs, |es|)
  {
  }

  lemma LosesNothing(es: seq<Block>)
    ensures !LosesShared(es, es, |es|)
  {
    assert es[..|es|] == es;
  }

  /** The invariant of the in-place union: cur holds es and the first j blocks of rs, and what is
      before i in cur is below block j. */
  ghost predicate Joining(es: seq<Block>, rs: seq<Block>, j: nat, cur: seq<Block>, i: nat) {
    && Canonical(rs) && Canonical(cur) && i <= |cur| && j <= |rs|
    && (0 < i && j < |rs| ==> cur[i - 1].index < rs[j].index)
    && forall x: BitNumber :: Has(cur, x) <==> Has(es, x) || Has(rs[..j], x)
  }

  lemma JoiningStarts(es: seq<Block>, rs: seq<Block>)
    requires Canonical(es) && Canonical(rs)
    ensures Joining(es, rs, 0, es, 0) && !AddsSome(es, rs, 0)
  {
    NothingYet(es, rs);
  }

  lemma JoiningInserts(es: seq<Block>, rs: seq<Block>, j: nat, cur: seq<Block>, i: nat)
    requires Joining(es, rs, j, cur, i) && j < |rs| && (i == |cur| || cur[i].index > rs[j].index)
    ensures Joining(es, rs, j + 1, cur[..i] + [rs[j]] + cur[i..], i + 1) && AddsSome(es, rs, j + 1)
  {
    hide Has, HasBit, Bit, IsEmpty, HasBlock, AddsSome;
    NoBlockAt(cur, i, rs[j].index);
    AddsBlock(es, rs, j, cur);
    AddsSomeStep(es, rs, j);
    InsertKeepsCanonical(cur, i, rs[j]);
    var next := Splice(cur, i, i, [rs[j]]);
    forall x: BitNumber ensures Has(next, x) <==> Has(es, x) || Has(rs[..j + 1], x) {
      UnionStep(es, rs, j, cur, next, i, x);
    }
  }

  lemma JoiningUnites(es: seq<Block>, rs: seq<Block>, j: nat, cur: seq<Block>, i: nat, e: Block)
    requires Joining(es, rs, j, cur, i) && j < |rs| && i < |cur| && cur[i].index == rs[j].index == e.index
    requires forall k | 0 <= k < BLOCK :: Bit(e, k) == (Bit(cur[i], k) || Bit(rs[j], k))
    ensures Joining(es, rs, j + 1, cur[i := e], i + 1)
    ensures AddsSome(es, rs, j + 1)
        <==> (AddsSome(es, rs, j) || exists k | 0 <= k < BLOCK :: Bit(rs[j], k) && !Bit(cur[i], k))
    ensures cur[i] == rs[j] ==> e == cur[i]
  {
    hide Has, HasBit, Bit, IsEmpty, HasBlock, AddsSome;
    AddsBit(es, rs, j, cur, i);
    AddsSomeStep(es, rs, j);
    UnionNotEmpty(cur[i], e);
    ReplaceKeepsCanonical(cur, i, e);
    if cur[i] == rs[j] {
      SameBitsSameBlock(e, cur[i]);
    }
    forall x: BitNumber ensures Has(cur[i := e], x) <==> Has(es, x) || Has(rs[..j + 1], x) {
      UnionStep(es, rs, j, cur, cur[i := e], i, x);
    }
  }

  lemma JoiningPasses(es: seq<Block>, rs: seq<Block>, j: nat, cur: seq<Block>, i: nat)
    requires Joining(es, rs, j, cur, i) && j < |rs| && i < |cur| && cur[i].index < rs[j].index
    ensures Joining(es, rs, j, cur, i + 1)
  {
  }

  lemma JoiningEnds(es: seq<Block>, rs: seq<Block>, cur: seq<Block>, i: nat)
    requires Joining(es, rs, |rs|, cur, i)
    ensures Canonical(cur) && Members(cur) == Members(es) + Members(rs)
    ensures AddsSome(es, rs, |rs|) <==> !(Members(rs) <= Members(es))
  {
    assert rs[..|rs|] == rs;
    AddsSomeIsGrowth(es, rs);
  }

  /** The invariant of the in-place merges: cur is the list being changed, its part from i on is the
      part of the original list es from p on, and rs has been read up to j. */
  ghost predicate Merging(es: seq<Block>, p: nat, rs: seq<Block>, j: nat, cur: seq<Block>, i: nat, complement: bool) {
    && Canonical(es) && Canonical(rs) && Canonical(cur)
    && i <= |cur| && p <= |es| && cur[i..] == es[p..]
    && Aligned(es, p, rs, j) && Merged(es, p, rs, cur[..i], complement)
  }

  lemma MergingStarts(es: seq<Block>, rs: seq<Block>, complement: bool)
    requires Canonical(es) && Canonical(rs)
    ensures Merging(es, 0, rs, 0, es, 0, complement) && !LosesShared(es, rs, 0) && !MeetsSome(es, rs, 0)
  {
    MergeStarts(es, rs, complement);
  }

  lemma MergingPassesOther(es: seq<Block>, p: nat, rs: seq<Block>, j: nat, cur: seq<Block>, i: nat, complement: bool)
    requires Merging(es, p, rs, j, cur, i, complement) && i < |cur| && j < |rs| && cur[i].index > rs[j].index
    ensures Merging(es, p, rs, j + 1, cur, i, complement)
  {
    MergeSlices(cur, i, es, p, cur[i]);
    AlignedSteps(es, p, rs, j);
  }

  lemma MergingShared(es: seq<Block>, p: nat, rs: seq<Block>, j: nat, cur: seq<Block>, i: nat, complement: bool,
      e: Block)
    requires Merging(es, p, rs, j, cur, i, complement) && i < |cur| && j < |rs|
    requires cur[i].index == rs[j].index == e.index
    requires forall k | 0 <= k < BLOCK :: Bit(e, k) == (Bit(cur[i], k) && Bit(rs[j], k) != complement)
    ensures p < |es|
    ensures if IsEmpty(e) then Merging(es, p + 1, rs, j + 1, cur[..i] + cur[i + 1..], i, complement)
            else Merging(es, p + 1, rs, j + 1, cur[i := e], i + 1, complement)
    ensures LosesShared(es, rs, p + 1)
       <==> (LosesShared(es, rs, p) || exists k | 0 <= k < BLOCK :: Bit(cur[i], k) && !Bit(rs[j], k))
    ensures MeetsSome(es, rs, p + 1)
       <==> (MeetsSome(es, rs, p) || exists k | 0 <= k < BLOCK :: Bit(cur[i], k) && Bit(rs[j], k))
  {
    hide IsEmpty, Has, HasBit, Bit, HasBlock, LosesShared, MeetsSome, Merged, Aligned;
    MergeSlices(cur, i, es, p, e);
    AlignedSteps(es, p, rs, j);
    MergedShared(es, p, rs, j, cur[..i], e, if IsEmpty(e) then [] else [e], complement);
    SharedBlock(es, p, rs, j);
    LosesSharedStep(es, rs, p);
    MeetsSomeStep(es, rs, p);
    if IsEmpty(e) {
      EraseKeepsCanonical(cur, i);
    } else {
      ReplaceKeepsCanonical(cur, i, e);
    }
  }

  lemma MergingAlone(es: seq<Block>, p: nat, rs: seq<Block>, j: nat, cur: seq<Block>, i: nat, complement: bool)
    requires Merging(es, p, rs, j, cur, i, complement) && i < |cur| && j < |rs| && cur[i].index < rs[j].index
    ensures p < |es|
    ensures if complement then Merging(es, p + 1, rs, j, cur, i + 1, complement)
            else Merging(es, p + 1, rs, j, cur[..i] + cur[i + 1..], i, complement)
    ensures LosesShared(es, rs, p + 1) <==> LosesShared(es, rs, p)
    ensures MeetsSome(es, rs, p + 1) <==> MeetsSome(es, rs, p)
  {
    hide IsEmpty, Has, HasBit, Bit, HasBlock, LosesShared, MeetsSome, Merged, Aligned;
    MergeSlices(cur, i, es, p, cur[i]);
    AlignedSteps(es, p, rs, j);
    MergedAlone(es, p, rs, j, cur[..i], if complement then [es[p]] else [], complement);
    LosesSharedStep(es, rs, p);
    MeetsSomeStep(es, rs, p);
    EraseKeepsCanonical(cur, i);
  }

  /** Either list exhausted: what is left is kept by difference and dropped by intersection. */
  lemma MergingEnds(es: seq<Block>, p: nat, rs: seq<Block>, j: nat, cur: seq<Block>, i: nat, complement: bool)
    requires Merging(es, p, rs, j, cur, i, complement) && (i == |cur| || j == |rs|)
    ensures var result := if complement then cur else cur[..i];
            Canonical(result)
            && Members(result) == if complement then Members(es) - Members(rs) else Members(es) * Members(rs)
    ensures LosesShared(es, rs, p) <==> LosesShared(es, rs, |es|)
    ensures MeetsSome(es, rs, p) <==> Members(es) * Members(rs) != {}
  {
    hide Has, HasBit, Bit, LosesShared, MeetsSome, Merged, Members;
    assert cur == cur[..i] + es[p..];
    if p < |es| {
      MergedRest(es, p, rs, cur[..i], complement);
    } else {
      assert cur == cur[..i];
    }
    MergedIsResult(es, rs, if complement then cur else cur[..i], complement);
    TakeKeepsCanonical(cur, i);
  }

  // ----- Recycled blocks

  /** An insertion as it goes once a block has been erased. The pointer kept for recycling is that of the
      block after the erased one, here at position k: it is initialised again as e, although it is still in
      the list, and a copy of it, f once its bits are set, is inserted before position i. */
  function RecycledInsert(es: seq<Block>, k: nat, e: Block, i: nat, f: Block): seq<Block>
    requires k < |es| && i <= |es|
  {
    Splice(es[k := e], i, i, [f])
  }

  /** Such an insertion is never right: whatever the list, all members of block k are gone. */
  lemma RecycledInsertLoses(es: seq<Block>, k: nat, e: Block, i: nat, f: Block)
    requires Canonical(es) && k < |es| && i <= |es| && e.index == f.index && !HasBlock(es, e.index)
    ensures Members([es[k]]) <= Members(es) && Members([es[k]]) != {}
    ensures Members(RecycledInsert(es, k, e, i, f)) !! Members([es[k]])
  {
    var x := NonEmptyHasMember(es[k]);
    HasOne(es[k], x);
    assert x in Members([es[k]]);
    forall y <- Members([es[k]]) ensures Has(es, y) && !Has(RecycledInsert(es, k, e, i, f), y) {
      HasOne(es[k], y);
      HasSplice(es[k := e], i, i, [f], y);
      HasOne(f, y);
    }
  }

  // ----- Hash values

  function Hash(es: seq<Block>): Word {
    if es == [] then ZeroWord()
    else
      var last := es[|es| - 1];
      Xor(Xor(Hash(es[..|es| - 1]), IndexWord(last.index)), Xor(last.bits[0], last.bits[1]))
  }

  lemma BlockHashIsXor(e: Block, h: Word)
    requires forall i | 0 <= i < WORD :: h[i] == (Bit(e, i) != Bit(e, WORD + i))
    ensures h == Xor(e.bits[0], e.bits[1])
  {
    forall i | 0 <= i < WORD ensures h[i] == Xor(e.bits[0], e.bits[1])[i] {
      BitOfWord(e, i);
    }
  }

  /** The members whose bit has position i in its word. */
  ghost function InLane(xs: set<BitNumber>, i: nat): set<BitNumber> {
    set x <- xs | x % WORD == i
  }

  /** The indices, with bit i set, of the blocks that hold members. */
  ghost function IndexLane(xs: set<BitNumber>, i: nat): set<nat>
    requires i < WORD
  {
    set x | x in xs && IndexWord(x / BLOCK)[i] :: x / BLOCK
  }

  predicate Odd(n: nat) {
    n % 2 == 1
  }

  lemma LaneOfRemainder(x: nat, r: nat, i: nat)
    requires r == x % BLOCK && i < WORD
    ensures x % WORD == i <==> r == i || r == WORD + i
  {
    assert x == x / BLOCK * BLOCK + r;
    assert x % WORD == r % WORD;
  }

  lemma NumbersInLane(e: Block, x: BitNumber, i: nat)
    requires i < WORD
    ensures x / BLOCK == e.index && x % WORD == i <==> x == Number(e, i) || x == Number(e, WORD + i)
    ensures x / BLOCK == e.index && x % WORD == i ==> x % BLOCK == i || x % BLOCK == WORD + i
    ensures Number(e, i) != Number(e, WORD + i)
  {
    LaneOfRemainder(x, x % BLOCK, i);
  }

  lemma InBlockLane(e: Block, x: BitNumber, i: nat)
    requires i < WORD
    ensures x in InLane(Members([e]), i)
       <==> (Bit(e, i) && x == Number(e, i)) || (Bit(e, WORD + i) && x == Number(e, WORD + i))
  {
    HasOne(e, x);
    hide Has, Bit, Number;
    NumbersInLane(e, x, i);
    NumberIsAt(e, i);
    NumberIsAt(e, WORD + i);
  }

  lemma NumberIsAt(e: Block, i: nat)
    requires i < BLOCK
    ensures Number(e, i) % BLOCK == i
  {
  }

  lemma BlockLane(e: Block, i: nat)
    requires i < WORD
    ensures |InLane(Members([e]), i)| == (if Bit(e, i) then 1 else 0) + if Bit(e, WORD + i) then 1 else 0
  {
    hide InLane, Members, Bit, Number;
    var low := if Bit(e, i) then {Number(e, i)} else {};
    var high := if Bit(e, WORD + i) then {Number(e, WORD + i)} else {};
    NumbersInLane(e, 0, i);
    forall x: BitNumber ensures x in InLane(Members([e]), i) <==> x in low + high {
      InBlockLane(e, x, i);
    }
    assert InLane(Members([e]), i) == low + high && low !! high;
  }

  lemma BlockIndexLane(e: Block, i: nat)
    requires !IsEmpty(e) && i < WORD
    ensures |IndexLane(Members([e]), i)| == if IndexWord(e.index)[i] then 1 else 0
  {
    var x := NonEmptyHasMember(e);
    HasOne(e, x);
    assert x in Members([e]);
    forall y <- Members([e]) ensures y / BLOCK == e.index {
      HasOne(e, y);
    }
    assert IndexLane(Members([e]), i) == if IndexWord(e.index)[i] then {e.index} else {};
  }

  /** The members of a list that ends in block e. */
  lemma MembersOfLast(init: seq<Block>, e: Block)
    requires Canonical(init + [e])
    ensures Members(init + [e]) == Members(init) + Members([e])
    ensures forall x <- Members(init), y <- Members([e]) :: x / BLOCK < y / BLOCK
  {
    assert (init + [e])[|init|] == e;
    forall x: BitNumber ensures Has(init + [e], x) <==> Has(init, x) || Has([e], x) {
      HasConcat(init, [e], x);
    }
    forall x <- Members(init), y <- Members([e]) ensures x / BLOCK < y / BLOCK {
      HasOne(e, y);
      var k :| 0 <= k < |init| && HasBit(init[k], x);
      assert (init + [e])[k] == init[k];
    }
  }

  /** What the hash value says of the set: each of its bits is the parity of the members in that position
      of their words and of the block indices with that bit set. */
  lemma {:induction false} HashIsParity(es: seq<Block>, i: nat)
    requires Canonical(es) && i < WORD
    ensures Hash(es)[i] <==> Odd(|InLane(Members(es), i)| + |IndexLane(Members(es), i)|)
  {
    hide Has, Members, InLane, IndexLane, IsEmpty, Bit, IndexWord;
    if es == [] {
      EmptyLanes(i);
    } else {
      var init, e := es[..|es| - 1], es[|es| - 1];
      assert es == init + [e];
      TakeKeepsCanonical(es, |es| - 1);
      HashIsParity(init, i);
      BitOfWord(e, i);
      MembersOfLast(init, e);
      BlockLane(e, i);
      BlockIndexLane(e, i);
      LanesAddUp(Members(init), Members([e]), i);
    }
  }

  lemma EmptyLanes(i: nat)
    requires i < WORD
    ensures InLane(Members([]), i) == {} && IndexLane(Members([]), i) == {}
  {
    assert Members([]) == {};
  }

  lemma LanesAddUp(xs: set<BitNumber>, ys: set<BitNumber>, i: nat)
    requires i < WORD
    requires forall x <- xs, y <- ys :: x / BLOCK < y / BLOCK
    ensures |InLane(xs + ys, i)| == |InLane(xs, i)| + |InLane(ys, i)|
    ensures |IndexLane(xs + ys, i)| == |IndexLane(xs, i)| + |IndexLane(ys, i)|
  {
    assert InLane(xs + ys, i) == InLane(xs, i) + InLane(ys, i);
    assert InLane(xs, i) !! InLane(ys, i);
    assert IndexLane(xs + ys, i) == IndexLane(xs, i) + IndexLane(ys, i);
    assert IndexLane(xs, i) !! IndexLane(ys, i);
  }

  /** Equal sets hash alike: the list of a set, and with it the hash value, is determined by the set. */
  lemma EqualSetsHashAlike(es: seq<Block>, fs: seq<Block>)
    requires Canonical(es) && Canonical(fs) && Members(es) == Members(fs)
    ensures Hash(es) == Hash(fs)
  {
    hide Hash, Canonical, Members, InLane, IndexLane;
    forall i | 0 <= i < WORD ensures Hash(es)[i] == Hash(fs)[i] {
      HashIsParity(es, i);
      HashIsParity(fs, i);
    }
  }

  class BitVector {
    var elements: seq<Block>
    /** The position of CurrElementIter. */
    var curr: nat

    ghost predicate Valid()
      reads this
    {
      Canonical(elements) && curr <= |elements|
    }

    ghost function Contents(): set<BitNumber>
      reads this
    {
      Members(elements)
    }

    constructor ()
      ensures Valid() && Contents() == {}
    {
      elements, curr := [], 0;
    }

    /** Copies another vector; the cursor starts at the first block. */
    constructor Copy(rhs: BitVector)
      requires rhs.Valid()
      ensures Valid() && Contents() == rhs.Contents()
    {
      elements, curr := rhs.elements, 0;
    }

    /** A linear search from the cursor in either direction. The backward walk may stop on a block
        below the target; then the block after it is above the target. */
    method FindLowerBound(index: nat) returns (pos: nat)
      requires Valid()
      modifies `curr
      ensures Valid() && Near(elements, index, pos) && curr == pos
    {
      if elements == [] {
        curr := 0;
        return 0;
      }
      if curr == |elements| {
        curr := curr - 1;
      }
      pos := curr;
      if elements[curr].index == index {
        return;
      } else if elements[curr].index > index {
        while pos != 0 && elements[pos].index > index
          invariant pos < |elements|
          invariant forall k | pos < k < |elements| :: elements[k].index > index
        {
          pos := pos - 1;
        }
      } else {
        while pos != |elements| && elements[pos].index < index
          invariant pos <= |elements|
          invariant forall k | 0 <= k < pos :: elements[k].index < index
        {
          pos := pos + 1;
        }
      }
      curr := pos;
    }

    method Test(x: BitNumber) returns (r: bool)
      requires Valid()
      modifies `curr
      ensures Valid() && (r <==> x in Contents())
    {
      if elements == [] {
        return false;
      }
      var pos := FindLowerBound(x / BLOCK);
      if pos == |elements| || elements[pos].index != x / BLOCK {
        NotNear(elements, pos, x);
        return false;
      }
      HasAt(elements, pos, x);
      r := Bit(elements[pos], x % BLOCK);
    }

    /** Erases one block; the cursor stays on its own block. A cursor on the erased block must be set
        again before it is used. */
    method EraseElement(pos: nat)
      requires pos < |elements|
      modifies this
      ensures elements == old(elements[..pos] + elements[pos + 1..])
      ensures curr == if old(curr) > pos then old(curr) - 1 else old(curr)
    {
      elements := elements[..pos] + elements[pos + 1..];
      curr := if curr > pos then curr - 1 else curr;
    }

    /** Inserts a block before pos; the cursor stays on its own block. */
    method InsertElement(pos: nat, e: Block)
      requires pos <= |elements|
      modifies this
      ensures elements == old(elements[..pos] + [e] + elements[pos..])
      ensures curr == if old(curr) >= pos then old(curr) + 1 else old(curr)
    {
      elements := elements[..pos] + [e] + elements[pos..];
      curr := if curr >= pos then curr + 1 else curr;
    }

    method Reset(x: BitNumber)
      requires Valid()
      modifies this
      ensures Valid() && Contents() == old(Contents()) - {x}
    {
      hide Has, HasBit, Bit, IsEmpty, WithBit, Canonical, Near, Sorted;
      ghost var es := elements;
      if elements == [] {
        EmptyLacks(x);
        return;
      }
      var pos := FindLowerBound(x / BLOCK);
      NearFacts(elements, x / BLOCK, pos);
      if pos == |elements| || elements[pos].index != x / BLOCK {
        NotNear(elements, pos, x);
        return;
      }
      CanonicalIsSorted(es);
      var e := WithBit(elements[pos], x % BLOCK, false);
      elements := elements[pos := e];
      if IsEmpty(elements[pos]) {
        curr := curr + 1;
        EraseElement(pos);
        assert elements == es[..pos] + es[pos + 1..];
        EraseKeepsCanonical(es, pos);
      } else {
        ReplaceKeepsCanonical(es, pos, e);
      }
      forall y: BitNumber ensures Has(elements, y) <==> Has(es, y) && y != x {
        BitDropped(es, pos, x, y);
      }
    }

    static lemma BitDropped(es: seq<Block>, pos: nat, x: BitNumber, y: BitNumber)
      requires Sorted(es) && pos < |es| && es[pos].index == x / BLOCK
      ensures var e := WithBit(es[pos], x % BLOCK, false);
              Has(if IsEmpty(e) then es[..pos] + es[pos + 1..] else es[pos := e], y) <==> Has(es, y) && y != x
    {
      var e := WithBit(es[pos], x % BLOCK, false);
      var mid := if IsEmpty(e) then [] else [e];
      assert Splice(es, pos, pos + 1, mid) == if IsEmpty(e) then es[..pos] + es[pos + 1..] else es[pos := e];
      EmptyHasNoBits(e);
      BlockReplaced(es, pos, e, mid, y);
      WithBitSetsOne(es[pos], x % BLOCK, false, y % BLOCK);
      HasAtOrElsewhere(es, pos, y);
    }

    /** Replacing block pos by e, or by nothing if e has no bits. */
    static lemma BlockReplaced(es: seq<Block>, pos: nat, e: Block, mid: seq<Block>, x: BitNumber)
      requires Sorted(es) && pos < |es| && e.index == es[pos].index
      requires mid == [e] || (mid == [] && NoBits(e))
      ensures Has(Splice(es, pos, pos + 1, mid), x)
          <==> if es[pos].index == x / BLOCK then Bit(e, x % BLOCK) else Has(es, x)
    {
      HasSplice(es, pos, pos + 1, mid, x);
      assert es[pos..pos + 1] == [es[pos]];
      HasOne(es[pos], x);
      HasOne(e, x);
    }

    /** The block of the given index, inserted empty at its place if there is none. */
    method FindOrInsert(index: nat) returns (pos: nat)
      requires Valid() && index < BLOCKS
      modifies this
      ensures pos < |elements| && elements[pos].index == index && curr == pos
      ensures elements == old(elements)
           || (pos <= |old(elements)| && NoneBetween(old(elements), pos, index)
               && elements == Splice(old(elements), pos, pos, [NewBlock(index)]))
    {
      pos := 0;
      if elements == [] {
        InsertElement(0, NewBlock(index));
      } else {
        pos := FindLowerBound(index);
        if pos == |elements| || elements[pos].index != index {
          if pos != |elements| && elements[pos].index < index {
            pos := pos + 1;
          }
          InsertElement(pos, NewBlock(index));
        }
      }
      curr := pos;
    }

    method Set(x: BitNumber)
      requires Valid()
      modifies this
      ensures Valid() && Contents() == old(Contents()) + {x}
    {
      hide Has, HasBit, Bit, IsEmpty, WithBit, Splice, NoneBetween;
      ghost var es := elements;
      var pos := FindOrInsert(x / BLOCK);
      ghost var with := elements;
      elements := elements[pos := WithBit(elements[pos], x % BLOCK, true)];
      InsertedIsCanonical(es, with, pos, x / BLOCK);
      SetBitNotEmpty(with[pos], x % BLOCK);
      forall y: BitNumber ensures Has(elements, y) <==> Has(es, y) || y == x {
        BitAdded(es, with, pos, x, y);
      }
    }

    static lemma InsertedIsCanonical(es: seq<Block>, with: seq<Block>, pos: nat, index: nat)
      requires Canonical(es) && index < BLOCKS
      requires with == es || (pos <= |es| && NoneBetween(es, pos, index)
          && with == Splice(es, pos, pos, [NewBlock(index)]))
      ensures Sorted(with) && forall k | 0 <= k < |with| && k != pos :: !IsEmpty(with[k])
    {
      hide IsEmpty;
      forall k | 0 <= k < |with| && k != pos ensures !IsEmpty(with[k]) {
        assert with[k] == if with == es || k < pos then es[k] else es[k - 1];
      }
    }

    static ghost predicate NoneBetween(es: seq<Block>, pos: nat, index: nat)
      requires pos <= |es|
    {
      (forall k | 0 <= k < pos :: es[k].index < index) && (forall k | pos <= k < |es| :: es[k].index > index)
    }

    /** Setting x in block pos of a list that is es, or es with an empty block inserted there. */
    static lemma BitAdded(es: seq<Block>, with: seq<Block>, pos: nat, x: BitNumber, y: BitNumber)
      requires Sorted(with) && pos < |with| && with[pos].index == x / BLOCK
      requires with == es || (pos <= |es| && with == Splice(es, pos, pos, [NewBlock(x / BLOCK)]))
      ensures Has(with[pos := WithBit(with[pos], x % BLOCK, true)], y) <==> Has(es, y) || y == x
    {
      var e := WithBit(with[pos], x % BLOCK, true);
      assert with[pos := e] == Splice(with, pos, pos + 1, [e]);
      BlockReplaced(with, pos, e, [e], y);
      WithBitSetsOne(with[pos], x % BLOCK, true, y % BLOCK);
      if with != es {
        HasSplice(es, pos, pos, [NewBlock(x / BLOCK)], y);
        HasOne(NewBlock(x / BLOCK), y);
      }
      HasAtOrElsewhere(with, pos, y);
    }

    static lemma SetBitNotEmpty(e: Block, i: nat)
      requires i < BLOCK
      ensures !IsEmpty(WithBit(e, i, true))
    {
      WithBitSetsOne(e, i, true, i);
      EmptyHasNoBits(WithBit(e, i, true));
    }

    static lemma HasAtOrElsewhere(es: seq<Block>, k: nat, x: BitNumber)
      requires Sorted(es) && k < |es|
      ensures es[k].index == x / BLOCK ==> (Has(es, x) <==> Bit(es[k], x % BLOCK))
    {
      if es[k].index == x / BLOCK {
        HasAt(es, k, x);
      }
    }

    /** Returns whether the bit was new. */
    method TestAndSet(x: BitNumber) returns (r: bool)
      requires Valid()
      modifies this
      ensures Valid() && Contents() == old(Contents()) + {x}
      ensures r <==> x !in old(Contents())
    {
      var old' := Test(x);
      if !old' {
        Set(x);
        return true;
      }
      r := false;
    }

    // ----- Set operations by merging two ordered lists

    /** Union in place; returns whether the set grew. The other vector may be this one. */
    method UnionWith(rhs: BitVector) returns (changed: bool)
      requires Valid() && rhs.Valid()
      modifies this
      ensures Valid() && Contents() == old(Contents()) + old(rhs.Contents())
      ensures changed <==> !(old(rhs.Contents()) <= old(Contents()))
    {
      hide IsEmpty, Bit, AddsSome, Joining, Canonical, Members;
      ghost var es, rs := elements, rhs.elements;
      JoiningStarts(es, rs);
      changed := false;
      var i1, i2 := 0, 0;
      if rhs.elements == [] {
        JoiningEnds(es, rs, es, 0);
        return;
      }
      while i2 < |rhs.elements|
        invariant rhs.elements == rs && (rhs == this ==> i1 == i2)
        invariant i1 <= |elements| && i2 <= |rs| && Joining(es, rs, i2, elements, i1)
        invariant changed <==> AddsSome(es, rs, i2)
        decreases |rs| - i2 + |elements| - i1
      {
        ghost var cur := elements;
        if i1 == |elements| || elements[i1].index > rhs.elements[i2].index {
          assert rhs != this;
          JoiningInserts(es, rs, i2, cur, i1);
          InsertElement(i1, rhs.elements[i2]);
          i1, i2 := i1 + 1, i2 + 1;
          changed := true;
        } else if elements[i1].index == rhs.elements[i2].index {
          var e, ch := BitBlocks.UnionWith(elements[i1], rhs.elements[i2]);
          JoiningUnites(es, rs, i2, cur, i1, e);
          elements := elements[i1 := e];
          changed := changed || ch;
          i1, i2 := i1 + 1, i2 + 1;
        } else {
          JoiningPasses(es, rs, i2, cur, i1);
          i1 := i1 + 1;
        }
      }
      JoiningEnds(es, rs, elements, i1);
      curr := 0;
    }

    /** Intersection in place. The flag only looks at blocks present on both sides: it tells whether one
        of those lost a bit. */
    method IntersectWith(rhs: BitVector) returns (changed: bool)
      requires Valid() && rhs.Valid()
      modifies this
      ensures Valid() && Contents() == old(Contents()) * old(rhs.Contents())
      ensures changed <==> LosesShared(old(elements), old(rhs.elements), |old(elements)|)
      ensures changed <==> exists x <- old(Contents()) - old(rhs.Contents()) ::
                x / BLOCK in (set y | y in old(rhs.Contents()) :: y / BLOCK)
    {
      hide IsEmpty, Bit, LosesShared, Merging, Canonical, Members;
      ghost var es, rs := elements, rhs.elements;
      LosesSharedMeans(es, rs);
      if this == rhs {
        LosesNothing(es);
        return false;
      }
      changed := false;
      var i1, i2 := 0, 0;
      if elements == [] && rhs.elements == [] {
        NothingShared(es, rs);
        return;
      }
      ghost var p := 0;
      MergingStarts(es, rs, false);
      while i2 < |rhs.elements|
        invariant rhs.elements == rs && i1 <= |elements| && i2 <= |rs| && p <= |es|
        invariant Merging(es, p, rs, i2, elements, i1, false)
        invariant changed <==> LosesShared(es, rs, p)
        decreases |rs| - i2 + |es| - p
      {
        if i1 == |elements| {
          MergingEnds(es, p, rs, i2, elements, i1, false);
          assert elements[..i1] == elements;
          curr := 0;
          return;
        }
        ghost var cur := elements;
        if elements[i1].index > rhs.elements[i2].index {
          MergingPassesOther(es, p, rs, i2, cur, i1, false);
          i2 := i2 + 1;
        } else if elements[i1].index == rhs.elements[i2].index {
          var e, ch, becameZero := BitBlocks.IntersectWith(elements[i1], rhs.elements[i2]);
          MergingShared(es, p, rs, i2, cur, i1, false, e);
          changed := changed || ch;
          if becameZero {
            EraseElement(i1);
          } else {
            elements := elements[i1 := e];
            i1 := i1 + 1;
          }
          p, i2 := p + 1, i2 + 1;
        } else {
          MergingAlone(es, p, rs, i2, cur, i1, false);
          EraseElement(i1);
          p := p + 1;
        }
      }
      MergingEnds(es, p, rs, i2, elements, i1, false);
      elements := elements[..i1];
      curr := 0;
    }

    /** Difference in place; returns whether the set shrank. A vector must not be subtracted from itself:
        the merge would erase the block it is still reading. */
    method IntersectWithComplement(rhs: BitVector) returns (changed: bool)
      requires Valid() && rhs.Valid() && rhs != this
      modifies this
      ensures Valid() && Contents() == old(Contents()) - old(rhs.Contents())
      ensures changed <==> old(Contents()) * old(rhs.Contents()) != {}
    {
      hide IsEmpty, Bit, MeetsSome, Merging, Canonical, Members;
      ghost var es, rs := elements, rhs.elements;
      changed := false;
      var i1, i2 := 0, 0;
      if elements == [] || rhs.elements == [] {
        NothingShared(es, rs);
        return;
      }
      ghost var p := 0;
      MergingStarts(es, rs, true);
      while i2 < |rhs.elements|
        invariant rhs.elements == rs && i1 <= |elements| && i2 <= |rs| && p <= |es|
        invariant Merging(es, p, rs, i2, elements, i1, true)
        invariant changed <==> MeetsSome(es, rs, p)
        decreases |rs| - i2 + |es| - p
      {
        if i1 == |elements| {
          MergingEnds(es, p, rs, i2, elements, i1, true);
          assert elements[..i1] == elements;
          curr := 0;
          return;
        }
        ghost var cur := elements;
        if elements[i1].index > rhs.elements[i2].index {
          MergingPassesOther(es, p, rs, i2, cur, i1, true);
          i2 := i2 + 1;
        } else if elements[i1].index == rhs.elements[i2].index {
          var e, ch, becameZero := BitBlocks.IntersectWithComplement(elements[i1], rhs.elements[i2]);
          MergingShared(es, p, rs, i2, cur, i1, true, e);
          changed := changed || ch;
          if becameZero {
            EraseElement(i1);
          } else {
            elements := elements[i1 := e];
            i1 := i1 + 1;
          }
          p, i2 := p + 1, i2 + 1;
        } else {
          MergingAlone(es, p, rs, i2, cur, i1, true);
          i1 := i1 + 1;
          p := p + 1;
        }
      }
      MergingEnds(es, p, rs, i2, elements, i1, true);
      curr := 0;
    }

    // ----- Queries on whole sets

    method Equals(rhs: BitVector) returns (r: bool)
      requires Valid() && rhs.Valid()
      ensures r <==> Contents() == rhs.Contents()
    {
      EqualListsAreEqualSets(elements, rhs.elements);
      var i := 0;
      while i < |elements| && i < |rhs.elements|
        invariant i <= |elements| && i <= |rhs.elements|
        invariant elements[..i] == rhs.elements[..i]
      {
        if elements[i] != rhs.elements[i] {
          return false;
        }
        i := i + 1;
      }
      r := i == |elements| && i == |rhs.elements|;
      assert r ==> elements == elements[..i];
      assert r ==> rhs.elements == rhs.elements[..i];
    }

    method Intersects(rhs: BitVector) returns (r: bool)
      requires Valid() && rhs.Valid()
      ensures r <==> Contents() * rhs.Contents() != {}
    {
      hide IsEmpty, Has, HasBit, Bit, HasBlock, MeetsSome, Merged, Aligned, Sorted, Canonical, Members;
      ghost var es, rs := elements, rhs.elements;
      NothingMet(es, rs);
      if elements == [] && rhs.elements == [] {
        return false;
      }
      CanonicalIsSorted(es);
      CanonicalIsSorted(rs);
      MergeStarts(es, rs, true);
      var i1, i2 := 0, 0;
      while i2 < |rhs.elements|
        invariant i1 <= |es| && i2 <= |rs| && Aligned(es, i1, rs, i2) && !MeetsSome(es, rs, i1)
        decreases |rs| - i2 + |es| - i1
      {
        if i1 == |elements| {
          return false;
        }
        AlignedSteps(es, i1, rs, i2);
        if elements[i1].index > rhs.elements[i2].index {
          i2 := i2 + 1;
        } else if elements[i1].index == rhs.elements[i2].index {
          SharedBlock(es, i1, rs, i2);
          MeetsSomeStep(es, rs, i1);
          var common := BitBlocks.Intersects(elements[i1], rhs.elements[i2]);
          if common {
            MeetsSomeMeets(es, rs, i1 + 1);
            return true;
          }
          i1, i2 := i1 + 1, i2 + 1;
        } else {
          AloneMeetsNone(es, i1, rs, i2);
          MeetsSomeStep(es, rs, i1);
          i1 := i1 + 1;
        }
      }
      RestMeetsNone(es, i1, rs);
      r := false;
    }

    /** The number of members, which wraps in 32 bits: the set of all bit numbers counts 0. */
    method Count() returns (n: BitNumber)
      requires Valid()
      ensures n == if Contents() == AllNumbers(LIMIT) then 0 else |Contents()|
    {
      n := 0;
      for i := 0 to |elements|
        invariant n == TotalCount(elements[..i]) % LIMIT
      {
        assert elements[..i + 1][..i] == elements[..i];
        n := (n + BlockCount(elements[i])) % LIMIT;
      }
      assert elements[..|elements|] == elements;
      CountIsCardinality(elements);
      MembersAreCounted(Contents());
    }

    /** The least member as a signed 32-bit number, or -1. The conversion makes members from 2^31 on
        negative, so that -1 also stands for the set holding only the largest bit number. */
    method FindFirst() returns (r: int)
      requires Valid()
      ensures Contents() == {} ==> r == -1
      ensures Contents() != {} ==> exists x: BitNumber ::
                x in Contents() && (forall y <- Contents() :: x <= y) && r == if x < LIMIT / 2 then x else x - LIMIT
      ensures r == -1 <==> Contents() == {} || Contents() == {LIMIT - 1}
    {
      if elements == [] {
        return -1;
      }
      var i := BitBlocks.FindFirst(elements[0]);
      var x: BitNumber := Number(elements[0], i);
      assert HasBit(elements[0], x) && x in Contents();
      forall y <- Contents() ensures x <= y {
        var k :| 0 <= k < |elements| && HasBit(elements[k], y);
      }
      r := if x < LIMIT / 2 then x else x - LIMIT;
      if r == -1 {
        assert Contents() == {LIMIT - 1};
      }
    }

    /** Each bit of the hash value is a parity of the set: of the members in that position of their words
        and of the block indices with that bit set. */
    method GetHashValue() returns (h: Word)
      requires Valid()
      ensures forall i | 0 <= i < WORD :: h[i] <==> Odd(|InLane(Contents(), i)| + |IndexLane(Contents(), i)|)
    {
      hide Has, Bit, IsEmpty, InLane, IndexLane, Members, Xor, IndexWord;
      h := ZeroWord();
      for i := 0 to |elements|
        invariant h == Hash(elements[..i])
      {
        assert elements[..i + 1][..i] == elements[..i];
        h := Xor(h, IndexWord(elements[i].index));
        var blockHash := BlockHash(elements[i]);
        BlockHashIsXor(elements[i], blockHash);
        h := Xor(h, blockHash);
      }
      assert elements[..|elements|] == elements;
      forall i | 0 <= i < WORD ensures h[i] <==> Odd(|InLane(Contents(), i)| + |IndexLane(Contents(), i)|) {
        HashIsParity(elements, i);
      }
    }

    method Clear()
      modifies this
      ensures Valid() && Contents() == {}
    {
      elements, curr := [], 0;
    }
  }
}
