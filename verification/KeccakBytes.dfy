/** Bytes and the sponge, bit by bit: the hash is that of the sponge of FIPS 202 with rate 1088. */
module KeccakBytes {
  import opened Keccak
  import opened KeccakRounds
  import opened KeccakBits
  import opened KeccakWords
  import opened KeccakSponge

  // ---------------------------------------------------------------------------------------------
  // Bytes of a lane
  // ---------------------------------------------------------------------------------------------

  /** Bit c of a byte, counted from the least significant. */
  predicate ByteBit(b: bv8, c: nat)
    requires c < 8
  {
    match c
    case 0 => b & 1 != 0
    case 1 => b & 2 != 0
    case 2 => b & 4 != 0
    case 3 => b & 8 != 0
    case 4 => b & 16 != 0
    case 5 => b & 32 != 0
    case 6 => b & 64 != 0
    case _ => b & 128 != 0
  }

  lemma ExtractAt(v: bv64, i: nat, c: nat)
    requires i < 8 && c < 8
    ensures ByteBit(Extract(v, i), c) == At(v, Octet(i) + Unit(c))
  {
    if c == 0 {
    } else if c == 1 {
    } else if c == 2 {
    } else if c == 3 {
    } else if c == 4 {
    } else if c == 5 {
    } else if c == 6 {
    } else {
    }
  }

  lemma BitAt(v: bv64, i: nat, c: nat)
    requires i < 8 && c < 8
    ensures KeccakWords.Bit(v, 8 * i + c) == At(v, Octet(i) + Unit(c))
  {
    PlaceParts(8 * i + c, i, c);
    Units(Octet(i), c);
    BitAtPlace(v, 8 * i + c, Octet(i) + Unit(c));
  }

  /** Byte i of a lane is its bits 8 i to 8 i + 7. */
  lemma ExtractBit(v: bv64, i: nat, c: nat)
    requires i < 8 && c < 8
    ensures ByteBit(Extract(v, i), c) == KeccakWords.Bit(v, 8 * i + c)
  {
    ExtractAt(v, i, c);
    BitAt(v, i, c);
  }

  lemma ExtractXor(a: bv64, b: bv64, i: nat)
    requires i < 8
    ensures Extract(Xor64(a, b), i) == Extract(a, i) ^ Extract(b, i)
  {
    if i == 0 {
    } else if i == 1 {
    } else if i == 2 {
    } else if i == 3 {
    } else if i == 4 {
    } else if i == 5 {
    } else if i == 6 {
    } else {
    }
  }

  // ---------------------------------------------------------------------------------------------
  // The state as bytes
  // ---------------------------------------------------------------------------------------------

  /** Byte j of the state. */
  function StateByte(s: State, j: nat): bv8
    requires j < 200
  {
    Extract(s[j / 8], j % 8)
  }

  lemma ByteParts(j: nat, k: nat, i: nat)
    requires k == j / 8 && i == j % 8
    ensures j == 8 * k + i && i < 8 && (j < 136 <==> k < 17) && (j < 200 <==> k < 25)
  {
  }

  /** The first 136 bytes of the state are exclusive-ored with the block, the others are kept. */
  lemma BlockBytes(s: State, block: seq<bv8>, j: nat)
    requires |block| == 136 && j < 200
    ensures StateByte(XorBlock(s, block), j) == if j < 136 then StateByte(s, j) ^ block[j] else StateByte(s, j)
  {
    var k, i := j / 8, j % 8;
    ByteParts(j, k, i);
    if k < 17 {
      LaneBytes(block, k, i);
      ExtractXor(s[k], BlockLane(block, k), i);
    }
  }

  lemma LaneBytes(block: seq<bv8>, k: nat, i: nat)
    requires |block| == 136 && k < 17 && i < 8
    ensures Extract(BlockLane(block, k), i) == block[8 * k + i]
  {
    ExtractPacked(block[8 * k..8 * k + 8], 8, i);
  }

  // ---------------------------------------------------------------------------------------------
  // The message as bits
  // ---------------------------------------------------------------------------------------------

  /** Bit n of a string of bytes. */
  predicate TextBit(text: seq<bv8>, n: nat)
    requires n < 8 * |text|
  {
    ByteBit(text[n / 8], n % 8)
  }

  /** Padding fills up to the next multiple of the rate: the message, a one, zeros and a one. */
  lemma PaddingBits(data: seq<bv8>, n: nat)
    requires n < 8 * |Padded(data)|
    ensures |Padded(data)| % 136 == 0 && |data| < |Padded(data)| <= |data| + 136
    ensures TextBit(Padded(data), n) == if n < 8 * |data| then TextBit(data, n)
                                        else n == 8 * |data| || n == 8 * |Padded(data)| - 1
  {
    var k, c := n / 8, n % 8;
    TextParts(n, k, c, |data|, |Padded(data)|);
    if k >= |data| {
      var m := |Padded(data)| - |data|;
      assert Padded(data)[k] == PadBytes(m)[k - |data|];
      PadBit(m, k - |data|, c);
    }
  }

  lemma TextParts(n: nat, k: nat, c: nat, length: nat, all: nat)
    requires k == n / 8 && c == n % 8 && n < 8 * all
    ensures c < 8 && k < all && (k < length <==> n < 8 * length)
    ensures n == 8 * length <==> k == length && c == 0
    ensures n == 8 * all - 1 <==> k == all - 1 && c == 7
  {
  }

  lemma PadBit(m: nat, k: nat, c: nat)
    requires k < m && c < 8
    ensures ByteBit(PadBytes(m)[k], c) <==> (k == 0 && c == 0) || (k == m - 1 && c == 7)
  {
    PadByteBits(c);
    if m > 1 {
      assert PadBytes(m)[k] == if k == 0 then 0x01 else if k < m - 1 then 0 else 0x80;
    }
  }

  lemma PadByteBits(c: nat)
    requires c < 8
    ensures !ByteBit(0, c) && (ByteBit(0x01, c) <==> c == 0) && (ByteBit(0x80, c) <==> c == 7)
    ensures ByteBit(0x81, c) <==> c == 0 || c == 7
  {
  }

  // ---------------------------------------------------------------------------------------------
  // The sponge: sections 4 and 3.1.2 of FIPS 202, with rate 1088
  // ---------------------------------------------------------------------------------------------

  /** Bit 64 (x + 5 y) + z of the state is A[x, y, z]. The first 1088 take the block. */
  predicate AddedAt(b: Bits, block: seq<bv8>, x: nat, y: nat, z: nat) {
    var n := 64 * (x + 5 * y) + z;
    if n < 8 * |block| then Odd(b(x, y, z), TextBit(block, n)) else b(x, y, z)
  }

  function AddedOf(b: Bits, block: seq<bv8>): Bits {
    (x: nat, y: nat, z: nat) => AddedAt(b, block, x, y, z)
  }

  function PermutedOf(b: Bits): Bits {
    RoundsOf(b, OFFSETS, ConstantBit, |RC|)
  }

  function TakenOf(b: Bits, block: seq<bv8>): Bits {
    PermutedOf(AddedOf(b, block))
  }

  /** Take in a text block by block, from the first on. */
  function SpongeOf<B>(take: (B, seq<bv8>) -> B, b: B, text: seq<bv8>): B {
    if |text| < 136 then b else SpongeOf(take, take(b, text[..136]), text[136..])
  }

  function Blank(): Bits {
    (x: nat, y: nat, z: nat) => false
  }

  // ---------------------------------------------------------------------------------------------
  // The program against the sponge
  // ---------------------------------------------------------------------------------------------

  lemma BlockBit(block: seq<bv8>, k: nat, z: nat, n: nat)
    requires |block| == 136 && k < 17 && z < 64 && n == 64 * k + z
    ensures KeccakWords.Bit(BlockLane(block, k), z) == TextBit(block, n)
  {
    var i, c := z / 8, z % 8;
    BitParts(k, z, n, i, c);
    LaneBytes(block, k, i);
    ExtractBit(BlockLane(block, k), i, c);
  }

  lemma BitParts(k: nat, z: nat, n: nat, i: nat, c: nat)
    requires z < 64 && n == 64 * k + z && i == z / 8 && c == z % 8
    ensures i < 8 && c < 8 && z == 8 * i + c && n / 8 == 8 * k + i && n % 8 == c
  {
  }

  lemma AddedBits(s: State, b: Bits, block: seq<bv8>)
    requires Denotes(VIEW, s, b) && |block| == 136
    ensures Denotes(VIEW, XorBlock(s, block), AddedOf(b, block))
  {
    forall k: nat, z: nat | k < 25 && z < 64
      ensures LaneIs(VIEW, XorBlock(s, block)[k], AddedOf(b, block), k % 5, k / 5, z)
    {
      AddedBit(s, b, block, k, k % 5, k / 5, z, 64 * k + z);
    }
  }

  lemma AddedBit(s: State, b: Bits, block: seq<bv8>, k: nat, x: nat, y: nat, z: nat, n: nat)
    requires Denotes(VIEW, s, b) && |block| == 136
    requires k < 25 && z < 64 && x == k % 5 && y == k / 5 && n == 64 * k + z
    ensures LaneIs(VIEW, XorBlock(s, block)[k], AddedOf(b, block), x, y, z)
  {
    assert LaneIs(VIEW, s[k], b, k % 5, k / 5, z);
    assert k == x + 5 * y;
    if k < 17 {
      BlockBit(block, k, z, n);
      XorBit(s[k], BlockLane(block, k), z);
    }
  }

  lemma AbsorbedBits(s: State, b: Bits, block: seq<bv8>)
    requires Denotes(VIEW, s, b) && |block| == 136
    ensures Denotes(VIEW, Absorbed(s, block), TakenOf(b, block))
  {
    AddedBits(s, b, block);
    KeccakFBits(XorBlock(s, block), AddedOf(b, block));
  }

  /** Folding from the front, as the sponge does. */
  lemma {:induction false} FoldFront<S>(f: (S, seq<bv8>) -> S, start: S, text: seq<bv8>, m: nat)
    requires 136 * (m + 1) <= |text|
    ensures Fold(f, start, text, m + 1) == Fold(f, f(start, text[..136]), text[136..], m)
  {
    if m == 0 {
      assert Fold(f, start, text, 0) == start;
    } else {
      FoldFront(f, start, text, m - 1);
      assert Block(text, m + 1) == Block(text[136..], m);
    }
  }

  /** What one block keeps of a relation between two states, all blocks keep. */
  lemma {:induction false} FoldRelates<S(!new), B(!new)>(f: (S, seq<bv8>) -> S, take: (B, seq<bv8>) -> B,
                                                         related: (S, B) -> bool, s: S, b: B, text: seq<bv8>, m: nat)
    requires forall s1, b1, block :: related(s1, b1) && |block| == 136 ==> related(f(s1, block), take(b1, block))
    requires related(s, b) && |text| == 136 * m
    ensures related(Fold(f, s, text, m), SpongeOf(take, b, text))
    decreases m
  {
    if m > 0 {
      FoldRelates(f, take, related, f(s, text[..136]), take(b, text[..136]), text[136..], m - 1);
      FoldFront(f, s, text, m - 1);
    }
  }

  lemma FoldBits(text: seq<bv8>, m: nat)
    requires |text| == 136 * m
    ensures Denotes(VIEW, Fold<State>(Absorbed, ZeroState(), text, m), SpongeOf(TakenOf, Blank(), text))
  {
    var related := (s: State, b: Bits) => Denotes(VIEW, s, b);
    forall s: State, b: Bits, block: seq<bv8> | related(s, b) && |block| == 136
      ensures related(Absorbed(s, block), TakenOf(b, block))
    {
      AbsorbedBits(s, b, block);
    }
    BlankBits();
    FoldRelates<State, Bits>(Absorbed, TakenOf, related, ZeroState(), Blank(), text, m);
  }

  lemma BlankBits()
    ensures Denotes(VIEW, ZeroState(), Blank())
  {
    forall k: nat, z: nat | k < 25 && z < 64 ensures LaneIs(VIEW, ZeroState()[k], Blank(), k % 5, k / 5, z) {
      ZeroBit(z);
    }
  }

  lemma ZeroBit(z: nat)
    ensures !KeccakWords.Bit(0, z)
  {
  }

  lemma HashAfter(data: seq<bv8>, after: nat -> State, m: nat, text: seq<bv8>)
    requires Tracks(after, text) && text == Padded(data) && m == |data| / 136 + 1
    ensures Hash(data) == Squeezed(after(m))
  {
    assert after(m) == Fold<State>(Absorbed, ZeroState(), text, m);
  }

  lemma AfterBits(after: nat -> State, text: seq<bv8>, m: nat)
    requires Tracks(after, text) && |text| == 136 * m
    ensures Denotes(VIEW, after(m), SpongeOf(TakenOf, Blank(), text))
  {
    FoldBits(text, m);
  }

  /** The hash of a message, whose padding has m blocks, is the first 256 bits of the sponge over it. */
  lemma HashBits(data: seq<bv8>, text: seq<bv8>, m: nat, n: nat, k: nat, z: nat)
    requires text == Padded(data) && m == |data| / 136 + 1 && n < 256 && k == n / 64 && z == n % 64
    ensures |Hash(data)| == 32
    ensures TextBit(Hash(data), n) == SpongeOf(TakenOf, Blank(), text)(k, 0, z)
  {
    var after := StatesOf(text);
    AfterBits(after, text, m);
    HashAfter(data, after, m, text);
    SqueezedBit(after(m), SpongeOf(TakenOf, Blank(), text), n, k, z, Hash(data));
  }

  lemma SqueezedBit(s: State, b: Bits, n: nat, k: nat, z: nat, hash: seq<bv8>)
    requires Denotes(VIEW, s, b) && n < 256 && k == n / 64 && z == n % 64 && hash == Squeezed(s)
    ensures |hash| == 32 && TextBit(hash, n) == b(k, 0, z)
  {
    var i, c := z / 8, z % 8;
    BitParts(k, z, n, i, c);
    SqueezedByte(s, 8 * k + i, k, i);
    TextBitIs(hash, n, 8 * k + i, c, Extract(s[k], i));
    ExtractBit(s[k], i, c);
    assert LaneIs(VIEW, s[k], b, k % 5, k / 5, z);
  }

  lemma SqueezedByte(s: State, j: nat, k: nat, i: nat)
    requires j == 8 * k + i && k < 4 && i < 8
    ensures Squeezed(s)[j] == Extract(s[k], i)
  {
    assert j / 8 == k && j % 8 == i;
  }

  lemma TextBitIs(text: seq<bv8>, n: nat, j: nat, c: nat, b: bv8)
    requires n / 8 == j < |text| && n % 8 == c && text[j] == b
    ensures TextBit(text, n) == ByteBit(b, c)
  {
  }
}
