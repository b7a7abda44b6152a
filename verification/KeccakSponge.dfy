/** Keccak-256: byte-at-a-time buffering against the sponge over the padded message. */
module KeccakSponge {
  import opened Keccak
  import opened KeccakRounds

  // A block has 136 bytes, the rate of Keccak-256, which fill 17 lanes.

  type State = s: seq<bv64> | |s| == 25 witness seq(25, _ => 0)

  // ---------------------------------------------------------------------------------------------
  // Bytes and lanes
  // ---------------------------------------------------------------------------------------------

  /** Shift left by i bytes. */
  function Up(v: bv64, i: nat): bv64 {
    match i
    case 0 => v
    case 1 => v << 8
    case 2 => v << 16
    case 3 => v << 24
    case 4 => v << 32
    case 5 => v << 40
    case 6 => v << 48
    case 7 => v << 56
    case _ => 0
  }

  /** Shift right by i bytes. */
  function Down(v: bv64, i: nat): bv64 {
    match i
    case 0 => v
    case 1 => v >> 8
    case 2 => v >> 16
    case 3 => v >> 24
    case 4 => v >> 32
    case 5 => v >> 40
    case 6 => v >> 48
    case 7 => v >> 56
    case _ => 0
  }

  /** A byte at its place in a lane, least significant first. */
  function Place(b: bv8, i: nat): bv64 {
    Up(b as bv64, i)
  }

  function Extract(v: bv64, i: nat): bv8 {
    (Down(v, i) & 0xFF) as bv8
  }

  function Or64(a: bv64, b: bv64): bv64 {
    a | b
  }

  /** The lane made of the first n bytes. */
  function Pack(bytes: seq<bv8>, n: nat): bv64
    requires n <= |bytes| && n <= 8
  {
    if n == 0 then 0 else Or64(Pack(bytes, n - 1), Place(bytes[n - 1], n - 1))
  }

  /** Putting one more byte on top keeps the lower ones and adds it. */
  lemma PutByte(v: bv64, b: bv8, n: nat)
    requires n < 8 && Down(v, n) == 0
    ensures Extract(Or64(v, Place(b, n)), n) == b
    ensures n < 7 ==> Down(Or64(v, Place(b, n)), n + 1) == 0
  {
    if n == 0 {
    } else if n == 1 {
    } else if n == 2 {
    } else if n == 3 {
    } else if n == 4 {
    } else if n == 5 {
    } else if n == 6 {
    } else {
    }
  }

  lemma KeepByte(v: bv64, b: bv8, n: nat, k: nat)
    requires k < n < 8
    ensures Extract(Or64(v, Place(b, n)), k) == Extract(v, k)
  {
    var p := Place(b, n);
    assert Down(p, k) & 0xFF == 0 by { PlaceAbove(b, n, k); }
    OrBelow(v, p, k);
  }

  lemma OrBelow(v: bv64, p: bv64, k: nat)
    requires k < 8 && Down(p, k) & 0xFF == 0
    ensures Down(v | p, k) & 0xFF == Down(v, k) & 0xFF
  {
    if k == 0 {
    } else if k == 1 {
    } else if k == 2 {
    } else if k == 3 {
    } else if k == 4 {
    } else if k == 5 {
    } else if k == 6 {
    } else {
    }
  }

  lemma PlaceAbove(b: bv8, n: nat, k: nat)
    requires k < n < 8
    ensures Down(Place(b, n), k) & 0xFF == 0
  {
    var v := b as bv64;
    assert v & !0xFF == 0;
  }

  lemma HighStep(v: bv64, b: bv8, n: nat, w: bv64)
    requires n < 7 && Down(v, n) == 0 && w == Or64(v, Place(b, n))
    ensures Down(w, n + 1) == 0
  {
    PutByte(v, b, n);
  }

  lemma {:induction false} PackHigh(bytes: seq<bv8>, n: nat)
    requires n <= |bytes| && n < 8
    ensures Down(Pack(bytes, n), n) == 0
  {
    if n > 0 {
      PackHigh(bytes, n - 1);
      HighStep(Pack(bytes, n - 1), bytes[n - 1], n - 1, Pack(bytes, n));
    }
  }

  /** Packing bytes loses nothing: each can be extracted again. */
  lemma {:induction false} ExtractPacked(bytes: seq<bv8>, n: nat, k: nat)
    requires k < n <= |bytes| && n <= 8
    ensures Extract(Pack(bytes, n), k) == bytes[k]
  {
    if k == n - 1 {
      PackHigh(bytes, k);
      PutByte(Pack(bytes, k), bytes[k], k);
    } else {
      ExtractPacked(bytes, n - 1, k);
      KeepByte(Pack(bytes, n - 1), bytes[n - 1], n - 1, k);
    }
  }

  /** The lane of a block, of which absorbing takes 17. */
  function BlockLane(block: seq<bv8>, lane: nat): bv64
    requires |block| == 136 && lane < 17
  {
    Pack(block[8 * lane..8 * lane + 8], 8)
  }

  function XorBlock(s: State, block: seq<bv8>): State
    requires |block| == 136
  {
    seq(25, k requires 0 <= k < 25 => if k < 17 then Xor64(s[k], BlockLane(block, k)) else s[k])
  }

  /** Exclusive-or a block into the state and permute. */
  function Absorbed(s: State, block: seq<bv8>): State {
    if |block| == 136 then KeccakF(XorBlock(s, block)) else s
  }

  /** The first 32 bytes of the state. */
  function Squeezed(s: State): (r: seq<bv8>)
    ensures |r| == 32 && forall k :: 0 <= k < 32 ==> r[k] == Extract(s[k / 8], k % 8)
  {
    seq(32, k requires 0 <= k < 32 => Extract(s[k / 8], k % 8))
  }

  // ---------------------------------------------------------------------------------------------
  // The padded message
  // ---------------------------------------------------------------------------------------------

  function Zeros(n: nat): (z: seq<bv8>)
    ensures |z| == n && forall i :: 0 <= i < n ==> z[i] == 0
  {
    seq(n, _ => 0)
  }

  /** The bits 1 0* 1, least significant first in each byte. */
  function PadBytes(n: nat): (p: seq<bv8>)
    requires n >= 1
    ensures |p| == n
  {
    if n == 1 then [0x81] else [0x01] + Zeros(n - 2) + [0x80]
  }

  function Padded(data: seq<bv8>): (p: seq<bv8>)
    ensures |p| == 136 * (|data| / 136 + 1) && data <= p
  {
    data + PadBytes(136 - |data| % 136)
  }

  lemma PadAt(data: seq<bv8>, k: nat)
    requires |data| <= k < |Padded(data)|
    ensures k == |data| ==> Padded(data)[k] == 0x01 || Padded(data)[k] == 0x81
    ensures k > |data| ==> Padded(data)[k] == 0 || Padded(data)[k] == 0x80
  {
    assert Padded(data)[k] == PadBytes(136 - |data| % 136)[k - |data|];
  }

  /** The padded message determines the message. */
  lemma PaddedInjective(a: seq<bv8>, b: seq<bv8>)
    requires Padded(a) == Padded(b)
    ensures a == b
  {
    if |a| < |b| {
      PadAt(a, |b|);
      PadAt(b, |b|);
    } else if |b| < |a| {
      PadAt(b, |a|);
      PadAt(a, |a|);
    }
    assert a == Padded(a)[..|a|] && b == Padded(b)[..|b|];
  }

  /** The m-th block of a text, counted from one. */
  function Block(text: seq<bv8>, m: nat): (b: seq<bv8>)
    requires 1 <= m && 136 * m <= |text|
    ensures |b| == 136
  {
    text[136 * (m - 1)..136 * m]
  }

  /** Take in the first m blocks of a text, one after the other. */
  function Fold<S>(f: (S, seq<bv8>) -> S, start: S, text: seq<bv8>, m: nat): S
    requires 136 * m <= |text|
  {
    if m == 0 then start else f(Fold(f, start, text, m - 1), Block(text, m))
  }

  function ZeroState(): State {
    seq(25, _ => 0)
  }

  /** Keccak-256 of a message: absorb all blocks of the padded message, then squeeze once. */
  function Hash(data: seq<bv8>): seq<bv8> {
    Squeezed(Fold<State>(Absorbed, ZeroState(), Padded(data), |data| / 136 + 1))
  }

  lemma SlicePrefix<T>(a: seq<T>, b: seq<T>, i: nat, j: nat)
    requires a <= b && i <= j <= |a|
    ensures a[i..j] == b[i..j]
  {
  }

  lemma {:induction false} FoldPrefix<S>(f: (S, seq<bv8>) -> S, start: S, a: seq<bv8>, b: seq<bv8>, m: nat)
    requires a <= b && 136 * m <= |a|
    ensures Fold(f, start, a, m) == Fold(f, start, b, m)
  {
    if m > 0 {
      FoldPrefix(f, start, a, b, m - 1);
      SlicePrefix(a, b, 136 * (m - 1), 136 * m);
    }
  }

  lemma FoldNext<S>(f: (S, seq<bv8>) -> S, start: S, text: seq<bv8>, m: nat, block: seq<bv8>)
    requires 136 * (m + 1) <= |text| && block == Block(text, m + 1)
    ensures Fold(f, start, text, m + 1) == f(Fold(f, start, text, m), block)
  {
  }

  /** Over the padded message, the fold is the fold over the full blocks and then the last block. */
  lemma FoldLast<S>(f: (S, seq<bv8>) -> S, start: S, data: seq<bv8>, m: nat, block: seq<bv8>)
    requires m == |data| / 136 && block == data[136 * m..] + PadBytes(136 - |data| % 136)
    ensures Fold(f, start, Padded(data), m + 1) == f(Fold(f, start, data, m), block)
  {
    LastBlock(data, m);
    FoldPrefix(f, start, data, Padded(data), m);
    FoldNext(f, start, Padded(data), m, block);
  }

  lemma LastBlock(data: seq<bv8>, m: nat)
    requires m == |data| / 136
    ensures Block(Padded(data), m + 1) == data[136 * m..] + PadBytes(136 - |data| % 136)
  {
  }

  // ---------------------------------------------------------------------------------------------
  // The program
  // ---------------------------------------------------------------------------------------------

  method PackLane(block: array<bv8>, lane: nat) returns (v: bv64)
    requires block.Length == 136 && lane < 17
    ensures v == BlockLane(block[..], lane)
  {
    v := 0;
    ghost var bytes := block[8 * lane..8 * lane + 8];
    for b := 0 to 8
      invariant v == Pack(bytes, b)
    {
      v := Or64(v, Place(block[lane * 8 + b], b));
    }
    assert bytes == block[..][8 * lane..8 * lane + 8];
  }

  method Absorb(state: array<bv64>, block: array<bv8>)
    requires state.Length == 25 && block.Length == 136
    modifies state
    ensures state[..] == Absorbed(old(state[..]), block[..])
  {
    XorLanes(state, block);
    KeccakFInPlace(state);
  }

  method XorLanes(state: array<bv64>, block: array<bv8>)
    requires state.Length == 25 && block.Length == 136
    modifies state
    ensures state[..] == XorBlock(old(state[..]), block[..])
  {
    ghost var s, bs := state[..], block[..];
    for lane := 0 to 17
      invariant block[..] == bs
      invariant forall k :: 0 <= k < 25 ==> state[k] == if k < lane then Xor64(s[k], BlockLane(bs, k)) else s[k]
    {
      var v := PackLane(block, lane);
      state[lane] := Xor64(state[lane], v);
    }
    assert state[..] == XorBlock(s, bs);
  }

  /** The buffer holds the bytes since the last full block, and zeros. */
  ghost predicate Buffered(block: seq<bv8>, idx: nat, tail: seq<bv8>) {
    |block| == 136 && idx == |tail| < 136 && block == tail + Zeros(136 - idx)
  }

  lemma BufferStep(block: seq<bv8>, idx: nat, tail: seq<bv8>, b: bv8)
    requires Buffered(block, idx, tail)
    ensures block[idx] ^ b == b
    ensures idx + 1 < 136 ==> Buffered(block[idx := b], idx + 1, tail + [b])
    ensures idx + 1 == 136 ==> block[idx := b] == tail + [b]
  {
    assert block[idx] == Zeros(136 - idx)[0] == 0;
    assert idx + 1 < 136 ==> block[idx := b] == (tail + [b]) + Zeros(136 - (idx + 1));
  }

  lemma BufferEnd(block: seq<bv8>, idx: nat, tail: seq<bv8>)
    requires Buffered(block, idx, tail)
    ensures var one := block[idx := block[idx] ^ 0x01];
            one[136 - 1 := one[136 - 1] ^ 0x80] == tail + PadBytes(136 - idx)
  {
    assert block[idx] == Zeros(136 - idx)[0] == 0;
    assert idx < 136 - 1 ==> block[136 - 1] == Zeros(136 - idx)[136 - 1 - idx] == 0;
    var one := block[idx := block[idx] ^ 0x01];
    var two := one[136 - 1 := one[136 - 1] ^ 0x80];
    var p := PadBytes(136 - idx);
    forall k | idx <= k < 136 ensures two[k] == p[k - idx] {
      assert block[k] == Zeros(136 - idx)[k - idx];
    }
  }

  /** Pad in the buffer; with one byte left both bits go into it. */
  method FinishBlock(block: array<bv8>, idx: nat, ghost tail: seq<bv8>)
    requires block.Length == 136 && Buffered(block[..], idx, tail)
    modifies block
    ensures block[..] == tail + PadBytes(136 - idx)
  {
    BufferEnd(block[..], idx, tail);
    block[idx] := block[idx] ^ 0x01;
    block[136 - 1] := block[136 - 1] ^ 0x80;
  }

  /** Put one byte into the buffer. A full buffer holds the last block of bytes. */
  method Feed(block: array<bv8>, idx: nat, b: bv8, ghost tail: seq<bv8>) returns (next: nat)
    requires block.Length == 136 && Buffered(block[..], idx, tail)
    modifies block
    ensures next == idx + 1
    ensures next < 136 ==> Buffered(block[..], next, tail + [b])
    ensures next == 136 ==> block[..] == tail + [b]
  {
    BufferStep(block[..], idx, tail, b);
    block[idx] := block[idx] ^ b;
    next := idx + 1;
  }

  lemma TailStep<T>(data: seq<T>, from: nat, n: nat)
    requires from <= n < |data|
    ensures data[from..n] + [data[n]] == data[from..n + 1]
  {
  }

  /** The states after each block of a text, given by number. */
  ghost predicate Tracks(after: nat -> State, data: seq<bv8>) {
    forall m: nat {:trigger Fold<State>(Absorbed, ZeroState(), data, m)} ::
      136 * m <= |data| ==> after(m) == Fold<State>(Absorbed, ZeroState(), data, m)
  }

  lemma TracksNext(after: nat -> State, data: seq<bv8>, m: nat, block: seq<bv8>)
    requires Tracks(after, data) && 136 * (m + 1) <= |data| && block == Block(data, m + 1)
    ensures after(m + 1) == Absorbed(after(m), block)
  {
    FoldNext(Absorbed, ZeroState(), data, m, block);
  }

  lemma TracksStart(after: nat -> State, data: seq<bv8>)
    requires Tracks(after, data)
    ensures after(0) == ZeroState()
  {
    assert Fold<State>(Absorbed, ZeroState(), data, 0) == ZeroState();
  }

  lemma TracksLast(after: nat -> State, data: seq<bv8>, block: seq<bv8>)
    requires Tracks(after, data) && block == data[136 * (|data| / 136)..] + PadBytes(136 - |data| % 136)
    ensures Hash(data) == Squeezed(Absorbed(after(|data| / 136), block))
  {
    FoldLast(Absorbed, ZeroState(), data, |data| / 136, block);
  }

  /** Absorb a full buffer and start a new one. */
  method AbsorbFull(state: array<bv64>, block: array<bv8>, ghost data: seq<bv8>, ghost m: nat, ghost after: nat -> State)
    requires state.Length == 25 && block.Length == 136 && 136 * (m + 1) <= |data| && Tracks(after, data)
    requires state[..] == after(m) && block[..] == Block(data, m + 1)
    modifies state, block
    ensures state[..] == after(m + 1) && Buffered(block[..], 0, [])
  {
    TracksNext(after, data, m, block[..]);
    Absorb(state, block);
    Clear(block);
  }

  /** Buffer the bytes one at a time and absorb every full block. */
  method FeedAll(data: seq<bv8>, state: array<bv64>, block: array<bv8>, ghost after: nat -> State) returns (idx: nat)
    requires state.Length == 25 && state[..] == after(0) && Tracks(after, data)
    requires block.Length == 136 && block[..] == Zeros(136)
    modifies state, block
    ensures state[..] == after(|data| / 136) && Buffered(block[..], idx, data[136 * (|data| / 136)..])
    ensures idx == |data| % 136
  {
    idx := 0;
    ghost var m, tail: seq<bv8> := 0, [];
    for n := 0 to |data|
      invariant 136 * m + idx == n && idx < 136 && tail == data[136 * m..n]
      invariant state[..] == after(m)
      invariant Buffered(block[..], idx, tail)
    {
      TailStep(data, 136 * m, n);
      idx := Feed(block, idx, data[n], tail);
      tail := tail + [data[n]];
      if idx == 136 {
        AbsorbFull(state, block, data, m, after);
        m := m + 1;
        idx, tail := 0, [];
        assert data[136 * m..n + 1] == [];
      }
    }
    assert m == |data| / 136;
  }

  /** Buffer the bytes, absorbing every full block; then pad, absorb and squeeze. */
  method Keccak256(data: seq<bv8>) returns (out: seq<bv8>)
    ensures out == Hash(data)
  {
    ghost var after := StatesOf(data);
    var state := new bv64[25](_ => 0);
    var block := new bv8[136](_ => 0);
    TracksStart(after, data);
    assert state[..] == ZeroState();
    var idx := FeedAll(data, state, block, after);
    FinishBlock(block, idx, data[136 * (|data| / 136)..]);
    TracksLast(after, data, block[..]);
    Absorb(state, block);
    out := Squeeze(state);
  }

  ghost function StateAt(data: seq<bv8>, m: nat): State {
    if 136 * m <= |data| then Fold<State>(Absorbed, ZeroState(), data, m) else ZeroState()
  }

  lemma StatesOf(data: seq<bv8>) returns (after: nat -> State)
    ensures Tracks(after, data)
  {
    after := m => StateAt(data, m);
  }

  method Clear(block: array<bv8>)
    modifies block
    ensures block[..] == Zeros(block.Length)
  {
    for i := 0 to block.Length
      invariant forall k :: 0 <= k < i ==> block[k] == 0
    {
      block[i] := 0;
    }
  }

  /** Emit the lanes byte by byte until 32 bytes are out. One pass over the state is enough, so the
      state is not permuted again. */
  method Squeeze(state: array<bv64>) returns (out: seq<bv8>)
    requires state.Length == 25
    ensures out == Squeezed(state[..])
  {
    out := SqueezeLanes(Extract8, state);
  }

  function Extract8(v: bv64, i: nat): bv8 {
    if i < 8 then Extract(v, i) else 0
  }

  method SqueezeLanes<L>(extract: (L, nat) -> bv8, state: array<L>) returns (out: seq<bv8>)
    requires state.Length == 25
    ensures |out| == 32 && forall k :: 0 <= k < 32 ==> out[k] == extract(state[k / 8], k % 8)
  {
    out := [];
    for lane := 0 to 25
      invariant |out| == (if lane < 4 then 8 * lane else 32)
      invariant forall k :: 0 <= k < |out| ==> out[k] == extract(state[k / 8], k % 8)
    {
      for i := 0 to 8
        invariant |out| == (if lane < 4 then 8 * lane + i else 32)
        invariant forall k :: 0 <= k < |out| ==> out[k] == extract(state[k / 8], k % 8)
      {
        if |out| < 32 {
          assert (8 * lane + i) / 8 == lane && (8 * lane + i) % 8 == i;
          out := out + [extract(state[lane], i)];
        }
      }
    }
  }
}
