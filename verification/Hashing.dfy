/** Block hashes and the cumulative hash chain of a prompt
    (src/calinix/cache_registry/block_hash.rs, src/calinix/cache_registry/cumulative_hash.rs).
    A prompt is the list of its whitespace-separated tokens, each a byte string. */
module Hashing {
  import opened Integers

  // The 64-bit parameters of FNV-1a (draft-eastlake-fnv)
  const FNV_OFFSET: u64 := 14_695_981_039_346_656_037
  const FNV_PRIME: u64 := 1_099_511_628_211

  const TOKEN_END: byte := 0xff

  type Token = seq<byte>

  function XorByte(a: byte, b: byte): byte {
    ((a as bv8) ^ (b as bv8)) as int
  }

  /** `h ^ b as u64`: only the low byte of h meets a nonzero bit of b. */
  function Xor(h: u64, b: byte): u64 {
    hide XorByte;
    HighBytes(h);
    h - h % 256 + XorByte(h % 256, b)
  }

  lemma HighBytes(h: u64)
    ensures 0 <= h - h % 256 <= TWO_TO_THE_64 - 256
  {
  }

  function FnvStep(h: u64, b: byte): u64 {
    (Xor(h, b) * FNV_PRIME) % TWO_TO_THE_64
  }

  function FnvFrom(h: u64, bytes: seq<byte>): u64 {
    if bytes == [] then h
    else FnvStep(FnvFrom(h, bytes[..|bytes| - 1]), bytes[|bytes| - 1])
  }

  lemma {:induction false} FnvFromConcat(h: u64, a: seq<byte>, b: seq<byte>)
    ensures FnvFrom(h, a + b) == FnvFrom(FnvFrom(h, a), b)
    decreases |b|
  {
    hide FnvStep;
    if b == [] {
      assert a + b == a;
    } else {
      var init := b[..|b| - 1];
      assert (a + b)[..|a + b| - 1] == a + init;
      FnvFromConcat(h, a, init);
    }
  }

  lemma FnvFromOne(h: u64, b: byte)
    ensures FnvFrom(h, [b]) == FnvStep(h, b)
  {
    hide FnvStep;
    assert FnvFrom(h, []) == h;
  }

  /** FNV-1a: section 2 of draft-eastlake-fnv */
  function Fnv1a64(bytes: seq<byte>): u64 {
    FnvFrom(FNV_OFFSET, bytes)
  }

  method ComputeFnv1a64(bytes: seq<byte>) returns (hash: u64)
    ensures hash == Fnv1a64(bytes)
  {
    hide FnvStep;
    hash := FNV_OFFSET;
    for i := 0 to |bytes|
      invariant hash == FnvFrom(FNV_OFFSET, bytes[..i])
    {
      assert bytes[..i + 1][..i] == bytes[..i];
      hash := FnvStep(hash, bytes[i]);
    }
    assert bytes[..|bytes|] == bytes;
  }

  // Blocks of tokens

  /** The byte string whose FNV-1a hash is the block hash: every token followed by 0xff. */
  function Encode(tokens: seq<Token>): seq<byte> {
    if tokens == [] then []
    else tokens[0] + [TOKEN_END] + Encode(tokens[1..])
  }

  lemma {:induction false} EncodeAppend(tokens: seq<Token>, token: Token)
    ensures Encode(tokens + [token]) == Encode(tokens) + token + [TOKEN_END]
  {
    if tokens == [] {
      assert tokens + [token] == [token];
      assert [token][1..] == [];
    } else {
      EncodeAppend(tokens[1..], token);
      assert (tokens + [token])[1..] == tokens[1..] + [token];
    }
  }

  /** Each token is followed by one byte 0xff, and blocks are encoded token by token. */
  lemma {:induction false} EncodeConcat(a: seq<Token>, b: seq<Token>)
    ensures Encode(a + b) == Encode(a) + Encode(b)
    ensures |a| == 1 ==> Encode(a) == a[0] + [0xff]
    decreases |b|
  {
    hide Encode;
    if b == [] {
      assert a + b == a;
      EncodeShort(a);
    } else {
      var init, last := b[..|b| - 1], b[|b| - 1];
      EncodeConcat(a, init);
      EncodeAppend(a + init, last);
      EncodeAppend(init, last);
      assert a + b == a + init + [last] && b == init + [last];
    }
  }

  lemma EncodeShort(a: seq<Token>)
    ensures Encode([]) == []
    ensures |a| == 1 ==> Encode(a) == a[0] + [0xff]
  {
    if |a| == 1 {
      assert a[1..] == [];
    }
  }

  function HashBlock(tokens: seq<Token>): u64 {
    Fnv1a64(Encode(tokens))
  }

  /** The inner loops shared by `hash_block` and the streaming pass: one token into a running hash. */
  method AbsorbToken(hash: u64, token: Token, ghost before: seq<Token>) returns (next: u64)
    requires hash == HashBlock(before)
    ensures next == HashBlock(before + [token])
  {
    hide FnvStep;
    next := hash;
    assert Encode(before) + token[..0] == Encode(before);
    for j := 0 to |token|
      invariant next == FnvFrom(FNV_OFFSET, Encode(before) + token[..j])
    {
      assert (Encode(before) + token[..j + 1])[..|Encode(before)| + j] == Encode(before) + token[..j];
      next := FnvStep(next, token[j]);
    }
    assert token[..|token|] == token;
    EncodeAppend(before, token);
    var bytes := Encode(before) + token;
    FnvFromConcat(FNV_OFFSET, bytes, [TOKEN_END]);
    FnvFromOne(next, TOKEN_END);
    next := FnvStep(next, TOKEN_END);
  }

  method ComputeHashBlock(tokens: seq<Token>) returns (hash: u64)
    ensures hash == HashBlock(tokens) && hash == Fnv1a64(Encode(tokens))
  {
    hash := FNV_OFFSET;
    for i := 0 to |tokens|
      invariant hash == HashBlock(tokens[..i])
    {
      assert tokens[..i + 1] == tokens[..i] + [tokens[i]];
      hash := AbsorbToken(hash, tokens[i], tokens[..i]);
    }
    assert tokens[..|tokens|] == tokens;
  }

  /** `block_size.max(1)` */
  function BlockSize(size: nat): (b: nat)
    ensures b >= 1 && b >= size && (b == 1 || b == size)
  {
    if size == 0 then 1 else size
  }

  /** The number of chunks of `size` tokens, the last one possibly shorter. */
  function BlockCount(tokens: seq<Token>, size: nat): nat
    requires size > 0
  {
    (|tokens| + size - 1) / size
  }

  /** Chunk k of the token list. */
  function Block(tokens: seq<Token>, size: nat, k: nat): seq<Token>
    requires size > 0 && k * size <= |tokens|
  {
    if |tokens| < k * size + size then tokens[k * size..] else tokens[k * size..k * size + size]
  }

  lemma BlockCountIs(tokens: seq<Token>, size: nat, k: nat)
    requires size > 0
    ensures k < BlockCount(tokens, size) <==> k * size < |tokens|
  {
    var n := BlockCount(tokens, size);
    assert n * size <= |tokens| + size - 1 < n * size + size;
    assert (k + 1) * size == k * size + size;
    MulCancels(n, k + 1, size);
    MulCancels(k, n, size);
  }

  function LittleEndian(n: nat, width: nat): seq<byte> {
    if width == 0 then [] else [n % 256] + LittleEndian(n / 256, width - 1)
  }

  lemma {:induction false} LittleEndianInjective(n: nat, m: nat, width: nat)
    requires LittleEndian(n, width) == LittleEndian(m, width)
    requires n < Power256(width) && m < Power256(width)
    ensures n == m
  {
    if width > 0 {
      var a, b := LittleEndian(n, width), LittleEndian(m, width);
      assert a[0] == b[0] && a[1..] == b[1..];
      LittleEndianInjective(n / 256, m / 256, width - 1);
    }
  }

  function Power256(k: nat): nat {
    if k == 0 then 1 else 256 * Power256(k - 1)
  }

  lemma {:induction false} LittleEndianLength(n: nat, width: nat)
    ensures |LittleEndian(n, width)| == width
  {
    if width > 0 {
      LittleEndianLength(n / 256, width - 1);
    }
  }

  /** The number that bytes stand for, the lowest byte first: the sum of bytes[i] * 256^i. */
  ghost function Value(bytes: seq<byte>): nat {
    if bytes == [] then 0 else bytes[0] + 256 * Value(bytes[1..])
  }

  lemma {:induction false} LittleEndianValue(n: nat, width: nat)
    requires n < Power256(width)
    ensures Value(LittleEndian(n, width)) == n
  {
    if width > 0 {
      LittleEndianValue(n / 256, width - 1);
    }
  }

  lemma {:induction false} ValueLittleEndian(bytes: seq<byte>)
    ensures LittleEndian(Value(bytes), |bytes|) == bytes
  {
    if bytes != [] {
      var low, rest := bytes[0], bytes[1..];
      ValueLittleEndian(rest);
      LowByte(low, Value(rest));
      assert LittleEndian(low + 256 * Value(rest), |rest| + 1) == [low] + LittleEndian(Value(rest), |rest|);
      assert bytes == [low] + rest;
    }
  }

  lemma LowByte(low: byte, high: nat)
    ensures (low + 256 * high) % 256 == low && (low + 256 * high) / 256 == high
  {
  }

  /** The hash is that of 16 bytes: eight that stand for `prev`, then eight that stand for `block`. */
  ghost predicate CombinesTo(prev: u64, block: u64, hash: u64) {
    exists bytes: seq<byte> ::
      |bytes| == 16 && Value(bytes[..8]) == prev && Value(bytes[8..]) == block && Fnv1a64(bytes) == hash
  }

  /** The 16 bytes hashed by `combine_cumulative`. */
  function CombineInput(prev: u64, block: u64): seq<byte> {
    LittleEndian(prev, 8) + LittleEndian(block, 8)
  }

  lemma CombineInputInjective(p: u64, b: u64, q: u64, c: u64)
    requires CombineInput(p, b) == CombineInput(q, c)
    ensures p == q && b == c
  {
    LittleEndianLength(p, 8);
    LittleEndianLength(q, 8);
    var x, y := CombineInput(p, b), CombineInput(q, c);
    assert LittleEndian(p, 8) == x[..8] == y[..8] == LittleEndian(q, 8);
    assert LittleEndian(b, 8) == x[8..] == y[8..] == LittleEndian(c, 8);
    EightBytes();
    LittleEndianInjective(p, q, 8);
    LittleEndianInjective(b, c, 8);
  }

  function Combine(prev: u64, block: u64): u64 {
    Fnv1a64(CombineInput(prev, block))
  }

  lemma CombineIs(prev: u64, block: u64, hash: u64)
    ensures hash == Combine(prev, block) <==> CombinesTo(prev, block, hash)
  {
    hide LittleEndian, Fnv1a64, Value;
    var input := CombineInput(prev, block);
    LittleEndianLength(prev, 8);
    LittleEndianLength(block, 8);
    EightBytes();
    LittleEndianValue(prev, 8);
    LittleEndianValue(block, 8);
    assert input[..8] == LittleEndian(prev, 8) && input[8..] == LittleEndian(block, 8);
    forall bytes: seq<byte> | |bytes| == 16 && Value(bytes[..8]) == prev && Value(bytes[8..]) == block
      ensures bytes == input
    {
      ValueLittleEndian(bytes[..8]);
      ValueLittleEndian(bytes[8..]);
      assert bytes == bytes[..8] + bytes[8..];
    }
  }

  lemma EightBytes()
    ensures Power256(8) == TWO_TO_THE_64
  {
  }

  method CombineCumulative(prev: u64, blockHash: u64) returns (hash: u64)
    ensures hash == Combine(prev, blockHash)
    ensures CombinesTo(prev, blockHash, hash)
  {
    hide LittleEndian, Fnv1a64, Value, CombinesTo;
    LittleEndianLength(prev, 8);
    LittleEndianLength(blockHash, 8);
    var low, high := LittleEndian(prev, 8), LittleEndian(blockHash, 8);
    var bytes := new byte[16](_ => 0);
    for i := 0 to 8
      invariant forall j :: 0 <= j < i ==> bytes[j] == low[j]
    {
      bytes[i] := low[i];
    }
    for i := 0 to 8
      invariant forall j :: 0 <= j < 8 ==> bytes[j] == low[j]
      invariant forall j :: 0 <= j < i ==> bytes[8 + j] == high[j]
    {
      bytes[8 + i] := high[i];
    }
    assert forall j :: 8 <= j < 16 ==> bytes[j] == bytes[8 + (j - 8)];
    assert bytes[..] == CombineInput(prev, blockHash);
    hash := ComputeFnv1a64(bytes[..]);
    CombineIs(prev, blockHash, hash);
  }

  /** The cumulative hash of the first k blocks. */
  function PrefixHash(blocks: seq<u64>, k: nat): u64
    requires k <= |blocks|
  {
    if k == 0 then 0 else Combine(PrefixHash(blocks, k - 1), blocks[k - 1])
  }

  /** `cumulative_hashes_from_blocks` */
  function CumulativeHashes(blocks: seq<u64>): seq<u64> {
    seq(|blocks|, i requires 0 <= i < |blocks| => PrefixHash(blocks, i + 1))
  }

  method CumulativeHashesFromBlocks(blocks: seq<u64>) returns (cumulative: seq<u64>)
    ensures cumulative == CumulativeHashes(blocks)
    ensures |cumulative| == |blocks|
    ensures forall i :: 0 <= i < |blocks| ==> CombinesTo(Before(cumulative, i), blocks[i], cumulative[i])
  {
    hide Combine, CombinesTo;
    cumulative := [];
    var prev: u64 := 0;
    for i := 0 to |blocks|
      invariant prev == PrefixHash(blocks, i)
      invariant |cumulative| == i
      invariant forall j :: 0 <= j < i ==> cumulative[j] == PrefixHash(blocks, j + 1)
    {
      prev := CombineCumulative(prev, blocks[i]);
      cumulative := cumulative + [prev];
    }
    forall i | 0 <= i < |blocks| ensures CombinesTo(Before(cumulative, i), blocks[i], cumulative[i]) {
      CombineIs(PrefixHash(blocks, i), blocks[i], cumulative[i]);
    }
  }

  /** The hash that entry k continues: the entry before it, and 0 at the start. */
  ghost function Before(cumulative: seq<u64>, k: nat): u64
    requires k <= |cumulative|
  {
    if k == 0 then 0 else cumulative[k - 1]
  }

  /** `prompt_to_block_hashes_with_size`: tokenize, chunk, hash each chunk. */
  function BlockHashes(tokens: seq<Token>, size: nat): seq<u64>
    requires size > 0
  {
    seq(BlockCount(tokens, size), k requires 0 <= k < BlockCount(tokens, size) =>
      BlockCountIs(tokens, size, k);
      HashBlock(Block(tokens, size, k)))
  }

  /** The staged pipeline, the reference for the streaming pass. */
  function Chain(tokens: seq<Token>, blockSize: nat): seq<u64> {
    CumulativeHashes(BlockHashes(tokens, BlockSize(blockSize)))
  }

  /** Block k begins at this token. */
  ghost predicate StartsAt(start: nat, k: nat, size: nat) {
    start == k * size
  }

  lemma FirstStart(tokens: seq<Token>, size: nat)
    requires size > 0
    ensures StartsAt(0, 0, size) && HashBlock([]) == FNV_OFFSET
  {
  }

  lemma NextStart(start: nat, k: nat, size: nat)
    requires StartsAt(start, k, size)
    ensures StartsAt(start + size, k + 1, size)
  {
  }

  /** A block that is complete, and where the next one begins. */
  lemma FullBlock(tokens: seq<Token>, size: nat, k: nat, start: nat)
    requires size > 0 && StartsAt(start, k, size) && start + size <= |tokens|
    ensures StartsAt(start + size, k + 1, size)
    ensures k < |BlockHashes(tokens, size)| && BlockHashes(tokens, size)[k] == HashBlock(tokens[start..start + size])
  {
    hide HashBlock;
    BlockCountIs(tokens, size, k);
    NextStart(start, k, size);
  }

  /** The tokens after the last complete block, if any, are one more block. */
  lemma LastBlock(tokens: seq<Token>, size: nat, k: nat, start: nat)
    requires size > 0 && StartsAt(start, k, size) && start <= |tokens| < start + size
    ensures |BlockHashes(tokens, size)| == if start == |tokens| then k else k + 1
    ensures start < |tokens| ==> BlockHashes(tokens, size)[k] == HashBlock(tokens[start..])
  {
    hide HashBlock;
    BlockCountIs(tokens, size, k);
    BlockCountIs(tokens, size, k + 1);
    NextStart(start, k, size);
    if k > 0 {
      MulCancels(k - 1, k, size);
      BlockCountIs(tokens, size, k - 1);
    }
  }

  /** The hashes put out so far. */
  ghost predicate Accumulated(cumulative: seq<u64>, blocks: seq<u64>) {
    |cumulative| <= |blocks| && forall j :: 0 <= j < |cumulative| ==> cumulative[j] == PrefixHash(blocks, j + 1)
  }

  lemma AccumulateNext(cumulative: seq<u64>, blocks: seq<u64>, prev: u64)
    requires Accumulated(cumulative, blocks) && |cumulative| < |blocks| && prev == PrefixHash(blocks, |cumulative|)
    ensures var next := Combine(prev, blocks[|cumulative|]);
      Accumulated(cumulative + [next], blocks) && PrefixHash(blocks, |cumulative| + 1) == next
  {
    hide Combine;
    var n, next := |cumulative|, Combine(prev, blocks[|cumulative|]);
    assert PrefixHash(blocks, n + 1) == next;
    hide PrefixHash;
    forall j | 0 <= j < n + 1 ensures (cumulative + [next])[j] == PrefixHash(blocks, j + 1) {
      if j < n {
        assert cumulative[j] == PrefixHash(blocks, j + 1);
      }
    }
  }

  lemma AllAccumulated(cumulative: seq<u64>, blocks: seq<u64>)
    requires Accumulated(cumulative, blocks) && |cumulative| == |blocks|
    ensures cumulative == CumulativeHashes(blocks)
  {
    hide Combine;
  }

  /** `prompt_to_cumulative_hashes_streaming`: one pass over the tokens. */
  method StreamingChain(tokens: seq<Token>, blockSize: nat) returns (cumulative: seq<u64>)
    ensures cumulative == Chain(tokens, blockSize)
    ensures |cumulative| == if blockSize == 0 then |tokens| else (|tokens| + blockSize - 1) / blockSize
    ensures var size := if blockSize == 0 then 1 else blockSize;
      forall k: nat :: k < |cumulative| ==> LinkOf(tokens, size, cumulative, k)
    ensures blockSize == 0 ==> cumulative == Chain(tokens, 1)
  {
    hide HashBlock, Combine, BlockSize, BlockHashes, StartsAt, Accumulated, PrefixHash, CumulativeHashes, CombinesTo, LinkOf;
    var size := BlockSize(blockSize);
    cumulative := [];
    var prev: u64 := 0;
    var blockHash := FNV_OFFSET;
    var tokensInBlock := 0;
    ghost var blocks := BlockHashes(tokens, size);
    ghost var start := 0;
    FirstStart(tokens, size);
    NothingAccumulated(blocks);
    for i := 0 to |tokens|
      invariant StartsAt(start, |cumulative|, size) && start + tokensInBlock == i && tokensInBlock < size
      invariant Accumulated(cumulative, blocks) && |cumulative| <= |blocks| && prev == PrefixHash(blocks, |cumulative|)
      invariant blockHash == HashBlock(tokens[start..i])
    {
      assert tokens[start..i + 1] == tokens[start..i] + [tokens[i]];
      blockHash := AbsorbToken(blockHash, tokens[i], tokens[start..i]);
      tokensInBlock := tokensInBlock + 1;
      if tokensInBlock == size {
        FullBlock(tokens, size, |cumulative|, start);
        AccumulateNext(cumulative, blocks, prev);
        prev := CombineCumulative(prev, blockHash);
        cumulative := cumulative + [prev];
        start := start + size;
        blockHash := FNV_OFFSET;
        assert tokens[start..i + 1] == [];
        tokensInBlock := 0;
      }
    }
    LastBlock(tokens, size, |cumulative|, start);
    if tokensInBlock > 0 {
      assert tokens[start..] == tokens[start..|tokens|];
      AccumulateNext(cumulative, blocks, prev);
      prev := CombineCumulative(prev, blockHash);
      cumulative := cumulative + [prev];
    }
    AllAccumulated(cumulative, blocks);
    ChainExactly(tokens, blockSize, cumulative);
  }

  lemma NothingAccumulated(blocks: seq<u64>)
    ensures Accumulated([], blocks) && PrefixHash(blocks, 0) == 0
  {
  }

  lemma ChainLength(tokens: seq<Token>, blockSize: nat)
    ensures |Chain(tokens, blockSize)| == BlockCount(tokens, BlockSize(blockSize))
    ensures |Chain(tokens, blockSize)| == (|tokens| + BlockSize(blockSize) - 1) / BlockSize(blockSize)
  {
    hide PrefixHash, HashBlock, Block;
  }

  // What a chain is, without the stages

  /** Entry k combines the entry before it, 0 at the start, with the FNV-1a hash of the k-th group of
      `size` tokens, the last group being what is left. */
  ghost predicate LinkOf(tokens: seq<Token>, size: nat, cumulative: seq<u64>, k: nat)
    requires k < |cumulative|
  {
    && k * size < |tokens|
    && var group := tokens[k * size..if k * size + size <= |tokens| then k * size + size else |tokens|];
       CombinesTo(Before(cumulative, k), Fnv1a64(Encode(group)), cumulative[k])
  }

  lemma LinkIs(tokens: seq<Token>, size: nat, cumulative: seq<u64>, k: nat)
    requires size > 0 && k < |cumulative| && k < |BlockHashes(tokens, size)|
    requires Before(cumulative, k) == PrefixHash(BlockHashes(tokens, size), k)
    ensures LinkOf(tokens, size, cumulative, k) <==> cumulative[k] == PrefixHash(BlockHashes(tokens, size), k + 1)
  {
    hide BlockCount, BlockHashes, Combine, CombinesTo, Before, Block, HashBlock, LinkOf;
    HashesPerBlock(tokens, size);
    GroupIsBlock(tokens, size, cumulative, k);
    CombineIs(Before(cumulative, k), BlockHashes(tokens, size)[k], cumulative[k]);
  }

  lemma GroupIsBlock(tokens: seq<Token>, size: nat, cumulative: seq<u64>, k: nat)
    requires size > 0 && k < |cumulative| && k < BlockCount(tokens, size) == |BlockHashes(tokens, size)|
    ensures LinkOf(tokens, size, cumulative, k) <==>
      CombinesTo(Before(cumulative, k), BlockHashes(tokens, size)[k], cumulative[k])
  {
    hide BlockCount, CombinesTo, Before, Fnv1a64, Encode;
    BlockCountIs(tokens, size, k);
    assert tokens[k * size..] == tokens[k * size..|tokens|];
  }

  lemma {:induction false} LinksAre(tokens: seq<Token>, size: nat, cumulative: seq<u64>, n: nat)
    requires size > 0 && n <= |cumulative| && n <= |BlockHashes(tokens, size)|
    ensures (forall k: nat :: k < n ==> LinkOf(tokens, size, cumulative, k))
      <==> forall k: nat :: k < n ==> cumulative[k] == PrefixHash(BlockHashes(tokens, size), k + 1)
  {
    hide LinkOf, BlockHashes, PrefixHash, Before;
    if n > 0 {
      LinksAre(tokens, size, cumulative, n - 1);
      if forall k: nat :: k < n - 1 ==> LinkOf(tokens, size, cumulative, k) {
        LinkStart(tokens, size, cumulative, n - 1);
        LinkIs(tokens, size, cumulative, n - 1);
      }
    }
  }

  lemma LinkStart(tokens: seq<Token>, size: nat, cumulative: seq<u64>, k: nat)
    requires size > 0 && k < |cumulative| && k < |BlockHashes(tokens, size)|
    requires forall j: nat :: j < k ==> cumulative[j] == PrefixHash(BlockHashes(tokens, size), j + 1)
    ensures Before(cumulative, k) == PrefixHash(BlockHashes(tokens, size), k)
  {
    hide BlockCount, BlockHashes, Combine;
    if k > 0 {
      assert cumulative[k - 1] == PrefixHash(BlockHashes(tokens, size), k);
    }
  }

  /** The staged pipeline gives the only list of that length linked in that way; block size 0 is
      read as 1. */
  lemma ChainExactly(tokens: seq<Token>, blockSize: nat, cumulative: seq<u64>)
    ensures var size := if blockSize == 0 then 1 else blockSize;
      cumulative == Chain(tokens, blockSize) <==>
        && |cumulative| == (|tokens| + size - 1) / size
        && forall k: nat :: k < |cumulative| ==> LinkOf(tokens, size, cumulative, k)
    ensures Chain(tokens, 0) == Chain(tokens, 1)
  {
    hide LinkOf, PrefixHash, BlockHashes, CumulativeHashes;
    var size := BlockSize(blockSize);
    var chain := Chain(tokens, blockSize);
    ChainLength(tokens, blockSize);
    HashesPerBlock(tokens, size);
    if |cumulative| == BlockCount(tokens, size) {
      LinksAre(tokens, size, cumulative, |cumulative|);
      forall k: nat | k < |chain| ensures chain[k] == PrefixHash(BlockHashes(tokens, size), k + 1) {
        ChainAt(tokens, blockSize, k);
      }
    }
  }

  // Prefix stability

  /** Prompts that share their first k full blocks share their first k hashes. */
  lemma SharedBlocksSharedHashes(a: seq<Token>, b: seq<Token>, blockSize: nat, k: nat)
    requires var shared := if blockSize == 0 then k else k * blockSize;
      shared <= |a| && shared <= |b| && a[..shared] == b[..shared]
    ensures k <= |Chain(a, blockSize)| && k <= |Chain(b, blockSize)|
    ensures Chain(a, blockSize)[..k] == Chain(b, blockSize)[..k]
  {
    hide HashBlock, Combine, Block, BlockHashes, CumulativeHashes, BlockCount;
    var size := BlockSize(blockSize);
    ChainLength(a, blockSize);
    ChainLength(b, blockSize);
    EnoughBlocks(a, size, k);
    EnoughBlocks(b, size, k);
    var x, y := BlockHashes(a, size), BlockHashes(b, size);
    HashesPerBlock(a, size);
    HashesPerBlock(b, size);
    forall t | 0 <= t < k ensures x[t] == y[t] {
      SharedBlock(a, b, size, k, t);
    }
    forall t | 0 <= t < k ensures Chain(a, blockSize)[t] == Chain(b, blockSize)[t] {
      SameBlocksSamePrefix(x, y, t + 1);
      ChainAt(a, blockSize, t);
      ChainAt(b, blockSize, t);
    }
  }

  lemma EnoughBlocks(tokens: seq<Token>, size: nat, k: nat)
    requires size > 0 && k * size <= |tokens|
    ensures k <= BlockCount(tokens, size)
  {
    if k > 0 {
      MulCancels(k - 1, k, size);
      BlockCountIs(tokens, size, k - 1);
    }
  }

  lemma HashesPerBlock(tokens: seq<Token>, size: nat)
    requires size > 0
    ensures |BlockHashes(tokens, size)| == BlockCount(tokens, size)
  {
  }

  lemma ChainAt(tokens: seq<Token>, blockSize: nat, t: nat)
    requires t < |Chain(tokens, blockSize)|
    ensures t < |BlockHashes(tokens, BlockSize(blockSize))|
    ensures Chain(tokens, blockSize)[t] == PrefixHash(BlockHashes(tokens, BlockSize(blockSize)), t + 1)
  {
    hide HashBlock, Combine, BlockHashes;
  }

  lemma SharedBlock(a: seq<Token>, b: seq<Token>, size: nat, k: nat, t: nat)
    requires size > 0 && t < k && k * size <= |a| && k * size <= |b| && a[..k * size] == b[..k * size]
    requires t < |BlockHashes(a, size)| && t < |BlockHashes(b, size)|
    ensures BlockHashes(a, size)[t] == BlockHashes(b, size)[t]
  {
    hide HashBlock;
    var cut := t * size;
    BlockEnds(t, k, size);
    assert a[cut..cut + size] == a[..k * size][cut..cut + size] == b[..k * size][cut..cut + size] == b[cut..cut + size];
    assert Block(a, size, t) == a[cut..cut + size] && Block(b, size, t) == b[cut..cut + size];
  }

  lemma BlockEnds(t: nat, k: nat, size: nat)
    requires t < k && size > 0
    ensures t * size + size <= k * size
  {
    MulCancels(k, t + 1, size);
    assert (t + 1) * size == t * size + size;
  }

  lemma {:induction false} SameBlocksSamePrefix(x: seq<u64>, y: seq<u64>, k: nat)
    requires k <= |x| && k <= |y| && forall t :: 0 <= t < k ==> x[t] == y[t]
    ensures PrefixHash(x, k) == PrefixHash(y, k)
  {
    hide Combine;
    if k > 0 {
      SameBlocksSamePrefix(x, y, k - 1);
    }
  }

  // Uniqueness, up to collisions among the inputs at hand

  ghost predicate WellFormed(tokens: seq<Token>) {
    forall i :: 0 <= i < |tokens| ==> TOKEN_END !in tokens[i]
  }

  /** 0xff never occurs inside a token, so the encoding of a block can be decoded. */
  lemma {:induction false} EncodeInjective(a: seq<Token>, b: seq<Token>)
    requires WellFormed(a) && WellFormed(b)
    requires Encode(a) == Encode(b)
    ensures a == b
  {
    if a != [] && b != [] {
      var x, y := a[0], b[0];
      var e := Encode(a);
      FirstTokenEnd(a);
      FirstTokenEnd(b);
      assert |x| == |y|;
      assert x == e[..|x|] == y;
      assert Encode(a[1..]) == e[|x| + 1..] == Encode(b[1..]);
      EncodeInjective(a[1..], b[1..]);
      assert a == [x] + a[1..] && b == [y] + b[1..];
    }
  }

  lemma FirstTokenEnd(a: seq<Token>)
    requires WellFormed(a) && a != []
    ensures |a[0]| < |Encode(a)| && Encode(a)[|a[0]|] == TOKEN_END
    ensures forall i :: 0 <= i < |a[0]| ==> Encode(a)[i] != TOKEN_END
  {
    assert forall i :: 0 <= i < |a[0]| ==> Encode(a)[i] == a[0][i] && a[0][i] in a[0];
  }

  /** Every byte string that is hashed to compute the chain of a prompt. */
  ghost function HashedInputs(tokens: seq<Token>, size: nat): set<seq<byte>>
    requires size > 0
  {
    (set k: nat | k < BlockCount(tokens, size) :: BlockInput(tokens, size, k)) +
    (set k: nat | k < BlockCount(tokens, size) :: ChainInput(tokens, size, k))
  }

  ghost function BlockInput(tokens: seq<Token>, size: nat, k: nat): seq<byte>
    requires size > 0 && k < BlockCount(tokens, size)
  {
    BlockCountIs(tokens, size, k);
    Encode(Block(tokens, size, k))
  }

  ghost function ChainInput(tokens: seq<Token>, size: nat, k: nat): seq<byte>
    requires size > 0 && k < BlockCount(tokens, size)
  {
    var blocks := BlockHashes(tokens, size);
    CombineInput(PrefixHash(blocks, k), blocks[k])
  }

  ghost predicate CollisionFree(inputs: set<seq<byte>>) {
    forall x, y :: x in inputs && y in inputs && Fnv1a64(x) == Fnv1a64(y) ==> x == y
  }

  /** The tokens covered by the first k blocks, the last of which may be short. */
  function Covered(tokens: seq<Token>, size: nat, k: nat): seq<Token> {
    if |tokens| <= k * size then tokens else tokens[..k * size]
  }

  /** Up to position k no two strings hashed at the same place of the two prompts collide. */
  ghost predicate FreeUpTo(a: seq<Token>, b: seq<Token>, size: nat, k: nat)
    requires size > 0 && k <= BlockCount(a, size) && k <= BlockCount(b, size)
  {
    forall t: nat :: t < k ==> FreeAt(a, b, size, t)
  }

  ghost predicate FreeAt(a: seq<Token>, b: seq<Token>, size: nat, t: nat)
    requires size > 0 && t < BlockCount(a, size) && t < BlockCount(b, size)
  {
    && (Fnv1a64(ChainInput(a, size, t)) == Fnv1a64(ChainInput(b, size, t)) ==>
          ChainInput(a, size, t) == ChainInput(b, size, t))
    && (Fnv1a64(BlockInput(a, size, t)) == Fnv1a64(BlockInput(b, size, t)) ==>
          BlockInput(a, size, t) == BlockInput(b, size, t))
  }

  /** Equal hashes and no collision up to there: the covered tokens are equal. */
  lemma {:induction false} FreeEqualPrefix(a: seq<Token>, b: seq<Token>, size: nat, k: nat)
    requires WellFormed(a) && WellFormed(b) && size > 0
    requires k <= BlockCount(a, size) && k <= BlockCount(b, size)
    requires PrefixHash(BlockHashes(a, size), k) == PrefixHash(BlockHashes(b, size), k)
    requires FreeUpTo(a, b, size, k)
    ensures Covered(a, size, k) == Covered(b, size, k)
  {
    hide FreeAt, BlockHashes, PrefixHash, Block, BlockCount;
    if k > 0 {
      assert FreeAt(a, b, size, k - 1);
      FreeStepBack(a, b, size, k - 1);
      FreeEqualPrefix(a, b, size, k - 1);
      BlockCountIs(a, size, k - 1);
      BlockCountIs(b, size, k - 1);
      CoveredNext(a, size, k - 1);
      CoveredNext(b, size, k - 1);
    }
  }

  lemma FreeStepBack(a: seq<Token>, b: seq<Token>, size: nat, t: nat)
    requires WellFormed(a) && WellFormed(b) && size > 0
    requires t < BlockCount(a, size) && t < BlockCount(b, size)
    requires PrefixHash(BlockHashes(a, size), t + 1) == PrefixHash(BlockHashes(b, size), t + 1)
    requires FreeAt(a, b, size, t)
    ensures t * size <= |a| && t * size <= |b|
    ensures Block(a, size, t) == Block(b, size, t)
    ensures PrefixHash(BlockHashes(a, size), t) == PrefixHash(BlockHashes(b, size), t)
  {
    hide Fnv1a64, CombineInput, Encode, HashedInputs, Block, BlockInput, PrefixHash, BlockCount;
    InputsHashed(a, size, t);
    InputsHashed(b, size, t);
    CombineInputInjective(PrefixHash(BlockHashes(a, size), t), BlockHashes(a, size)[t],
                          PrefixHash(BlockHashes(b, size), t), BlockHashes(b, size)[t]);
    WellFormedBlock(a, size, t);
    WellFormedBlock(b, size, t);
    EncodeInjective(Block(a, size, t), Block(b, size, t));
  }

  /** Equal covered tokens are hashed from equal strings. */
  lemma {:induction false} EqualPrefixSameInputs(a: seq<Token>, b: seq<Token>, size: nat, k: nat)
    requires size > 0 && k <= BlockCount(a, size) && k <= BlockCount(b, size)
    requires Covered(a, size, k) == Covered(b, size, k)
    ensures FreeUpTo(a, b, size, k)
    ensures PrefixHash(BlockHashes(a, size), k) == PrefixHash(BlockHashes(b, size), k)
  {
    hide Fnv1a64, CombineInput, Encode, HashedInputs, Block, BlockCount, BlockHashes, Covered;
    if k > 0 {
      var t := k - 1;
      BlockCountIs(a, size, t);
      BlockCountIs(b, size, t);
      CoveredSplit(a, b, size, t);
      EqualPrefixSameInputs(a, b, size, t);
      InputsHashed(a, size, t);
      InputsHashed(b, size, t);
      SameChainInput(a, b, size, t);
      assert FreeAt(a, b, size, t);
    }
  }

  lemma SameChainInput(a: seq<Token>, b: seq<Token>, size: nat, t: nat)
    requires size > 0 && t < BlockCount(a, size) && t < BlockCount(b, size)
    requires PrefixHash(BlockHashes(a, size), t) == PrefixHash(BlockHashes(b, size), t)
    requires BlockHashes(a, size)[t] == BlockHashes(b, size)[t]
    ensures ChainInput(a, size, t) == ChainInput(b, size, t)
  {
    hide CombineInput, BlockCount, BlockHashes, PrefixHash;
  }

  /** Covered tokens are equal block by block. */
  lemma CoveredSplit(a: seq<Token>, b: seq<Token>, size: nat, t: nat)
    requires size > 0 && t * size < |a| && t * size < |b|
    requires Covered(a, size, t + 1) == Covered(b, size, t + 1)
    ensures Covered(a, size, t) == Covered(b, size, t) && Block(a, size, t) == Block(b, size, t)
  {
    CoveredNext(a, size, t);
    CoveredNext(b, size, t);
    var cut := t * size;
    assert |Covered(a, size, t)| == cut == |Covered(b, size, t)|;
    var x, y := Covered(a, size, t + 1), Covered(b, size, t + 1);
    assert x[..cut] == Covered(a, size, t) && y[..cut] == Covered(b, size, t);
    assert x[cut..] == Block(a, size, t) && y[cut..] == Block(b, size, t);
  }

  /** A match at position i guarantees the whole prefix exactly when no two strings hashed at one
      place of the two prompts collide up to there. */
  lemma MatchIsPrefixExactly(a: seq<Token>, b: seq<Token>, blockSize: nat, i: nat)
    requires WellFormed(a) && WellFormed(b)
    requires i < |Chain(a, blockSize)| && i < |Chain(b, blockSize)|
    requires Chain(a, blockSize)[i] == Chain(b, blockSize)[i]
    ensures var size := if blockSize == 0 then 1 else blockSize;
      Covered(a, size, i + 1) == Covered(b, size, i + 1) <==> FreeUpTo(a, b, size, i + 1)
  {
    hide FreeUpTo, BlockCount, BlockHashes, PrefixHash, Covered;
    var size := BlockSize(blockSize);
    ChainLength(a, blockSize);
    ChainLength(b, blockSize);
    if FreeUpTo(a, b, size, i + 1) {
      FreeEqualPrefix(a, b, size, i + 1);
    }
    if Covered(a, size, i + 1) == Covered(b, size, i + 1) {
      EqualPrefixSameInputs(a, b, size, i + 1);
    }
  }

  lemma CollisionFreeIsFree(a: seq<Token>, b: seq<Token>, size: nat, k: nat)
    requires size > 0 && k <= BlockCount(a, size) && k <= BlockCount(b, size)
    requires CollisionFree(HashedInputs(a, size) + HashedInputs(b, size))
    ensures FreeUpTo(a, b, size, k)
  {
    hide Fnv1a64, HashedInputs, BlockCount, BlockInput, ChainInput;
    forall t: nat | t < k ensures FreeAt(a, b, size, t) {
      InputsHashed(a, size, t);
      InputsHashed(b, size, t);
    }
  }

  /** So with no collision at all among the strings hashed for two prompts, equal hashes at one
      position mean that they agree on every token up to and including that block. */
  lemma EqualHashEqualPrefix(a: seq<Token>, b: seq<Token>, blockSize: nat, i: nat)
    requires WellFormed(a) && WellFormed(b)
    requires i < |Chain(a, blockSize)| && i < |Chain(b, blockSize)|
    requires Chain(a, blockSize)[i] == Chain(b, blockSize)[i]
    requires CollisionFree(HashedInputs(a, BlockSize(blockSize)) + HashedInputs(b, BlockSize(blockSize)))
    ensures Covered(a, BlockSize(blockSize), i + 1) == Covered(b, BlockSize(blockSize), i + 1)
  {
    hide FreeUpTo, CollisionFree, HashedInputs, PrefixHash, BlockHashes, Covered, BlockCount;
    ChainLength(a, blockSize);
    ChainLength(b, blockSize);
    CollisionFreeIsFree(a, b, BlockSize(blockSize), i + 1);
    MatchIsPrefixExactly(a, b, blockSize, i);
  }

  lemma InputsHashed(tokens: seq<Token>, size: nat, k: nat)
    requires size > 0 && k < BlockCount(tokens, size)
    ensures k * size <= |tokens|
    ensures BlockInput(tokens, size, k) == Encode(Block(tokens, size, k))
    ensures BlockInput(tokens, size, k) in HashedInputs(tokens, size)
    ensures ChainInput(tokens, size, k) in HashedInputs(tokens, size)
    ensures Fnv1a64(BlockInput(tokens, size, k)) == BlockHashes(tokens, size)[k]
    ensures Fnv1a64(ChainInput(tokens, size, k)) == PrefixHash(BlockHashes(tokens, size), k + 1)
  {
    hide Fnv1a64, CombineInput, Encode, Block, BlockCount;
    BlockCountIs(tokens, size, k);
  }

  lemma NoCollision(inputs: set<seq<byte>>, x: seq<byte>, y: seq<byte>)
    requires CollisionFree(inputs) && x in inputs && y in inputs && Fnv1a64(x) == Fnv1a64(y)
    ensures x == y
  {
    hide Fnv1a64;
  }

  /** One step back from equal hashes, possibly at different positions. */
  lemma StepBack(a: seq<Token>, b: seq<Token>, size: nat, i: nat, j: nat)
    requires WellFormed(a) && WellFormed(b) && size > 0
    requires i < BlockCount(a, size) && j < BlockCount(b, size)
    requires PrefixHash(BlockHashes(a, size), i + 1) == PrefixHash(BlockHashes(b, size), j + 1)
    requires CollisionFree(HashedInputs(a, size) + HashedInputs(b, size))
    ensures i * size <= |a| && j * size <= |b|
    ensures Block(a, size, i) == Block(b, size, j)
    ensures PrefixHash(BlockHashes(a, size), i) == PrefixHash(BlockHashes(b, size), j)
  {
    hide Fnv1a64, CombineInput, Encode, CollisionFree, HashedInputs, Block, BlockInput, PrefixHash, BlockCount;
    var inputs := HashedInputs(a, size) + HashedInputs(b, size);
    InputsHashed(a, size, i);
    InputsHashed(b, size, j);
    NoCollision(inputs, ChainInput(a, size, i), ChainInput(b, size, j));
    CombineInputInjective(PrefixHash(BlockHashes(a, size), i), BlockHashes(a, size)[i],
                          PrefixHash(BlockHashes(b, size), j), BlockHashes(b, size)[j]);
    NoCollision(inputs, BlockInput(a, size, i), BlockInput(b, size, j));
    WellFormedBlock(a, size, i);
    WellFormedBlock(b, size, j);
    EncodeInjective(Block(a, size, i), Block(b, size, j));
  }

  /** No hashed byte string has the hash 0, the start value of every chain. */
  ghost predicate NeverZero(inputs: set<seq<byte>>) {
    forall x :: x in inputs ==> Fnv1a64(x) != 0
  }

  lemma {:induction false} SamePosition(a: seq<Token>, b: seq<Token>, size: nat, k: nat, m: nat)
    requires WellFormed(a) && WellFormed(b) && size > 0
    requires k <= BlockCount(a, size) && m <= BlockCount(b, size)
    requires PrefixHash(BlockHashes(a, size), k) == PrefixHash(BlockHashes(b, size), m)
    requires CollisionFree(HashedInputs(a, size) + HashedInputs(b, size))
    requires NeverZero(HashedInputs(a, size) + HashedInputs(b, size))
    ensures k == m
  {
    hide CollisionFree, HashedInputs, BlockHashes, BlockCount, NeverZero, PrefixHash, WellFormed;
    var inputs := HashedInputs(a, size) + HashedInputs(b, size);
    NonZeroAfterStart(a, size, k, inputs);
    NonZeroAfterStart(b, size, m, inputs);
    if k > 0 && m > 0 {
      StepBackHash(a, b, size, k - 1, m - 1);
      SamePosition(a, b, size, k - 1, m - 1);
    }
  }

  lemma StepBackHash(a: seq<Token>, b: seq<Token>, size: nat, i: nat, j: nat)
    requires WellFormed(a) && WellFormed(b) && size > 0
    requires i < BlockCount(a, size) && j < BlockCount(b, size)
    requires PrefixHash(BlockHashes(a, size), i + 1) == PrefixHash(BlockHashes(b, size), j + 1)
    requires CollisionFree(HashedInputs(a, size) + HashedInputs(b, size))
    ensures PrefixHash(BlockHashes(a, size), i) == PrefixHash(BlockHashes(b, size), j)
  {
    hide CollisionFree, HashedInputs, BlockHashes, BlockCount, PrefixHash, WellFormed, Block;
    StepBack(a, b, size, i, j);
  }

  /** Without collisions, and with 0 kept for the start, a hash tells its position in the chain and
      the whole chain before it. */
  lemma {:induction false} HashTellsPosition(a: seq<Token>, b: seq<Token>, size: nat, k: nat, m: nat)
    requires WellFormed(a) && WellFormed(b) && size > 0
    requires k <= BlockCount(a, size) && m <= BlockCount(b, size)
    requires PrefixHash(BlockHashes(a, size), k) == PrefixHash(BlockHashes(b, size), m)
    requires CollisionFree(HashedInputs(a, size) + HashedInputs(b, size))
    requires NeverZero(HashedInputs(a, size) + HashedInputs(b, size))
    ensures k == m
    ensures forall t :: 0 <= t <= k ==> PrefixHash(BlockHashes(a, size), t) == PrefixHash(BlockHashes(b, size), t)
  {
    hide CollisionFree, HashedInputs, BlockHashes, BlockCount, NeverZero, PrefixHash, WellFormed;
    SamePosition(a, b, size, k, m);
    if k > 0 {
      StepBackHash(a, b, size, k - 1, k - 1);
      HashTellsPosition(a, b, size, k - 1, k - 1);
    }
  }

  lemma NonZeroAfterStart(tokens: seq<Token>, size: nat, k: nat, inputs: set<seq<byte>>)
    requires size > 0 && k <= BlockCount(tokens, size)
    requires HashedInputs(tokens, size) <= inputs && NeverZero(inputs)
    ensures PrefixHash(BlockHashes(tokens, size), k) == 0 <==> k == 0
  {
    hide Fnv1a64, HashedInputs, BlockHashes, BlockCount;
    if k > 0 {
      InputsHashed(tokens, size, k - 1);
      assert ChainInput(tokens, size, k - 1) in inputs;
    }
  }

  lemma WellFormedBlock(tokens: seq<Token>, size: nat, i: nat)
    requires WellFormed(tokens) && size > 0 && i * size <= |tokens|
    ensures WellFormed(Block(tokens, size, i))
  {
  }

  lemma CoveredNext(tokens: seq<Token>, size: nat, i: nat)
    requires size > 0 && i * size < |tokens|
    ensures Covered(tokens, size, i + 1) == Covered(tokens, size, i) + Block(tokens, size, i)
  {
    assert (i + 1) * size == i * size + size;
  }
}
