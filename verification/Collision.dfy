/** Two tokens with one FNV-1a hash, and what they do to the hash chains of
    src/calinix/cache_registry/cumulative_hash.rs. */
module Collision {
  import opened Integers
  import opened Hashing

  /** "8yn0iYCKYHlIj4-BwPqk" */
  const FIRST: Token := [56, 121, 110, 48, 105, 89, 67, 75, 89, 72, 108, 73, 106, 52, 45, 66, 119, 80, 113, 107]

  /** "GReLUrM4wMqfg9yzV3KQ" */
  const SECOND: Token := [71, 82, 101, 76, 85, 114, 77, 52, 119, 77, 113, 102, 103, 57, 121, 122, 86, 51, 75, 81]

  const COMMON_HASH: u64 := 0x4eac_0c95_5408_67e4

  /** One step of the hash, with the low byte, the xor and the quotient by 2^64 given. */
  lemma StepIs(h: u64, b: byte, low: byte, x: byte, quotient: nat, next: u64)
    requires h % 256 == low && XorByte(low, b) == x
    requires (h - low + x) * FNV_PRIME == quotient * TWO_TO_THE_64 + next
    ensures FnvStep(h, b) == next
  {
    hide XorByte;
  }

  lemma FiveSteps(h: u64, a: byte, b: byte, c: byte, d: byte, e: byte, p: u64, q: u64, r: u64, s: u64, t: u64)
    requires FnvStep(h, a) == p && FnvStep(p, b) == q && FnvStep(q, c) == r && FnvStep(r, d) == s && FnvStep(s, e) == t
    ensures FnvFrom(h, [a, b, c, d, e]) == t
  {
    hide FnvStep;
    FnvFromOne(h, a);
    FnvFromConcat(h, [a], [b]);
    FnvFromOne(p, b);
    FnvFromConcat(h, [a] + [b], [c]);
    FnvFromOne(q, c);
    FnvFromConcat(h, [a] + [b] + [c], [d]);
    FnvFromOne(r, d);
    FnvFromConcat(h, [a] + [b] + [c] + [d], [e]);
    FnvFromOne(s, e);
    assert [a, b, c, d, e] == [a] + [b] + [c] + [d] + [e];
  }

  lemma FirstXors0()
    ensures XorByte(0x25, 56) == 0x1d && XorByte(0x47, 121) == 0x3e && XorByte(0x5a, 110) == 0x34
    ensures XorByte(0x5c, 48) == 0x6c && XorByte(0x84, 105) == 0xed
  {
  }

  lemma FirstPart0()
    ensures FnvFrom(0xcbf2_9ce4_8422_2325, [56, 121, 110, 48, 105]) == 0x9683_b139_788c_0cb7
  {
    hide FnvFrom, XorByte, FnvStep;
    FirstXors0();
    StepIs(0xcbf2_9ce4_8422_2325, 56, 0x25, 0x1d, 0xcbf29ce5de, 0xaf63_b54c_8601_aa47);
    StepIs(0xaf63_b54c_8601_aa47, 121, 0x47, 0x3e, 0xaf63b54db0, 0x0817_4f07_b4d4_475a);
    StepIs(0x0817_4f07_b4d4_475a, 110, 0x5a, 0x34, 0x8174f07c2, 0x93e2_7e18_44b4_fd5c);
    StepIs(0x93e2_7e18_44b4_fd5c, 48, 0x5c, 0x6c, 0x93e27e193f, 0xfed9_af3c_bf8a_9e84);
    StepIs(0xfed9_af3c_bf8a_9e84, 105, 0x84, 0xed, 0xfed9af3e70, 0x9683_b139_788c_0cb7);
    FiveSteps(0xcbf2_9ce4_8422_2325, 56, 121, 110, 48, 105,
              0xaf63_b54c_8601_aa47, 0x0817_4f07_b4d4_475a, 0x93e2_7e18_44b4_fd5c,
              0xfed9_af3c_bf8a_9e84, 0x9683_b139_788c_0cb7);
  }

  lemma FirstXors1()
    ensures XorByte(0xb7, 89) == 0xee && XorByte(0x6a, 67) == 0x29 && XorByte(0xab, 75) == 0xe0
    ensures XorByte(0xa0, 89) == 0xf9 && XorByte(0x1b, 72) == 0x53
  {
  }

  lemma FirstPart1()
    ensures FnvFrom(0x9683_b139_788c_0cb7, [89, 67, 75, 89, 72]) == 0x92bc_8a9a_f059_bd09
  {
    hide FnvFrom, XorByte, FnvStep;
    FirstXors1();
    StepIs(0x9683_b139_788c_0cb7, 89, 0xb7, 0xee, 0x9683b13a78, 0x4dd3_12a7_d5f9_f86a);
    StepIs(0x4dd3_12a7_d5f9_f86a, 67, 0x6a, 0x29, 0x4dd312a85a, 0x37a0_dc30_97c0_adab);
    StepIs(0x37a0_dc30_97c0_adab, 75, 0xab, 0xe0, 0x37a0dc30f6, 0x4704_0691_dc67_73a0);
    StepIs(0x4704_0691_dc67_73a0, 89, 0xa0, 0xf9, 0x4704069255, 0x134b_22d9_83ca_101b);
    StepIs(0x134b_22d9_83ca_101b, 72, 0x1b, 0x53, 0x134b22d9a4, 0x92bc_8a9a_f059_bd09);
    FiveSteps(0x9683_b139_788c_0cb7, 89, 67, 75, 89, 72,
              0x4dd3_12a7_d5f9_f86a, 0x37a0_dc30_97c0_adab, 0x4704_0691_dc67_73a0,
              0x134b_22d9_83ca_101b, 0x92bc_8a9a_f059_bd09);
  }

  lemma FirstXors2()
    ensures XorByte(0x9, 108) == 0x65 && XorByte(0x9f, 73) == 0xd6 && XorByte(0xa2, 106) == 0xc8
    ensures XorByte(0xd8, 52) == 0xec && XorByte(0x4, 45) == 0x29
  {
  }

  lemma FirstPart2()
    ensures FnvFrom(0x92bc_8a9a_f059_bd09, [108, 73, 106, 52, 45]) == 0x5e10_b4f9_1e80_5eab
  {
    hide FnvFrom, XorByte, FnvStep;
    FirstXors2();
    StepIs(0x92bc_8a9a_f059_bd09, 108, 0x9, 0x65, 0x92bc8a9be9, 0xb01c_ea46_687c_d29f);
    StepIs(0xb01c_ea46_687c_d29f, 73, 0x9f, 0xd6, 0xb01cea4793, 0xbdf4_eba3_8c1a_41a2);
    StepIs(0xbdf4_eba3_8c1a_41a2, 106, 0xa2, 0xc8, 0xbdf4eba4ce, 0xe16e_2ee7_109d_c6d8);
    StepIs(0xe16e_2ee7_109d_c6d8, 52, 0xd8, 0xec, 0xe16e2ee88f, 0xac00_9ea1_3c19_0304);
    StepIs(0xac00_9ea1_3c19_0304, 45, 0x4, 0x29, 0xac009ea260, 0x5e10_b4f9_1e80_5eab);
    FiveSteps(0x92bc_8a9a_f059_bd09, 108, 73, 106, 52, 45,
              0xb01c_ea46_687c_d29f, 0xbdf4_eba3_8c1a_41a2, 0xe16e_2ee7_109d_c6d8,
              0xac00_9ea1_3c19_0304, 0x5e10_b4f9_1e80_5eab);
  }

  lemma FirstXors3()
    ensures XorByte(0xab, 66) == 0xe9 && XorByte(0xeb, 119) == 0x9c && XorByte(0x14, 80) == 0x44
    ensures XorByte(0x8c, 113) == 0xfd && XorByte(0xe7, 107) == 0x8c
  {
  }

  lemma FirstPart3()
    ensures FnvFrom(0x5e10_b4f9_1e80_5eab, [66, 119, 80, 113, 107]) == 0x4eac_0c95_5408_67e4
  {
    hide FnvFrom, XorByte, FnvStep;
    FirstXors3();
    StepIs(0x5e10_b4f9_1e80_5eab, 66, 0xab, 0xe9, 0x5e10b4f9be, 0x56c2_6c4e_d421_45eb);
    StepIs(0x56c2_6c4e_d421_45eb, 119, 0xeb, 0x9c, 0x56c26c4f67, 0x8da3_a5f2_7489_4814);
    StepIs(0x8da3_a5f2_7489_4814, 80, 0x14, 0x44, 0x8da3a5f365, 0x365b_3efc_0545_cb8c);
    StepIs(0x365b_3efc_0545_cb8c, 113, 0x8c, 0xfd, 0x365b3efc61, 0xa2d8_033c_f599_9ee7);
    StepIs(0xa2d8_033c_f599_9ee7, 107, 0xe7, 0x8c, 0xa2d8033e0a, 0x4eac_0c95_5408_67e4);
    FiveSteps(0x5e10_b4f9_1e80_5eab, 66, 119, 80, 113, 107,
              0x56c2_6c4e_d421_45eb, 0x8da3_a5f2_7489_4814, 0x365b_3efc_0545_cb8c,
              0xa2d8_033c_f599_9ee7, 0x4eac_0c95_5408_67e4);
  }

  lemma SecondXors0()
    ensures XorByte(0x25, 71) == 0x62 && XorByte(0x86, 82) == 0xd4 && XorByte(0x3c, 101) == 0x59
    ensures XorByte(0x3b, 76) == 0x77 && XorByte(0x35, 85) == 0x60
  {
  }

  lemma SecondPart0()
    ensures FnvFrom(0xcbf2_9ce4_8422_2325, [71, 82, 101, 76, 85]) == 0xa4c7_dd83_d46d_1720
  {
    hide FnvFrom, XorByte, FnvStep;
    SecondXors0();
    StepIs(0xcbf2_9ce4_8422_2325, 71, 0x25, 0x62, 0xcbf29ce5de, 0xaf63_fa4c_8602_1f86);
    StepIs(0xaf63_fa4c_8602_1f86, 82, 0x86, 0xd4, 0xaf63fa4db0, 0x0902_2407_b59c_153c);
    StepIs(0x0902_2407_b59c_153c, 101, 0x3c, 0x59, 0x9022407c4, 0xeab8_9219_9838_463b);
    StepIs(0xeab8_9219_9838_463b, 76, 0x3b, 0x77, 0xeab8921b27, 0x0fe6_b87d_a79f_bc35);
    StepIs(0x0fe6_b87d_a79f_bc35, 85, 0x35, 0x60, 0xfe6b87dc2, 0xa4c7_dd83_d46d_1720);
    FiveSteps(0xcbf2_9ce4_8422_2325, 71, 82, 101, 76, 85,
              0xaf63_fa4c_8602_1f86, 0x0902_2407_b59c_153c, 0xeab8_9219_9838_463b,
              0x0fe6_b87d_a79f_bc35, 0xa4c7_dd83_d46d_1720);
  }

  lemma SecondXors1()
    ensures XorByte(0x20, 114) == 0x52 && XorByte(0x56, 77) == 0x1b && XorByte(0xe1, 52) == 0xd5
    ensures XorByte(0xef, 119) == 0x98 && XorByte(0x48, 77) == 0x5
  {
  }

  lemma SecondPart1()
    ensures FnvFrom(0xa4c7_dd83_d46d_1720, [114, 77, 52, 119, 77]) == 0x34db_4485_73e7_ee7f
  {
    hide FnvFrom, XorByte, FnvStep;
    SecondXors1();
    StepIs(0xa4c7_dd83_d46d_1720, 114, 0x20, 0x52, 0xa4c7dd84ec, 0x6cb4_b901_f55e_a056);
    StepIs(0x6cb4_b901_f55e_a056, 77, 0x56, 0x1b, 0x6cb4b902ae, 0x15b6_7953_efca_0de1);
    StepIs(0x15b6_7953_efca_0de1, 52, 0xe1, 0xd5, 0x15b6795414, 0xaf1d_fea0_7455_80ef);
    StepIs(0xaf1d_fea0_7455_80ef, 119, 0xef, 0x98, 0xaf1dfea19d, 0xe578_42a5_ad49_8248);
    StepIs(0xe578_42a5_ad49_8248, 77, 0x48, 0x5, 0xe57842a733, 0x34db_4485_73e7_ee7f);
    FiveSteps(0xa4c7_dd83_d46d_1720, 114, 77, 52, 119, 77,
              0x6cb4_b901_f55e_a056, 0x15b6_7953_efca_0de1, 0xaf1d_fea0_7455_80ef,
              0xe578_42a5_ad49_8248, 0x34db_4485_73e7_ee7f);
  }

  lemma SecondXors2()
    ensures XorByte(0x7f, 113) == 0xe && XorByte(0xca, 102) == 0xac && XorByte(0x44, 103) == 0x23
    ensures XorByte(0x79, 57) == 0x40 && XorByte(0xc0, 121) == 0xb9
  {
  }

  lemma SecondPart2()
    ensures FnvFrom(0x34db_4485_73e7_ee7f, [113, 102, 103, 57, 121]) == 0xcd9e_7cba_6abc_4e5b
  {
    hide FnvFrom, XorByte, FnvStep;
    SecondXors2();
    StepIs(0x34db_4485_73e7_ee7f, 113, 0x7f, 0xe, 0x34db4485cd, 0xb883_7cc3_f319_81ca);
    StepIs(0xb883_7cc3_f319_81ca, 102, 0xca, 0xac, 0xb8837cc52c, 0xa0ee_acf6_1457_5744);
    StepIs(0xa0ee_acf6_1457_5744, 103, 0x44, 0x23, 0xa0eeacf725, 0xcce7_0924_9069_1079);
    StepIs(0xcce7_0924_9069_1079, 57, 0x79, 0x40, 0xcce70925ec, 0x95a4_c921_6286_9cc0);
    StepIs(0x95a4_c921_6286_9cc0, 121, 0xc0, 0xb9, 0x95a4c92260, 0xcd9e_7cba_6abc_4e5b);
    FiveSteps(0x34db_4485_73e7_ee7f, 113, 102, 103, 57, 121,
              0xb883_7cc3_f319_81ca, 0xa0ee_acf6_1457_5744, 0xcce7_0924_9069_1079,
              0x95a4_c921_6286_9cc0, 0xcd9e_7cba_6abc_4e5b);
  }

  lemma SecondXors3()
    ensures XorByte(0x5b, 122) == 0x21 && XorByte(0x13, 86) == 0x45 && XorByte(0x3f, 51) == 0xc
    ensures XorByte(0x64, 75) == 0x2f && XorByte(0xdd, 81) == 0x8c
  {
  }

  lemma SecondPart3()
    ensures FnvFrom(0xcd9e_7cba_6abc_4e5b, [122, 86, 51, 75, 81]) == 0x4eac_0c95_5408_67e4
  {
    hide FnvFrom, XorByte, FnvStep;
    SecondXors3();
    StepIs(0xcd9e_7cba_6abc_4e5b, 122, 0x5b, 0x21, 0xcd9e7cbbc8, 0x209c_11c3_5df8_c213);
    StepIs(0x209c_11c3_5df8_c213, 86, 0x13, 0x45, 0x209c11c395, 0x61f4_73f8_adb2_1b3f);
    StepIs(0x61f4_73f8_adb2_1b3f, 51, 0x3f, 0xc, 0x61f473f954, 0x247c_1b8f_25a3_f564);
    StepIs(0x247c_1b8f_25a3_f564, 75, 0x64, 0x2f, 0x247c1b8f63, 0xa2d8_033c_f599_9edd);
    StepIs(0xa2d8_033c_f599_9edd, 81, 0xdd, 0x8c, 0xa2d8033e0a, 0x4eac_0c95_5408_67e4);
    FiveSteps(0xcd9e_7cba_6abc_4e5b, 122, 86, 51, 75, 81,
              0x209c_11c3_5df8_c213, 0x61f4_73f8_adb2_1b3f, 0x247c_1b8f_25a3_f564,
              0xa2d8_033c_f599_9edd, 0x4eac_0c95_5408_67e4);
  }

  /** Twenty bytes are absorbed five at a time. */
  lemma Joined(t: Token)
    requires |t| == 20
    ensures Fnv1a64(t) == FnvFrom(FnvFrom(FnvFrom(FnvFrom(FNV_OFFSET, t[..5]), t[5..10]), t[10..15]), t[15..])
  {
    hide FnvFrom;
    FnvFromConcat(FNV_OFFSET, t[..5], t[5..10]);
    FnvFromConcat(FNV_OFFSET, t[..5] + t[5..10], t[10..15]);
    FnvFromConcat(FNV_OFFSET, t[..5] + t[5..10] + t[10..15], t[15..]);
    assert t == t[..5] + t[5..10] + t[10..15] + t[15..];
  }

  lemma FirstHash()
    ensures Fnv1a64(FIRST) == COMMON_HASH
  {
    hide FnvFrom, FnvStep, Fnv1a64;
    FirstPart0();
    FirstPart1();
    FirstPart2();
    FirstPart3();
    Joined(FIRST);
    assert FIRST[..5] == [56, 121, 110, 48, 105];
    assert FIRST[5..10] == [89, 67, 75, 89, 72];
    assert FIRST[10..15] == [108, 73, 106, 52, 45];
    assert FIRST[15..] == [66, 119, 80, 113, 107];
  }

  lemma SecondHash()
    ensures Fnv1a64(SECOND) == COMMON_HASH
  {
    hide FnvFrom, FnvStep, Fnv1a64;
    SecondPart0();
    SecondPart1();
    SecondPart2();
    SecondPart3();
    Joined(SECOND);
    assert SECOND[..5] == [71, 82, 101, 76, 85];
    assert SECOND[5..10] == [114, 77, 52, 119, 77];
    assert SECOND[10..15] == [113, 102, 103, 57, 121];
    assert SECOND[15..] == [122, 86, 51, 75, 81];
  }

  /** A block hash depends on its first token only through the hash of that token. */
  lemma SameBlockHash(x: Token, y: Token, rest: seq<Token>)
    requires Fnv1a64(x) == Fnv1a64(y)
    ensures HashBlock([x] + rest) == HashBlock([y] + rest)
  {
    hide FnvFrom;
    var tail := [TOKEN_END] + Encode(rest);
    assert ([x] + rest)[1..] == rest && ([y] + rest)[1..] == rest;
    assert Encode([x] + rest) == x + tail && Encode([y] + rest) == y + tail;
    FnvFromConcat(FNV_OFFSET, x, tail);
    FnvFromConcat(FNV_OFFSET, y, tail);
  }

  lemma SameBlock(x: Token, y: Token, rest: seq<Token>, size: nat, k: nat)
    requires Fnv1a64(x) == Fnv1a64(y) && size > 0 && k * size <= 1 + |rest|
    ensures HashBlock(Block([x] + rest, size, k)) == HashBlock(Block([y] + rest, size, k))
  {
    hide HashBlock, Fnv1a64;
    if k == 0 {
      FirstBlock(x, rest, size);
      FirstBlock(y, rest, size);
      SameBlockHash(x, y, if |rest| < size then rest else rest[..size - 1]);
    } else {
      LaterBlock(x, y, rest, size, k);
    }
  }

  lemma FirstBlock(x: Token, rest: seq<Token>, size: nat)
    requires size > 0
    ensures Block([x] + rest, size, 0) == [x] + if |rest| < size then rest else rest[..size - 1]
  {
    assert 0 * size == 0;
  }

  lemma LaterBlock(x: Token, y: Token, rest: seq<Token>, size: nat, k: nat)
    requires size > 0 && k > 0 && k * size <= 1 + |rest|
    ensures Block([x] + rest, size, k) == Block([y] + rest, size, k)
  {
    MulCancels(0, k, size);
  }

  /** Tokens of equal hash can be exchanged at the head of a prompt without changing its chain. */
  lemma SameHeadSameChain(x: Token, y: Token, rest: seq<Token>, blockSize: nat)
    requires Fnv1a64(x) == Fnv1a64(y)
    ensures Chain([x] + rest, blockSize) == Chain([y] + rest, blockSize)
  {
    hide HashBlock, Fnv1a64, CumulativeHashes, Block;
    var a, b, size := [x] + rest, [y] + rest, BlockSize(blockSize);
    forall k | 0 <= k < BlockCount(a, size)
      ensures BlockHashes(a, size)[k] == BlockHashes(b, size)[k]
    {
      BlockCountIs(a, size, k);
      SameBlock(x, y, rest, size, k);
    }
    assert BlockHashes(a, size) == BlockHashes(b, size);
  }

  /** Two prompts that differ in their first token and agree on anything after it have the same
      whole chain, for every block size, although no two covered prefixes of theirs are equal. */
  lemma MatchWithoutPrefix(rest: seq<Token>, blockSize: nat)
    ensures var (a, b, size) := ([FIRST] + rest, [SECOND] + rest, BlockSize(blockSize));
      && Chain(a, blockSize) == Chain(b, blockSize) && |Chain(a, blockSize)| > 0
      && forall k :: 0 < k <= |Chain(a, blockSize)| ==> Covered(a, size, k) != Covered(b, size, k)
  {
    hide HashBlock, Fnv1a64, CumulativeHashes;
    FirstHash();
    SecondHash();
    SameHeadSameChain(FIRST, SECOND, rest, blockSize);
    var a, b, size := [FIRST] + rest, [SECOND] + rest, BlockSize(blockSize);
    BlockCountIs(a, size, 0);
    ChainLength(a, blockSize);
    forall k | 0 < k <= |Chain(a, blockSize)| ensures Covered(a, size, k) != Covered(b, size, k) {
      MulCancels(0, k, size);
      assert FIRST[0] != SECOND[0];
      assert Covered(a, size, k)[0] == FIRST && Covered(b, size, k)[0] == SECOND;
    }
  }
}
