/** The published one-block example of SHA-256: the digest of "abc", computed from the definitions
    group by group and round by round. It fixes every rotation, constant and byte order. */
module Sha256Abc {
  import opened BlockHash
  import opened Sha256
  import Bits
  import Nonlinear

  /** The padded message. */
  function Block(): (b: Octets)
    ensures |b| == BLOCK
  {
    [0x61, 0x62, 0x63, 0x80] + BlockHash.Zeros(59) + [24]
  }

  lemma {:induction false} FirstWord(s: Octets)
    requires s == [0x61, 0x62, 0x63, 0x80]
    ensures Load32(s) == 0x61626380
  {
  }

  lemma {:induction false} ZeroWord(s: Octets)
    requires |s| == 4 && forall i :: 0 <= i < 4 ==> s[i] == 0
    ensures Load32(s) == 0
  {
  }

  lemma {:induction false} LastWord(s: Octets)
    requires s == [0, 0, 0, 24]
    ensures Load32(s) == 24
  {
  }

  // ---- the schedule ----

  /** Word t of the schedule. */
  function Word(t: nat): bv32 {
    W(Block(), t)
  }

  /** The words of the schedule, in groups of eight. */
  function Group(i: nat): (s: seq<bv32>)
    ensures |s| == 8
  {
    match i
    case 0 =>
      [0x61626380, 0x00000000, 0x00000000, 0x00000000,
       0x00000000, 0x00000000, 0x00000000, 0x00000000]
    case 1 =>
      [0x00000000, 0x00000000, 0x00000000, 0x00000000,
       0x00000000, 0x00000000, 0x00000000, 0x00000018]
    case 2 =>
      [0x61626380, 0x000f0000, 0x7da86405, 0x600003c6,
       0x3e9d7b78, 0x0183fc00, 0x12dcbfdb, 0xe2e2c38e]
    case 3 =>
      [0xc8215c1a, 0xb73679a2, 0xe5bc3909, 0x32663c5b,
       0x9d209d67, 0xec8726cb, 0x702138a4, 0xd3b7973b]
    case 4 =>
      [0x93f5997f, 0x3b68ba73, 0xaff4ffc1, 0xf10a5c62,
       0x0a8b3996, 0x72af830a, 0x9409e33e, 0x24641522]
    case 5 =>
      [0x9f47bf94, 0xf0a64f5a, 0x3e246a79, 0x27333ba3,
       0x0c4763f2, 0x840abf27, 0x7a290d5d, 0x065c43da]
    case 6 =>
      [0xfb3e89cb, 0xcc7617db, 0xb9e66c34, 0xa9993667,
       0x84badedd, 0xc21462bc, 0x1487472c, 0xb20f7a99]
    case _ =>
      [0xef57b9cd, 0xebe6b238, 0x9fe3095e, 0x78bc8d4b,
       0xa43fcf15, 0x668b2ff8, 0xeeaba2cc, 0x12b1edeb]
  }

  ghost predicate Scheduled(i: nat) {
    forall k :: 0 <= k < 8 ==> Word(8 * i + k) == Group(i)[k]
  }

  lemma {:induction false} EightWords(i: nat)
    requires Scheduled(i)
    ensures var g := Group(i);
      && Word(8 * i) == g[0] && Word(8 * i + 1) == g[1] && Word(8 * i + 2) == g[2] && Word(8 * i + 3) == g[3]
      && Word(8 * i + 4) == g[4] && Word(8 * i + 5) == g[5] && Word(8 * i + 6) == g[6] && Word(8 * i + 7) == g[7]
  {
    hide Word, Group;
    assert Word(8 * i + 0) == Group(i)[0];
  }

  /** A word from the sixteen before it. */
  function Next(w2: bv32, w7: bv32, w15: bv32, w16: bv32): bv32 {
    Plus(Plus(Plus(SmallSigma1(w2), w7), SmallSigma0(w15)), w16)
  }

  /** A group follows from the two before it. */
  predicate Follows(f: seq<bv32>, g: seq<bv32>, h: seq<bv32>) {
    && |f| == |g| == |h| == 8
    && h[0] == Next(g[6], g[1], f[1], f[0]) && h[1] == Next(g[7], g[2], f[2], f[1])
    && h[2] == Next(h[0], g[3], f[3], f[2]) && h[3] == Next(h[1], g[4], f[4], f[3])
    && h[4] == Next(h[2], g[5], f[5], f[4]) && h[5] == Next(h[3], g[6], f[6], f[5])
    && h[6] == Next(h[4], g[7], f[7], f[6]) && h[7] == Next(h[5], h[0], g[0], f[7])
  }

  lemma {:induction false} WordNext(t: nat)
    requires t >= 16
    ensures Word(t) == Next(Word(t - 2), Word(t - 7), Word(t - 15), Word(t - 16))
  {
    hide Plus, SmallSigma0, SmallSigma1;
  }

  lemma {:induction false} GroupNext(i: nat)
    requires i >= 2 && Scheduled(i - 2) && Scheduled(i - 1) && Follows(Group(i - 2), Group(i - 1), Group(i))
    ensures Scheduled(i)
  {
    hide Word, Group, Next, Scheduled;
    EightWords(i - 2);
    EightWords(i - 1);
    var t := 8 * i;
    WordNext(t); WordNext(t + 1); WordNext(t + 2); WordNext(t + 3);
    WordNext(t + 4); WordNext(t + 5); WordNext(t + 6); WordNext(t + 7);
    EightMake(i);
  }

  lemma {:induction false} EightMake(i: nat)
    requires var g := Group(i);
      && Word(8 * i) == g[0] && Word(8 * i + 1) == g[1] && Word(8 * i + 2) == g[2] && Word(8 * i + 3) == g[3]
      && Word(8 * i + 4) == g[4] && Word(8 * i + 5) == g[5] && Word(8 * i + 6) == g[6] && Word(8 * i + 7) == g[7]
    ensures Scheduled(i)
  {
    hide Word, Group;
    forall k | 0 <= k < 8 ensures Word(8 * i + k) == Group(i)[k] {
      if k < 4 { if k < 2 { if k == 0 {} } else { if k == 2 {} } } else { if k < 6 { if k == 4 {} } else { if k == 6 {} } }
    }
  }

  lemma {:induction false} Follows2()
    ensures Follows(Group(0), Group(1), Group(2))
  {
  }

  lemma {:induction false} Follows3()
    ensures Follows(Group(1), Group(2), Group(3))
  {
  }

  lemma {:induction false} Follows4()
    ensures Follows(Group(2), Group(3), Group(4))
  {
  }

  lemma {:induction false} Follows5()
    ensures Follows(Group(3), Group(4), Group(5))
  {
  }

  lemma {:induction false} Follows6()
    ensures Follows(Group(4), Group(5), Group(6))
  {
  }

  lemma {:induction false} Follows7()
    ensures Follows(Group(5), Group(6), Group(7))
  {
  }

  lemma {:induction false} AllFollow(i: nat)
    requires 2 <= i < 8
    ensures Follows(Group(i - 2), Group(i - 1), Group(i))
  {
    hide Follows, Group;
    match i
    case 2 => Follows2();
    case 3 => Follows3();
    case 4 => Follows4();
    case 5 => Follows5();
    case 6 => Follows6();
    case 7 => Follows7();
  }

  lemma {:induction false} FirstGroups()
    ensures Scheduled(0) && Scheduled(1)
  {
    hide Load32;
    var b := Block();
    FirstWord(b[0..4]);
    LastWord(b[60..64]);
    forall i | 0 < i < 15 ensures Load32(b[4 * i..4 * i + 4]) == 0 { ZeroWord(b[4 * i..4 * i + 4]); }
  }

  lemma {:induction false} ScheduledTo(i: nat)
    requires i < 8
    ensures Scheduled(i) && (i > 0 ==> Scheduled(i - 1))
    decreases i
  {
    hide Scheduled, Follows, Group;
    if i < 2 {
      FirstGroups();
    } else {
      ScheduledTo(i - 1);
      AllFollow(i);
      GroupNext(i);
    }
  }

  // ---- the rounds ----

  /** The working variables after t rounds. */
  function After(t: nat): Vars
    requires t <= 64
  {
    Rounds(VarsOf(InitialHash()), Block(), t)
  }

  lemma {:induction false} RoundNext(t: nat)
    requires t < 64
    ensures After(t + 1) == Round(After(t), K()[t], Word(t))
  {
    hide Round, K, W, InitialHash;
  }

  lemma {:induction false} RoundsTo0()
    ensures After(0) == Vars(0x6a09e667, 0xbb67ae85, 0x3c6ef372, 0xa54ff53a, 0x510e527f, 0x9b05688c, 0x1f83d9ab, 0x5be0cd19)
  {
  }

  lemma {:induction false} ConstantsTo8()
    ensures K()[0] == 0x428a2f98 && K()[1] == 0x71374491 && K()[2] == 0xb5c0fbcf && K()[3] == 0xe9b5dba5
    ensures K()[4] == 0x3956c25b && K()[5] == 0x59f111f1 && K()[6] == 0x923f82a4 && K()[7] == 0xab1c5ed5
  {
  }

  lemma {:induction false} RoundsTo8()
    ensures After(8) == Vars(0x85a07b5f, 0xe5030380, 0x2b4209f5, 0x04409a6a, 0x0c657a79, 0x9b27a401, 0x714260ad, 0x43ada245)
  {
    hide After, K, Word, Scheduled;
    RoundsTo0();
    ConstantsTo8();
    ScheduledTo(0);
    EightWords(0);
    RoundNext(0);
    assert After(1) == Vars(0x5d6aebcd, 0x6a09e667, 0xbb67ae85, 0x3c6ef372, 0xfa2a4622, 0x510e527f, 0x9b05688c, 0x1f83d9ab);
    RoundNext(1);
    assert After(2) == Vars(0x5a6ad9ad, 0x5d6aebcd, 0x6a09e667, 0xbb67ae85, 0x78ce7989, 0xfa2a4622, 0x510e527f, 0x9b05688c);
    RoundNext(2);
    assert After(3) == Vars(0xc8c347a7, 0x5a6ad9ad, 0x5d6aebcd, 0x6a09e667, 0xf92939eb, 0x78ce7989, 0xfa2a4622, 0x510e527f);
    RoundNext(3);
    assert After(4) == Vars(0xd550f666, 0xc8c347a7, 0x5a6ad9ad, 0x5d6aebcd, 0x24e00850, 0xf92939eb, 0x78ce7989, 0xfa2a4622);
    RoundNext(4);
    assert After(5) == Vars(0x04409a6a, 0xd550f666, 0xc8c347a7, 0x5a6ad9ad, 0x43ada245, 0x24e00850, 0xf92939eb, 0x78ce7989);
    RoundNext(5);
    assert After(6) == Vars(0x2b4209f5, 0x04409a6a, 0xd550f666, 0xc8c347a7, 0x714260ad, 0x43ada245, 0x24e00850, 0xf92939eb);
    RoundNext(6);
    assert After(7) == Vars(0xe5030380, 0x2b4209f5, 0x04409a6a, 0xd550f666, 0x9b27a401, 0x714260ad, 0x43ada245, 0x24e00850);
    RoundNext(7);
  }

  lemma {:induction false} ConstantsTo16()
    ensures K()[8] == 0xd807aa98 && K()[9] == 0x12835b01 && K()[10] == 0x243185be && K()[11] == 0x550c7dc3
    ensures K()[12] == 0x72be5d74 && K()[13] == 0x80deb1fe && K()[14] == 0x9bdc06a7 && K()[15] == 0xc19bf174
  {
  }

  lemma {:induction false} RoundsTo16()
    ensures After(16) == Vars(0xb0fa238e, 0xc0645fde, 0xd932eb16, 0x87912990, 0x07590dcd, 0x0b92f20c, 0x745a48de, 0x1e578218)
  {
    hide After, K, Word, Scheduled;
    RoundsTo8();
    ConstantsTo16();
    ScheduledTo(1);
    EightWords(1);
    RoundNext(8);
    assert After(9) == Vars(0x8e04ecb9, 0x85a07b5f, 0xe5030380, 0x2b4209f5, 0x32ca2d8c, 0x0c657a79, 0x9b27a401, 0x714260ad);
    RoundNext(9);
    assert After(10) == Vars(0x8c87346b, 0x8e04ecb9, 0x85a07b5f, 0xe5030380, 0x1cc92596, 0x32ca2d8c, 0x0c657a79, 0x9b27a401);
    RoundNext(10);
    assert After(11) == Vars(0x4798a3f4, 0x8c87346b, 0x8e04ecb9, 0x85a07b5f, 0x436b23e8, 0x1cc92596, 0x32ca2d8c, 0x0c657a79);
    RoundNext(11);
    assert After(12) == Vars(0xf71fc5a9, 0x4798a3f4, 0x8c87346b, 0x8e04ecb9, 0x816fd6e9, 0x436b23e8, 0x1cc92596, 0x32ca2d8c);
    RoundNext(12);
    assert After(13) == Vars(0x87912990, 0xf71fc5a9, 0x4798a3f4, 0x8c87346b, 0x1e578218, 0x816fd6e9, 0x436b23e8, 0x1cc92596);
    RoundNext(13);
    assert After(14) == Vars(0xd932eb16, 0x87912990, 0xf71fc5a9, 0x4798a3f4, 0x745a48de, 0x1e578218, 0x816fd6e9, 0x436b23e8);
    RoundNext(14);
    assert After(15) == Vars(0xc0645fde, 0xd932eb16, 0x87912990, 0xf71fc5a9, 0x0b92f20c, 0x745a48de, 0x1e578218, 0x816fd6e9);
    RoundNext(15);
  }

  lemma {:induction false} ConstantsTo24()
    ensures K()[16] == 0xe49b69c1 && K()[17] == 0xefbe4786 && K()[18] == 0x0fc19dc6 && K()[19] == 0x240ca1cc
    ensures K()[20] == 0x2de92c6f && K()[21] == 0x4a7484aa && K()[22] == 0x5cb0a9dc && K()[23] == 0x76f988da
  {
  }

  lemma {:induction false} RoundsTo24()
    ensures After(24) == Vars(0xc5d53d8d, 0xa7a3623f, 0xc2606d6d, 0x9dc68b63, 0xaa47c347, 0x49f5114a, 0xe1257970, 0x8ada8930)
  {
    hide After, K, Word, Scheduled;
    RoundsTo16();
    ConstantsTo24();
    ScheduledTo(2);
    EightWords(2);
    RoundNext(16);
    assert After(17) == Vars(0x21da9a9b, 0xb0fa238e, 0xc0645fde, 0xd932eb16, 0x8034229c, 0x07590dcd, 0x0b92f20c, 0x745a48de);
    RoundNext(17);
    assert After(18) == Vars(0xc2fbd9d1, 0x21da9a9b, 0xb0fa238e, 0xc0645fde, 0x846ee454, 0x8034229c, 0x07590dcd, 0x0b92f20c);
    RoundNext(18);
    assert After(19) == Vars(0xfe777bbf, 0xc2fbd9d1, 0x21da9a9b, 0xb0fa238e, 0xcc899961, 0x846ee454, 0x8034229c, 0x07590dcd);
    RoundNext(19);
    assert After(20) == Vars(0xe1f20c33, 0xfe777bbf, 0xc2fbd9d1, 0x21da9a9b, 0xb0638179, 0xcc899961, 0x846ee454, 0x8034229c);
    RoundNext(20);
    assert After(21) == Vars(0x9dc68b63, 0xe1f20c33, 0xfe777bbf, 0xc2fbd9d1, 0x8ada8930, 0xb0638179, 0xcc899961, 0x846ee454);
    RoundNext(21);
    assert After(22) == Vars(0xc2606d6d, 0x9dc68b63, 0xe1f20c33, 0xfe777bbf, 0xe1257970, 0x8ada8930, 0xb0638179, 0xcc899961);
    RoundNext(22);
    assert After(23) == Vars(0xa7a3623f, 0xc2606d6d, 0x9dc68b63, 0xe1f20c33, 0x49f5114a, 0xe1257970, 0x8ada8930, 0xb0638179);
    RoundNext(23);
  }

  lemma {:induction false} ConstantsTo32()
    ensures K()[24] == 0x983e5152 && K()[25] == 0xa831c66d && K()[26] == 0xb00327c8 && K()[27] == 0xbf597fc7
    ensures K()[28] == 0xc6e00bf3 && K()[29] == 0xd5a79147 && K()[30] == 0x06ca6351 && K()[31] == 0x14292967
  {
  }

  lemma {:induction false} RoundsTo32()
    ensures After(32) == Vars(0x73b33bf5, 0xea992a22, 0xa0060b30, 0x363482c9, 0xba591112, 0x0109ab3a, 0xade79437, 0x6112a3b7)
  {
    hide After, K, Word, Scheduled;
    RoundsTo24();
    ConstantsTo32();
    ScheduledTo(3);
    EightWords(3);
    RoundNext(24);
    assert After(25) == Vars(0x1c2c2838, 0xc5d53d8d, 0xa7a3623f, 0xc2606d6d, 0x2823ef91, 0xaa47c347, 0x49f5114a, 0xe1257970);
    RoundNext(25);
    assert After(26) == Vars(0xcde8037d, 0x1c2c2838, 0xc5d53d8d, 0xa7a3623f, 0x14383d8e, 0x2823ef91, 0xaa47c347, 0x49f5114a);
    RoundNext(26);
    assert After(27) == Vars(0xb62ec4bc, 0xcde8037d, 0x1c2c2838, 0xc5d53d8d, 0xc74c6516, 0x14383d8e, 0x2823ef91, 0xaa47c347);
    RoundNext(27);
    assert After(28) == Vars(0x77d37528, 0xb62ec4bc, 0xcde8037d, 0x1c2c2838, 0xedffbff8, 0xc74c6516, 0x14383d8e, 0x2823ef91);
    RoundNext(28);
    assert After(29) == Vars(0x363482c9, 0x77d37528, 0xb62ec4bc, 0xcde8037d, 0x6112a3b7, 0xedffbff8, 0xc74c6516, 0x14383d8e);
    RoundNext(29);
    assert After(30) == Vars(0xa0060b30, 0x363482c9, 0x77d37528, 0xb62ec4bc, 0xade79437, 0x6112a3b7, 0xedffbff8, 0xc74c6516);
    RoundNext(30);
    assert After(31) == Vars(0xea992a22, 0xa0060b30, 0x363482c9, 0x77d37528, 0x0109ab3a, 0xade79437, 0x6112a3b7, 0xedffbff8);
    RoundNext(31);
  }

  lemma {:induction false} ConstantsTo40()
    ensures K()[32] == 0x27b70a85 && K()[33] == 0x2e1b2138 && K()[34] == 0x4d2c6dfc && K()[35] == 0x53380d13
    ensures K()[36] == 0x650a7354 && K()[37] == 0x766a0abb && K()[38] == 0x81c2c92e && K()[39] == 0x92722c85
  {
  }

  lemma {:induction false} RoundsTo40()
    ensures After(40) == Vars(0x79ea687a, 0x6dc57a8a, 0x34df1604, 0x41a65cb1, 0x1efbc0a0, 0xf0781bc8, 0xa507a53d, 0x0772a26b)
  {
    hide After, K, Word, Scheduled;
    RoundsTo32();
    ConstantsTo40();
    ScheduledTo(4);
    EightWords(4);
    RoundNext(32);
    assert After(33) == Vars(0x98e12507, 0x73b33bf5, 0xea992a22, 0xa0060b30, 0x9cd9f5f6, 0xba591112, 0x0109ab3a, 0xade79437);
    RoundNext(33);
    assert After(34) == Vars(0xfe604df5, 0x98e12507, 0x73b33bf5, 0xea992a22, 0x59249dd3, 0x9cd9f5f6, 0xba591112, 0x0109ab3a);
    RoundNext(34);
    assert After(35) == Vars(0xa9a7738c, 0xfe604df5, 0x98e12507, 0x73b33bf5, 0x085f3833, 0x59249dd3, 0x9cd9f5f6, 0xba591112);
    RoundNext(35);
    assert After(36) == Vars(0x65a0cfe4, 0xa9a7738c, 0xfe604df5, 0x98e12507, 0xf4b002d6, 0x085f3833, 0x59249dd3, 0x9cd9f5f6);
    RoundNext(36);
    assert After(37) == Vars(0x41a65cb1, 0x65a0cfe4, 0xa9a7738c, 0xfe604df5, 0x0772a26b, 0xf4b002d6, 0x085f3833, 0x59249dd3);
    RoundNext(37);
    assert After(38) == Vars(0x34df1604, 0x41a65cb1, 0x65a0cfe4, 0xa9a7738c, 0xa507a53d, 0x0772a26b, 0xf4b002d6, 0x085f3833);
    RoundNext(38);
    assert After(39) == Vars(0x6dc57a8a, 0x34df1604, 0x41a65cb1, 0x65a0cfe4, 0xf0781bc8, 0xa507a53d, 0x0772a26b, 0xf4b002d6);
    RoundNext(39);
  }

  lemma {:induction false} ConstantsTo48()
    ensures K()[40] == 0xa2bfe8a1 && K()[41] == 0xa81a664b && K()[42] == 0xc24b8b70 && K()[43] == 0xc76c51a3
    ensures K()[44] == 0xd192e819 && K()[45] == 0xd6990624 && K()[46] == 0xf40e3585 && K()[47] == 0x106aa070
  {
  }

  lemma {:induction false} RoundsTo48()
    ensures After(48) == Vars(0x4172328d, 0xa14c14b0, 0x72ab4b91, 0x26628815, 0xfecf0bc6, 0xd57b94a9, 0xb7755da1, 0xa80f11f0)
  {
    hide After, K, Word, Scheduled;
    RoundsTo40();
    ConstantsTo48();
    ScheduledTo(5);
    EightWords(5);
    RoundNext(40);
    assert After(41) == Vars(0xd6670766, 0x79ea687a, 0x6dc57a8a, 0x34df1604, 0x26352d63, 0x1efbc0a0, 0xf0781bc8, 0xa507a53d);
    RoundNext(41);
    assert After(42) == Vars(0xdf46652f, 0xd6670766, 0x79ea687a, 0x6dc57a8a, 0x838b2711, 0x26352d63, 0x1efbc0a0, 0xf0781bc8);
    RoundNext(42);
    assert After(43) == Vars(0x17aa0dfe, 0xdf46652f, 0xd6670766, 0x79ea687a, 0xdecd4715, 0x838b2711, 0x26352d63, 0x1efbc0a0);
    RoundNext(43);
    assert After(44) == Vars(0x9d4baf93, 0x17aa0dfe, 0xdf46652f, 0xd6670766, 0xfda24c2e, 0xdecd4715, 0x838b2711, 0x26352d63);
    RoundNext(44);
    assert After(45) == Vars(0x26628815, 0x9d4baf93, 0x17aa0dfe, 0xdf46652f, 0xa80f11f0, 0xfda24c2e, 0xdecd4715, 0x838b2711);
    RoundNext(45);
    assert After(46) == Vars(0x72ab4b91, 0x26628815, 0x9d4baf93, 0x17aa0dfe, 0xb7755da1, 0xa80f11f0, 0xfda24c2e, 0xdecd4715);
    RoundNext(46);
    assert After(47) == Vars(0xa14c14b0, 0x72ab4b91, 0x26628815, 0x9d4baf93, 0xd57b94a9, 0xb7755da1, 0xa80f11f0, 0xfda24c2e);
    RoundNext(47);
  }

  lemma {:induction false} ConstantsTo56()
    ensures K()[48] == 0x19a4c116 && K()[49] == 0x1e376c08 && K()[50] == 0x2748774c && K()[51] == 0x34b0bcb5
    ensures K()[52] == 0x391c0cb3 && K()[53] == 0x4ed8aa4a && K()[54] == 0x5b9cca4f && K()[55] == 0x682e6ff3
  {
  }

  lemma {:induction false} RoundsTo56()
    ensures After(56) == Vars(0x38cc9913, 0x3ec45cdb, 0xf5702fdb, 0x101fd28f, 0x54cb266b, 0xe50e1b4f, 0x9f4787c3, 0x529e7d00)
  {
    hide After, K, Word, Scheduled;
    RoundsTo48();
    ConstantsTo56();
    ScheduledTo(6);
    EightWords(6);
    RoundNext(48);
    assert After(49) == Vars(0x05757ceb, 0x4172328d, 0xa14c14b0, 0x72ab4b91, 0xbd714038, 0xfecf0bc6, 0xd57b94a9, 0xb7755da1);
    RoundNext(49);
    assert After(50) == Vars(0xf11bfaa8, 0x05757ceb, 0x4172328d, 0xa14c14b0, 0x6e5c390c, 0xbd714038, 0xfecf0bc6, 0xd57b94a9);
    RoundNext(50);
    assert After(51) == Vars(0x7a0508a1, 0xf11bfaa8, 0x05757ceb, 0x4172328d, 0x52f1ccf7, 0x6e5c390c, 0xbd714038, 0xfecf0bc6);
    RoundNext(51);
    assert After(52) == Vars(0x886e7a22, 0x7a0508a1, 0xf11bfaa8, 0x05757ceb, 0x49231c1e, 0x52f1ccf7, 0x6e5c390c, 0xbd714038);
    RoundNext(52);
    assert After(53) == Vars(0x101fd28f, 0x886e7a22, 0x7a0508a1, 0xf11bfaa8, 0x529e7d00, 0x49231c1e, 0x52f1ccf7, 0x6e5c390c);
    RoundNext(53);
    assert After(54) == Vars(0xf5702fdb, 0x101fd28f, 0x886e7a22, 0x7a0508a1, 0x9f4787c3, 0x529e7d00, 0x49231c1e, 0x52f1ccf7);
    RoundNext(54);
    assert After(55) == Vars(0x3ec45cdb, 0xf5702fdb, 0x101fd28f, 0x886e7a22, 0xe50e1b4f, 0x9f4787c3, 0x529e7d00, 0x49231c1e);
    RoundNext(55);
  }

  lemma {:induction false} ConstantsTo64()
    ensures K()[56] == 0x748f82ee && K()[57] == 0x78a5636f && K()[58] == 0x84c87814 && K()[59] == 0x8cc70208
    ensures K()[60] == 0x90befffa && K()[61] == 0xa4506ceb && K()[62] == 0xbef9a3f7 && K()[63] == 0xc67178f2
  {
  }

  lemma {:induction false} RoundsTo64()
    ensures After(64) == Vars(0x506e3058, 0xd39a2165, 0x04d24d6c, 0xb85e2ce9, 0x5ef50f24, 0xfb121210, 0x948d25b6, 0x961f4894)
  {
    hide After, K, Word, Scheduled;
    RoundsTo56();
    ConstantsTo64();
    ScheduledTo(7);
    EightWords(7);
    RoundNext(56);
    assert After(57) == Vars(0xfcd1887b, 0x38cc9913, 0x3ec45cdb, 0xf5702fdb, 0x9b5e906c, 0x54cb266b, 0xe50e1b4f, 0x9f4787c3);
    RoundNext(57);
    assert After(58) == Vars(0xc062d46f, 0xfcd1887b, 0x38cc9913, 0x3ec45cdb, 0x7e44008e, 0x9b5e906c, 0x54cb266b, 0xe50e1b4f);
    RoundNext(58);
    assert After(59) == Vars(0xffb70472, 0xc062d46f, 0xfcd1887b, 0x38cc9913, 0x6d83bfc6, 0x7e44008e, 0x9b5e906c, 0x54cb266b);
    RoundNext(59);
    assert After(60) == Vars(0xb6ae8fff, 0xffb70472, 0xc062d46f, 0xfcd1887b, 0xb21bad3d, 0x6d83bfc6, 0x7e44008e, 0x9b5e906c);
    RoundNext(60);
    assert After(61) == Vars(0xb85e2ce9, 0xb6ae8fff, 0xffb70472, 0xc062d46f, 0x961f4894, 0xb21bad3d, 0x6d83bfc6, 0x7e44008e);
    RoundNext(61);
    assert After(62) == Vars(0x04d24d6c, 0xb85e2ce9, 0xb6ae8fff, 0xffb70472, 0x948d25b6, 0x961f4894, 0xb21bad3d, 0x6d83bfc6);
    RoundNext(62);
    assert After(63) == Vars(0xd39a2165, 0x04d24d6c, 0xb85e2ce9, 0xb6ae8fff, 0xfb121210, 0x948d25b6, 0x961f4894, 0xb21bad3d);
    RoundNext(63);
  }

  // ---- the digest ----

  lemma {:induction false} Compressed()
    ensures Step(InitialHash(), Block()) ==
      [0xba7816bf, 0x8f01cfea, 0x414140de, 0x5dae2223,
       0xb00361a3, 0x96177a9c, 0xb410ff61, 0xf20015ad]
  {
    hide Rounds, K, InitialHash, AddVars, Block;
    RoundsTo64();
    Sums();
  }

  lemma {:induction false} Sums()
    ensures AddVars(InitialHash(), Vars(0x506e3058, 0xd39a2165, 0x04d24d6c, 0xb85e2ce9, 0x5ef50f24, 0xfb121210, 0x948d25b6, 0x961f4894))
         == [0xba7816bf, 0x8f01cfea, 0x414140de, 0x5dae2223, 0xb00361a3, 0x96177a9c, 0xb410ff61, 0xf20015ad]
  {
  }

  lemma {:induction false} LengthBytes()
    ensures LengthTail(3) == BlockHash.Zeros(7) + [24]
  {
    CountBytes();
  }

  lemma {:induction false} PaddedBlock()
    ensures [0x61, 0x62, 0x63] + [0x80] + BlockHash.Zeros(52) + (BlockHash.Zeros(7) + [24]) == Block()
  {
  }

  /** The digest of "abc" is the published one. */
  lemma {:induction false} DigestOfAbc()
    ensures |Digest([0x61, 0x62, 0x63])| == 8 && Output(Digest([0x61, 0x62, 0x63])) ==
    [0xba, 0x78, 0x16, 0xbf, 0x8f, 0x01, 0xcf, 0xea, 0x41, 0x41, 0x40, 0xde, 0x5d, 0xae, 0x22, 0x23,
     0xb0, 0x03, 0x61, 0xa3, 0x96, 0x17, 0x7a, 0x9c, 0xb4, 0x10, 0xff, 0x61, 0xf2, 0x00, 0x15, 0xad]
  {
    hide Step, LengthTail, InitialHash, Fold, K, Store32, Block, BlockHash.Zeros, Output, Digest;
    var message: Octets := [0x61, 0x62, 0x63];
    Pending(message);
    DigestIs(message, message, InitialHash());
    LengthBytes();
    PaddedBlock();
    assert |message + [0x80]| == 4;
    Compressed();
    OutputBytes(Digest(message));
  }

  lemma {:induction false} OutputBytes(h: seq<bv32>)
    requires h == [0xba7816bf, 0x8f01cfea, 0x414140de, 0x5dae2223, 0xb00361a3, 0x96177a9c, 0xb410ff61, 0xf20015ad]
    ensures Output(h) ==
    [0xba, 0x78, 0x16, 0xbf, 0x8f, 0x01, 0xcf, 0xea, 0x41, 0x41, 0x40, 0xde, 0x5d, 0xae, 0x22, 0x23,
     0xb0, 0x03, 0x61, 0xa3, 0x96, 0x17, 0x7a, 0x9c, 0xb4, 0x10, 0xff, 0x61, 0xf2, 0x00, 0x15, 0xad]
  {
    hide Store32;
    Bytes();
  }

  lemma {:induction false} Pending(message: Octets)
    requires |message| == 3
    ensures Stream(InitialHash(), message) == Absorb(Step, BLOCK, Stream(InitialHash(), []), message)
  {
    hide Step, InitialHash;
    assert [] + message == message;
  }

  lemma {:induction false} CountBytes()
    ensures forall i :: 0 <= i < 7 ==> CountByte(24, i) == 0
    ensures CountByte(24, 7) == 24
  {
    assert forall i :: 0 <= i < 7 ==> 24 / Bits.Pow2(56 - 8 * i) == 0 by {
      forall i | 0 <= i < 7 ensures 24 / Bits.Pow2(56 - 8 * i) == 0 { LargePower(56 - 8 * i); }
    }
  }

  lemma {:induction false} LargePower(k: nat)
    requires k >= 5
    ensures Bits.Pow2(k) >= 32 && 24 / Bits.Pow2(k) == 0
  {
    if k > 5 { LargePower(k - 1); } else { assert Bits.Pow2(5) == 32; }
    Nonlinear.DivModUnique(24, Bits.Pow2(k), 0, 24);
  }

  lemma {:induction false} Bytes()
    ensures Store32(0xba7816bf) == [0xba, 0x78, 0x16, 0xbf]
    ensures Store32(0x8f01cfea) == [0x8f, 0x01, 0xcf, 0xea]
    ensures Store32(0x414140de) == [0x41, 0x41, 0x40, 0xde]
    ensures Store32(0x5dae2223) == [0x5d, 0xae, 0x22, 0x23]
    ensures Store32(0xb00361a3) == [0xb0, 0x03, 0x61, 0xa3]
    ensures Store32(0x96177a9c) == [0x96, 0x17, 0x7a, 0x9c]
    ensures Store32(0xb410ff61) == [0xb4, 0x10, 0xff, 0x61]
    ensures Store32(0xf20015ad) == [0xf2, 0x00, 0x15, 0xad]
  {
  }
}
