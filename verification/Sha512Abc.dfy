/** The published one-block example of SHA-512: the digest of "abc", computed from the definitions
    group by group and round by round. It fixes every rotation, constant and byte order. */
module Sha512Abc {
  import opened BlockHash
  import opened Sha512
  import opened Sha512Code

  /** The padded message. */
  function Block(): (b: Octets)
    ensures |b| == BLOCK
  {
    [0x61, 0x62, 0x63, 0x80] + BlockHash.Zeros(123) + [24]
  }

  /** Its words. */
  function Words(): (w: seq<bv64>)
    ensures |w| == 16
  {
    [0x6162638000000000, 0, 0, 0, 0, 0, 0, 0, 0, 0, 0, 0, 0, 0, 0, 24]
  }

  lemma {:induction false} BlockIsWords()
    ensures BlockWords(Block()) == Words()
  {
    hide Load64;
    var b := Block();
    FirstWord(b[0..8]);
    LastWord(b[120..128]);
    forall i | 0 < i < 15 ensures Load64(b[8 * i..8 * i + 8]) == 0 { ZeroWord(b[8 * i..8 * i + 8]); }
    forall i | 0 <= i < 16 ensures BlockWords(b)[i] == Words()[i] {}
  }

  lemma {:induction false} FirstWord(s: Octets)
    requires s == [0x61, 0x62, 0x63, 0x80, 0, 0, 0, 0]
    ensures Load64(s) == 0x6162638000000000
  {
  }

  lemma {:induction false} ZeroWord(s: Octets)
    requires |s| == 8 && forall i :: 0 <= i < 8 ==> s[i] == 0
    ensures Load64(s) == 0
  {
  }

  lemma {:induction false} LastWord(s: Octets)
    requires s == [0, 0, 0, 0, 0, 0, 0, 24]
    ensures Load64(s) == 24
  {
  }

  // ---- the schedule ----

  /** Word t of the schedule. */
  function Word(t: nat): bv64 {
    W(Words(), t)
  }

  /** The words of the schedule, in groups of eight. */
  function Group(i: nat): (s: seq<bv64>)
    ensures |s| == 8
  {
    match i
    case 0 =>
      [0x6162638000000000, 0x0000000000000000, 0x0000000000000000, 0x0000000000000000,
       0x0000000000000000, 0x0000000000000000, 0x0000000000000000, 0x0000000000000000]
    case 1 =>
      [0x0000000000000000, 0x0000000000000000, 0x0000000000000000, 0x0000000000000000,
       0x0000000000000000, 0x0000000000000000, 0x0000000000000000, 0x0000000000000018]
    case 2 =>
      [0x6162638000000000, 0x00030000000000c0, 0x0a9699a24c700003, 0x00000c0060000603,
       0x549ef62639858996, 0x00c0003300003c00, 0x1497007a8a0e9dbc, 0x62e56500cc0780f0]
    case 3 =>
      [0x7760dd475a538797, 0xf1554b711c1c0003, 0xca2993a4345d9ff2, 0x5e0e66b5c783dd32,
       0xe25a625d00494b62, 0x9f44486fb1e4fbd2, 0xb31b8c2b06085f2f, 0x0e987660934142f6]
    case 4 =>
      [0xa4af2cfd09fbb924, 0xad289e2e0bd53186, 0x3c74563aa2f9673e, 0x6ccdcd14cc14b53f,
       0xc3f925b337f22bde, 0x5bcc77a75ad95b54, 0x3ec2257adca09a52, 0x28246960001fc5eb]
    case 5 =>
      [0x04e33a75ce2be88a, 0x7d5314b3c359e0e7, 0xaef7a285ff251266, 0x0b8472581deea04f,
       0xb174e26eddc7b033, 0x5d63bae58ddd88de, 0x4c044007b744ccbb, 0xe6a9aa4d74dc7d43]
    case 6 =>
      [0xebeaf1237248019c, 0x361e80b2d00f3193, 0x2e9839125df3b175, 0x3319629293ad5363,
       0x9cbc5d89ac1b89d5, 0x275e23ffeeca50b7, 0x3b80d680bf69ef58, 0x0d0696933945a125]
    case 7 =>
      [0x7533eabcb786ff00, 0xb89826cee6fbf0e5, 0x249b4fbcad623e9f, 0x4aea9df2b02d6f1e,
       0x2cc57475a55e8d8f, 0xb2574ae938d8be89, 0xc1b35a57b16d6aea, 0xcc4918b5949206bb]
    case 8 =>
      [0x5099c3add79f90ec, 0x5ea81d78e7660bf1, 0xebee6267405ac2a9, 0xb01f21926108a4ab,
       0x786433dd2fe65556, 0xc54a6eaa24a0552c, 0xb3c8f1530bdbaa9e, 0xbb8abfe56f469338]
    case _ =>
      [0xf63d4265cc1c5a78, 0xbe8355ea73129afb, 0x49e2db8ebdcfbeb5, 0x82269d4a883a3d99,
       0xfdf53df3011f362b, 0x464af5671d71c12e, 0xe449b68198ec611c, 0x92aeeed1a7bcf7d2]
  }

  ghost predicate Scheduled(i: nat) {
    forall k :: 0 <= k < 8 ==> Word(8 * i + k) == Group(i)[k]
  }

  lemma {:induction false} EightWords(i: nat)
    requires Scheduled(i)
    ensures var g := Group(i);
      && Word(8 * i) == g[0] && Word(8 * i + 1) == g[1] && Word(8 * i + 2) == g[2] && Word(8 * i + 3) == g[3]
      && Word(8 * i + 4) == g[4] && Word(8 * i + 5) == g[5] && Word(8 * i + 6) == g[6] && Word(8 * i + 7) == g[7]
  {
    hide Word, Group;
    assert Word(8 * i + 0) == Group(i)[0];
  }

  /** A word from the sixteen before it. */
  function Next(w2: bv64, w7: bv64, w15: bv64, w16: bv64): bv64 {
    Plus(Plus(Plus(LitSigma1(w2), w7), LitSigma0(w15)), w16)
  }

  /** A group follows from the two before it. */
  predicate Follows(f: seq<bv64>, g: seq<bv64>, h: seq<bv64>) {
    && |f| == |g| == |h| == 8
    && h[0] == Next(g[6], g[1], f[1], f[0]) && h[1] == Next(g[7], g[2], f[2], f[1])
    && h[2] == Next(h[0], g[3], f[3], f[2]) && h[3] == Next(h[1], g[4], f[4], f[3])
    && h[4] == Next(h[2], g[5], f[5], f[4]) && h[5] == Next(h[3], g[6], f[6], f[5])
    && h[6] == Next(h[4], g[7], f[7], f[6]) && h[7] == Next(h[5], h[0], g[0], f[7])
  }

  lemma {:induction false} WordNext(t: nat)
    requires t >= 16
    ensures Word(t) == Next(Word(t - 2), Word(t - 7), Word(t - 15), Word(t - 16))
  {
    hide Plus, LitSigma0, LitSigma1;
  }

  lemma {:induction false} GroupNext(i: nat)
    requires i >= 2 && Scheduled(i - 2) && Scheduled(i - 1) && Follows(Group(i - 2), Group(i - 1), Group(i))
    ensures Scheduled(i)
  {
    hide Word, Group, Next, Scheduled;
    EightWords(i - 2);
    EightWords(i - 1);
    var t := 8 * i;
    WordNext(t); WordNext(t + 1); WordNext(t + 2); WordNext(t + 3);
    WordNext(t + 4); WordNext(t + 5); WordNext(t + 6); WordNext(t + 7);
    EightMake(i);
  }

  lemma {:induction false} EightMake(i: nat)
    requires var g := Group(i);
      && Word(8 * i) == g[0] && Word(8 * i + 1) == g[1] && Word(8 * i + 2) == g[2] && Word(8 * i + 3) == g[3]
      && Word(8 * i + 4) == g[4] && Word(8 * i + 5) == g[5] && Word(8 * i + 6) == g[6] && Word(8 * i + 7) == g[7]
    ensures Scheduled(i)
  {
    hide Word, Group;
    forall k | 0 <= k < 8 ensures Word(8 * i + k) == Group(i)[k] {
      if k < 4 { if k < 2 { if k == 0 {} } else { if k == 2 {} } } else { if k < 6 { if k == 4 {} } else { if k == 6 {} } }
    }
  }

  lemma {:induction false} Follows2()
    ensures Follows(Group(0), Group(1), Group(2))
  {
  }

  lemma {:induction false} Follows3()
    ensures Follows(Group(1), Group(2), Group(3))
  {
  }

  lemma {:induction false} Follows4()
    ensures Follows(Group(2), Group(3), Group(4))
  {
  }

  lemma {:induction false} Follows5()
    ensures Follows(Group(3), Group(4), Group(5))
  {
  }

  lemma {:induction false} Follows6()
    ensures Follows(Group(4), Group(5), Group(6))
  {
  }

  lemma {:induction false} Follows7()
    ensures Follows(Group(5), Group(6), Group(7))
  {
  }

  lemma {:induction false} Follows8()
    ensures Follows(Group(6), Group(7), Group(8))
  {
  }

  lemma {:induction false} Follows9()
    ensures Follows(Group(7), Group(8), Group(9))
  {
  }

  lemma {:induction false} AllFollow(i: nat)
    requires 2 <= i < 10
    ensures Follows(Group(i - 2), Group(i - 1), Group(i))
  {
    hide Follows, Group;
    match i
    case 2 => Follows2();
    case 3 => Follows3();
    case 4 => Follows4();
    case 5 => Follows5();
    case 6 => Follows6();
    case 7 => Follows7();
    case 8 => Follows8();
    case 9 => Follows9();
  }

  lemma {:induction false} FirstGroups()
    ensures Scheduled(0) && Scheduled(1)
  {
  }

  lemma {:induction false} ScheduledTo(i: nat)
    requires i < 10
    ensures Scheduled(i) && (i > 0 ==> Scheduled(i - 1))
    decreases i
  {
    hide Scheduled, Follows, Group;
    if i < 2 {
      FirstGroups();
    } else {
      ScheduledTo(i - 1);
      AllFollow(i);
      GroupNext(i);
    }
  }

  // ---- the rounds ----

  /** The working variables after t rounds. */
  function After(t: nat): Vars
    requires t <= 80
  {
    Rounds(VarsOf(InitialHash()), Words(), t)
  }

  lemma {:induction false} RoundNext(t: nat)
    requires t < 80
    ensures After(t + 1) == Round(After(t), K()[t], Word(t))
  {
    hide Round, K, W, InitialHash;
  }

  lemma {:induction false} RoundsTo0()
    ensures After(0) == Vars(0x6a09e667f3bcc908, 0xbb67ae8584caa73b, 0x3c6ef372fe94f82b, 0xa54ff53a5f1d36f1, 0x510e527fade682d1, 0x9b05688c2b3e6c1f, 0x1f83d9abfb41bd6b, 0x5be0cd19137e2179)
  {
  }

  lemma {:induction false} ConstantsTo8()
    ensures K()[0] == 0x428a2f98d728ae22 && K()[1] == 0x7137449123ef65cd && K()[2] == 0xb5c0fbcfec4d3b2f && K()[3] == 0xe9b5dba58189dbbc
    ensures K()[4] == 0x3956c25bf348b538 && K()[5] == 0x59f111f1b605d019 && K()[6] == 0x923f82a4af194f9b && K()[7] == 0xab1c5ed5da6d8118
  {
  }

  lemma {:induction false} RoundsTo8()
    ensures After(8) == Vars(0x8093d195e0054fa3, 0xc4875b0c7abc076b, 0xaf573b02403e89cd, 0xb680953951604860, 0x86f67263a0f0ec0a, 0x5a6c781f54dcc00c, 0x96f60209b6dc35ba, 0x745aca4a342ed2e2)
  {
    hide After, K, Word, Scheduled;
    RoundsTo0();
    ConstantsTo8();
    ScheduledTo(0);
    EightWords(0);
    RoundNext(0);
    assert After(1) == Vars(0xf6afceb8bcfcddf5, 0x6a09e667f3bcc908, 0xbb67ae8584caa73b, 0x3c6ef372fe94f82b, 0x58cb02347ab51f91, 0x510e527fade682d1, 0x9b05688c2b3e6c1f, 0x1f83d9abfb41bd6b);
    RoundNext(1);
    assert After(2) == Vars(0x1320f8c9fb872cc0, 0xf6afceb8bcfcddf5, 0x6a09e667f3bcc908, 0xbb67ae8584caa73b, 0xc3d4ebfd48650ffa, 0x58cb02347ab51f91, 0x510e527fade682d1, 0x9b05688c2b3e6c1f);
    RoundNext(2);
    assert After(3) == Vars(0xebcffc07203d91f3, 0x1320f8c9fb872cc0, 0xf6afceb8bcfcddf5, 0x6a09e667f3bcc908, 0xdfa9b239f2697812, 0xc3d4ebfd48650ffa, 0x58cb02347ab51f91, 0x510e527fade682d1);
    RoundNext(3);
    assert After(4) == Vars(0x5a83cb3e80050e82, 0xebcffc07203d91f3, 0x1320f8c9fb872cc0, 0xf6afceb8bcfcddf5, 0x0b47b4bb1928990e, 0xdfa9b239f2697812, 0xc3d4ebfd48650ffa, 0x58cb02347ab51f91);
    RoundNext(4);
    assert After(5) == Vars(0xb680953951604860, 0x5a83cb3e80050e82, 0xebcffc07203d91f3, 0x1320f8c9fb872cc0, 0x745aca4a342ed2e2, 0x0b47b4bb1928990e, 0xdfa9b239f2697812, 0xc3d4ebfd48650ffa);
    RoundNext(5);
    assert After(6) == Vars(0xaf573b02403e89cd, 0xb680953951604860, 0x5a83cb3e80050e82, 0xebcffc07203d91f3, 0x96f60209b6dc35ba, 0x745aca4a342ed2e2, 0x0b47b4bb1928990e, 0xdfa9b239f2697812);
    RoundNext(6);
    assert After(7) == Vars(0xc4875b0c7abc076b, 0xaf573b02403e89cd, 0xb680953951604860, 0x5a83cb3e80050e82, 0x5a6c781f54dcc00c, 0x96f60209b6dc35ba, 0x745aca4a342ed2e2, 0x0b47b4bb1928990e);
    RoundNext(7);
  }

  lemma {:induction false} ConstantsTo16()
    ensures K()[8] == 0xd807aa98a3030242 && K()[9] == 0x12835b0145706fbe && K()[10] == 0x243185be4ee4b28c && K()[11] == 0x550c7dc3d5ffb4e2
    ensures K()[12] == 0x72be5d74f27b896f && K()[13] == 0x80deb1fe3b1696b1 && K()[14] == 0x9bdc06a725c71235 && K()[15] == 0xc19bf174cf692694
  {
  }

  lemma {:induction false} RoundsTo16()
    ensures After(16) == Vars(0x0ae07c86b1181c75, 0xfa967eed85a08028, 0x44249631255d2ca0, 0x5e41214388186c14, 0xa77b7c035dd4c161, 0x874bfe5f6aae9f2f, 0x860acf9effba6f61, 0xcdf3bff2883fc9d9)
  {
    hide After, K, Word, Scheduled;
    RoundsTo8();
    ConstantsTo16();
    ScheduledTo(1);
    EightWords(1);
    RoundNext(8);
    assert After(9) == Vars(0xf1eca5544cb89225, 0x8093d195e0054fa3, 0xc4875b0c7abc076b, 0xaf573b02403e89cd, 0xd0403c398fc40002, 0x86f67263a0f0ec0a, 0x5a6c781f54dcc00c, 0x96f60209b6dc35ba);
    RoundNext(9);
    assert After(10) == Vars(0x81782d4a5db48f03, 0xf1eca5544cb89225, 0x8093d195e0054fa3, 0xc4875b0c7abc076b, 0x00091f460be46c52, 0xd0403c398fc40002, 0x86f67263a0f0ec0a, 0x5a6c781f54dcc00c);
    RoundNext(10);
    assert After(11) == Vars(0x69854c4aa0f25b59, 0x81782d4a5db48f03, 0xf1eca5544cb89225, 0x8093d195e0054fa3, 0xd375471bde1ba3f4, 0x00091f460be46c52, 0xd0403c398fc40002, 0x86f67263a0f0ec0a);
    RoundNext(11);
    assert After(12) == Vars(0xdb0a9963f80c2eaa, 0x69854c4aa0f25b59, 0x81782d4a5db48f03, 0xf1eca5544cb89225, 0x475975b91a7a462c, 0xd375471bde1ba3f4, 0x00091f460be46c52, 0xd0403c398fc40002);
    RoundNext(12);
    assert After(13) == Vars(0x5e41214388186c14, 0xdb0a9963f80c2eaa, 0x69854c4aa0f25b59, 0x81782d4a5db48f03, 0xcdf3bff2883fc9d9, 0x475975b91a7a462c, 0xd375471bde1ba3f4, 0x00091f460be46c52);
    RoundNext(13);
    assert After(14) == Vars(0x44249631255d2ca0, 0x5e41214388186c14, 0xdb0a9963f80c2eaa, 0x69854c4aa0f25b59, 0x860acf9effba6f61, 0xcdf3bff2883fc9d9, 0x475975b91a7a462c, 0xd375471bde1ba3f4);
    RoundNext(14);
    assert After(15) == Vars(0xfa967eed85a08028, 0x44249631255d2ca0, 0x5e41214388186c14, 0xdb0a9963f80c2eaa, 0x874bfe5f6aae9f2f, 0x860acf9effba6f61, 0xcdf3bff2883fc9d9, 0x475975b91a7a462c);
    RoundNext(15);
  }

  lemma {:induction false} ConstantsTo24()
    ensures K()[16] == 0xe49b69c19ef14ad2 && K()[17] == 0xefbe4786384f25e3 && K()[18] == 0x0fc19dc68b8cd5b5 && K()[19] == 0x240ca1cc77ac9c65
    ensures K()[20] == 0x2de92c6f592b0275 && K()[21] == 0x4a7484aa6ea6e483 && K()[22] == 0x5cb0a9dcbd41fbd4 && K()[23] == 0x76f988da831153b5
  {
  }

  lemma {:induction false} RoundsTo24()
    ensures After(24) == Vars(0x4f6877b58fe55484, 0x3e2644567b709a78, 0xda34d6673d452dcf, 0x8dc5ae65569d3855, 0xc66005f87db55233, 0x0ac2b11da8f571c6, 0x8e30ff09ad488753, 0x4bb9e66d1145bfdc)
  {
    hide After, K, Word, Scheduled;
    RoundsTo16();
    ConstantsTo24();
    ScheduledTo(2);
    EightWords(2);
    RoundNext(16);
    assert After(17) == Vars(0xcaf81a425d800537, 0x0ae07c86b1181c75, 0xfa967eed85a08028, 0x44249631255d2ca0, 0x2deecc6b39d64d78, 0xa77b7c035dd4c161, 0x874bfe5f6aae9f2f, 0x860acf9effba6f61);
    RoundNext(17);
    assert After(18) == Vars(0x4725be249ad19e6b, 0xcaf81a425d800537, 0x0ae07c86b1181c75, 0xfa967eed85a08028, 0xf47e8353f8047455, 0x2deecc6b39d64d78, 0xa77b7c035dd4c161, 0x874bfe5f6aae9f2f);
    RoundNext(18);
    assert After(19) == Vars(0x3c4b4104168e3edb, 0x4725be249ad19e6b, 0xcaf81a425d800537, 0x0ae07c86b1181c75, 0x29695fd88d81dbd0, 0xf47e8353f8047455, 0x2deecc6b39d64d78, 0xa77b7c035dd4c161);
    RoundNext(19);
    assert After(20) == Vars(0x9a3fb4d38ab6cf06, 0x3c4b4104168e3edb, 0x4725be249ad19e6b, 0xcaf81a425d800537, 0xf14998dd5f70767e, 0x29695fd88d81dbd0, 0xf47e8353f8047455, 0x2deecc6b39d64d78);
    RoundNext(20);
    assert After(21) == Vars(0x8dc5ae65569d3855, 0x9a3fb4d38ab6cf06, 0x3c4b4104168e3edb, 0x4725be249ad19e6b, 0x4bb9e66d1145bfdc, 0xf14998dd5f70767e, 0x29695fd88d81dbd0, 0xf47e8353f8047455);
    RoundNext(21);
    assert After(22) == Vars(0xda34d6673d452dcf, 0x8dc5ae65569d3855, 0x9a3fb4d38ab6cf06, 0x3c4b4104168e3edb, 0x8e30ff09ad488753, 0x4bb9e66d1145bfdc, 0xf14998dd5f70767e, 0x29695fd88d81dbd0);
    RoundNext(22);
    assert After(23) == Vars(0x3e2644567b709a78, 0xda34d6673d452dcf, 0x8dc5ae65569d3855, 0x9a3fb4d38ab6cf06, 0x0ac2b11da8f571c6, 0x8e30ff09ad488753, 0x4bb9e66d1145bfdc, 0xf14998dd5f70767e);
    RoundNext(23);
  }

  lemma {:induction false} ConstantsTo32()
    ensures K()[24] == 0x983e5152ee66dfab && K()[25] == 0xa831c66d2db43210 && K()[26] == 0xb00327c898fb213f && K()[27] == 0xbf597fc7beef0ee4
    ensures K()[28] == 0xc6e00bf33da88fc2 && K()[29] == 0xd5a79147930aa725 && K()[30] == 0x06ca6351e003826f && K()[31] == 0x142929670a0e6e70
  {
  }

  lemma {:induction false} RoundsTo32()
    ensures After(32) == Vars(0xff4d3f1f0d46a736, 0x4c4fbbb75f1873a6, 0x74bf40f869094c63, 0xe62349090f47d30a, 0x3cd388e119e8162e, 0x73e025d91b9efea3, 0xf0aec2fe1437f085, 0x0fcdf99710f21584)
  {
    hide After, K, Word, Scheduled;
    RoundsTo24();
    ConstantsTo32();
    ScheduledTo(3);
    EightWords(3);
    RoundNext(24);
    assert After(25) == Vars(0x9aff71163fa3a940, 0x4f6877b58fe55484, 0x3e2644567b709a78, 0xda34d6673d452dcf, 0xd3ecf13769180e6f, 0xc66005f87db55233, 0x0ac2b11da8f571c6, 0x8e30ff09ad488753);
    RoundNext(25);
    assert After(26) == Vars(0x0bc5f791f8e6816b, 0x9aff71163fa3a940, 0x4f6877b58fe55484, 0x3e2644567b709a78, 0x6ddf1fd7edcce336, 0xd3ecf13769180e6f, 0xc66005f87db55233, 0x0ac2b11da8f571c6);
    RoundNext(26);
    assert After(27) == Vars(0x884c3bc27bc4f941, 0x0bc5f791f8e6816b, 0x9aff71163fa3a940, 0x4f6877b58fe55484, 0xe6e48c9a8e948365, 0x6ddf1fd7edcce336, 0xd3ecf13769180e6f, 0xc66005f87db55233);
    RoundNext(27);
    assert After(28) == Vars(0xeab4a9e5771b8d09, 0x884c3bc27bc4f941, 0x0bc5f791f8e6816b, 0x9aff71163fa3a940, 0x09068a4e255a0dac, 0xe6e48c9a8e948365, 0x6ddf1fd7edcce336, 0xd3ecf13769180e6f);
    RoundNext(28);
    assert After(29) == Vars(0xe62349090f47d30a, 0xeab4a9e5771b8d09, 0x884c3bc27bc4f941, 0x0bc5f791f8e6816b, 0x0fcdf99710f21584, 0x09068a4e255a0dac, 0xe6e48c9a8e948365, 0x6ddf1fd7edcce336);
    RoundNext(29);
    assert After(30) == Vars(0x74bf40f869094c63, 0xe62349090f47d30a, 0xeab4a9e5771b8d09, 0x884c3bc27bc4f941, 0xf0aec2fe1437f085, 0x0fcdf99710f21584, 0x09068a4e255a0dac, 0xe6e48c9a8e948365);
    RoundNext(30);
    assert After(31) == Vars(0x4c4fbbb75f1873a6, 0x74bf40f869094c63, 0xe62349090f47d30a, 0xeab4a9e5771b8d09, 0x73e025d91b9efea3, 0xf0aec2fe1437f085, 0x0fcdf99710f21584, 0x09068a4e255a0dac);
    RoundNext(31);
  }

  lemma {:induction false} ConstantsTo40()
    ensures K()[32] == 0x27b70a8546d22ffc && K()[33] == 0x2e1b21385c26c926 && K()[34] == 0x4d2c6dfc5ac42aed && K()[35] == 0x53380d139d95b3df
    ensures K()[36] == 0x650a73548baf63de && K()[37] == 0x766a0abb3c77b2a8 && K()[38] == 0x81c2c92e47edaee6 && K()[39] == 0x92722c851482353b
  {
  }

  lemma {:induction false} RoundsTo40()
    ensures After(40) == Vars(0x8e01e125b855d225, 0xb3bb8542b3376de5, 0x002bb8e4cd989567, 0x88df85b0bbe77514, 0x0c710a47ba6a567b, 0xb49596c20feba7de, 0x66adcfa249ac7bbd, 0x8fbfd0162bbf4675)
  {
    hide After, K, Word, Scheduled;
    RoundsTo32();
    ConstantsTo40();
    ScheduledTo(4);
    EightWords(4);
    RoundNext(32);
    assert After(33) == Vars(0xa0509015ca08c8d4, 0xff4d3f1f0d46a736, 0x4c4fbbb75f1873a6, 0x74bf40f869094c63, 0xe1034573654a106f, 0x3cd388e119e8162e, 0x73e025d91b9efea3, 0xf0aec2fe1437f085);
    RoundNext(33);
    assert After(34) == Vars(0x60d4e6995ed91fe6, 0xa0509015ca08c8d4, 0xff4d3f1f0d46a736, 0x4c4fbbb75f1873a6, 0xefabbd8bf47c041a, 0xe1034573654a106f, 0x3cd388e119e8162e, 0x73e025d91b9efea3);
    RoundNext(34);
    assert After(35) == Vars(0x2c59ec7743632621, 0x60d4e6995ed91fe6, 0xa0509015ca08c8d4, 0xff4d3f1f0d46a736, 0x0fbae670fa780fd3, 0xefabbd8bf47c041a, 0xe1034573654a106f, 0x3cd388e119e8162e);
    RoundNext(35);
    assert After(36) == Vars(0x1a081afc59fdbc2c, 0x2c59ec7743632621, 0x60d4e6995ed91fe6, 0xa0509015ca08c8d4, 0xf098082f502b44cd, 0x0fbae670fa780fd3, 0xefabbd8bf47c041a, 0xe1034573654a106f);
    RoundNext(36);
    assert After(37) == Vars(0x88df85b0bbe77514, 0x1a081afc59fdbc2c, 0x2c59ec7743632621, 0x60d4e6995ed91fe6, 0x8fbfd0162bbf4675, 0xf098082f502b44cd, 0x0fbae670fa780fd3, 0xefabbd8bf47c041a);
    RoundNext(37);
    assert After(38) == Vars(0x002bb8e4cd989567, 0x88df85b0bbe77514, 0x1a081afc59fdbc2c, 0x2c59ec7743632621, 0x66adcfa249ac7bbd, 0x8fbfd0162bbf4675, 0xf098082f502b44cd, 0x0fbae670fa780fd3);
    RoundNext(38);
    assert After(39) == Vars(0xb3bb8542b3376de5, 0x002bb8e4cd989567, 0x88df85b0bbe77514, 0x1a081afc59fdbc2c, 0xb49596c20feba7de, 0x66adcfa249ac7bbd, 0x8fbfd0162bbf4675, 0xf098082f502b44cd);
    RoundNext(39);
  }

  lemma {:induction false} ConstantsTo48()
    ensures K()[40] == 0xa2bfe8a14cf10364 && K()[41] == 0xa81a664bbc423001 && K()[42] == 0xc24b8b70d0f89791 && K()[43] == 0xc76c51a30654be30
    ensures K()[44] == 0xd192e819d6ef5218 && K()[45] == 0xd69906245565a910 && K()[46] == 0xf40e35855771202a && K()[47] == 0x106aa07032bbd1b8
  {
  }

  lemma {:induction false} RoundsTo48()
    ensures After(48) == Vars(0x6b69fc1bb482feac, 0xf61e672694de2d67, 0x021fbadbabab5ac6, 0xc47c9d5c7ea8a234, 0x35264334c03ac8ad, 0xc6bc35740d8daa9a, 0xe95c2a57572d64d9, 0x858d832ae0e8911c)
  {
    hide After, K, Word, Scheduled;
    RoundsTo40();
    ConstantsTo48();
    ScheduledTo(5);
    EightWords(5);
    RoundNext(40);
    assert After(41) == Vars(0xb01521dd6a6be12c, 0x8e01e125b855d225, 0xb3bb8542b3376de5, 0x002bb8e4cd989567, 0x169008b3a4bb170b, 0x0c710a47ba6a567b, 0xb49596c20feba7de, 0x66adcfa249ac7bbd);
    RoundNext(41);
    assert After(42) == Vars(0xe96f89dd48cbd851, 0xb01521dd6a6be12c, 0x8e01e125b855d225, 0xb3bb8542b3376de5, 0xf0996439e7b50cb1, 0x169008b3a4bb170b, 0x0c710a47ba6a567b, 0xb49596c20feba7de);
    RoundNext(42);
    assert After(43) == Vars(0xbc05ba8de5d3c480, 0xe96f89dd48cbd851, 0xb01521dd6a6be12c, 0x8e01e125b855d225, 0x639cb938e14dc190, 0xf0996439e7b50cb1, 0x169008b3a4bb170b, 0x0c710a47ba6a567b);
    RoundNext(43);
    assert After(44) == Vars(0x35d7e7f41defcbd5, 0xbc05ba8de5d3c480, 0xe96f89dd48cbd851, 0xb01521dd6a6be12c, 0xcc5100997f5710f2, 0x639cb938e14dc190, 0xf0996439e7b50cb1, 0x169008b3a4bb170b);
    RoundNext(44);
    assert After(45) == Vars(0xc47c9d5c7ea8a234, 0x35d7e7f41defcbd5, 0xbc05ba8de5d3c480, 0xe96f89dd48cbd851, 0x858d832ae0e8911c, 0xcc5100997f5710f2, 0x639cb938e14dc190, 0xf0996439e7b50cb1);
    RoundNext(45);
    assert After(46) == Vars(0x021fbadbabab5ac6, 0xc47c9d5c7ea8a234, 0x35d7e7f41defcbd5, 0xbc05ba8de5d3c480, 0xe95c2a57572d64d9, 0x858d832ae0e8911c, 0xcc5100997f5710f2, 0x639cb938e14dc190);
    RoundNext(46);
    assert After(47) == Vars(0xf61e672694de2d67, 0x021fbadbabab5ac6, 0xc47c9d5c7ea8a234, 0x35d7e7f41defcbd5, 0xc6bc35740d8daa9a, 0xe95c2a57572d64d9, 0x858d832ae0e8911c, 0xcc5100997f5710f2);
    RoundNext(47);
  }

  lemma {:induction false} ConstantsTo56()
    ensures K()[48] == 0x19a4c116b8d2d0c8 && K()[49] == 0x1e376c085141ab53 && K()[50] == 0x2748774cdf8eeb99 && K()[51] == 0x34b0bcb5e19b48a8
    ensures K()[52] == 0x391c0cb3c5c95a63 && K()[53] == 0x4ed8aa4ae3418acb && K()[54] == 0x5b9cca4f7763e373 && K()[55] == 0x682e6ff3d6b2b8a3
  {
  }

  lemma {:induction false} RoundsTo56()
    ensures After(56) == Vars(0x63b460e42748817e, 0xf650857b5babda4d, 0xd63f68037ddf06aa, 0x03df11b32d42e203, 0xc6b4dd2a9931c509, 0x9ccfb31a86df0f86, 0xa6781efe1aa1ce02, 0x504f94e40591cffa)
  {
    hide After, K, Word, Scheduled;
    RoundsTo48();
    ConstantsTo56();
    ScheduledTo(6);
    EightWords(6);
    RoundNext(48);
    assert After(49) == Vars(0x571f323d96b3a047, 0x6b69fc1bb482feac, 0xf61e672694de2d67, 0x021fbadbabab5ac6, 0x271580ed6c3e5650, 0x35264334c03ac8ad, 0xc6bc35740d8daa9a, 0xe95c2a57572d64d9);
    RoundNext(49);
    assert After(50) == Vars(0xca9bd862c5050918, 0x571f323d96b3a047, 0x6b69fc1bb482feac, 0xf61e672694de2d67, 0xdfe091dab182e645, 0x271580ed6c3e5650, 0x35264334c03ac8ad, 0xc6bc35740d8daa9a);
    RoundNext(50);
    assert After(51) == Vars(0x813a43dd2c502043, 0xca9bd862c5050918, 0x571f323d96b3a047, 0x6b69fc1bb482feac, 0x07a0d8ef821c5e1a, 0xdfe091dab182e645, 0x271580ed6c3e5650, 0x35264334c03ac8ad);
    RoundNext(51);
    assert After(52) == Vars(0xd43f83727325dd77, 0x813a43dd2c502043, 0xca9bd862c5050918, 0x571f323d96b3a047, 0x483f80a82eaee23e, 0x07a0d8ef821c5e1a, 0xdfe091dab182e645, 0x271580ed6c3e5650);
    RoundNext(52);
    assert After(53) == Vars(0x03df11b32d42e203, 0xd43f83727325dd77, 0x813a43dd2c502043, 0xca9bd862c5050918, 0x504f94e40591cffa, 0x483f80a82eaee23e, 0x07a0d8ef821c5e1a, 0xdfe091dab182e645);
    RoundNext(53);
    assert After(54) == Vars(0xd63f68037ddf06aa, 0x03df11b32d42e203, 0xd43f83727325dd77, 0x813a43dd2c502043, 0xa6781efe1aa1ce02, 0x504f94e40591cffa, 0x483f80a82eaee23e, 0x07a0d8ef821c5e1a);
    RoundNext(54);
    assert After(55) == Vars(0xf650857b5babda4d, 0xd63f68037ddf06aa, 0x03df11b32d42e203, 0xd43f83727325dd77, 0x9ccfb31a86df0f86, 0xa6781efe1aa1ce02, 0x504f94e40591cffa, 0x483f80a82eaee23e);
    RoundNext(55);
  }

  lemma {:induction false} ConstantsTo64()
    ensures K()[56] == 0x748f82ee5defb2fc && K()[57] == 0x78a5636f43172f60 && K()[58] == 0x84c87814a1f0ab72 && K()[59] == 0x8cc702081a6439ec
    ensures K()[60] == 0x90befffa23631e28 && K()[61] == 0xa4506cebde82bde9 && K()[62] == 0xbef9a3f7b2c67915 && K()[63] == 0xc67178f2e372532b
  {
  }

  lemma {:induction false} RoundsTo64()
    ensures After(64) == Vars(0xab44e86276478d85, 0xa81dedbb9f19e643, 0xcfcd928c5424e2b6, 0x3857dfd2fc37d3ba, 0xcd881ee59ca6bc53, 0x84058865d60a05fa, 0x09aee5bda1644de5, 0xa6af4e9c9f807e51)
  {
    hide After, K, Word, Scheduled;
    RoundsTo56();
    ConstantsTo64();
    ScheduledTo(7);
    EightWords(7);
    RoundNext(56);
    assert After(57) == Vars(0x7a52912943d52b05, 0x63b460e42748817e, 0xf650857b5babda4d, 0xd63f68037ddf06aa, 0xd2e89bbd91e00be0, 0xc6b4dd2a9931c509, 0x9ccfb31a86df0f86, 0xa6781efe1aa1ce02);
    RoundNext(57);
    assert After(58) == Vars(0x4b81c3aec976ea4b, 0x7a52912943d52b05, 0x63b460e42748817e, 0xf650857b5babda4d, 0x70505988124351ac, 0xd2e89bbd91e00be0, 0xc6b4dd2a9931c509, 0x9ccfb31a86df0f86);
    RoundNext(58);
    assert After(59) == Vars(0x581ecb3355dcd9b8, 0x4b81c3aec976ea4b, 0x7a52912943d52b05, 0x63b460e42748817e, 0x6a3c9b0f71c8bf36, 0x70505988124351ac, 0xd2e89bbd91e00be0, 0xc6b4dd2a9931c509);
    RoundNext(59);
    assert After(60) == Vars(0x2c074484ef1eac8c, 0x581ecb3355dcd9b8, 0x4b81c3aec976ea4b, 0x7a52912943d52b05, 0x4797cde4ed370692, 0x6a3c9b0f71c8bf36, 0x70505988124351ac, 0xd2e89bbd91e00be0);
    RoundNext(60);
    assert After(61) == Vars(0x3857dfd2fc37d3ba, 0x2c074484ef1eac8c, 0x581ecb3355dcd9b8, 0x4b81c3aec976ea4b, 0xa6af4e9c9f807e51, 0x4797cde4ed370692, 0x6a3c9b0f71c8bf36, 0x70505988124351ac);
    RoundNext(61);
    assert After(62) == Vars(0xcfcd928c5424e2b6, 0x3857dfd2fc37d3ba, 0x2c074484ef1eac8c, 0x581ecb3355dcd9b8, 0x09aee5bda1644de5, 0xa6af4e9c9f807e51, 0x4797cde4ed370692, 0x6a3c9b0f71c8bf36);
    RoundNext(62);
    assert After(63) == Vars(0xa81dedbb9f19e643, 0xcfcd928c5424e2b6, 0x3857dfd2fc37d3ba, 0x2c074484ef1eac8c, 0x84058865d60a05fa, 0x09aee5bda1644de5, 0xa6af4e9c9f807e51, 0x4797cde4ed370692);
    RoundNext(63);
  }

  lemma {:induction false} ConstantsTo72()
    ensures K()[64] == 0xca273eceea26619c && K()[65] == 0xd186b8c721c0c207 && K()[66] == 0xeada7dd6cde0eb1e && K()[67] == 0xf57d4f7fee6ed178
    ensures K()[68] == 0x06f067aa72176fba && K()[69] == 0x0a637dc5a2c898a6 && K()[70] == 0x113f9804bef90dae && K()[71] == 0x1b710b35131c471b
  {
  }

  lemma {:induction false} RoundsTo72()
    ensures After(72) == Vars(0xf15e9664b2803575, 0x7652c579cb60f19c, 0xfb6aaae5d0b6a447, 0x181839d609c79748, 0x947c3dfafee570ef, 0xaff62c9665ff80fa, 0xe3711cb6564d112d, 0x0ada78ba2d446140)
  {
    hide After, K, Word, Scheduled;
    RoundsTo64();
    ConstantsTo72();
    ScheduledTo(8);
    EightWords(8);
    RoundNext(64);
    assert After(65) == Vars(0x5a806d7e9821a501, 0xab44e86276478d85, 0xa81dedbb9f19e643, 0xcfcd928c5424e2b6, 0xaa84b086688a5c45, 0xcd881ee59ca6bc53, 0x84058865d60a05fa, 0x09aee5bda1644de5);
    RoundNext(65);
    assert After(66) == Vars(0xeeb9c21bb0102598, 0x5a806d7e9821a501, 0xab44e86276478d85, 0xa81dedbb9f19e643, 0x3b5fed0d6a1f96e1, 0xaa84b086688a5c45, 0xcd881ee59ca6bc53, 0x84058865d60a05fa);
    RoundNext(66);
    assert After(67) == Vars(0x46c4210ab2cc155d, 0xeeb9c21bb0102598, 0x5a806d7e9821a501, 0xab44e86276478d85, 0x29fab5a7bff53366, 0x3b5fed0d6a1f96e1, 0xaa84b086688a5c45, 0xcd881ee59ca6bc53);
    RoundNext(67);
    assert After(68) == Vars(0x54ba35cf56a0340e, 0x46c4210ab2cc155d, 0xeeb9c21bb0102598, 0x5a806d7e9821a501, 0x1c66f46d95690bcf, 0x29fab5a7bff53366, 0x3b5fed0d6a1f96e1, 0xaa84b086688a5c45);
    RoundNext(68);
    assert After(69) == Vars(0x181839d609c79748, 0x54ba35cf56a0340e, 0x46c4210ab2cc155d, 0xeeb9c21bb0102598, 0x0ada78ba2d446140, 0x1c66f46d95690bcf, 0x29fab5a7bff53366, 0x3b5fed0d6a1f96e1);
    RoundNext(69);
    assert After(70) == Vars(0xfb6aaae5d0b6a447, 0x181839d609c79748, 0x54ba35cf56a0340e, 0x46c4210ab2cc155d, 0xe3711cb6564d112d, 0x0ada78ba2d446140, 0x1c66f46d95690bcf, 0x29fab5a7bff53366);
    RoundNext(70);
    assert After(71) == Vars(0x7652c579cb60f19c, 0xfb6aaae5d0b6a447, 0x181839d609c79748, 0x54ba35cf56a0340e, 0xaff62c9665ff80fa, 0xe3711cb6564d112d, 0x0ada78ba2d446140, 0x1c66f46d95690bcf);
    RoundNext(71);
  }

  lemma {:induction false} ConstantsTo80()
    ensures K()[72] == 0x28db77f523047d84 && K()[73] == 0x32caab7b40c72493 && K()[74] == 0x3c9ebe0a15c9bebc && K()[75] == 0x431d67c49c100d4c
    ensures K()[76] == 0x4cc5d4becb3e42b6 && K()[77] == 0x597f299cfc657e2a && K()[78] == 0x5fcb6fab3ad6faec && K()[79] == 0x6c44198c4a475817
  {
  }

  lemma {:induction false} RoundsTo80()
    ensures After(80) == Vars(0x73a54f399fa4b1b2, 0x10d9c4c4295599f6, 0xd67806db8b148677, 0x654ef9abec389ca9, 0xd08446aa79693ed7, 0x9bb4d39778c07f9e, 0x25c96a7768fb2aa3, 0xceb9fc3691ce8326)
  {
    hide After, K, Word, Scheduled;
    RoundsTo72();
    ConstantsTo80();
    ScheduledTo(9);
    EightWords(9);
    RoundNext(72);
    assert After(73) == Vars(0x358406d165aee9ab, 0xf15e9664b2803575, 0x7652c579cb60f19c, 0xfb6aaae5d0b6a447, 0x8c7b5fd91a794ca0, 0x947c3dfafee570ef, 0xaff62c9665ff80fa, 0xe3711cb6564d112d);
    RoundNext(73);
    assert After(74) == Vars(0x20878dcd29cdfaf5, 0x358406d165aee9ab, 0xf15e9664b2803575, 0x7652c579cb60f19c, 0x054d3536539948d0, 0x8c7b5fd91a794ca0, 0x947c3dfafee570ef, 0xaff62c9665ff80fa);
    RoundNext(74);
    assert After(75) == Vars(0x33d48dabb5521de2, 0x20878dcd29cdfaf5, 0x358406d165aee9ab, 0xf15e9664b2803575, 0x2ba18245b50de4cf, 0x054d3536539948d0, 0x8c7b5fd91a794ca0, 0x947c3dfafee570ef);
    RoundNext(75);
    assert After(76) == Vars(0xc8960e6be864b916, 0x33d48dabb5521de2, 0x20878dcd29cdfaf5, 0x358406d165aee9ab, 0x995019a6ff3ba3de, 0x2ba18245b50de4cf, 0x054d3536539948d0, 0x8c7b5fd91a794ca0);
    RoundNext(76);
    assert After(77) == Vars(0x654ef9abec389ca9, 0xc8960e6be864b916, 0x33d48dabb5521de2, 0x20878dcd29cdfaf5, 0xceb9fc3691ce8326, 0x995019a6ff3ba3de, 0x2ba18245b50de4cf, 0x054d3536539948d0);
    RoundNext(77);
    assert After(78) == Vars(0xd67806db8b148677, 0x654ef9abec389ca9, 0xc8960e6be864b916, 0x33d48dabb5521de2, 0x25c96a7768fb2aa3, 0xceb9fc3691ce8326, 0x995019a6ff3ba3de, 0x2ba18245b50de4cf);
    RoundNext(78);
    assert After(79) == Vars(0x10d9c4c4295599f6, 0xd67806db8b148677, 0x654ef9abec389ca9, 0xc8960e6be864b916, 0x9bb4d39778c07f9e, 0x25c96a7768fb2aa3, 0xceb9fc3691ce8326, 0x995019a6ff3ba3de);
    RoundNext(79);
  }

  // ---- the digest ----

  lemma {:induction false} Compressed()
    ensures Step(InitialHash(), Block()) ==
      [0xddaf35a193617aba, 0xcc417349ae204131, 0x12e6fa4e89a97ea2, 0x0a9eeee64b55d39a,
       0x2192992a274fc1a8, 0x36ba3c23a3feebbd, 0x454d4423643ce80e, 0x2a9ac94fa54ca49f]
  {
    hide Rounds, BlockWords, K, InitialHash, AddVars, Block, Words;
    BlockIsWords();
    RoundsTo80();
    Sums();
  }

  lemma {:induction false} Sums()
    ensures AddVars(InitialHash(), Vars(0x73a54f399fa4b1b2, 0x10d9c4c4295599f6, 0xd67806db8b148677, 0x654ef9abec389ca9, 0xd08446aa79693ed7, 0x9bb4d39778c07f9e, 0x25c96a7768fb2aa3, 0xceb9fc3691ce8326))
         == [0xddaf35a193617aba, 0xcc417349ae204131, 0x12e6fa4e89a97ea2, 0x0a9eeee64b55d39a, 0x2192992a274fc1a8, 0x36ba3c23a3feebbd, 0x454d4423643ce80e, 0x2a9ac94fa54ca49f]
  {
  }

  lemma {:induction false} LengthBytes()
    ensures LengthTail(3) == BlockHash.Zeros(15) + [24]
  {
    hide Store64, ToWord;
    StoreZero();
  }

  lemma {:induction false} PaddedBlock()
    ensures [0x61, 0x62, 0x63] + [0x80] + BlockHash.Zeros(108) + (BlockHash.Zeros(15) + [24]) == Block()
  {
  }

  /** The digest of "abc" is the published one. */
  lemma {:induction false} DigestOfAbc()
    ensures |Digest([0x61, 0x62, 0x63])| == 8 && Output(Digest([0x61, 0x62, 0x63])) ==
    [0xdd, 0xaf, 0x35, 0xa1, 0x93, 0x61, 0x7a, 0xba, 0xcc, 0x41, 0x73, 0x49, 0xae, 0x20, 0x41, 0x31,
     0x12, 0xe6, 0xfa, 0x4e, 0x89, 0xa9, 0x7e, 0xa2, 0x0a, 0x9e, 0xee, 0xe6, 0x4b, 0x55, 0xd3, 0x9a]
    + [0x21, 0x92, 0x99, 0x2a, 0x27, 0x4f, 0xc1, 0xa8, 0x36, 0xba, 0x3c, 0x23, 0xa3, 0xfe, 0xeb, 0xbd,
     0x45, 0x4d, 0x44, 0x23, 0x64, 0x3c, 0xe8, 0x0e, 0x2a, 0x9a, 0xc9, 0x4f, 0xa5, 0x4c, 0xa4, 0x9f]
  {
    hide Step, LengthTail, InitialHash, Fold, K, Store64, Block, BlockHash.Zeros, Output, Digest;
    var message: Octets := [0x61, 0x62, 0x63];
    Pending(message);
    DigestIs(message, message, InitialHash());
    LengthBytes();
    PaddedBlock();
    assert |message + [0x80]| == 4;
    Compressed();
    OutputBytes(Digest(message));
  }

  lemma {:induction false} OutputBytes(h: seq<bv64>)
    requires h == [0xddaf35a193617aba, 0xcc417349ae204131, 0x12e6fa4e89a97ea2, 0x0a9eeee64b55d39a, 0x2192992a274fc1a8, 0x36ba3c23a3feebbd, 0x454d4423643ce80e, 0x2a9ac94fa54ca49f]
    ensures Output(h) ==
    [0xdd, 0xaf, 0x35, 0xa1, 0x93, 0x61, 0x7a, 0xba, 0xcc, 0x41, 0x73, 0x49, 0xae, 0x20, 0x41, 0x31,
     0x12, 0xe6, 0xfa, 0x4e, 0x89, 0xa9, 0x7e, 0xa2, 0x0a, 0x9e, 0xee, 0xe6, 0x4b, 0x55, 0xd3, 0x9a]
    + [0x21, 0x92, 0x99, 0x2a, 0x27, 0x4f, 0xc1, 0xa8, 0x36, 0xba, 0x3c, 0x23, 0xa3, 0xfe, 0xeb, 0xbd,
     0x45, 0x4d, 0x44, 0x23, 0x64, 0x3c, 0xe8, 0x0e, 0x2a, 0x9a, 0xc9, 0x4f, 0xa5, 0x4c, 0xa4, 0x9f]
  {
    hide Store64;
    Bytes();
  }

  lemma {:induction false} Pending(message: Octets)
    requires |message| == 3
    ensures Stream(InitialHash(), message) == Absorb(Step, BLOCK, Stream(InitialHash(), []), message)
  {
    hide Step, InitialHash;
    assert [] + message == message;
  }

  lemma {:induction false} StoreZero()
    ensures Store64(0) == BlockHash.Zeros(8) && Store64(24) == BlockHash.Zeros(7) + [24] && ToWord(0) == 0 && ToWord(24) == 24
  {
  }

  lemma {:induction false} Bytes()
    ensures Store64(0xddaf35a193617aba) == [0xdd, 0xaf, 0x35, 0xa1, 0x93, 0x61, 0x7a, 0xba]
    ensures Store64(0xcc417349ae204131) == [0xcc, 0x41, 0x73, 0x49, 0xae, 0x20, 0x41, 0x31]
    ensures Store64(0x12e6fa4e89a97ea2) == [0x12, 0xe6, 0xfa, 0x4e, 0x89, 0xa9, 0x7e, 0xa2]
    ensures Store64(0x0a9eeee64b55d39a) == [0x0a, 0x9e, 0xee, 0xe6, 0x4b, 0x55, 0xd3, 0x9a]
    ensures Store64(0x2192992a274fc1a8) == [0x21, 0x92, 0x99, 0x2a, 0x27, 0x4f, 0xc1, 0xa8]
    ensures Store64(0x36ba3c23a3feebbd) == [0x36, 0xba, 0x3c, 0x23, 0xa3, 0xfe, 0xeb, 0xbd]
    ensures Store64(0x454d4423643ce80e) == [0x45, 0x4d, 0x44, 0x23, 0x64, 0x3c, 0xe8, 0x0e]
    ensures Store64(0x2a9ac94fa54ca49f) == [0x2a, 0x9a, 0xc9, 0x4f, 0xa5, 0x4c, 0xa4, 0x9f]
  {
  }
}
