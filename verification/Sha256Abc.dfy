/** The digest of the message "abc", step by step: it is the published one, which the
    rotations, the round and the schedule of module Sha256 all have a part in. */
module Sha256Abc {
  import opened Sha256

  const ABC: seq<Octet> := [0x61, 0x62, 0x63]

  /** The message schedule of its one block. */
  function WordAt(t: nat): Word
    requires t < 64
  {
    if t < 8 then
      [0x61626380, 0x00000000, 0x00000000, 0x00000000, 0x00000000, 0x00000000, 0x00000000, 0x00000000][t]
    else if t < 16 then
      [0x00000000, 0x00000000, 0x00000000, 0x00000000, 0x00000000, 0x00000000, 0x00000000, 0x00000018][t - 8]
    else if t < 24 then
      [0x61626380, 0x000f0000, 0x7da86405, 0x600003c6, 0x3e9d7b78, 0x0183fc00, 0x12dcbfdb, 0xe2e2c38e][t - 16]
    else if t < 32 then
      [0xc8215c1a, 0xb73679a2, 0xe5bc3909, 0x32663c5b, 0x9d209d67, 0xec8726cb, 0x702138a4, 0xd3b7973b][t - 24]
    else if t < 40 then
      [0x93f5997f, 0x3b68ba73, 0xaff4ffc1, 0xf10a5c62, 0x0a8b3996, 0x72af830a, 0x9409e33e, 0x24641522][t - 32]
    else if t < 48 then
      [0x9f47bf94, 0xf0a64f5a, 0x3e246a79, 0x27333ba3, 0x0c4763f2, 0x840abf27, 0x7a290d5d, 0x065c43da][t - 40]
    else if t < 56 then
      [0xfb3e89cb, 0xcc7617db, 0xb9e66c34, 0xa9993667, 0x84badedd, 0xc21462bc, 0x1487472c, 0xb20f7a99][t - 48]
    else
      [0xef57b9cd, 0xebe6b238, 0x9fe3095e, 0x78bc8d4b, 0xa43fcf15, 0x668b2ff8, 0xeeaba2cc, 0x12b1edeb][t - 56]
  }

  predicate Key(t: nat, k: Word)
    requires t < 64
  {
    K[t] == k
  }

  predicate At(t: nat, w: Word)
    requires t < 64
  {
    WordAt(t) == w
  }

  lemma TableRow0()
    ensures Key(0, 0x428a2f98) && At(0, 0x61626380)
    ensures Key(1, 0x71374491) && At(1, 0x00000000)
    ensures Key(2, 0xb5c0fbcf) && At(2, 0x00000000)
    ensures Key(3, 0xe9b5dba5) && At(3, 0x00000000)
    ensures Key(4, 0x3956c25b) && At(4, 0x00000000)
    ensures Key(5, 0x59f111f1) && At(5, 0x00000000)
    ensures Key(6, 0x923f82a4) && At(6, 0x00000000)
    ensures Key(7, 0xab1c5ed5) && At(7, 0x00000000)
  {
  }

  lemma TableRow1()
    ensures Key(8, 0xd807aa98) && At(8, 0x00000000)
    ensures Key(9, 0x12835b01) && At(9, 0x00000000)
    ensures Key(10, 0x243185be) && At(10, 0x00000000)
    ensures Key(11, 0x550c7dc3) && At(11, 0x00000000)
    ensures Key(12, 0x72be5d74) && At(12, 0x00000000)
    ensures Key(13, 0x80deb1fe) && At(13, 0x00000000)
    ensures Key(14, 0x9bdc06a7) && At(14, 0x00000000)
    ensures Key(15, 0xc19bf174) && At(15, 0x00000018)
  {
  }

  lemma TableRow2()
    ensures Key(16, 0xe49b69c1) && At(16, 0x61626380)
    ensures Key(17, 0xefbe4786) && At(17, 0x000f0000)
    ensures Key(18, 0x0fc19dc6) && At(18, 0x7da86405)
    ensures Key(19, 0x240ca1cc) && At(19, 0x600003c6)
    ensures Key(20, 0x2de92c6f) && At(20, 0x3e9d7b78)
    ensures Key(21, 0x4a7484aa) && At(21, 0x0183fc00)
    ensures Key(22, 0x5cb0a9dc) && At(22, 0x12dcbfdb)
    ensures Key(23, 0x76f988da) && At(23, 0xe2e2c38e)
  {
  }

  lemma TableRow3()
    ensures Key(24, 0x983e5152) && At(24, 0xc8215c1a)
    ensures Key(25, 0xa831c66d) && At(25, 0xb73679a2)
    ensures Key(26, 0xb00327c8) && At(26, 0xe5bc3909)
    ensures Key(27, 0xbf597fc7) && At(27, 0x32663c5b)
    ensures Key(28, 0xc6e00bf3) && At(28, 0x9d209d67)
    ensures Key(29, 0xd5a79147) && At(29, 0xec8726cb)
    ensures Key(30, 0x06ca6351) && At(30, 0x702138a4)
    ensures Key(31, 0x14292967) && At(31, 0xd3b7973b)
  {
  }

  lemma TableRow4()
    ensures Key(32, 0x27b70a85) && At(32, 0x93f5997f)
    ensures Key(33, 0x2e1b2138) && At(33, 0x3b68ba73)
    ensures Key(34, 0x4d2c6dfc) && At(34, 0xaff4ffc1)
    ensures Key(35, 0x53380d13) && At(35, 0xf10a5c62)
    ensures Key(36, 0x650a7354) && At(36, 0x0a8b3996)
    ensures Key(37, 0x766a0abb) && At(37, 0x72af830a)
    ensures Key(38, 0x81c2c92e) && At(38, 0x9409e33e)
    ensures Key(39, 0x92722c85) && At(39, 0x24641522)
  {
  }

  lemma TableRow5()
    ensures Key(40, 0xa2bfe8a1) && At(40, 0x9f47bf94)
    ensures Key(41, 0xa81a664b) && At(41, 0xf0a64f5a)
    ensures Key(42, 0xc24b8b70) && At(42, 0x3e246a79)
    ensures Key(43, 0xc76c51a3) && At(43, 0x27333ba3)
    ensures Key(44, 0xd192e819) && At(44, 0x0c4763f2)
    ensures Key(45, 0xd6990624) && At(45, 0x840abf27)
    ensures Key(46, 0xf40e3585) && At(46, 0x7a290d5d)
    ensures Key(47, 0x106aa070) && At(47, 0x065c43da)
  {
  }

  lemma TableRow6()
    ensures Key(48, 0x19a4c116) && At(48, 0xfb3e89cb)
    ensures Key(49, 0x1e376c08) && At(49, 0xcc7617db)
    ensures Key(50, 0x2748774c) && At(50, 0xb9e66c34)
    ensures Key(51, 0x34b0bcb5) && At(51, 0xa9993667)
    ensures Key(52, 0x391c0cb3) && At(52, 0x84badedd)
    ensures Key(53, 0x4ed8aa4a) && At(53, 0xc21462bc)
    ensures Key(54, 0x5b9cca4f) && At(54, 0x1487472c)
    ensures Key(55, 0x682e6ff3) && At(55, 0xb20f7a99)
  {
  }

  lemma TableRow7()
    ensures Key(56, 0x748f82ee) && At(56, 0xef57b9cd)
    ensures Key(57, 0x78a5636f) && At(57, 0xebe6b238)
    ensures Key(58, 0x84c87814) && At(58, 0x9fe3095e)
    ensures Key(59, 0x8cc70208) && At(59, 0x78bc8d4b)
    ensures Key(60, 0x90befffa) && At(60, 0xa43fcf15)
    ensures Key(61, 0xa4506ceb) && At(61, 0x668b2ff8)
    ensures Key(62, 0xbef9a3f7) && At(62, 0xeeaba2cc)
    ensures Key(63, 0xc67178f2) && At(63, 0x12b1edeb)
  {
  }

  predicate WordsUpTo(block: seq<Octet>, n: nat)
    requires |block| == 64 && n <= 64
  {
    forall t :: 0 <= t < n ==> Schedule(block, t) == WordAt(t)
  }

  lemma NextWord(block: seq<Octet>, t: nat, w16: Word, w15: Word, w7: Word, w2: Word, w: Word)
    requires |block| == 64 && 16 <= t < 64 && WordsUpTo(block, t)
    requires At(t - 16, w16) && At(t - 15, w15) && At(t - 7, w7) && At(t - 2, w2) && At(t, w)
    requires w == Add(Add(Add(w16, SmallSigma0(w15)), w7), SmallSigma1(w2))
    ensures WordsUpTo(block, t + 1)
  {
    hide SmallSigma0, SmallSigma1, Add, WordAt;
  }

  lemma WordsRow2(block: seq<Octet>)
    requires |block| == 64 && WordsUpTo(block, 16)
    ensures WordsUpTo(block, 24)
  {
    hide WordsUpTo, At, Key;
    TableRow0();
    TableRow1();
    TableRow2();
    NextWord(block, 16, 0x61626380, 0x00000000, 0x00000000, 0x00000000, 0x61626380);
    NextWord(block, 17, 0x00000000, 0x00000000, 0x00000000, 0x00000018, 0x000f0000);
    NextWord(block, 18, 0x00000000, 0x00000000, 0x00000000, 0x61626380, 0x7da86405);
    NextWord(block, 19, 0x00000000, 0x00000000, 0x00000000, 0x000f0000, 0x600003c6);
    NextWord(block, 20, 0x00000000, 0x00000000, 0x00000000, 0x7da86405, 0x3e9d7b78);
    NextWord(block, 21, 0x00000000, 0x00000000, 0x00000000, 0x600003c6, 0x0183fc00);
    NextWord(block, 22, 0x00000000, 0x00000000, 0x00000018, 0x3e9d7b78, 0x12dcbfdb);
    NextWord(block, 23, 0x00000000, 0x00000000, 0x61626380, 0x0183fc00, 0xe2e2c38e);
  }

  lemma WordsRow3(block: seq<Octet>)
    requires |block| == 64 && WordsUpTo(block, 24)
    ensures WordsUpTo(block, 32)
  {
    hide WordsUpTo, At, Key;
    TableRow1();
    TableRow2();
    TableRow3();
    NextWord(block, 24, 0x00000000, 0x00000000, 0x000f0000, 0x12dcbfdb, 0xc8215c1a);
    NextWord(block, 25, 0x00000000, 0x00000000, 0x7da86405, 0xe2e2c38e, 0xb73679a2);
    NextWord(block, 26, 0x00000000, 0x00000000, 0x600003c6, 0xc8215c1a, 0xe5bc3909);
    NextWord(block, 27, 0x00000000, 0x00000000, 0x3e9d7b78, 0xb73679a2, 0x32663c5b);
    NextWord(block, 28, 0x00000000, 0x00000000, 0x0183fc00, 0xe5bc3909, 0x9d209d67);
    NextWord(block, 29, 0x00000000, 0x00000000, 0x12dcbfdb, 0x32663c5b, 0xec8726cb);
    NextWord(block, 30, 0x00000000, 0x00000018, 0xe2e2c38e, 0x9d209d67, 0x702138a4);
    NextWord(block, 31, 0x00000018, 0x61626380, 0xc8215c1a, 0xec8726cb, 0xd3b7973b);
  }

  lemma WordsRow4(block: seq<Octet>)
    requires |block| == 64 && WordsUpTo(block, 32)
    ensures WordsUpTo(block, 40)
  {
    hide WordsUpTo, At, Key;
    TableRow2();
    TableRow3();
    TableRow4();
    NextWord(block, 32, 0x61626380, 0x000f0000, 0xb73679a2, 0x702138a4, 0x93f5997f);
    NextWord(block, 33, 0x000f0000, 0x7da86405, 0xe5bc3909, 0xd3b7973b, 0x3b68ba73);
    NextWord(block, 34, 0x7da86405, 0x600003c6, 0x32663c5b, 0x93f5997f, 0xaff4ffc1);
    NextWord(block, 35, 0x600003c6, 0x3e9d7b78, 0x9d209d67, 0x3b68ba73, 0xf10a5c62);
    NextWord(block, 36, 0x3e9d7b78, 0x0183fc00, 0xec8726cb, 0xaff4ffc1, 0x0a8b3996);
    NextWord(block, 37, 0x0183fc00, 0x12dcbfdb, 0x702138a4, 0xf10a5c62, 0x72af830a);
    NextWord(block, 38, 0x12dcbfdb, 0xe2e2c38e, 0xd3b7973b, 0x0a8b3996, 0x9409e33e);
    NextWord(block, 39, 0xe2e2c38e, 0xc8215c1a, 0x93f5997f, 0x72af830a, 0x24641522);
  }

  lemma WordsRow5(block: seq<Octet>)
    requires |block| == 64 && WordsUpTo(block, 40)
    ensures WordsUpTo(block, 48)
  {
    hide WordsUpTo, At, Key;
    TableRow3();
    TableRow4();
    TableRow5();
    NextWord(block, 40, 0xc8215c1a, 0xb73679a2, 0x3b68ba73, 0x9409e33e, 0x9f47bf94);
    NextWord(block, 41, 0xb73679a2, 0xe5bc3909, 0xaff4ffc1, 0x24641522, 0xf0a64f5a);
    NextWord(block, 42, 0xe5bc3909, 0x32663c5b, 0xf10a5c62, 0x9f47bf94, 0x3e246a79);
    NextWord(block, 43, 0x32663c5b, 0x9d209d67, 0x0a8b3996, 0xf0a64f5a, 0x27333ba3);
    NextWord(block, 44, 0x9d209d67, 0xec8726cb, 0x72af830a, 0x3e246a79, 0x0c4763f2);
    NextWord(block, 45, 0xec8726cb, 0x702138a4, 0x9409e33e, 0x27333ba3, 0x840abf27);
    NextWord(block, 46, 0x702138a4, 0xd3b7973b, 0x24641522, 0x0c4763f2, 0x7a290d5d);
    NextWord(block, 47, 0xd3b7973b, 0x93f5997f, 0x9f47bf94, 0x840abf27, 0x065c43da);
  }

  lemma WordsRow6(block: seq<Octet>)
    requires |block| == 64 && WordsUpTo(block, 48)
    ensures WordsUpTo(block, 56)
  {
    hide WordsUpTo, At, Key;
    TableRow4();
    TableRow5();
    TableRow6();
    NextWord(block, 48, 0x93f5997f, 0x3b68ba73, 0xf0a64f5a, 0x7a290d5d, 0xfb3e89cb);
    NextWord(block, 49, 0x3b68ba73, 0xaff4ffc1, 0x3e246a79, 0x065c43da, 0xcc7617db);
    NextWord(block, 50, 0xaff4ffc1, 0xf10a5c62, 0x27333ba3, 0xfb3e89cb, 0xb9e66c34);
    NextWord(block, 51, 0xf10a5c62, 0x0a8b3996, 0x0c4763f2, 0xcc7617db, 0xa9993667);
    NextWord(block, 52, 0x0a8b3996, 0x72af830a, 0x840abf27, 0xb9e66c34, 0x84badedd);
    NextWord(block, 53, 0x72af830a, 0x9409e33e, 0x7a290d5d, 0xa9993667, 0xc21462bc);
    NextWord(block, 54, 0x9409e33e, 0x24641522, 0x065c43da, 0x84badedd, 0x1487472c);
    NextWord(block, 55, 0x24641522, 0x9f47bf94, 0xfb3e89cb, 0xc21462bc, 0xb20f7a99);
  }

  lemma WordsRow7(block: seq<Octet>)
    requires |block| == 64 && WordsUpTo(block, 56)
    ensures WordsUpTo(block, 64)
  {
    hide WordsUpTo, At, Key;
    TableRow5();
    TableRow6();
    TableRow7();
    NextWord(block, 56, 0x9f47bf94, 0xf0a64f5a, 0xcc7617db, 0x1487472c, 0xef57b9cd);
    NextWord(block, 57, 0xf0a64f5a, 0x3e246a79, 0xb9e66c34, 0xb20f7a99, 0xebe6b238);
    NextWord(block, 58, 0x3e246a79, 0x27333ba3, 0xa9993667, 0xef57b9cd, 0x9fe3095e);
    NextWord(block, 59, 0x27333ba3, 0x0c4763f2, 0x84badedd, 0xebe6b238, 0x78bc8d4b);
    NextWord(block, 60, 0x0c4763f2, 0x840abf27, 0xc21462bc, 0x9fe3095e, 0xa43fcf15);
    NextWord(block, 61, 0x840abf27, 0x7a290d5d, 0x1487472c, 0x78bc8d4b, 0x668b2ff8);
    NextWord(block, 62, 0x7a290d5d, 0x065c43da, 0xb20f7a99, 0xa43fcf15, 0xeeaba2cc);
    NextWord(block, 63, 0x065c43da, 0xfb3e89cb, 0xef57b9cd, 0x668b2ff8, 0x12b1edeb);
  }

  /** One round takes the registers `a` to `h` to `a'`, `a` to `c`, `e'`, `e` to `g`. */
  predicate Turn(a: Word, b: Word, c: Word, d: Word, e: Word, f: Word, g: Word, h: Word, k: Word, w: Word,
                 a': Word, e': Word)
  {
    Round(Hash(a, b, c, d, e, f, g, h), k, w) == Hash(a', a, b, c, e', e, f, g)
  }

  lemma TurnsRow0()
    ensures Turn(0x6a09e667, 0xbb67ae85, 0x3c6ef372, 0xa54ff53a, 0x510e527f, 0x9b05688c, 0x1f83d9ab, 0x5be0cd19,
                 0x428a2f98, 0x61626380, 0x5d6aebcd, 0xfa2a4622)
    ensures Turn(0x5d6aebcd, 0x6a09e667, 0xbb67ae85, 0x3c6ef372, 0xfa2a4622, 0x510e527f, 0x9b05688c, 0x1f83d9ab,
                 0x71374491, 0x00000000, 0x5a6ad9ad, 0x78ce7989)
    ensures Turn(0x5a6ad9ad, 0x5d6aebcd, 0x6a09e667, 0xbb67ae85, 0x78ce7989, 0xfa2a4622, 0x510e527f, 0x9b05688c,
                 0xb5c0fbcf, 0x00000000, 0xc8c347a7, 0xf92939eb)
    ensures Turn(0xc8c347a7, 0x5a6ad9ad, 0x5d6aebcd, 0x6a09e667, 0xf92939eb, 0x78ce7989, 0xfa2a4622, 0x510e527f,
                 0xe9b5dba5, 0x00000000, 0xd550f666, 0x24e00850)
    ensures Turn(0xd550f666, 0xc8c347a7, 0x5a6ad9ad, 0x5d6aebcd, 0x24e00850, 0xf92939eb, 0x78ce7989, 0xfa2a4622,
                 0x3956c25b, 0x00000000, 0x04409a6a, 0x43ada245)
    ensures Turn(0x04409a6a, 0xd550f666, 0xc8c347a7, 0x5a6ad9ad, 0x43ada245, 0x24e00850, 0xf92939eb, 0x78ce7989,
                 0x59f111f1, 0x00000000, 0x2b4209f5, 0x714260ad)
    ensures Turn(0x2b4209f5, 0x04409a6a, 0xd550f666, 0xc8c347a7, 0x714260ad, 0x43ada245, 0x24e00850, 0xf92939eb,
                 0x923f82a4, 0x00000000, 0xe5030380, 0x9b27a401)
    ensures Turn(0xe5030380, 0x2b4209f5, 0x04409a6a, 0xd550f666, 0x9b27a401, 0x714260ad, 0x43ada245, 0x24e00850,
                 0xab1c5ed5, 0x00000000, 0x85a07b5f, 0x0c657a79)
  {
  }

  lemma TurnsRow1()
    ensures Turn(0x85a07b5f, 0xe5030380, 0x2b4209f5, 0x04409a6a, 0x0c657a79, 0x9b27a401, 0x714260ad, 0x43ada245,
                 0xd807aa98, 0x00000000, 0x8e04ecb9, 0x32ca2d8c)
    ensures Turn(0x8e04ecb9, 0x85a07b5f, 0xe5030380, 0x2b4209f5, 0x32ca2d8c, 0x0c657a79, 0x9b27a401, 0x714260ad,
                 0x12835b01, 0x00000000, 0x8c87346b, 0x1cc92596)
    ensures Turn(0x8c87346b, 0x8e04ecb9, 0x85a07b5f, 0xe5030380, 0x1cc92596, 0x32ca2d8c, 0x0c657a79, 0x9b27a401,
                 0x243185be, 0x00000000, 0x4798a3f4, 0x436b23e8)
    ensures Turn(0x4798a3f4, 0x8c87346b, 0x8e04ecb9, 0x85a07b5f, 0x436b23e8, 0x1cc92596, 0x32ca2d8c, 0x0c657a79,
                 0x550c7dc3, 0x00000000, 0xf71fc5a9, 0x816fd6e9)
    ensures Turn(0xf71fc5a9, 0x4798a3f4, 0x8c87346b, 0x8e04ecb9, 0x816fd6e9, 0x436b23e8, 0x1cc92596, 0x32ca2d8c,
                 0x72be5d74, 0x00000000, 0x87912990, 0x1e578218)
    ensures Turn(0x87912990, 0xf71fc5a9, 0x4798a3f4, 0x8c87346b, 0x1e578218, 0x816fd6e9, 0x436b23e8, 0x1cc92596,
                 0x80deb1fe, 0x00000000, 0xd932eb16, 0x745a48de)
    ensures Turn(0xd932eb16, 0x87912990, 0xf71fc5a9, 0x4798a3f4, 0x745a48de, 0x1e578218, 0x816fd6e9, 0x436b23e8,
                 0x9bdc06a7, 0x00000000, 0xc0645fde, 0x0b92f20c)
    ensures Turn(0xc0645fde, 0xd932eb16, 0x87912990, 0xf71fc5a9, 0x0b92f20c, 0x745a48de, 0x1e578218, 0x816fd6e9,
                 0xc19bf174, 0x00000018, 0xb0fa238e, 0x07590dcd)
  {
  }

  lemma TurnsRow2()
    ensures Turn(0xb0fa238e, 0xc0645fde, 0xd932eb16, 0x87912990, 0x07590dcd, 0x0b92f20c, 0x745a48de, 0x1e578218,
                 0xe49b69c1, 0x61626380, 0x21da9a9b, 0x8034229c)
    ensures Turn(0x21da9a9b, 0xb0fa238e, 0xc0645fde, 0xd932eb16, 0x8034229c, 0x07590dcd, 0x0b92f20c, 0x745a48de,
                 0xefbe4786, 0x000f0000, 0xc2fbd9d1, 0x846ee454)
    ensures Turn(0xc2fbd9d1, 0x21da9a9b, 0xb0fa238e, 0xc0645fde, 0x846ee454, 0x8034229c, 0x07590dcd, 0x0b92f20c,
                 0x0fc19dc6, 0x7da86405, 0xfe777bbf, 0xcc899961)
    ensures Turn(0xfe777bbf, 0xc2fbd9d1, 0x21da9a9b, 0xb0fa238e, 0xcc899961, 0x846ee454, 0x8034229c, 0x07590dcd,
                 0x240ca1cc, 0x600003c6, 0xe1f20c33, 0xb0638179)
    ensures Turn(0xe1f20c33, 0xfe777bbf, 0xc2fbd9d1, 0x21da9a9b, 0xb0638179, 0xcc899961, 0x846ee454, 0x8034229c,
                 0x2de92c6f, 0x3e9d7b78, 0x9dc68b63, 0x8ada8930)
    ensures Turn(0x9dc68b63, 0xe1f20c33, 0xfe777bbf, 0xc2fbd9d1, 0x8ada8930, 0xb0638179, 0xcc899961, 0x846ee454,
                 0x4a7484aa, 0x0183fc00, 0xc2606d6d, 0xe1257970)
    ensures Turn(0xc2606d6d, 0x9dc68b63, 0xe1f20c33, 0xfe777bbf, 0xe1257970, 0x8ada8930, 0xb0638179, 0xcc899961,
                 0x5cb0a9dc, 0x12dcbfdb, 0xa7a3623f, 0x49f5114a)
    ensures Turn(0xa7a3623f, 0xc2606d6d, 0x9dc68b63, 0xe1f20c33, 0x49f5114a, 0xe1257970, 0x8ada8930, 0xb0638179,
                 0x76f988da, 0xe2e2c38e, 0xc5d53d8d, 0xaa47c347)
  {
  }

  lemma TurnsRow3()
    ensures Turn(0xc5d53d8d, 0xa7a3623f, 0xc2606d6d, 0x9dc68b63, 0xaa47c347, 0x49f5114a, 0xe1257970, 0x8ada8930,
                 0x983e5152, 0xc8215c1a, 0x1c2c2838, 0x2823ef91)
    ensures Turn(0x1c2c2838, 0xc5d53d8d, 0xa7a3623f, 0xc2606d6d, 0x2823ef91, 0xaa47c347, 0x49f5114a, 0xe1257970,
                 0xa831c66d, 0xb73679a2, 0xcde8037d, 0x14383d8e)
    ensures Turn(0xcde8037d, 0x1c2c2838, 0xc5d53d8d, 0xa7a3623f, 0x14383d8e, 0x2823ef91, 0xaa47c347, 0x49f5114a,
                 0xb00327c8, 0xe5bc3909, 0xb62ec4bc, 0xc74c6516)
    ensures Turn(0xb62ec4bc, 0xcde8037d, 0x1c2c2838, 0xc5d53d8d, 0xc74c6516, 0x14383d8e, 0x2823ef91, 0xaa47c347,
                 0xbf597fc7, 0x32663c5b, 0x77d37528, 0xedffbff8)
    ensures Turn(0x77d37528, 0xb62ec4bc, 0xcde8037d, 0x1c2c2838, 0xedffbff8, 0xc74c6516, 0x14383d8e, 0x2823ef91,
                 0xc6e00bf3, 0x9d209d67, 0x363482c9, 0x6112a3b7)
    ensures Turn(0x363482c9, 0x77d37528, 0xb62ec4bc, 0xcde8037d, 0x6112a3b7, 0xedffbff8, 0xc74c6516, 0x14383d8e,
                 0xd5a79147, 0xec8726cb, 0xa0060b30, 0xade79437)
    ensures Turn(0xa0060b30, 0x363482c9, 0x77d37528, 0xb62ec4bc, 0xade79437, 0x6112a3b7, 0xedffbff8, 0xc74c6516,
                 0x06ca6351, 0x702138a4, 0xea992a22, 0x0109ab3a)
    ensures Turn(0xea992a22, 0xa0060b30, 0x363482c9, 0x77d37528, 0x0109ab3a, 0xade79437, 0x6112a3b7, 0xedffbff8,
                 0x14292967, 0xd3b7973b, 0x73b33bf5, 0xba591112)
  {
  }

  lemma TurnsRow4()
    ensures Turn(0x73b33bf5, 0xea992a22, 0xa0060b30, 0x363482c9, 0xba591112, 0x0109ab3a, 0xade79437, 0x6112a3b7,
                 0x27b70a85, 0x93f5997f, 0x98e12507, 0x9cd9f5f6)
    ensures Turn(0x98e12507, 0x73b33bf5, 0xea992a22, 0xa0060b30, 0x9cd9f5f6, 0xba591112, 0x0109ab3a, 0xade79437,
                 0x2e1b2138, 0x3b68ba73, 0xfe604df5, 0x59249dd3)
    ensures Turn(0xfe604df5, 0x98e12507, 0x73b33bf5, 0xea992a22, 0x59249dd3, 0x9cd9f5f6, 0xba591112, 0x0109ab3a,
                 0x4d2c6dfc, 0xaff4ffc1, 0xa9a7738c, 0x085f3833)
    ensures Turn(0xa9a7738c, 0xfe604df5, 0x98e12507, 0x73b33bf5, 0x085f3833, 0x59249dd3, 0x9cd9f5f6, 0xba591112,
                 0x53380d13, 0xf10a5c62, 0x65a0cfe4, 0xf4b002d6)
    ensures Turn(0x65a0cfe4, 0xa9a7738c, 0xfe604df5, 0x98e12507, 0xf4b002d6, 0x085f3833, 0x59249dd3, 0x9cd9f5f6,
                 0x650a7354, 0x0a8b3996, 0x41a65cb1, 0x0772a26b)
    ensures Turn(0x41a65cb1, 0x65a0cfe4, 0xa9a7738c, 0xfe604df5, 0x0772a26b, 0xf4b002d6, 0x085f3833, 0x59249dd3,
                 0x766a0abb, 0x72af830a, 0x34df1604, 0xa507a53d)
    ensures Turn(0x34df1604, 0x41a65cb1, 0x65a0cfe4, 0xa9a7738c, 0xa507a53d, 0x0772a26b, 0xf4b002d6, 0x085f3833,
                 0x81c2c92e, 0x9409e33e, 0x6dc57a8a, 0xf0781bc8)
    ensures Turn(0x6dc57a8a, 0x34df1604, 0x41a65cb1, 0x65a0cfe4, 0xf0781bc8, 0xa507a53d, 0x0772a26b, 0xf4b002d6,
                 0x92722c85, 0x24641522, 0x79ea687a, 0x1efbc0a0)
  {
  }

  lemma TurnsRow5()
    ensures Turn(0x79ea687a, 0x6dc57a8a, 0x34df1604, 0x41a65cb1, 0x1efbc0a0, 0xf0781bc8, 0xa507a53d, 0x0772a26b,
                 0xa2bfe8a1, 0x9f47bf94, 0xd6670766, 0x26352d63)
    ensures Turn(0xd6670766, 0x79ea687a, 0x6dc57a8a, 0x34df1604, 0x26352d63, 0x1efbc0a0, 0xf0781bc8, 0xa507a53d,
                 0xa81a664b, 0xf0a64f5a, 0xdf46652f, 0x838b2711)
    ensures Turn(0xdf46652f, 0xd6670766, 0x79ea687a, 0x6dc57a8a, 0x838b2711, 0x26352d63, 0x1efbc0a0, 0xf0781bc8,
                 0xc24b8b70, 0x3e246a79, 0x17aa0dfe, 0xdecd4715)
    ensures Turn(0x17aa0dfe, 0xdf46652f, 0xd6670766, 0x79ea687a, 0xdecd4715, 0x838b2711, 0x26352d63, 0x1efbc0a0,
                 0xc76c51a3, 0x27333ba3, 0x9d4baf93, 0xfda24c2e)
    ensures Turn(0x9d4baf93, 0x17aa0dfe, 0xdf46652f, 0xd6670766, 0xfda24c2e, 0xdecd4715, 0x838b2711, 0x26352d63,
                 0xd192e819, 0x0c4763f2, 0x26628815, 0xa80f11f0)
    ensures Turn(0x26628815, 0x9d4baf93, 0x17aa0dfe, 0xdf46652f, 0xa80f11f0, 0xfda24c2e, 0xdecd4715, 0x838b2711,
                 0xd6990624, 0x840abf27, 0x72ab4b91, 0xb7755da1)
    ensures Turn(0x72ab4b91, 0x26628815, 0x9d4baf93, 0x17aa0dfe, 0xb7755da1, 0xa80f11f0, 0xfda24c2e, 0xdecd4715,
                 0xf40e3585, 0x7a290d5d, 0xa14c14b0, 0xd57b94a9)
    ensures Turn(0xa14c14b0, 0x72ab4b91, 0x26628815, 0x9d4baf93, 0xd57b94a9, 0xb7755da1, 0xa80f11f0, 0xfda24c2e,
                 0x106aa070, 0x065c43da, 0x4172328d, 0xfecf0bc6)
  {
  }

  lemma TurnsRow6()
    ensures Turn(0x4172328d, 0xa14c14b0, 0x72ab4b91, 0x26628815, 0xfecf0bc6, 0xd57b94a9, 0xb7755da1, 0xa80f11f0,
                 0x19a4c116, 0xfb3e89cb, 0x05757ceb, 0xbd714038)
    ensures Turn(0x05757ceb, 0x4172328d, 0xa14c14b0, 0x72ab4b91, 0xbd714038, 0xfecf0bc6, 0xd57b94a9, 0xb7755da1,
                 0x1e376c08, 0xcc7617db, 0xf11bfaa8, 0x6e5c390c)
    ensures Turn(0xf11bfaa8, 0x05757ceb, 0x4172328d, 0xa14c14b0, 0x6e5c390c, 0xbd714038, 0xfecf0bc6, 0xd57b94a9,
                 0x2748774c, 0xb9e66c34, 0x7a0508a1, 0x52f1ccf7)
    ensures Turn(0x7a0508a1, 0xf11bfaa8, 0x05757ceb, 0x4172328d, 0x52f1ccf7, 0x6e5c390c, 0xbd714038, 0xfecf0bc6,
                 0x34b0bcb5, 0xa9993667, 0x886e7a22, 0x49231c1e)
    ensures Turn(0x886e7a22, 0x7a0508a1, 0xf11bfaa8, 0x05757ceb, 0x49231c1e, 0x52f1ccf7, 0x6e5c390c, 0xbd714038,
                 0x391c0cb3, 0x84badedd, 0x101fd28f, 0x529e7d00)
    ensures Turn(0x101fd28f, 0x886e7a22, 0x7a0508a1, 0xf11bfaa8, 0x529e7d00, 0x49231c1e, 0x52f1ccf7, 0x6e5c390c,
                 0x4ed8aa4a, 0xc21462bc, 0xf5702fdb, 0x9f4787c3)
    ensures Turn(0xf5702fdb, 0x101fd28f, 0x886e7a22, 0x7a0508a1, 0x9f4787c3, 0x529e7d00, 0x49231c1e, 0x52f1ccf7,
                 0x5b9cca4f, 0x1487472c, 0x3ec45cdb, 0xe50e1b4f)
    ensures Turn(0x3ec45cdb, 0xf5702fdb, 0x101fd28f, 0x886e7a22, 0xe50e1b4f, 0x9f4787c3, 0x529e7d00, 0x49231c1e,
                 0x682e6ff3, 0xb20f7a99, 0x38cc9913, 0x54cb266b)
  {
  }

  lemma TurnsRow7()
    ensures Turn(0x38cc9913, 0x3ec45cdb, 0xf5702fdb, 0x101fd28f, 0x54cb266b, 0xe50e1b4f, 0x9f4787c3, 0x529e7d00,
                 0x748f82ee, 0xef57b9cd, 0xfcd1887b, 0x9b5e906c)
    ensures Turn(0xfcd1887b, 0x38cc9913, 0x3ec45cdb, 0xf5702fdb, 0x9b5e906c, 0x54cb266b, 0xe50e1b4f, 0x9f4787c3,
                 0x78a5636f, 0xebe6b238, 0xc062d46f, 0x7e44008e)
    ensures Turn(0xc062d46f, 0xfcd1887b, 0x38cc9913, 0x3ec45cdb, 0x7e44008e, 0x9b5e906c, 0x54cb266b, 0xe50e1b4f,
                 0x84c87814, 0x9fe3095e, 0xffb70472, 0x6d83bfc6)
    ensures Turn(0xffb70472, 0xc062d46f, 0xfcd1887b, 0x38cc9913, 0x6d83bfc6, 0x7e44008e, 0x9b5e906c, 0x54cb266b,
                 0x8cc70208, 0x78bc8d4b, 0xb6ae8fff, 0xb21bad3d)
    ensures Turn(0xb6ae8fff, 0xffb70472, 0xc062d46f, 0xfcd1887b, 0xb21bad3d, 0x6d83bfc6, 0x7e44008e, 0x9b5e906c,
                 0x90befffa, 0xa43fcf15, 0xb85e2ce9, 0x961f4894)
    ensures Turn(0xb85e2ce9, 0xb6ae8fff, 0xffb70472, 0xc062d46f, 0x961f4894, 0xb21bad3d, 0x6d83bfc6, 0x7e44008e,
                 0xa4506ceb, 0x668b2ff8, 0x04d24d6c, 0x948d25b6)
    ensures Turn(0x04d24d6c, 0xb85e2ce9, 0xb6ae8fff, 0xffb70472, 0x948d25b6, 0x961f4894, 0xb21bad3d, 0x6d83bfc6,
                 0xbef9a3f7, 0xeeaba2cc, 0xd39a2165, 0xfb121210)
    ensures Turn(0xd39a2165, 0x04d24d6c, 0xb85e2ce9, 0xb6ae8fff, 0xfb121210, 0x948d25b6, 0x961f4894, 0xb21bad3d,
                 0xc67178f2, 0x12b1edeb, 0x506e3058, 0x5ef50f24)
  {
  }

  lemma NextState(block: seq<Octet>, t: nat, k: Word, w: Word)
    requires |block| == 64 && t < 64 && WordsUpTo(block, 64) && Key(t, k) && At(t, w)
    ensures Rounds(INITIAL, block, t + 1) == Round(Rounds(INITIAL, block, t), k, w)
  {
    hide Round, Schedule, WordAt;
  }

  lemma StatesFrom0(block: seq<Octet>)
    requires |block| == 64 && WordsUpTo(block, 64)
    requires Rounds(INITIAL, block, 0)
          == Hash(0x6a09e667, 0xbb67ae85, 0x3c6ef372, 0xa54ff53a, 0x510e527f, 0x9b05688c, 0x1f83d9ab, 0x5be0cd19)
    ensures Rounds(INITIAL, block, 4)
         == Hash(0xd550f666, 0xc8c347a7, 0x5a6ad9ad, 0x5d6aebcd, 0x24e00850, 0xf92939eb, 0x78ce7989, 0xfa2a4622)
  {
    hide Round, Rounds, WordsUpTo, Key, At;
    TurnsRow0();
    TableRow0();
    NextState(block, 0, 0x428a2f98, 0x61626380);
    NextState(block, 1, 0x71374491, 0x00000000);
    NextState(block, 2, 0xb5c0fbcf, 0x00000000);
    NextState(block, 3, 0xe9b5dba5, 0x00000000);
  }

  lemma StatesFrom4(block: seq<Octet>)
    requires |block| == 64 && WordsUpTo(block, 64)
    requires Rounds(INITIAL, block, 4)
          == Hash(0xd550f666, 0xc8c347a7, 0x5a6ad9ad, 0x5d6aebcd, 0x24e00850, 0xf92939eb, 0x78ce7989, 0xfa2a4622)
    ensures Rounds(INITIAL, block, 8)
         == Hash(0x85a07b5f, 0xe5030380, 0x2b4209f5, 0x04409a6a, 0x0c657a79, 0x9b27a401, 0x714260ad, 0x43ada245)
  {
    hide Round, Rounds, WordsUpTo, Key, At;
    TurnsRow0();
    TableRow0();
    NextState(block, 4, 0x3956c25b, 0x00000000);
    NextState(block, 5, 0x59f111f1, 0x00000000);
    NextState(block, 6, 0x923f82a4, 0x00000000);
    NextState(block, 7, 0xab1c5ed5, 0x00000000);
  }

  lemma StatesFrom8(block: seq<Octet>)
    requires |block| == 64 && WordsUpTo(block, 64)
    requires Rounds(INITIAL, block, 8)
          == Hash(0x85a07b5f, 0xe5030380, 0x2b4209f5, 0x04409a6a, 0x0c657a79, 0x9b27a401, 0x714260ad, 0x43ada245)
    ensures Rounds(INITIAL, block, 12)
         == Hash(0xf71fc5a9, 0x4798a3f4, 0x8c87346b, 0x8e04ecb9, 0x816fd6e9, 0x436b23e8, 0x1cc92596, 0x32ca2d8c)
  {
    hide Round, Rounds, WordsUpTo, Key, At;
    TurnsRow1();
    TableRow1();
    NextState(block, 8, 0xd807aa98, 0x00000000);
    NextState(block, 9, 0x12835b01, 0x00000000);
    NextState(block, 10, 0x243185be, 0x00000000);
    NextState(block, 11, 0x550c7dc3, 0x00000000);
  }

  lemma StatesFrom12(block: seq<Octet>)
    requires |block| == 64 && WordsUpTo(block, 64)
    requires Rounds(INITIAL, block, 12)
          == Hash(0xf71fc5a9, 0x4798a3f4, 0x8c87346b, 0x8e04ecb9, 0x816fd6e9, 0x436b23e8, 0x1cc92596, 0x32ca2d8c)
    ensures Rounds(INITIAL, block, 16)
         == Hash(0xb0fa238e, 0xc0645fde, 0xd932eb16, 0x87912990, 0x07590dcd, 0x0b92f20c, 0x745a48de, 0x1e578218)
  {
    hide Round, Rounds, WordsUpTo, Key, At;
    TurnsRow1();
    TableRow1();
    NextState(block, 12, 0x72be5d74, 0x00000000);
    NextState(block, 13, 0x80deb1fe, 0x00000000);
    NextState(block, 14, 0x9bdc06a7, 0x00000000);
    NextState(block, 15, 0xc19bf174, 0x00000018);
  }

  lemma StatesFrom16(block: seq<Octet>)
    requires |block| == 64 && WordsUpTo(block, 64)
    requires Rounds(INITIAL, block, 16)
          == Hash(0xb0fa238e, 0xc0645fde, 0xd932eb16, 0x87912990, 0x07590dcd, 0x0b92f20c, 0x745a48de, 0x1e578218)
    ensures Rounds(INITIAL, block, 20)
         == Hash(0xe1f20c33, 0xfe777bbf, 0xc2fbd9d1, 0x21da9a9b, 0xb0638179, 0xcc899961, 0x846ee454, 0x8034229c)
  {
    hide Round, Rounds, WordsUpTo, Key, At;
    TurnsRow2();
    TableRow2();
    NextState(block, 16, 0xe49b69c1, 0x61626380);
    NextState(block, 17, 0xefbe4786, 0x000f0000);
    NextState(block, 18, 0x0fc19dc6, 0x7da86405);
    NextState(block, 19, 0x240ca1cc, 0x600003c6);
  }

  lemma StatesFrom20(block: seq<Octet>)
    requires |block| == 64 && WordsUpTo(block, 64)
    requires Rounds(INITIAL, block, 20)
          == Hash(0xe1f20c33, 0xfe777bbf, 0xc2fbd9d1, 0x21da9a9b, 0xb0638179, 0xcc899961, 0x846ee454, 0x8034229c)
    ensures Rounds(INITIAL, block, 24)
         == Hash(0xc5d53d8d, 0xa7a3623f, 0xc2606d6d, 0x9dc68b63, 0xaa47c347, 0x49f5114a, 0xe1257970, 0x8ada8930)
  {
    hide Round, Rounds, WordsUpTo, Key, At;
    TurnsRow2();
    TableRow2();
    NextState(block, 20, 0x2de92c6f, 0x3e9d7b78);
    NextState(block, 21, 0x4a7484aa, 0x0183fc00);
    NextState(block, 22, 0x5cb0a9dc, 0x12dcbfdb);
    NextState(block, 23, 0x76f988da, 0xe2e2c38e);
  }

  lemma StatesFrom24(block: seq<Octet>)
    requires |block| == 64 && WordsUpTo(block, 64)
    requires Rounds(INITIAL, block, 24)
          == Hash(0xc5d53d8d, 0xa7a3623f, 0xc2606d6d, 0x9dc68b63, 0xaa47c347, 0x49f5114a, 0xe1257970, 0x8ada8930)
    ensures Rounds(INITIAL, block, 28)
         == Hash(0x77d37528, 0xb62ec4bc, 0xcde8037d, 0x1c2c2838, 0xedffbff8, 0xc74c6516, 0x14383d8e, 0x2823ef91)
  {
    hide Round, Rounds, WordsUpTo, Key, At;
    TurnsRow3();
    TableRow3();
    NextState(block, 24, 0x983e5152, 0xc8215c1a);
    NextState(block, 25, 0xa831c66d, 0xb73679a2);
    NextState(block, 26, 0xb00327c8, 0xe5bc3909);
    NextState(block, 27, 0xbf597fc7, 0x32663c5b);
  }

  lemma StatesFrom28(block: seq<Octet>)
    requires |block| == 64 && WordsUpTo(block, 64)
    requires Rounds(INITIAL, block, 28)
          == Hash(0x77d37528, 0xb62ec4bc, 0xcde8037d, 0x1c2c2838, 0xedffbff8, 0xc74c6516, 0x14383d8e, 0x2823ef91)
    ensures Rounds(INITIAL, block, 32)
         == Hash(0x73b33bf5, 0xea992a22, 0xa0060b30, 0x363482c9, 0xba591112, 0x0109ab3a, 0xade79437, 0x6112a3b7)
  {
    hide Round, Rounds, WordsUpTo, Key, At;
    TurnsRow3();
    TableRow3();
    NextState(block, 28, 0xc6e00bf3, 0x9d209d67);
    NextState(block, 29, 0xd5a79147, 0xec8726cb);
    NextState(block, 30, 0x06ca6351, 0x702138a4);
    NextState(block, 31, 0x14292967, 0xd3b7973b);
  }

  lemma StatesFrom32(block: seq<Octet>)
    requires |block| == 64 && WordsUpTo(block, 64)
    requires Rounds(INITIAL, block, 32)
          == Hash(0x73b33bf5, 0xea992a22, 0xa0060b30, 0x363482c9, 0xba591112, 0x0109ab3a, 0xade79437, 0x6112a3b7)
    ensures Rounds(INITIAL, block, 36)
         == Hash(0x65a0cfe4, 0xa9a7738c, 0xfe604df5, 0x98e12507, 0xf4b002d6, 0x085f3833, 0x59249dd3, 0x9cd9f5f6)
  {
    hide Round, Rounds, WordsUpTo, Key, At;
    TurnsRow4();
    TableRow4();
    NextState(block, 32, 0x27b70a85, 0x93f5997f);
    NextState(block, 33, 0x2e1b2138, 0x3b68ba73);
    NextState(block, 34, 0x4d2c6dfc, 0xaff4ffc1);
    NextState(block, 35, 0x53380d13, 0xf10a5c62);
  }

  lemma StatesFrom36(block: seq<Octet>)
    requires |block| == 64 && WordsUpTo(block, 64)
    requires Rounds(INITIAL, block, 36)
          == Hash(0x65a0cfe4, 0xa9a7738c, 0xfe604df5, 0x98e12507, 0xf4b002d6, 0x085f3833, 0x59249dd3, 0x9cd9f5f6)
    ensures Rounds(INITIAL, block, 40)
         == Hash(0x79ea687a, 0x6dc57a8a, 0x34df1604, 0x41a65cb1, 0x1efbc0a0, 0xf0781bc8, 0xa507a53d, 0x0772a26b)
  {
    hide Round, Rounds, WordsUpTo, Key, At;
    TurnsRow4();
    TableRow4();
    NextState(block, 36, 0x650a7354, 0x0a8b3996);
    NextState(block, 37, 0x766a0abb, 0x72af830a);
    NextState(block, 38, 0x81c2c92e, 0x9409e33e);
    NextState(block, 39, 0x92722c85, 0x24641522);
  }

  lemma StatesFrom40(block: seq<Octet>)
    requires |block| == 64 && WordsUpTo(block, 64)
    requires Rounds(INITIAL, block, 40)
          == Hash(0x79ea687a, 0x6dc57a8a, 0x34df1604, 0x41a65cb1, 0x1efbc0a0, 0xf0781bc8, 0xa507a53d, 0x0772a26b)
    ensures Rounds(INITIAL, block, 44)
         == Hash(0x9d4baf93, 0x17aa0dfe, 0xdf46652f, 0xd6670766, 0xfda24c2e, 0xdecd4715, 0x838b2711, 0x26352d63)
  {
    hide Round, Rounds, WordsUpTo, Key, At;
    TurnsRow5();
    TableRow5();
    NextState(block, 40, 0xa2bfe8a1, 0x9f47bf94);
    NextState(block, 41, 0xa81a664b, 0xf0a64f5a);
    NextState(block, 42, 0xc24b8b70, 0x3e246a79);
    NextState(block, 43, 0xc76c51a3, 0x27333ba3);
  }

  lemma StatesFrom44(block: seq<Octet>)
    requires |block| == 64 && WordsUpTo(block, 64)
    requires Rounds(INITIAL, block, 44)
          == Hash(0x9d4baf93, 0x17aa0dfe, 0xdf46652f, 0xd6670766, 0xfda24c2e, 0xdecd4715, 0x838b2711, 0x26352d63)
    ensures Rounds(INITIAL, block, 48)
         == Hash(0x4172328d, 0xa14c14b0, 0x72ab4b91, 0x26628815, 0xfecf0bc6, 0xd57b94a9, 0xb7755da1, 0xa80f11f0)
  {
    hide Round, Rounds, WordsUpTo, Key, At;
    TurnsRow5();
    TableRow5();
    NextState(block, 44, 0xd192e819, 0x0c4763f2);
    NextState(block, 45, 0xd6990624, 0x840abf27);
    NextState(block, 46, 0xf40e3585, 0x7a290d5d);
    NextState(block, 47, 0x106aa070, 0x065c43da);
  }

  lemma StatesFrom48(block: seq<Octet>)
    requires |block| == 64 && WordsUpTo(block, 64)
    requires Rounds(INITIAL, block, 48)
          == Hash(0x4172328d, 0xa14c14b0, 0x72ab4b91, 0x26628815, 0xfecf0bc6, 0xd57b94a9, 0xb7755da1, 0xa80f11f0)
    ensures Rounds(INITIAL, block, 52)
         == Hash(0x886e7a22, 0x7a0508a1, 0xf11bfaa8, 0x05757ceb, 0x49231c1e, 0x52f1ccf7, 0x6e5c390c, 0xbd714038)
  {
    hide Round, Rounds, WordsUpTo, Key, At;
    TurnsRow6();
    TableRow6();
    NextState(block, 48, 0x19a4c116, 0xfb3e89cb);
    NextState(block, 49, 0x1e376c08, 0xcc7617db);
    NextState(block, 50, 0x2748774c, 0xb9e66c34);
    NextState(block, 51, 0x34b0bcb5, 0xa9993667);
  }

  lemma StatesFrom52(block: seq<Octet>)
    requires |block| == 64 && WordsUpTo(block, 64)
    requires Rounds(INITIAL, block, 52)
          == Hash(0x886e7a22, 0x7a0508a1, 0xf11bfaa8, 0x05757ceb, 0x49231c1e, 0x52f1ccf7, 0x6e5c390c, 0xbd714038)
    ensures Rounds(INITIAL, block, 56)
         == Hash(0x38cc9913, 0x3ec45cdb, 0xf5702fdb, 0x101fd28f, 0x54cb266b, 0xe50e1b4f, 0x9f4787c3, 0x529e7d00)
  {
    hide Round, Rounds, WordsUpTo, Key, At;
    TurnsRow6();
    TableRow6();
    NextState(block, 52, 0x391c0cb3, 0x84badedd);
    NextState(block, 53, 0x4ed8aa4a, 0xc21462bc);
    NextState(block, 54, 0x5b9cca4f, 0x1487472c);
    NextState(block, 55, 0x682e6ff3, 0xb20f7a99);
  }

  lemma StatesFrom56(block: seq<Octet>)
    requires |block| == 64 && WordsUpTo(block, 64)
    requires Rounds(INITIAL, block, 56)
          == Hash(0x38cc9913, 0x3ec45cdb, 0xf5702fdb, 0x101fd28f, 0x54cb266b, 0xe50e1b4f, 0x9f4787c3, 0x529e7d00)
    ensures Rounds(INITIAL, block, 60)
         == Hash(0xb6ae8fff, 0xffb70472, 0xc062d46f, 0xfcd1887b, 0xb21bad3d, 0x6d83bfc6, 0x7e44008e, 0x9b5e906c)
  {
    hide Round, Rounds, WordsUpTo, Key, At;
    TurnsRow7();
    TableRow7();
    NextState(block, 56, 0x748f82ee, 0xef57b9cd);
    NextState(block, 57, 0x78a5636f, 0xebe6b238);
    NextState(block, 58, 0x84c87814, 0x9fe3095e);
    NextState(block, 59, 0x8cc70208, 0x78bc8d4b);
  }

  lemma StatesFrom60(block: seq<Octet>)
    requires |block| == 64 && WordsUpTo(block, 64)
    requires Rounds(INITIAL, block, 60)
          == Hash(0xb6ae8fff, 0xffb70472, 0xc062d46f, 0xfcd1887b, 0xb21bad3d, 0x6d83bfc6, 0x7e44008e, 0x9b5e906c)
    ensures Rounds(INITIAL, block, 64)
         == Hash(0x506e3058, 0xd39a2165, 0x04d24d6c, 0xb85e2ce9, 0x5ef50f24, 0xfb121210, 0x948d25b6, 0x961f4894)
  {
    hide Round, Rounds, WordsUpTo, Key, At;
    TurnsRow7();
    TableRow7();
    NextState(block, 60, 0x90befffa, 0xa43fcf15);
    NextState(block, 61, 0xa4506ceb, 0x668b2ff8);
    NextState(block, 62, 0xbef9a3f7, 0xeeaba2cc);
    NextState(block, 63, 0xc67178f2, 0x12b1edeb);
  }

  lemma LengthOctets()
    ensures PadZeros(3) == 52 && BigEndian(24, 8) == [0, 0, 0, 0, 0, 0, 0, 0x18]
  {
    NoLength(7);
    assert (24 as int) as Octet == 0x18;
  }

  lemma {:induction false} NoLength(k: nat)
    ensures BigEndian(0, k) == Zeros(k)
  {
    if k > 0 {
      NoLength(k - 1);
    }
  }

  lemma FirstWords(block: seq<Octet>)
    requires block == Pad(ABC) && |block| == 64
    ensures WordsUpTo(block, 16)
  {
    LengthOctets();
    assert block[..4] == [0x61, 0x62, 0x63, 0x80];
    assert forall i :: 4 <= i < 63 ==> block[i] == 0;
    assert block[63] == 0x18;
    forall t | 0 <= t < 16 ensures Schedule(block, t) == WordAt(t) {
      assert t > 0 && t < 15 ==> WordAt(t) == 0;
    }
  }

  lemma AllWords(block: seq<Octet>)
    requires |block| == 64 && WordsUpTo(block, 16)
    ensures WordsUpTo(block, 64)
  {
    hide WordsUpTo;
    WordsRow2(block);
    WordsRow3(block);
    WordsRow4(block);
    WordsRow5(block);
    WordsRow6(block);
    WordsRow7(block);
  }

  lemma NoRounds(block: seq<Octet>)
    requires |block| == 64
    ensures Rounds(INITIAL, block, 0) == INITIAL
  {
  }

  lemma AllStates(block: seq<Octet>)
    requires |block| == 64 && WordsUpTo(block, 64)
    ensures Rounds(INITIAL, block, 64)
         == Hash(0x506e3058, 0xd39a2165, 0x04d24d6c, 0xb85e2ce9, 0x5ef50f24, 0xfb121210, 0x948d25b6, 0x961f4894)
  {
    hide Rounds, WordsUpTo;
    NoRounds(block);
    StatesFrom0(block);
    StatesFrom4(block);
    StatesFrom8(block);
    StatesFrom12(block);
    StatesFrom16(block);
    StatesFrom20(block);
    StatesFrom24(block);
    StatesFrom28(block);
    StatesFrom32(block);
    StatesFrom36(block);
    StatesFrom40(block);
    StatesFrom44(block);
    StatesFrom48(block);
    StatesFrom52(block);
    StatesFrom56(block);
    StatesFrom60(block);
  }

  lemma FinalState()
    ensures Plus(INITIAL,
                 Hash(0x506e3058, 0xd39a2165, 0x04d24d6c, 0xb85e2ce9, 0x5ef50f24, 0xfb121210, 0x948d25b6, 0x961f4894))
         == Hash(0xba7816bf, 0x8f01cfea, 0x414140de, 0x5dae2223, 0xb00361a3, 0x96177a9c, 0xb410ff61, 0xf20015ad)
  {
  }

  function Octets(w: Word): seq<Octet> {
    [OctetOf(w, 0), OctetOf(w, 1), OctetOf(w, 2), OctetOf(w, 3)]
  }

  lemma DigestPart(s: Hash, j: nat)
    requires j < 8
    ensures Digest(s)[4 * j..4 * j + 4] == Octets(WordOf(s, j))
  {
    hide OctetOf, WordOf;
    var part := Digest(s)[4 * j..4 * j + 4];
    assert forall i :: 0 <= i < 4 ==> part[i] == OctetOf(WordOf(s, (4 * j + i) / 4), (4 * j + i) % 4);
    assert part == [part[0], part[1], part[2], part[3]];
  }

  lemma CutInFours(d: seq<Octet>)
    requires |d| == 32
    ensures d == (d[0..4] + d[4..8] + d[8..12] + d[12..16]) + (d[16..20] + d[20..24] + d[24..28] + d[28..32])
  {
  }

  lemma DigestIsOctets(s: Hash)
    ensures Digest(s) == (Octets(s.a) + Octets(s.b) + Octets(s.c) + Octets(s.d))
                         + (Octets(s.e) + Octets(s.f) + Octets(s.g) + Octets(s.h))
  {
    hide Octets, Digest;
    CutInFours(Digest(s));
    DigestPart(s, 0);
    DigestPart(s, 1);
    DigestPart(s, 2);
    DigestPart(s, 3);
    DigestPart(s, 4);
    DigestPart(s, 5);
    DigestPart(s, 6);
    DigestPart(s, 7);
  }

  lemma DigestOctets()
    ensures Octets(0xba7816bf) == [0xba, 0x78, 0x16, 0xbf]
    ensures Octets(0x8f01cfea) == [0x8f, 0x01, 0xcf, 0xea]
    ensures Octets(0x414140de) == [0x41, 0x41, 0x40, 0xde]
    ensures Octets(0x5dae2223) == [0x5d, 0xae, 0x22, 0x23]
    ensures Octets(0xb00361a3) == [0xb0, 0x03, 0x61, 0xa3]
    ensures Octets(0x96177a9c) == [0x96, 0x17, 0x7a, 0x9c]
    ensures Octets(0xb410ff61) == [0xb4, 0x10, 0xff, 0x61]
    ensures Octets(0xf20015ad) == [0xf2, 0x00, 0x15, 0xad]
  {
  }

  /** The digest of "abc" is ba7816bf 8f01cfea 414140de 5dae2223 b00361a3 96177a9c
      b410ff61 f20015ad. */
  lemma DigestOfAbc()
    ensures Sha256.Sha256(ABC) ==
      ([0xba, 0x78, 0x16, 0xbf]
       + [0x8f, 0x01, 0xcf, 0xea]
       + [0x41, 0x41, 0x40, 0xde]
       + [0x5d, 0xae, 0x22, 0x23])
      + ([0xb0, 0x03, 0x61, 0xa3]
         + [0x96, 0x17, 0x7a, 0x9c]
         + [0xb4, 0x10, 0xff, 0x61]
         + [0xf2, 0x00, 0x15, 0xad])
  {
    hide Pad, Rounds, Plus, Digest, Octets, WordsUpTo;
    var block := Pad(ABC);
    PaddedAbc();
    FirstWords(block);
    AllWords(block);
    AllStates(block);
    FoldOne(block);
    FinalState();
    DigestIsOctets(Hash(0xba7816bf, 0x8f01cfea, 0x414140de, 0x5dae2223,
                        0xb00361a3, 0x96177a9c, 0xb410ff61, 0xf20015ad));
    DigestOctets();
  }

  lemma PaddedAbc()
    ensures |Pad(ABC)| == 64
  {
    LengthOctets();
  }

  lemma FoldOne(block: seq<Octet>)
    requires |block| == 64
    ensures Fold(block) == Plus(INITIAL, Rounds(INITIAL, block, 64))
  {
    hide Plus, Rounds;
    assert block[..0] == [] && block[0..] == block;
  }
}
