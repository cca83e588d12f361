/**
 The known vector of three octets (src/sha256.rs:165-168; FIPS 180-4 lists the same steps for its one-block
 example): the message schedule, the working variables after every round, the digest.
 */
module Sha256Vector {
  import opened Bytes
  import opened Sha256
  import opened Sha256Constants

  predicate Row0(b: seq<byte>)
    requires |b| == 64
  {
    && W(b, 0) == 0x61626380 && W(b, 1) == 0x00000000 && W(b, 2) == 0x00000000 && W(b, 3) == 0x00000000
    && W(b, 4) == 0x00000000 && W(b, 5) == 0x00000000 && W(b, 6) == 0x00000000 && W(b, 7) == 0x00000000
    && W(b, 8) == 0x00000000 && W(b, 9) == 0x00000000 && W(b, 10) == 0x00000000 && W(b, 11) == 0x00000000
    && W(b, 12) == 0x00000000 && W(b, 13) == 0x00000000 && W(b, 14) == 0x00000000 && W(b, 15) == 0x00000018
  }

  predicate Row1(b: seq<byte>)
    requires |b| == 64
  {
    && W(b, 16) == 0x61626380 && W(b, 17) == 0x000f0000 && W(b, 18) == 0x7da86405 && W(b, 19) == 0x600003c6
    && W(b, 20) == 0x3e9d7b78 && W(b, 21) == 0x0183fc00 && W(b, 22) == 0x12dcbfdb && W(b, 23) == 0xe2e2c38e
    && W(b, 24) == 0xc8215c1a && W(b, 25) == 0xb73679a2 && W(b, 26) == 0xe5bc3909 && W(b, 27) == 0x32663c5b
    && W(b, 28) == 0x9d209d67 && W(b, 29) == 0xec8726cb && W(b, 30) == 0x702138a4 && W(b, 31) == 0xd3b7973b
  }

  predicate Row2(b: seq<byte>)
    requires |b| == 64
  {
    && W(b, 32) == 0x93f5997f && W(b, 33) == 0x3b68ba73 && W(b, 34) == 0xaff4ffc1 && W(b, 35) == 0xf10a5c62
    && W(b, 36) == 0x0a8b3996 && W(b, 37) == 0x72af830a && W(b, 38) == 0x9409e33e && W(b, 39) == 0x24641522
    && W(b, 40) == 0x9f47bf94 && W(b, 41) == 0xf0a64f5a && W(b, 42) == 0x3e246a79 && W(b, 43) == 0x27333ba3
    && W(b, 44) == 0x0c4763f2 && W(b, 45) == 0x840abf27 && W(b, 46) == 0x7a290d5d && W(b, 47) == 0x065c43da
  }

  predicate Row3(b: seq<byte>)
    requires |b| == 64
  {
    && W(b, 48) == 0xfb3e89cb && W(b, 49) == 0xcc7617db && W(b, 50) == 0xb9e66c34 && W(b, 51) == 0xa9993667
    && W(b, 52) == 0x84badedd && W(b, 53) == 0xc21462bc && W(b, 54) == 0x1487472c && W(b, 55) == 0xb20f7a99
    && W(b, 56) == 0xef57b9cd && W(b, 57) == 0xebe6b238 && W(b, 58) == 0x9fe3095e && W(b, 59) == 0x78bc8d4b
    && W(b, 60) == 0xa43fcf15 && W(b, 61) == 0x668b2ff8 && W(b, 62) == 0xeeaba2cc && W(b, 63) == 0x12b1edeb
  }

  lemma Row1Is(b: seq<byte>)
    requires |b| == 64 && Row0(b)
    ensures Row1(b)
  {
    Word(b, 16, 0x00000000, 0x00000000, 0x00000000, 0x61626380, 0x61626380);
    Word(b, 17, 0x00000018, 0x00000000, 0x00000000, 0x00000000, 0x000f0000);
    Word(b, 18, 0x61626380, 0x00000000, 0x00000000, 0x00000000, 0x7da86405);
    Word(b, 19, 0x000f0000, 0x00000000, 0x00000000, 0x00000000, 0x600003c6);
    Word(b, 20, 0x7da86405, 0x00000000, 0x00000000, 0x00000000, 0x3e9d7b78);
    Word(b, 21, 0x600003c6, 0x00000000, 0x00000000, 0x00000000, 0x0183fc00);
    Word(b, 22, 0x3e9d7b78, 0x00000018, 0x00000000, 0x00000000, 0x12dcbfdb);
    Word(b, 23, 0x0183fc00, 0x61626380, 0x00000000, 0x00000000, 0xe2e2c38e);
    Word(b, 24, 0x12dcbfdb, 0x000f0000, 0x00000000, 0x00000000, 0xc8215c1a);
    Word(b, 25, 0xe2e2c38e, 0x7da86405, 0x00000000, 0x00000000, 0xb73679a2);
    Word(b, 26, 0xc8215c1a, 0x600003c6, 0x00000000, 0x00000000, 0xe5bc3909);
    Word(b, 27, 0xb73679a2, 0x3e9d7b78, 0x00000000, 0x00000000, 0x32663c5b);
    Word(b, 28, 0xe5bc3909, 0x0183fc00, 0x00000000, 0x00000000, 0x9d209d67);
    Word(b, 29, 0x32663c5b, 0x12dcbfdb, 0x00000000, 0x00000000, 0xec8726cb);
    Word(b, 30, 0x9d209d67, 0xe2e2c38e, 0x00000018, 0x00000000, 0x702138a4);
    Word(b, 31, 0xec8726cb, 0xc8215c1a, 0x61626380, 0x00000018, 0xd3b7973b);
  }

  lemma Row2Is(b: seq<byte>)
    requires |b| == 64 && Row1(b)
    ensures Row2(b)
  {
    Word(b, 32, 0x702138a4, 0xb73679a2, 0x000f0000, 0x61626380, 0x93f5997f);
    Word(b, 33, 0xd3b7973b, 0xe5bc3909, 0x7da86405, 0x000f0000, 0x3b68ba73);
    Word(b, 34, 0x93f5997f, 0x32663c5b, 0x600003c6, 0x7da86405, 0xaff4ffc1);
    Word(b, 35, 0x3b68ba73, 0x9d209d67, 0x3e9d7b78, 0x600003c6, 0xf10a5c62);
    Word(b, 36, 0xaff4ffc1, 0xec8726cb, 0x0183fc00, 0x3e9d7b78, 0x0a8b3996);
    Word(b, 37, 0xf10a5c62, 0x702138a4, 0x12dcbfdb, 0x0183fc00, 0x72af830a);
    Word(b, 38, 0x0a8b3996, 0xd3b7973b, 0xe2e2c38e, 0x12dcbfdb, 0x9409e33e);
    Word(b, 39, 0x72af830a, 0x93f5997f, 0xc8215c1a, 0xe2e2c38e, 0x24641522);
    Word(b, 40, 0x9409e33e, 0x3b68ba73, 0xb73679a2, 0xc8215c1a, 0x9f47bf94);
    Word(b, 41, 0x24641522, 0xaff4ffc1, 0xe5bc3909, 0xb73679a2, 0xf0a64f5a);
    Word(b, 42, 0x9f47bf94, 0xf10a5c62, 0x32663c5b, 0xe5bc3909, 0x3e246a79);
    Word(b, 43, 0xf0a64f5a, 0x0a8b3996, 0x9d209d67, 0x32663c5b, 0x27333ba3);
    Word(b, 44, 0x3e246a79, 0x72af830a, 0xec8726cb, 0x9d209d67, 0x0c4763f2);
    Word(b, 45, 0x27333ba3, 0x9409e33e, 0x702138a4, 0xec8726cb, 0x840abf27);
    Word(b, 46, 0x0c4763f2, 0x24641522, 0xd3b7973b, 0x702138a4, 0x7a290d5d);
    Word(b, 47, 0x840abf27, 0x9f47bf94, 0x93f5997f, 0xd3b7973b, 0x065c43da);
  }

  lemma Row3Is(b: seq<byte>)
    requires |b| == 64 && Row2(b)
    ensures Row3(b)
  {
    Word(b, 48, 0x7a290d5d, 0xf0a64f5a, 0x3b68ba73, 0x93f5997f, 0xfb3e89cb);
    Word(b, 49, 0x065c43da, 0x3e246a79, 0xaff4ffc1, 0x3b68ba73, 0xcc7617db);
    Word(b, 50, 0xfb3e89cb, 0x27333ba3, 0xf10a5c62, 0xaff4ffc1, 0xb9e66c34);
    Word(b, 51, 0xcc7617db, 0x0c4763f2, 0x0a8b3996, 0xf10a5c62, 0xa9993667);
    Word(b, 52, 0xb9e66c34, 0x840abf27, 0x72af830a, 0x0a8b3996, 0x84badedd);
    Word(b, 53, 0xa9993667, 0x7a290d5d, 0x9409e33e, 0x72af830a, 0xc21462bc);
    Word(b, 54, 0x84badedd, 0x065c43da, 0x24641522, 0x9409e33e, 0x1487472c);
    Word(b, 55, 0xc21462bc, 0xfb3e89cb, 0x9f47bf94, 0x24641522, 0xb20f7a99);
    Word(b, 56, 0x1487472c, 0xcc7617db, 0xf0a64f5a, 0x9f47bf94, 0xef57b9cd);
    Word(b, 57, 0xb20f7a99, 0xb9e66c34, 0x3e246a79, 0xf0a64f5a, 0xebe6b238);
    Word(b, 58, 0xef57b9cd, 0xa9993667, 0x27333ba3, 0x3e246a79, 0x9fe3095e);
    Word(b, 59, 0xebe6b238, 0x84badedd, 0x0c4763f2, 0x27333ba3, 0x78bc8d4b);
    Word(b, 60, 0x9fe3095e, 0xc21462bc, 0x840abf27, 0x0c4763f2, 0xa43fcf15);
    Word(b, 61, 0x78bc8d4b, 0x1487472c, 0x7a290d5d, 0x840abf27, 0x668b2ff8);
    Word(b, 62, 0xa43fcf15, 0xb20f7a99, 0x065c43da, 0x7a290d5d, 0xeeaba2cc);
    Word(b, 63, 0x668b2ff8, 0xef57b9cd, 0xfb3e89cb, 0x065c43da, 0x12b1edeb);
  }

  // One word of the schedule.
  lemma Word(b: seq<byte>, t: nat, w2: word, w7: word, w15: word, w16: word, w: word)
    requires |b| == 64 && t >= 16
    requires W(b, t - 2) == w2 && W(b, t - 7) == w7 && W(b, t - 15) == w15 && W(b, t - 16) == w16
    requires w == Sum(SmallSigma1(w2), w7, SmallSigma0(w15), w16)
    ensures W(b, t) == w
  {
  }

  // One round: only two variables are new.
  lemma Turn(s: Vars, b: seq<byte>, t: nat, v: Vars, w: word, a: word, e: word) returns (next: Vars)
    requires |b| == 64 && t < 64 && Rounds(s, b, t) == v && W(b, t) == w
    requires Round(v, K[t], w).a == a && Round(v, K[t], w).e == e
    ensures next == Vars(a, v.a, v.b, v.c, e, v.e, v.f, v.g) && Rounds(s, b, t + 1) == next
  {
    next := Vars(a, v.a, v.b, v.c, e, v.e, v.f, v.g);
    NextRound(s, b, t);
  }

  lemma Turns0(s: Vars, b: seq<byte>)
    requires |b| == 64 && Row0(b)
    requires Rounds(s, b, 0) ==
             Vars(0x6a09e667, 0xbb67ae85, 0x3c6ef372, 0xa54ff53a, 0x510e527f, 0x9b05688c, 0x1f83d9ab, 0x5be0cd19)
    ensures Rounds(s, b, 16) ==
            Vars(0xb0fa238e, 0xc0645fde, 0xd932eb16, 0x87912990, 0x07590dcd, 0x0b92f20c, 0x745a48de, 0x1e578218)
  {
    hide W, Rounds, H0, K;
    Keys0();
    var v := Rounds(s, b, 0);
    v := Turn(s, b, 0, v, 0x61626380, 0x5d6aebcd, 0xfa2a4622);
    v := Turn(s, b, 1, v, 0x00000000, 0x5a6ad9ad, 0x78ce7989);
    v := Turn(s, b, 2, v, 0x00000000, 0xc8c347a7, 0xf92939eb);
    v := Turn(s, b, 3, v, 0x00000000, 0xd550f666, 0x24e00850);
    v := Turn(s, b, 4, v, 0x00000000, 0x04409a6a, 0x43ada245);
    v := Turn(s, b, 5, v, 0x00000000, 0x2b4209f5, 0x714260ad);
    v := Turn(s, b, 6, v, 0x00000000, 0xe5030380, 0x9b27a401);
    v := Turn(s, b, 7, v, 0x00000000, 0x85a07b5f, 0x0c657a79);
    v := Turn(s, b, 8, v, 0x00000000, 0x8e04ecb9, 0x32ca2d8c);
    v := Turn(s, b, 9, v, 0x00000000, 0x8c87346b, 0x1cc92596);
    v := Turn(s, b, 10, v, 0x00000000, 0x4798a3f4, 0x436b23e8);
    v := Turn(s, b, 11, v, 0x00000000, 0xf71fc5a9, 0x816fd6e9);
    v := Turn(s, b, 12, v, 0x00000000, 0x87912990, 0x1e578218);
    v := Turn(s, b, 13, v, 0x00000000, 0xd932eb16, 0x745a48de);
    v := Turn(s, b, 14, v, 0x00000000, 0xc0645fde, 0x0b92f20c);
    v := Turn(s, b, 15, v, 0x00000018, 0xb0fa238e, 0x07590dcd);
  }

  lemma Turns1(s: Vars, b: seq<byte>)
    requires |b| == 64 && Row1(b)
    requires Rounds(s, b, 16) ==
             Vars(0xb0fa238e, 0xc0645fde, 0xd932eb16, 0x87912990, 0x07590dcd, 0x0b92f20c, 0x745a48de, 0x1e578218)
    ensures Rounds(s, b, 32) ==
            Vars(0x73b33bf5, 0xea992a22, 0xa0060b30, 0x363482c9, 0xba591112, 0x0109ab3a, 0xade79437, 0x6112a3b7)
  {
    hide W, Rounds, H0, K;
    Keys1();
    var v := Rounds(s, b, 16);
    v := Turn(s, b, 16, v, 0x61626380, 0x21da9a9b, 0x8034229c);
    v := Turn(s, b, 17, v, 0x000f0000, 0xc2fbd9d1, 0x846ee454);
    v := Turn(s, b, 18, v, 0x7da86405, 0xfe777bbf, 0xcc899961);
    v := Turn(s, b, 19, v, 0x600003c6, 0xe1f20c33, 0xb0638179);
    v := Turn(s, b, 20, v, 0x3e9d7b78, 0x9dc68b63, 0x8ada8930);
    v := Turn(s, b, 21, v, 0x0183fc00, 0xc2606d6d, 0xe1257970);
    v := Turn(s, b, 22, v, 0x12dcbfdb, 0xa7a3623f, 0x49f5114a);
    v := Turn(s, b, 23, v, 0xe2e2c38e, 0xc5d53d8d, 0xaa47c347);
    v := Turn(s, b, 24, v, 0xc8215c1a, 0x1c2c2838, 0x2823ef91);
    v := Turn(s, b, 25, v, 0xb73679a2, 0xcde8037d, 0x14383d8e);
    v := Turn(s, b, 26, v, 0xe5bc3909, 0xb62ec4bc, 0xc74c6516);
    v := Turn(s, b, 27, v, 0x32663c5b, 0x77d37528, 0xedffbff8);
    v := Turn(s, b, 28, v, 0x9d209d67, 0x363482c9, 0x6112a3b7);
    v := Turn(s, b, 29, v, 0xec8726cb, 0xa0060b30, 0xade79437);
    v := Turn(s, b, 30, v, 0x702138a4, 0xea992a22, 0x0109ab3a);
    v := Turn(s, b, 31, v, 0xd3b7973b, 0x73b33bf5, 0xba591112);
  }

  lemma Turns2(s: Vars, b: seq<byte>)
    requires |b| == 64 && Row2(b)
    requires Rounds(s, b, 32) ==
             Vars(0x73b33bf5, 0xea992a22, 0xa0060b30, 0x363482c9, 0xba591112, 0x0109ab3a, 0xade79437, 0x6112a3b7)
    ensures Rounds(s, b, 48) ==
            Vars(0x4172328d, 0xa14c14b0, 0x72ab4b91, 0x26628815, 0xfecf0bc6, 0xd57b94a9, 0xb7755da1, 0xa80f11f0)
  {
    hide W, Rounds, H0, K;
    Keys2();
    var v := Rounds(s, b, 32);
    v := Turn(s, b, 32, v, 0x93f5997f, 0x98e12507, 0x9cd9f5f6);
    v := Turn(s, b, 33, v, 0x3b68ba73, 0xfe604df5, 0x59249dd3);
    v := Turn(s, b, 34, v, 0xaff4ffc1, 0xa9a7738c, 0x085f3833);
    v := Turn(s, b, 35, v, 0xf10a5c62, 0x65a0cfe4, 0xf4b002d6);
    v := Turn(s, b, 36, v, 0x0a8b3996, 0x41a65cb1, 0x0772a26b);
    v := Turn(s, b, 37, v, 0x72af830a, 0x34df1604, 0xa507a53d);
    v := Turn(s, b, 38, v, 0x9409e33e, 0x6dc57a8a, 0xf0781bc8);
    v := Turn(s, b, 39, v, 0x24641522, 0x79ea687a, 0x1efbc0a0);
    v := Turn(s, b, 40, v, 0x9f47bf94, 0xd6670766, 0x26352d63);
    v := Turn(s, b, 41, v, 0xf0a64f5a, 0xdf46652f, 0x838b2711);
    v := Turn(s, b, 42, v, 0x3e246a79, 0x17aa0dfe, 0xdecd4715);
    v := Turn(s, b, 43, v, 0x27333ba3, 0x9d4baf93, 0xfda24c2e);
    v := Turn(s, b, 44, v, 0x0c4763f2, 0x26628815, 0xa80f11f0);
    v := Turn(s, b, 45, v, 0x840abf27, 0x72ab4b91, 0xb7755da1);
    v := Turn(s, b, 46, v, 0x7a290d5d, 0xa14c14b0, 0xd57b94a9);
    v := Turn(s, b, 47, v, 0x065c43da, 0x4172328d, 0xfecf0bc6);
  }

  lemma Turns3(s: Vars, b: seq<byte>)
    requires |b| == 64 && Row3(b)
    requires Rounds(s, b, 48) ==
             Vars(0x4172328d, 0xa14c14b0, 0x72ab4b91, 0x26628815, 0xfecf0bc6, 0xd57b94a9, 0xb7755da1, 0xa80f11f0)
    ensures Rounds(s, b, 64) ==
            Vars(0x506e3058, 0xd39a2165, 0x04d24d6c, 0xb85e2ce9, 0x5ef50f24, 0xfb121210, 0x948d25b6, 0x961f4894)
  {
    hide W, Rounds, H0, K;
    Keys3();
    var v := Rounds(s, b, 48);
    v := Turn(s, b, 48, v, 0xfb3e89cb, 0x05757ceb, 0xbd714038);
    v := Turn(s, b, 49, v, 0xcc7617db, 0xf11bfaa8, 0x6e5c390c);
    v := Turn(s, b, 50, v, 0xb9e66c34, 0x7a0508a1, 0x52f1ccf7);
    v := Turn(s, b, 51, v, 0xa9993667, 0x886e7a22, 0x49231c1e);
    v := Turn(s, b, 52, v, 0x84badedd, 0x101fd28f, 0x529e7d00);
    v := Turn(s, b, 53, v, 0xc21462bc, 0xf5702fdb, 0x9f4787c3);
    v := Turn(s, b, 54, v, 0x1487472c, 0x3ec45cdb, 0xe50e1b4f);
    v := Turn(s, b, 55, v, 0xb20f7a99, 0x38cc9913, 0x54cb266b);
    v := Turn(s, b, 56, v, 0xef57b9cd, 0xfcd1887b, 0x9b5e906c);
    v := Turn(s, b, 57, v, 0xebe6b238, 0xc062d46f, 0x7e44008e);
    v := Turn(s, b, 58, v, 0x9fe3095e, 0xffb70472, 0x6d83bfc6);
    v := Turn(s, b, 59, v, 0x78bc8d4b, 0xb6ae8fff, 0xb21bad3d);
    v := Turn(s, b, 60, v, 0xa43fcf15, 0xb85e2ce9, 0x961f4894);
    v := Turn(s, b, 61, v, 0x668b2ff8, 0x04d24d6c, 0x948d25b6);
    v := Turn(s, b, 62, v, 0xeeaba2cc, 0xd39a2165, 0xfb121210);
    v := Turn(s, b, 63, v, 0x12b1edeb, 0x506e3058, 0x5ef50f24);
  }

  // ---- the block and the digest ----

  function Abc(): seq<byte> { [0x61, 0x62, 0x63] }

  lemma AbcBlock()
    ensures |Pad(Abc())| == 64
    ensures var b := Pad(Abc()); b[..4] == [0x61, 0x62, 0x63, 0x80] && b[4..60] == Zeros(56) && b[60..] == [0, 0, 0, 0x18]
  {
    assert Be64(24) == Be32(0) + Be32(24) == [0, 0, 0, 0] + [0, 0, 0, 0x18];
    hide Be64;
    assert Zeros(52) + [0, 0, 0, 0] == Zeros(56);
  }

  lemma FirstWord(b: seq<byte>, t: nat, s: seq<byte>)
    requires |b| == 64 && t < 16 && b[4 * t..4 * t + 4] == s
    ensures W(b, t) == FromBe32(s) as word
  {
  }

  lemma ZeroWord(b: seq<byte>, t: nat)
    requires |b| == 64 && 1 <= t < 15 && b[4..60] == Zeros(56)
    ensures W(b, t) == 0
  {
    hide W;
    assert forall k :: 4 <= k < 60 ==> b[k] == b[4..60][k - 4];
    FirstWord(b, t, [0, 0, 0, 0]);
  }

  lemma FirstRow(b: seq<byte>)
    requires |b| == 64
    requires b[..4] == [0x61, 0x62, 0x63, 0x80] && b[4..60] == Zeros(56) && b[60..] == [0, 0, 0, 0x18]
    ensures Row0(b)
  {
    FirstWord(b, 0, [0x61, 0x62, 0x63, 0x80]);
    FirstWord(b, 15, [0, 0, 0, 0x18]);
    assert FromBe32([0x61, 0x62, 0x63, 0x80]) == 0x61626380 && FromBe32([0, 0, 0, 0x18]) == 0x18;
    hide W, FromBe32, Zeros;
    forall t | 1 <= t < 15 ensures W(b, t) == 0 { ZeroWord(b, t); }
  }

  lemma AllTurns(b: seq<byte>)
    requires |b| == 64 && Row0(b)
    ensures Rounds(VarsOf(H0), b, 64) ==
            Vars(0x506e3058, 0xd39a2165, 0x04d24d6c, 0xb85e2ce9, 0x5ef50f24, 0xfb121210, 0x948d25b6, 0x961f4894)
  {
    hide W, Row0, Row1, Row2, Row3;
    assert Rounds(VarsOf(H0), b, 0) == VarsOf(H0);
    hide Rounds;
    Row1Is(b);
    Row2Is(b);
    Row3Is(b);
    Turns0(VarsOf(H0), b);
    Turns1(VarsOf(H0), b);
    Turns2(VarsOf(H0), b);
    Turns3(VarsOf(H0), b);
  }

  lemma AbcHash()
    ensures Absorbed(H0, Pad(Abc())) ==
            [0xba7816bf, 0x8f01cfea, 0x414140de, 0x5dae2223, 0xb00361a3, 0x96177a9c, 0xb410ff61, 0xf20015ad]
  {
    hide Rounds, Pad, Absorbed;
    AbcBlock();
    FirstRow(Pad(Abc()));
    AllTurns(Pad(Abc()));
    AbsorbedBlock(H0, Pad(Abc()));
  }

  lemma FourWords(a: word, b: word, c: word, d: word, rest: seq<word>)
    ensures WordBytes([a, b, c, d] + rest) == OctetsOf(a) + (OctetsOf(b) + (OctetsOf(c) + (OctetsOf(d) + WordBytes(rest))))
  {
    hide OctetsOf, WordBytes;
    WordBytesCons(d, rest);
    WordBytesCons(c, [d] + rest);
    WordBytesCons(b, [c] + ([d] + rest));
    WordBytesCons(a, [b] + ([c] + ([d] + rest)));
    assert [a] + ([b] + ([c] + ([d] + rest))) == [a, b, c, d] + rest;
  }

  lemma NoWords()
    ensures WordBytes([]) == []
  {
  }

  lemma DigestOctets()
    ensures OctetsOf(0xba7816bf) == [0xba, 0x78, 0x16, 0xbf]
    ensures OctetsOf(0x8f01cfea) == [0x8f, 0x01, 0xcf, 0xea]
    ensures OctetsOf(0x414140de) == [0x41, 0x41, 0x40, 0xde]
    ensures OctetsOf(0x5dae2223) == [0x5d, 0xae, 0x22, 0x23]
    ensures OctetsOf(0xb00361a3) == [0xb0, 0x03, 0x61, 0xa3]
    ensures OctetsOf(0x96177a9c) == [0x96, 0x17, 0x7a, 0x9c]
    ensures OctetsOf(0xb410ff61) == [0xb4, 0x10, 0xff, 0x61]
    ensures OctetsOf(0xf20015ad) == [0xf2, 0x00, 0x15, 0xad]
  {
  }

  lemma DigestWords()
    ensures WordBytes([0xba7816bf, 0x8f01cfea, 0x414140de, 0x5dae2223, 0xb00361a3, 0x96177a9c, 0xb410ff61, 0xf20015ad]) ==
            [0xba, 0x78, 0x16, 0xbf, 0x8f, 0x01, 0xcf, 0xea, 0x41, 0x41, 0x40, 0xde, 0x5d, 0xae, 0x22, 0x23,
             0xb0, 0x03, 0x61, 0xa3, 0x96, 0x17, 0x7a, 0x9c, 0xb4, 0x10, 0xff, 0x61, 0xf2, 0x00, 0x15, 0xad]
  {
    var h := [0xb00361a3, 0x96177a9c, 0xb410ff61, 0xf20015ad];
    hide OctetsOf, WordBytes;
    FourWords(0xba7816bf, 0x8f01cfea, 0x414140de, 0x5dae2223, h);
    FourWords(0xb00361a3, 0x96177a9c, 0xb410ff61, 0xf20015ad, []);
    NoWords();
    DigestOctets();
    assert h + [] == h;
    hide *;
    assert [0xba7816bf, 0x8f01cfea, 0x414140de, 0x5dae2223] + h
        == [0xba7816bf, 0x8f01cfea, 0x414140de, 0x5dae2223, 0xb00361a3, 0x96177a9c, 0xb410ff61, 0xf20015ad];
    assert WordBytes(h) == [0xb0, 0x03, 0x61, 0xa3, 0x96, 0x17, 0x7a, 0x9c, 0xb4, 0x10, 0xff, 0x61, 0xf2, 0x00, 0x15, 0xad];
  }

  /** The digest of the three octets `abc`. */
  lemma DigestOfAbc()
    ensures Digest([0x61, 0x62, 0x63]) ==
            [0xba, 0x78, 0x16, 0xbf, 0x8f, 0x01, 0xcf, 0xea, 0x41, 0x41, 0x40, 0xde, 0x5d, 0xae, 0x22, 0x23,
             0xb0, 0x03, 0x61, 0xa3, 0x96, 0x17, 0x7a, 0x9c, 0xb4, 0x10, 0xff, 0x61, 0xf2, 0x00, 0x15, 0xad]
  {
    hide Absorbed, Pad, WordBytes;
    AbcHash();
    DigestWords();
  }
}
