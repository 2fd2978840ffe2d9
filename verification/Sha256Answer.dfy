/** A known answer of SHA-256, worked out round by round: the digest of the message "abc", appendix B.1 of
    FIPS 180-2. It depends on every constant, shift and rotation. */
module Sha256Answer {
  import opened Division
  import opened HashBlocks
  import opened Word32
  import opened WordBytes
  import opened Sha256Rounds
  import opened Sha256
  import opened Sha256Constants

  const ABC: seq<Byte> := [0x61, 0x62, 0x63]

  const DIGEST: seq<Byte> := [
    0xba, 0x78, 0x16, 0xbf, 0x8f, 0x01, 0xcf, 0xea, 0x41, 0x41, 0x40, 0xde, 0x5d, 0xae, 0x22, 0x23,
    0xb0, 0x03, 0x61, 0xa3, 0x96, 0x17, 0x7a, 0x9c, 0xb4, 0x10, 0xff, 0x61, 0xf2, 0x00, 0x15, 0xad
  ]

  /** The padded message as words. */
  ghost predicate Block(m: seq<Word>) {
    && |m| == 16 && m[0] == 0x61626380 && m[15] == 0x18
    && forall i :: 1 <= i < 15 ==> m[i] == 0
  }

  lemma NextWordIs(m: seq<Word>, t: nat, a: Word, b: Word, c: Word, d: Word)
    requires |m| == 16 && t >= 16
    requires Schedule(m, t - 2) == a && Schedule(m, t - 7) == b && Schedule(m, t - 15) == c && Schedule(m, t - 16) == d
    ensures Schedule(m, t) == Add(Add(Add(SmallSigma1(a), b), SmallSigma0(c)), d)
  {
    hide SmallSigma0, SmallSigma1, Add;
  }

  lemma Words0(m: seq<Word>)
    requires Block(m)
    ensures Schedule(m, 0) == 0x61626380 && Schedule(m, 1) == 0x00000000 && Schedule(m, 2) == 0x00000000
    ensures Schedule(m, 3) == 0x00000000 && Schedule(m, 4) == 0x00000000 && Schedule(m, 5) == 0x00000000
    ensures Schedule(m, 6) == 0x00000000 && Schedule(m, 7) == 0x00000000 && Schedule(m, 8) == 0x00000000
    ensures Schedule(m, 9) == 0x00000000 && Schedule(m, 10) == 0x00000000 && Schedule(m, 11) == 0x00000000
    ensures Schedule(m, 12) == 0x00000000 && Schedule(m, 13) == 0x00000000 && Schedule(m, 14) == 0x00000000
    ensures Schedule(m, 15) == 0x00000018
  {
  }

  lemma Words16(m: seq<Word>)
    requires |m| == 16
    requires Schedule(m, 0) == 0x61626380 && Schedule(m, 1) == 0x00000000 && Schedule(m, 2) == 0x00000000
    requires Schedule(m, 3) == 0x00000000 && Schedule(m, 4) == 0x00000000 && Schedule(m, 5) == 0x00000000
    requires Schedule(m, 6) == 0x00000000 && Schedule(m, 7) == 0x00000000 && Schedule(m, 8) == 0x00000000
    requires Schedule(m, 9) == 0x00000000 && Schedule(m, 10) == 0x00000000 && Schedule(m, 11) == 0x00000000
    requires Schedule(m, 12) == 0x00000000 && Schedule(m, 13) == 0x00000000 && Schedule(m, 14) == 0x00000000
    requires Schedule(m, 15) == 0x00000018
    ensures Schedule(m, 16) == 0x61626380 && Schedule(m, 17) == 0x000f0000 && Schedule(m, 18) == 0x7da86405
    ensures Schedule(m, 19) == 0x600003c6 && Schedule(m, 20) == 0x3e9d7b78 && Schedule(m, 21) == 0x0183fc00
    ensures Schedule(m, 22) == 0x12dcbfdb && Schedule(m, 23) == 0xe2e2c38e && Schedule(m, 24) == 0xc8215c1a
    ensures Schedule(m, 25) == 0xb73679a2 && Schedule(m, 26) == 0xe5bc3909 && Schedule(m, 27) == 0x32663c5b
    ensures Schedule(m, 28) == 0x9d209d67 && Schedule(m, 29) == 0xec8726cb && Schedule(m, 30) == 0x702138a4
    ensures Schedule(m, 31) == 0xd3b7973b
  {
    hide Schedule;
    NextWordIs(m, 16, 0x00000000, 0x00000000, 0x00000000, 0x61626380);
    NextWordIs(m, 17, 0x00000018, 0x00000000, 0x00000000, 0x00000000);
    NextWordIs(m, 18, 0x61626380, 0x00000000, 0x00000000, 0x00000000);
    NextWordIs(m, 19, 0x000f0000, 0x00000000, 0x00000000, 0x00000000);
    NextWordIs(m, 20, 0x7da86405, 0x00000000, 0x00000000, 0x00000000);
    NextWordIs(m, 21, 0x600003c6, 0x00000000, 0x00000000, 0x00000000);
    NextWordIs(m, 22, 0x3e9d7b78, 0x00000018, 0x00000000, 0x00000000);
    NextWordIs(m, 23, 0x0183fc00, 0x61626380, 0x00000000, 0x00000000);
    NextWordIs(m, 24, 0x12dcbfdb, 0x000f0000, 0x00000000, 0x00000000);
    NextWordIs(m, 25, 0xe2e2c38e, 0x7da86405, 0x00000000, 0x00000000);
    NextWordIs(m, 26, 0xc8215c1a, 0x600003c6, 0x00000000, 0x00000000);
    NextWordIs(m, 27, 0xb73679a2, 0x3e9d7b78, 0x00000000, 0x00000000);
    NextWordIs(m, 28, 0xe5bc3909, 0x0183fc00, 0x00000000, 0x00000000);
    NextWordIs(m, 29, 0x32663c5b, 0x12dcbfdb, 0x00000000, 0x00000000);
    NextWordIs(m, 30, 0x9d209d67, 0xe2e2c38e, 0x00000018, 0x00000000);
    NextWordIs(m, 31, 0xec8726cb, 0xc8215c1a, 0x61626380, 0x00000018);
  }

  lemma Words32(m: seq<Word>)
    requires |m| == 16
    requires Schedule(m, 16) == 0x61626380 && Schedule(m, 17) == 0x000f0000 && Schedule(m, 18) == 0x7da86405
    requires Schedule(m, 19) == 0x600003c6 && Schedule(m, 20) == 0x3e9d7b78 && Schedule(m, 21) == 0x0183fc00
    requires Schedule(m, 22) == 0x12dcbfdb && Schedule(m, 23) == 0xe2e2c38e && Schedule(m, 24) == 0xc8215c1a
    requires Schedule(m, 25) == 0xb73679a2 && Schedule(m, 26) == 0xe5bc3909 && Schedule(m, 27) == 0x32663c5b
    requires Schedule(m, 28) == 0x9d209d67 && Schedule(m, 29) == 0xec8726cb && Schedule(m, 30) == 0x702138a4
    requires Schedule(m, 31) == 0xd3b7973b
    ensures Schedule(m, 32) == 0x93f5997f && Schedule(m, 33) == 0x3b68ba73 && Schedule(m, 34) == 0xaff4ffc1
    ensures Schedule(m, 35) == 0xf10a5c62 && Schedule(m, 36) == 0x0a8b3996 && Schedule(m, 37) == 0x72af830a
    ensures Schedule(m, 38) == 0x9409e33e && Schedule(m, 39) == 0x24641522 && Schedule(m, 40) == 0x9f47bf94
    ensures Schedule(m, 41) == 0xf0a64f5a && Schedule(m, 42) == 0x3e246a79 && Schedule(m, 43) == 0x27333ba3
    ensures Schedule(m, 44) == 0x0c4763f2 && Schedule(m, 45) == 0x840abf27 && Schedule(m, 46) == 0x7a290d5d
    ensures Schedule(m, 47) == 0x065c43da
  {
    hide Schedule;
    NextWordIs(m, 32, 0x702138a4, 0xb73679a2, 0x000f0000, 0x61626380);
    NextWordIs(m, 33, 0xd3b7973b, 0xe5bc3909, 0x7da86405, 0x000f0000);
    NextWordIs(m, 34, 0x93f5997f, 0x32663c5b, 0x600003c6, 0x7da86405);
    NextWordIs(m, 35, 0x3b68ba73, 0x9d209d67, 0x3e9d7b78, 0x600003c6);
    NextWordIs(m, 36, 0xaff4ffc1, 0xec8726cb, 0x0183fc00, 0x3e9d7b78);
    NextWordIs(m, 37, 0xf10a5c62, 0x702138a4, 0x12dcbfdb, 0x0183fc00);
    NextWordIs(m, 38, 0x0a8b3996, 0xd3b7973b, 0xe2e2c38e, 0x12dcbfdb);
    NextWordIs(m, 39, 0x72af830a, 0x93f5997f, 0xc8215c1a, 0xe2e2c38e);
    NextWordIs(m, 40, 0x9409e33e, 0x3b68ba73, 0xb73679a2, 0xc8215c1a);
    NextWordIs(m, 41, 0x24641522, 0xaff4ffc1, 0xe5bc3909, 0xb73679a2);
    NextWordIs(m, 42, 0x9f47bf94, 0xf10a5c62, 0x32663c5b, 0xe5bc3909);
    NextWordIs(m, 43, 0xf0a64f5a, 0x0a8b3996, 0x9d209d67, 0x32663c5b);
    NextWordIs(m, 44, 0x3e246a79, 0x72af830a, 0xec8726cb, 0x9d209d67);
    NextWordIs(m, 45, 0x27333ba3, 0x9409e33e, 0x702138a4, 0xec8726cb);
    NextWordIs(m, 46, 0x0c4763f2, 0x24641522, 0xd3b7973b, 0x702138a4);
    NextWordIs(m, 47, 0x840abf27, 0x9f47bf94, 0x93f5997f, 0xd3b7973b);
  }

  lemma Words48(m: seq<Word>)
    requires |m| == 16
    requires Schedule(m, 32) == 0x93f5997f && Schedule(m, 33) == 0x3b68ba73 && Schedule(m, 34) == 0xaff4ffc1
    requires Schedule(m, 35) == 0xf10a5c62 && Schedule(m, 36) == 0x0a8b3996 && Schedule(m, 37) == 0x72af830a
    requires Schedule(m, 38) == 0x9409e33e && Schedule(m, 39) == 0x24641522 && Schedule(m, 40) == 0x9f47bf94
    requires Schedule(m, 41) == 0xf0a64f5a && Schedule(m, 42) == 0x3e246a79 && Schedule(m, 43) == 0x27333ba3
    requires Schedule(m, 44) == 0x0c4763f2 && Schedule(m, 45) == 0x840abf27 && Schedule(m, 46) == 0x7a290d5d
    requires Schedule(m, 47) == 0x065c43da
    ensures Schedule(m, 48) == 0xfb3e89cb && Schedule(m, 49) == 0xcc7617db && Schedule(m, 50) == 0xb9e66c34
    ensures Schedule(m, 51) == 0xa9993667 && Schedule(m, 52) == 0x84badedd && Schedule(m, 53) == 0xc21462bc
    ensures Schedule(m, 54) == 0x1487472c && Schedule(m, 55) == 0xb20f7a99 && Schedule(m, 56) == 0xef57b9cd
    ensures Schedule(m, 57) == 0xebe6b238 && Schedule(m, 58) == 0x9fe3095e && Schedule(m, 59) == 0x78bc8d4b
    ensures Schedule(m, 60) == 0xa43fcf15 && Schedule(m, 61) == 0x668b2ff8 && Schedule(m, 62) == 0xeeaba2cc
    ensures Schedule(m, 63) == 0x12b1edeb
  {
    hide Schedule;
    NextWordIs(m, 48, 0x7a290d5d, 0xf0a64f5a, 0x3b68ba73, 0x93f5997f);
    NextWordIs(m, 49, 0x065c43da, 0x3e246a79, 0xaff4ffc1, 0x3b68ba73);
    NextWordIs(m, 50, 0xfb3e89cb, 0x27333ba3, 0xf10a5c62, 0xaff4ffc1);
    NextWordIs(m, 51, 0xcc7617db, 0x0c4763f2, 0x0a8b3996, 0xf10a5c62);
    NextWordIs(m, 52, 0xb9e66c34, 0x840abf27, 0x72af830a, 0x0a8b3996);
    NextWordIs(m, 53, 0xa9993667, 0x7a290d5d, 0x9409e33e, 0x72af830a);
    NextWordIs(m, 54, 0x84badedd, 0x065c43da, 0x24641522, 0x9409e33e);
    NextWordIs(m, 55, 0xc21462bc, 0xfb3e89cb, 0x9f47bf94, 0x24641522);
    NextWordIs(m, 56, 0x1487472c, 0xcc7617db, 0xf0a64f5a, 0x9f47bf94);
    NextWordIs(m, 57, 0xb20f7a99, 0xb9e66c34, 0x3e246a79, 0xf0a64f5a);
    NextWordIs(m, 58, 0xef57b9cd, 0xa9993667, 0x27333ba3, 0x3e246a79);
    NextWordIs(m, 59, 0xebe6b238, 0x84badedd, 0x0c4763f2, 0x27333ba3);
    NextWordIs(m, 60, 0x9fe3095e, 0xc21462bc, 0x840abf27, 0x0c4763f2);
    NextWordIs(m, 61, 0x78bc8d4b, 0x1487472c, 0x7a290d5d, 0x840abf27);
    NextWordIs(m, 62, 0xa43fcf15, 0xb20f7a99, 0x065c43da, 0x7a290d5d);
    NextWordIs(m, 63, 0x668b2ff8, 0xef57b9cd, 0xfb3e89cb, 0x065c43da);
  }

  lemma Rounds0(v: Vars, m: seq<Word>)
    requires |m| == 16
    requires Rounds(v, m, 0) ==
      Vars(0x6a09e667, 0xbb67ae85, 0x3c6ef372, 0xa54ff53a, 0x510e527f, 0x9b05688c, 0x1f83d9ab, 0x5be0cd19)
    requires Schedule(m, 0) == 0x61626380 && Schedule(m, 1) == 0x00000000 && Schedule(m, 2) == 0x00000000
    requires Schedule(m, 3) == 0x00000000 && Schedule(m, 4) == 0x00000000 && Schedule(m, 5) == 0x00000000
    requires Schedule(m, 6) == 0x00000000 && Schedule(m, 7) == 0x00000000
    ensures Rounds(v, m, 8) ==
      Vars(0x85a07b5f, 0xe5030380, 0x2b4209f5, 0x04409a6a, 0x0c657a79, 0x9b27a401, 0x714260ad, 0x43ada245)
  {
    hide Rounds, Schedule, KAt;
    Values0();
    NextRound(v, m, 0);
    NextRound(v, m, 1);
    NextRound(v, m, 2);
    NextRound(v, m, 3);
    NextRound(v, m, 4);
    NextRound(v, m, 5);
    NextRound(v, m, 6);
    NextRound(v, m, 7);
  }

  lemma Rounds8(v: Vars, m: seq<Word>)
    requires |m| == 16
    requires Rounds(v, m, 8) ==
      Vars(0x85a07b5f, 0xe5030380, 0x2b4209f5, 0x04409a6a, 0x0c657a79, 0x9b27a401, 0x714260ad, 0x43ada245)
    requires Schedule(m, 8) == 0x00000000 && Schedule(m, 9) == 0x00000000 && Schedule(m, 10) == 0x00000000
    requires Schedule(m, 11) == 0x00000000 && Schedule(m, 12) == 0x00000000 && Schedule(m, 13) == 0x00000000
    requires Schedule(m, 14) == 0x00000000 && Schedule(m, 15) == 0x00000018
    ensures Rounds(v, m, 16) ==
      Vars(0xb0fa238e, 0xc0645fde, 0xd932eb16, 0x87912990, 0x07590dcd, 0x0b92f20c, 0x745a48de, 0x1e578218)
  {
    hide Rounds, Schedule, KAt;
    Values8();
    NextRound(v, m, 8);
    NextRound(v, m, 9);
    NextRound(v, m, 10);
    NextRound(v, m, 11);
    NextRound(v, m, 12);
    NextRound(v, m, 13);
    NextRound(v, m, 14);
    NextRound(v, m, 15);
  }

  lemma Rounds16(v: Vars, m: seq<Word>)
    requires |m| == 16
    requires Rounds(v, m, 16) ==
      Vars(0xb0fa238e, 0xc0645fde, 0xd932eb16, 0x87912990, 0x07590dcd, 0x0b92f20c, 0x745a48de, 0x1e578218)
    requires Schedule(m, 16) == 0x61626380 && Schedule(m, 17) == 0x000f0000 && Schedule(m, 18) == 0x7da86405
    requires Schedule(m, 19) == 0x600003c6 && Schedule(m, 20) == 0x3e9d7b78 && Schedule(m, 21) == 0x0183fc00
    requires Schedule(m, 22) == 0x12dcbfdb && Schedule(m, 23) == 0xe2e2c38e
    ensures Rounds(v, m, 24) ==
      Vars(0xc5d53d8d, 0xa7a3623f, 0xc2606d6d, 0x9dc68b63, 0xaa47c347, 0x49f5114a, 0xe1257970, 0x8ada8930)
  {
    hide Rounds, Schedule, KAt;
    Values16();
    NextRound(v, m, 16);
    NextRound(v, m, 17);
    NextRound(v, m, 18);
    NextRound(v, m, 19);
    NextRound(v, m, 20);
    NextRound(v, m, 21);
    NextRound(v, m, 22);
    NextRound(v, m, 23);
  }

  lemma Rounds24(v: Vars, m: seq<Word>)
    requires |m| == 16
    requires Rounds(v, m, 24) ==
      Vars(0xc5d53d8d, 0xa7a3623f, 0xc2606d6d, 0x9dc68b63, 0xaa47c347, 0x49f5114a, 0xe1257970, 0x8ada8930)
    requires Schedule(m, 24) == 0xc8215c1a && Schedule(m, 25) == 0xb73679a2 && Schedule(m, 26) == 0xe5bc3909
    requires Schedule(m, 27) == 0x32663c5b && Schedule(m, 28) == 0x9d209d67 && Schedule(m, 29) == 0xec8726cb
    requires Schedule(m, 30) == 0x702138a4 && Schedule(m, 31) == 0xd3b7973b
    ensures Rounds(v, m, 32) ==
      Vars(0x73b33bf5, 0xea992a22, 0xa0060b30, 0x363482c9, 0xba591112, 0x0109ab3a, 0xade79437, 0x6112a3b7)
  {
    hide Rounds, Schedule, KAt;
    Values24();
    NextRound(v, m, 24);
    NextRound(v, m, 25);
    NextRound(v, m, 26);
    NextRound(v, m, 27);
    NextRound(v, m, 28);
    NextRound(v, m, 29);
    NextRound(v, m, 30);
    NextRound(v, m, 31);
  }

  lemma Rounds32(v: Vars, m: seq<Word>)
    requires |m| == 16
    requires Rounds(v, m, 32) ==
      Vars(0x73b33bf5, 0xea992a22, 0xa0060b30, 0x363482c9, 0xba591112, 0x0109ab3a, 0xade79437, 0x6112a3b7)
    requires Schedule(m, 32) == 0x93f5997f && Schedule(m, 33) == 0x3b68ba73 && Schedule(m, 34) == 0xaff4ffc1
    requires Schedule(m, 35) == 0xf10a5c62 && Schedule(m, 36) == 0x0a8b3996 && Schedule(m, 37) == 0x72af830a
    requires Schedule(m, 38) == 0x9409e33e && Schedule(m, 39) == 0x24641522
    ensures Rounds(v, m, 40) ==
      Vars(0x79ea687a, 0x6dc57a8a, 0x34df1604, 0x41a65cb1, 0x1efbc0a0, 0xf0781bc8, 0xa507a53d, 0x0772a26b)
  {
    hide Rounds, Schedule, KAt;
    Values32();
    NextRound(v, m, 32);
    NextRound(v, m, 33);
    NextRound(v, m, 34);
    NextRound(v, m, 35);
    NextRound(v, m, 36);
    NextRound(v, m, 37);
    NextRound(v, m, 38);
    NextRound(v, m, 39);
  }

  lemma Rounds40(v: Vars, m: seq<Word>)
    requires |m| == 16
    requires Rounds(v, m, 40) ==
      Vars(0x79ea687a, 0x6dc57a8a, 0x34df1604, 0x41a65cb1, 0x1efbc0a0, 0xf0781bc8, 0xa507a53d, 0x0772a26b)
    requires Schedule(m, 40) == 0x9f47bf94 && Schedule(m, 41) == 0xf0a64f5a && Schedule(m, 42) == 0x3e246a79
    requires Schedule(m, 43) == 0x27333ba3 && Schedule(m, 44) == 0x0c4763f2 && Schedule(m, 45) == 0x840abf27
    requires Schedule(m, 46) == 0x7a290d5d && Schedule(m, 47) == 0x065c43da
    ensures Rounds(v, m, 48) ==
      Vars(0x4172328d, 0xa14c14b0, 0x72ab4b91, 0x26628815, 0xfecf0bc6, 0xd57b94a9, 0xb7755da1, 0xa80f11f0)
  {
    hide Rounds, Schedule, KAt;
    Values40();
    NextRound(v, m, 40);
    NextRound(v, m, 41);
    NextRound(v, m, 42);
    NextRound(v, m, 43);
    NextRound(v, m, 44);
    NextRound(v, m, 45);
    NextRound(v, m, 46);
    NextRound(v, m, 47);
  }

  lemma Rounds48(v: Vars, m: seq<Word>)
    requires |m| == 16
    requires Rounds(v, m, 48) ==
      Vars(0x4172328d, 0xa14c14b0, 0x72ab4b91, 0x26628815, 0xfecf0bc6, 0xd57b94a9, 0xb7755da1, 0xa80f11f0)
    requires Schedule(m, 48) == 0xfb3e89cb && Schedule(m, 49) == 0xcc7617db && Schedule(m, 50) == 0xb9e66c34
    requires Schedule(m, 51) == 0xa9993667 && Schedule(m, 52) == 0x84badedd && Schedule(m, 53) == 0xc21462bc
    requires Schedule(m, 54) == 0x1487472c && Schedule(m, 55) == 0xb20f7a99
    ensures Rounds(v, m, 56) ==
      Vars(0x38cc9913, 0x3ec45cdb, 0xf5702fdb, 0x101fd28f, 0x54cb266b, 0xe50e1b4f, 0x9f4787c3, 0x529e7d00)
  {
    hide Rounds, Schedule, KAt;
    Values48();
    NextRound(v, m, 48);
    NextRound(v, m, 49);
    NextRound(v, m, 50);
    NextRound(v, m, 51);
    NextRound(v, m, 52);
    NextRound(v, m, 53);
    NextRound(v, m, 54);
    NextRound(v, m, 55);
  }

  lemma Rounds56(v: Vars, m: seq<Word>)
    requires |m| == 16
    requires Rounds(v, m, 56) ==
      Vars(0x38cc9913, 0x3ec45cdb, 0xf5702fdb, 0x101fd28f, 0x54cb266b, 0xe50e1b4f, 0x9f4787c3, 0x529e7d00)
    requires Schedule(m, 56) == 0xef57b9cd && Schedule(m, 57) == 0xebe6b238 && Schedule(m, 58) == 0x9fe3095e
    requires Schedule(m, 59) == 0x78bc8d4b && Schedule(m, 60) == 0xa43fcf15 && Schedule(m, 61) == 0x668b2ff8
    requires Schedule(m, 62) == 0xeeaba2cc && Schedule(m, 63) == 0x12b1edeb
    ensures Rounds(v, m, 64) ==
      Vars(0x506e3058, 0xd39a2165, 0x04d24d6c, 0xb85e2ce9, 0x5ef50f24, 0xfb121210, 0x948d25b6, 0x961f4894)
  {
    hide Rounds, Schedule, KAt;
    Values56();
    NextRound(v, m, 56);
    NextRound(v, m, 57);
    NextRound(v, m, 58);
    NextRound(v, m, 59);
    NextRound(v, m, 60);
    NextRound(v, m, 61);
    NextRound(v, m, 62);
    NextRound(v, m, 63);
  }

  lemma AllRoundsOf(m: seq<Word>)
    requires Block(m)
    ensures Rounds(OfSeq(H0), m, 64) ==
      Vars(0x506e3058, 0xd39a2165, 0x04d24d6c, 0xb85e2ce9, 0x5ef50f24, 0xfb121210, 0x948d25b6, 0x961f4894)
  {
    assert |m| == 16;
    hide Block, Schedule;
    Words0(m);
    Words16(m);
    Words32(m);
    Words48(m);
    assert Rounds(OfSeq(H0), m, 0) ==
      Vars(0x6a09e667, 0xbb67ae85, 0x3c6ef372, 0xa54ff53a, 0x510e527f, 0x9b05688c, 0x1f83d9ab, 0x5be0cd19);
    hide Rounds, OfSeq;
    Rounds0(OfSeq(H0), m);
    Rounds8(OfSeq(H0), m);
    Rounds16(OfSeq(H0), m);
    Rounds24(OfSeq(H0), m);
    Rounds32(OfSeq(H0), m);
    Rounds40(OfSeq(H0), m);
    Rounds48(OfSeq(H0), m);
    Rounds56(OfSeq(H0), m);
  }

  lemma CompressedBlock(m: seq<Word>)
    requires Block(m)
    ensures Compress(H0, m) == [0xba7816bf, 0x8f01cfea, 0x414140de, 0x5dae2223,
      0xb00361a3, 0x96177a9c, 0xb410ff61, 0xf20015ad]
  {
    hide Block, Rounds;
    AllRoundsOf(m);
  }

  lemma PaddedAbc()
    ensures |Padding(ABC)| == BLOCK && Padding(ABC)[0..4] == [0x61, 0x62, 0x63, 0x80]
    ensures forall i :: 4 <= i < 63 ==> Padding(ABC)[i] == 0
    ensures Padding(ABC)[63] == 24
  {
    assert ZeroCount(3) == 52;
    hide ZeroCount;
    assert Pow256(1) == 256 && 24 / 256 == 0;
    LengthOf24();
    hide BigEndian;
  }

  /** The eight bytes of the length in bits. */
  lemma LengthOf24()
    ensures BigEndian(24, 8) == [0, 0, 0, 0, 0, 0, 0, 24]
  {
    Pow256IsLarge(1);
    Pow256IsLarge(2);
    Pow256IsLarge(3);
    Pow256IsLarge(4);
    Pow256IsLarge(5);
    Pow256IsLarge(6);
    Pow256IsLarge(7);
    assert Pow256(0) == 1;
    hide Pow256;
    assert |BigEndian(24, 8)| == 8;
  }

  lemma {:induction false} Pow256IsLarge(k: nat)
    requires k > 0
    ensures Pow256(k) >= 256 && 24 / Pow256(k) % 256 == 0
  {
    if k > 1 { Pow256IsLarge(k - 1); }
    hide Pow256;
    DivIs(24, Pow256(k), 0, 24);
  }

  lemma KnownBytes()
    ensures Wide(0) == 0 && Wide(0x61) == 0x61 && Wide(0x62) == 0x62 && Wide(0x63) == 0x63 && Wide(0x80) == 0x80
    ensures Wide(24) == 24
  {
    WideIs(0);
    WideIs(0x61);
    WideIs(0x62);
    WideIs(0x63);
    WideIs(0x80);
    WideIs(24);
    hide Wide;
  }

  lemma BlockOfAbc()
    ensures |Padding(ABC)| == BLOCK && Block(Words(Padding(ABC)))
  {
    PaddedAbc();
    KnownBytes();
    hide Padding, Wide;
    var p := Padding(ABC);
    assert p[0] == p[0..4][0] && p[1] == p[0..4][1] && p[2] == p[0..4][2] && p[3] == p[0..4][3];
  }

  /** The digest of "abc". */
  lemma DigestOfAbc()
    ensures Digest(ABC) == DIGEST
  {
    BlockOfAbc();
    var p := Padding(ABC);
    OneBlock(p);
    CompressedBlock(Words(p));
    hide Padding, Words, Compress, Block;
    Written();
  }

  lemma OneBlock(p: seq<Byte>)
    requires |p| == BLOCK
    ensures Fold(BlockHash, H0, p) == Compress(H0, Words(p))
  {
    hide Compress, Words;
    assert p[..BLOCK] == p && p[BLOCK..] == [];
    assert |H0| == 8;
    assert Fold(BlockHash, BlockHash(H0, p), []) == BlockHash(H0, p);
  }

  /** One more word written. */
  lemma Write(ws: seq<Word>, w: Word, k: nat)
    requires k < 8 && Serialized(ws) == DIGEST[..4 * k]
    requires ByteOf(w, 24) == DIGEST[4 * k] && ByteOf(w, 16) == DIGEST[4 * k + 1]
    requires ByteOf(w, 8) == DIGEST[4 * k + 2] && ByteOf(w, 0) == DIGEST[4 * k + 3]
    ensures Serialized(ws + [w]) == DIGEST[..4 * (k + 1)]
  {
    hide ByteOf, Serialized;
    SerializedSnoc(ws, w);
  }

  lemma Written1()
    ensures Serialized([0xba7816bf]) == DIGEST[..4]
  {
    NothingWritten();
    hide Serialized;
    var ws: seq<Word> := [];
    Write(ws, 0xba7816bf, 0);
    assert ws + [0xba7816bf] == [0xba7816bf];
  }

  lemma Written2()
    ensures Serialized([0xba7816bf, 0x8f01cfea]) == DIGEST[..8]
  {
    Written1();
    hide Serialized;
    var ws: seq<Word> := [0xba7816bf];
    Write(ws, 0x8f01cfea, 1);
    assert ws + [0x8f01cfea] == [0xba7816bf, 0x8f01cfea];
  }

  lemma Written3()
    ensures Serialized([0xba7816bf, 0x8f01cfea, 0x414140de]) == DIGEST[..12]
  {
    Written2();
    hide Serialized;
    var ws: seq<Word> := [0xba7816bf, 0x8f01cfea];
    Write(ws, 0x414140de, 2);
    assert ws + [0x414140de] == [0xba7816bf, 0x8f01cfea, 0x414140de];
  }

  lemma Written4()
    ensures Serialized([0xba7816bf, 0x8f01cfea, 0x414140de, 0x5dae2223]) == DIGEST[..16]
  {
    Written3();
    hide Serialized;
    var ws: seq<Word> := [0xba7816bf, 0x8f01cfea, 0x414140de];
    Write(ws, 0x5dae2223, 3);
    assert ws + [0x5dae2223] == [0xba7816bf, 0x8f01cfea, 0x414140de, 0x5dae2223];
  }

  lemma Written5()
    ensures Serialized([0xba7816bf, 0x8f01cfea, 0x414140de, 0x5dae2223,
      0xb00361a3]) == DIGEST[..20]
  {
    Written4();
    hide Serialized;
    var ws: seq<Word> := [0xba7816bf, 0x8f01cfea, 0x414140de, 0x5dae2223];
    Write(ws, 0xb00361a3, 4);
    assert ws + [0xb00361a3] == [0xba7816bf, 0x8f01cfea, 0x414140de, 0x5dae2223,
      0xb00361a3];
  }

  lemma Written6()
    ensures Serialized([0xba7816bf, 0x8f01cfea, 0x414140de, 0x5dae2223,
      0xb00361a3, 0x96177a9c]) == DIGEST[..24]
  {
    Written5();
    hide Serialized;
    var ws: seq<Word> := [0xba7816bf, 0x8f01cfea, 0x414140de, 0x5dae2223,
      0xb00361a3];
    Write(ws, 0x96177a9c, 5);
    assert ws + [0x96177a9c] == [0xba7816bf, 0x8f01cfea, 0x414140de, 0x5dae2223,
      0xb00361a3, 0x96177a9c];
  }

  lemma Written7()
    ensures Serialized([0xba7816bf, 0x8f01cfea, 0x414140de, 0x5dae2223,
      0xb00361a3, 0x96177a9c, 0xb410ff61]) == DIGEST[..28]
  {
    Written6();
    hide Serialized;
    var ws: seq<Word> := [0xba7816bf, 0x8f01cfea, 0x414140de, 0x5dae2223,
      0xb00361a3, 0x96177a9c];
    Write(ws, 0xb410ff61, 6);
    assert ws + [0xb410ff61] == [0xba7816bf, 0x8f01cfea, 0x414140de, 0x5dae2223,
      0xb00361a3, 0x96177a9c, 0xb410ff61];
  }

  lemma Written8()
    ensures Serialized([0xba7816bf, 0x8f01cfea, 0x414140de, 0x5dae2223,
      0xb00361a3, 0x96177a9c, 0xb410ff61, 0xf20015ad]) == DIGEST[..32]
  {
    Written7();
    hide Serialized;
    var ws: seq<Word> := [0xba7816bf, 0x8f01cfea, 0x414140de, 0x5dae2223,
      0xb00361a3, 0x96177a9c, 0xb410ff61];
    Write(ws, 0xf20015ad, 7);
    assert ws + [0xf20015ad] == [0xba7816bf, 0x8f01cfea, 0x414140de, 0x5dae2223,
      0xb00361a3, 0x96177a9c, 0xb410ff61, 0xf20015ad];
  }

  lemma Written()
    ensures Serialized([0xba7816bf, 0x8f01cfea, 0x414140de, 0x5dae2223,
      0xb00361a3, 0x96177a9c, 0xb410ff61, 0xf20015ad]) == DIGEST
  {
    Written8();
    hide Serialized;
    assert DIGEST[..32] == DIGEST;
  }

  lemma NothingWritten()
    ensures Serialized([]) == []
  {
  }
}
