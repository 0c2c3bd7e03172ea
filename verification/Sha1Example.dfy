// The example of FIPS 180-4 for a message of one block: the digest of "abc", word by word and round by round.

module Sha1Example {
  import opened Bytes
  import opened Sha1Standard

  const ABC: bytes := [0x61, 0x62, 0x63]

  // Word t by the words before it, as section 6.1.2 has it in step 1.
  function WordAt(block: bytes, w: seq<word>, t: nat): word
    requires |block| == BLOCK && t <= |w| && t < 80
  {
    if t < 16 then Word(block[4 * t], block[4 * t + 1], block[4 * t + 2], block[4 * t + 3])
    else Rotl(1, w[t - 3] ^ w[t - 8] ^ w[t - 14] ^ w[t - 16])
  }

  lemma {:induction false} ScheduleAt(block: bytes, n: nat, t: nat)
    requires |block| == BLOCK && t < n <= 80
    ensures Schedule(block, n)[t] == WordAt(block, Schedule(block, n), t)
  {
    hide Schedule, WordAt;
    var before := Schedule(block, n - 1);
    LastWord(block, n - 1);
    SameWord(block, before, Schedule(block, n), t);
    if t < n - 1 {
      ScheduleAt(block, n - 1, t);
    }
  }

  lemma LastWord(block: bytes, t: nat)
    requires |block| == BLOCK && t < 80
    ensures Schedule(block, t + 1) == Schedule(block, t) + [WordAt(block, Schedule(block, t), t)]
  {
    hide Word, Rotl;
    if t < 16 {
      assert WordAt(block, Schedule(block, t), t)
          == Word(block[4 * t], block[4 * t + 1], block[4 * t + 2], block[4 * t + 3]);
    }
  }

  lemma SameWord(block: bytes, w: seq<word>, more: seq<word>, t: nat)
    requires |block| == BLOCK && w <= more && t <= |w| && t < 80
    ensures WordAt(block, more, t) == WordAt(block, w, t)
  {
    hide Word, Rotl;
  }

  // The padded message.
  lemma AbcIsPadded()
    ensures var p := Pad(ABC);
      && |p| == 64 && p[..4] == [0x61, 0x62, 0x63, 0x80]
      && (forall i :: 4 <= i < 63 ==> p[i] == 0) && p[63] == 24
  {
    assert ZeroCount(3) == 52;
    AbcLength();
  }

  lemma AbcLength()
    ensures Big(24, 8) == [0, 0, 0, 0, 0, 0, 0, 24]
  {
    assert Big(0, 0) == [] && Big(0, 1) == [0] && Big(0, 2) == [0, 0] && Big(0, 3) == [0, 0, 0];
    assert Big(0, 4) == [0, 0, 0, 0] && Big(0, 5) == [0, 0, 0, 0, 0] && Big(0, 6) == [0, 0, 0, 0, 0, 0];
    assert Big(0, 7) == [0, 0, 0, 0, 0, 0, 0];
  }

  lemma AbcWords()
    ensures Word(0x61, 0x62, 0x63, 0x80) == 0x6162_6380 && Word(0, 0, 0, 0) == 0 && Word(0, 0, 0, 24) == 0x18
  {}

  lemma Words16(w: seq<word>)
    requires w == Schedule(Pad(ABC), 80) && |Pad(ABC)| == 64
    ensures w[0] == 0x6162_6380 && (forall t :: 1 <= t < 15 ==> w[t] == 0) && w[15] == 0x18
  {
    hide Word, Schedule, Pad;
    AbcIsPadded();
    AbcWords();
    var p := Pad(ABC);
    assert p[0] == p[..4][0] && p[1] == p[..4][1] && p[2] == p[..4][2] && p[3] == p[..4][3];
    ScheduleAt(p, 80, 0);
    ScheduleAt(p, 80, 15);
    forall t | 1 <= t < 15 ensures w[t] == 0 {
      ScheduleAt(p, 80, t);
    }
  }

  lemma Words16To24(block: bytes, w: seq<word>)
    requires |block| == BLOCK && w == Schedule(block, 80)
    requires w[0] == 0x6162_6380 && w[1] == 0x0000_0000 && w[2] == 0x0000_0000 && w[3] == 0x0000_0000 &&
             w[4] == 0x0000_0000 && w[5] == 0x0000_0000 && w[6] == 0x0000_0000 && w[7] == 0x0000_0000 &&
             w[8] == 0x0000_0000 && w[9] == 0x0000_0000 && w[10] == 0x0000_0000 && w[11] == 0x0000_0000 &&
             w[12] == 0x0000_0000 && w[13] == 0x0000_0000 && w[14] == 0x0000_0000 && w[15] == 0x0000_0018
    ensures w[16] == 0xc2c4_c700 && w[17] == 0x0000_0000 && w[18] == 0x0000_0030 && w[19] == 0x8589_8e01 &&
            w[20] == 0x0000_0000 && w[21] == 0x0000_0060 && w[22] == 0x0b13_1c03 && w[23] == 0x0000_0030
  {
    hide Schedule, Word;
    ScheduleAt(block, 80, 16);
    assert w[16] == 0xc2c4_c700;
    ScheduleAt(block, 80, 17);
    assert w[17] == 0x0000_0000;
    ScheduleAt(block, 80, 18);
    assert w[18] == 0x0000_0030;
    ScheduleAt(block, 80, 19);
    assert w[19] == 0x8589_8e01;
    ScheduleAt(block, 80, 20);
    assert w[20] == 0x0000_0000;
    ScheduleAt(block, 80, 21);
    assert w[21] == 0x0000_0060;
    ScheduleAt(block, 80, 22);
    assert w[22] == 0x0b13_1c03;
    ScheduleAt(block, 80, 23);
    assert w[23] == 0x0000_0030;
  }

  lemma Words24To32(block: bytes, w: seq<word>)
    requires |block| == BLOCK && w == Schedule(block, 80)
    requires w[8] == 0x0000_0000 && w[9] == 0x0000_0000 && w[10] == 0x0000_0000 && w[11] == 0x0000_0000 &&
             w[12] == 0x0000_0000 && w[13] == 0x0000_0000 && w[14] == 0x0000_0000 && w[15] == 0x0000_0018 &&
             w[16] == 0xc2c4_c700 && w[17] == 0x0000_0000 && w[18] == 0x0000_0030 && w[19] == 0x8589_8e01 &&
             w[20] == 0x0000_0000 && w[21] == 0x0000_0060 && w[22] == 0x0b13_1c03 && w[23] == 0x0000_0030
    ensures w[24] == 0x8589_8ec1 && w[25] == 0x1626_3806 && w[26] == 0x0000_0000 && w[27] == 0x0000_0180 &&
            w[28] == 0x2c4c_700c && w[29] == 0x0000_00f0 && w[30] == 0x93af_b507 && w[31] == 0x5898_e048
  {
    hide Schedule, Word;
    ScheduleAt(block, 80, 24);
    assert w[24] == 0x8589_8ec1;
    ScheduleAt(block, 80, 25);
    assert w[25] == 0x1626_3806;
    ScheduleAt(block, 80, 26);
    assert w[26] == 0x0000_0000;
    ScheduleAt(block, 80, 27);
    assert w[27] == 0x0000_0180;
    ScheduleAt(block, 80, 28);
    assert w[28] == 0x2c4c_700c;
    ScheduleAt(block, 80, 29);
    assert w[29] == 0x0000_00f0;
    ScheduleAt(block, 80, 30);
    assert w[30] == 0x93af_b507;
    ScheduleAt(block, 80, 31);
    assert w[31] == 0x5898_e048;
  }

  lemma Words32To40(block: bytes, w: seq<word>)
    requires |block| == BLOCK && w == Schedule(block, 80)
    requires w[16] == 0xc2c4_c700 && w[17] == 0x0000_0000 && w[18] == 0x0000_0030 && w[19] == 0x8589_8e01 &&
             w[20] == 0x0000_0000 && w[21] == 0x0000_0060 && w[22] == 0x0b13_1c03 && w[23] == 0x0000_0030 &&
             w[24] == 0x8589_8ec1 && w[25] == 0x1626_3806 && w[26] == 0x0000_0000 && w[27] == 0x0000_0180 &&
             w[28] == 0x2c4c_700c && w[29] == 0x0000_00f0 && w[30] == 0x93af_b507 && w[31] == 0x5898_e048
    ensures w[32] == 0x8e9a_9202 && w[33] == 0x0000_0600 && w[34] == 0xb131_c0f0 && w[35] == 0x1626_3bc6 &&
            w[36] == 0x4ebe_d41e && w[37] == 0x6263_80a1 && w[38] == 0x1626_3806 && w[39] == 0x0000_18c0
  {
    hide Schedule, Word;
    ScheduleAt(block, 80, 32);
    assert w[32] == 0x8e9a_9202;
    ScheduleAt(block, 80, 33);
    assert w[33] == 0x0000_0600;
    ScheduleAt(block, 80, 34);
    assert w[34] == 0xb131_c0f0;
    ScheduleAt(block, 80, 35);
    assert w[35] == 0x1626_3bc6;
    ScheduleAt(block, 80, 36);
    assert w[36] == 0x4ebe_d41e;
    ScheduleAt(block, 80, 37);
    assert w[37] == 0x6263_80a1;
    ScheduleAt(block, 80, 38);
    assert w[38] == 0x1626_3806;
    ScheduleAt(block, 80, 39);
    assert w[39] == 0x0000_18c0;
  }

  lemma Words40To48(block: bytes, w: seq<word>)
    requires |block| == BLOCK && w == Schedule(block, 80)
    requires w[24] == 0x8589_8ec1 && w[25] == 0x1626_3806 && w[26] == 0x0000_0000 && w[27] == 0x0000_0180 &&
             w[28] == 0x2c4c_700c && w[29] == 0x0000_00f0 && w[30] == 0x93af_b507 && w[31] == 0x5898_e048 &&
             w[32] == 0x8e9a_9202 && w[33] == 0x0000_0600 && w[34] == 0xb131_c0f0 && w[35] == 0x1626_3bc6 &&
             w[36] == 0x4ebe_d41e && w[37] == 0x6263_80a1 && w[38] == 0x1626_3806 && w[39] == 0x0000_18c0
    ensures w[40] == 0xd2e1_38c4 && w[41] == 0x0000_0f00 && w[42] == 0x3afb_5079 && w[43] == 0x898e_04e5 &&
            w[44] == 0xe2ba_3c2b && w[45] == 0x0000_60c0 && w[46] == 0x053a_37cd && w[47] == 0x7445_8547
  {
    hide Schedule, Word;
    ScheduleAt(block, 80, 40);
    assert w[40] == 0xd2e1_38c4;
    ScheduleAt(block, 80, 41);
    assert w[41] == 0x0000_0f00;
    ScheduleAt(block, 80, 42);
    assert w[42] == 0x3afb_5079;
    ScheduleAt(block, 80, 43);
    assert w[43] == 0x898e_04e5;
    ScheduleAt(block, 80, 44);
    assert w[44] == 0xe2ba_3c2b;
    ScheduleAt(block, 80, 45);
    assert w[45] == 0x0000_60c0;
    ScheduleAt(block, 80, 46);
    assert w[46] == 0x053a_37cd;
    ScheduleAt(block, 80, 47);
    assert w[47] == 0x7445_8547;
  }

  lemma Words48To56(block: bytes, w: seq<word>)
    requires |block| == BLOCK && w == Schedule(block, 80)
    requires w[32] == 0x8e9a_9202 && w[33] == 0x0000_0600 && w[34] == 0xb131_c0f0 && w[35] == 0x1626_3bc6 &&
             w[36] == 0x4ebe_d41e && w[37] == 0x6263_80a1 && w[38] == 0x1626_3806 && w[39] == 0x0000_18c0 &&
             w[40] == 0xd2e1_38c4 && w[41] == 0x0000_0f00 && w[42] == 0x3afb_5079 && w[43] == 0x898e_04e5 &&
             w[44] == 0xe2ba_3c2b && w[45] == 0x0000_60c0 && w[46] == 0x053a_37cd && w[47] == 0x7445_8547
    ensures w[48] == 0xda94_15ed && w[49] == 0x2638_0a16 && w[50] == 0x6263_83a1 && w[51] == 0x4ebf_54de &&
            w[52] == 0x3835_b44b && w[53] == 0x0000_f600 && w[54] == 0x1e84_c7a3 && w[55] == 0x98e0_4d98
  {
    hide Schedule, Word;
    ScheduleAt(block, 80, 48);
    assert w[48] == 0xda94_15ed;
    ScheduleAt(block, 80, 49);
    assert w[49] == 0x2638_0a16;
    ScheduleAt(block, 80, 50);
    assert w[50] == 0x6263_83a1;
    ScheduleAt(block, 80, 51);
    assert w[51] == 0x4ebf_54de;
    ScheduleAt(block, 80, 52);
    assert w[52] == 0x3835_b44b;
    ScheduleAt(block, 80, 53);
    assert w[53] == 0x0000_f600;
    ScheduleAt(block, 80, 54);
    assert w[54] == 0x1e84_c7a3;
    ScheduleAt(block, 80, 55);
    assert w[55] == 0x98e0_4d98;
  }

  lemma Words56To64(block: bytes, w: seq<word>)
    requires |block| == BLOCK && w == Schedule(block, 80)
    requires w[40] == 0xd2e1_38c4 && w[41] == 0x0000_0f00 && w[42] == 0x3afb_5079 && w[43] == 0x898e_04e5 &&
             w[44] == 0xe2ba_3c2b && w[45] == 0x0000_60c0 && w[46] == 0x053a_37cd && w[47] == 0x7445_8547 &&
             w[48] == 0xda94_15ed && w[49] == 0x2638_0a16 && w[50] == 0x6263_83a1 && w[51] == 0x4ebf_54de &&
             w[52] == 0x3835_b44b && w[53] == 0x0000_f600 && w[54] == 0x1e84_c7a3 && w[55] == 0x98e0_4d98
    ensures w[56] == 0x651d_16a0 && w[57] == 0x6265_8ca1 && w[58] == 0x4585_44d6 && w[59] == 0x4458_4cb7 &&
            w[60] == 0x7ba0_6619 && w[61] == 0x6380_aea2 && w[62] == 0x0ae5_5269 && w[63] == 0x627b_49a1
  {
    hide Schedule, Word;
    ScheduleAt(block, 80, 56);
    assert w[56] == 0x651d_16a0;
    ScheduleAt(block, 80, 57);
    assert w[57] == 0x6265_8ca1;
    ScheduleAt(block, 80, 58);
    assert w[58] == 0x4585_44d6;
    ScheduleAt(block, 80, 59);
    assert w[59] == 0x4458_4cb7;
    ScheduleAt(block, 80, 60);
    assert w[60] == 0x7ba0_6619;
    ScheduleAt(block, 80, 61);
    assert w[61] == 0x6380_aea2;
    ScheduleAt(block, 80, 62);
    assert w[62] == 0x0ae5_5269;
    ScheduleAt(block, 80, 63);
    assert w[63] == 0x627b_49a1;
  }

  lemma Words64To72(block: bytes, w: seq<word>)
    requires |block| == BLOCK && w == Schedule(block, 80)
    requires w[48] == 0xda94_15ed && w[49] == 0x2638_0a16 && w[50] == 0x6263_83a1 && w[51] == 0x4ebf_54de &&
             w[52] == 0x3835_b44b && w[53] == 0x0000_f600 && w[54] == 0x1e84_c7a3 && w[55] == 0x98e0_4d98 &&
             w[56] == 0x651d_16a0 && w[57] == 0x6265_8ca1 && w[58] == 0x4585_44d6 && w[59] == 0x4458_4cb7 &&
             w[60] == 0x7ba0_6619 && w[61] == 0x6380_aea2 && w[62] == 0x0ae5_5269 && w[63] == 0x627b_49a1
    ensures w[64] == 0x7cd4_5c9d && w[65] == 0x000f_0000 && w[66] == 0xfb50_753a && w[67] == 0xec67_65e8 &&
            w[68] == 0xba3c_2be2 && w[69] == 0x0060_c000 && w[70] == 0x3a37_cd05 && w[71] == 0x4585_46f4
  {
    hide Schedule, Word;
    ScheduleAt(block, 80, 64);
    assert w[64] == 0x7cd4_5c9d;
    ScheduleAt(block, 80, 65);
    assert w[65] == 0x000f_0000;
    ScheduleAt(block, 80, 66);
    assert w[66] == 0xfb50_753a;
    ScheduleAt(block, 80, 67);
    assert w[67] == 0xec67_65e8;
    ScheduleAt(block, 80, 68);
    assert w[68] == 0xba3c_2be2;
    ScheduleAt(block, 80, 69);
    assert w[69] == 0x0060_c000;
    ScheduleAt(block, 80, 70);
    assert w[70] == 0x3a37_cd05;
    ScheduleAt(block, 80, 71);
    assert w[71] == 0x4585_46f4;
  }

  lemma Words72To80(block: bytes, w: seq<word>)
    requires |block| == BLOCK && w == Schedule(block, 80)
    requires w[56] == 0x651d_16a0 && w[57] == 0x6265_8ca1 && w[58] == 0x4585_44d6 && w[59] == 0x4458_4cb7 &&
             w[60] == 0x7ba0_6619 && w[61] == 0x6380_aea2 && w[62] == 0x0ae5_5269 && w[63] == 0x627b_49a1 &&
             w[64] == 0x7cd4_5c9d && w[65] == 0x000f_0000 && w[66] == 0xfb50_753a && w[67] == 0xec67_65e8 &&
             w[68] == 0xba3c_2be2 && w[69] == 0x0060_c000 && w[70] == 0x3a37_cd05 && w[71] == 0x4585_46f4
    ensures w[72] == 0xb859_9dd6 && w[73] == 0x380a_1a26 && w[74] == 0x01e0_2203 && w[75] == 0xe7cc_3456 &&
            w[76] == 0xe6e6_0b69 && w[77] == 0x00f6_0a00 && w[78] == 0x5795_ef4f && w[79] == 0x822e_0879
  {
    hide Schedule, Word;
    ScheduleAt(block, 80, 72);
    assert w[72] == 0xb859_9dd6;
    ScheduleAt(block, 80, 73);
    assert w[73] == 0x380a_1a26;
    ScheduleAt(block, 80, 74);
    assert w[74] == 0x01e0_2203;
    ScheduleAt(block, 80, 75);
    assert w[75] == 0xe7cc_3456;
    ScheduleAt(block, 80, 76);
    assert w[76] == 0xe6e6_0b69;
    ScheduleAt(block, 80, 77);
    assert w[77] == 0x00f6_0a00;
    ScheduleAt(block, 80, 78);
    assert w[78] == 0x5795_ef4f;
    ScheduleAt(block, 80, 79);
    assert w[79] == 0x822e_0879;
  }

  lemma Rounds0To8(w: seq<word>)
    requires |w| == 80 && Rounds(H0, w, 0) == Hash(0x6745_2301, 0xefcd_ab89, 0x98ba_dcfe, 0x1032_5476, 0xc3d2_e1f0)
    requires w[0] == 0x6162_6380 && w[1] == 0x0000_0000 && w[2] == 0x0000_0000 && w[3] == 0x0000_0000 &&
             w[4] == 0x0000_0000 && w[5] == 0x0000_0000 && w[6] == 0x0000_0000 && w[7] == 0x0000_0000
    ensures Rounds(H0, w, 8) == Hash(0x9e8c_07d4, 0x993e_30c1, 0x0ff1_f290, 0xb3f5_2677, 0xf376_3846)
  {
    hide Rounds;
    NextRound(w, 0);
    assert Rounds(H0, w, 1) == Hash(0x0116_fc33, 0x6745_2301, 0x7bf3_6ae2, 0x98ba_dcfe, 0x1032_5476);
    NextRound(w, 1);
    assert Rounds(H0, w, 2) == Hash(0x8990_536d, 0x0116_fc33, 0x59d1_48c0, 0x7bf3_6ae2, 0x98ba_dcfe);
    NextRound(w, 2);
    assert Rounds(H0, w, 3) == Hash(0xa139_0f08, 0x8990_536d, 0xc045_bf0c, 0x59d1_48c0, 0x7bf3_6ae2);
    NextRound(w, 3);
    assert Rounds(H0, w, 4) == Hash(0xcdd8_e11b, 0xa139_0f08, 0x6264_14db, 0xc045_bf0c, 0x59d1_48c0);
    NextRound(w, 4);
    assert Rounds(H0, w, 5) == Hash(0xcfd4_99de, 0xcdd8_e11b, 0x284e_43c2, 0x6264_14db, 0xc045_bf0c);
    NextRound(w, 5);
    assert Rounds(H0, w, 6) == Hash(0x3fc7_ca40, 0xcfd4_99de, 0xf376_3846, 0x284e_43c2, 0x6264_14db);
    NextRound(w, 6);
    assert Rounds(H0, w, 7) == Hash(0x993e_30c1, 0x3fc7_ca40, 0xb3f5_2677, 0xf376_3846, 0x284e_43c2);
    NextRound(w, 7);
    assert Rounds(H0, w, 8) == Hash(0x9e8c_07d4, 0x993e_30c1, 0x0ff1_f290, 0xb3f5_2677, 0xf376_3846);
  }

  lemma Rounds8To16(w: seq<word>)
    requires |w| == 80 && Rounds(H0, w, 8) == Hash(0x9e8c_07d4, 0x993e_30c1, 0x0ff1_f290, 0xb3f5_2677, 0xf376_3846)
    requires w[8] == 0x0000_0000 && w[9] == 0x0000_0000 && w[10] == 0x0000_0000 && w[11] == 0x0000_0000 &&
             w[12] == 0x0000_0000 && w[13] == 0x0000_0000 && w[14] == 0x0000_0000 && w[15] == 0x0000_0018
    ensures Rounds(H0, w, 16) == Hash(0x20bd_d62f, 0x196b_ee77, 0x644a_3da5, 0x1181_ed99, 0x18c6_23f9)
  {
    hide Rounds;
    NextRound(w, 8);
    assert Rounds(H0, w, 9) == Hash(0x4b6a_e328, 0x9e8c_07d4, 0x664f_8c30, 0x0ff1_f290, 0xb3f5_2677);
    NextRound(w, 9);
    assert Rounds(H0, w, 10) == Hash(0x8351_f929, 0x4b6a_e328, 0x27a3_01f5, 0x664f_8c30, 0x0ff1_f290);
    NextRound(w, 10);
    assert Rounds(H0, w, 11) == Hash(0xfbda_9e89, 0x8351_f929, 0x12da_b8ca, 0x27a3_01f5, 0x664f_8c30);
    NextRound(w, 11);
    assert Rounds(H0, w, 12) == Hash(0x6318_8fe4, 0xfbda_9e89, 0x60d4_7e4a, 0x12da_b8ca, 0x27a3_01f5);
    NextRound(w, 12);
    assert Rounds(H0, w, 13) == Hash(0x4607_b664, 0x6318_8fe4, 0x7ef6_a7a2, 0x60d4_7e4a, 0x12da_b8ca);
    NextRound(w, 13);
    assert Rounds(H0, w, 14) == Hash(0x9128_f695, 0x4607_b664, 0x18c6_23f9, 0x7ef6_a7a2, 0x60d4_7e4a);
    NextRound(w, 14);
    assert Rounds(H0, w, 15) == Hash(0x196b_ee77, 0x9128_f695, 0x1181_ed99, 0x18c6_23f9, 0x7ef6_a7a2);
    NextRound(w, 15);
    assert Rounds(H0, w, 16) == Hash(0x20bd_d62f, 0x196b_ee77, 0x644a_3da5, 0x1181_ed99, 0x18c6_23f9);
  }

  lemma Rounds16To24(w: seq<word>)
    requires |w| == 80 && Rounds(H0, w, 16) == Hash(0x20bd_d62f, 0x196b_ee77, 0x644a_3da5, 0x1181_ed99, 0x18c6_23f9)
    requires w[16] == 0xc2c4_c700 && w[17] == 0x0000_0000 && w[18] == 0x0000_0030 && w[19] == 0x8589_8e01 &&
             w[20] == 0x0000_0000 && w[21] == 0x0000_0060 && w[22] == 0x0b13_1c03 && w[23] == 0x0000_0030
    ensures Rounds(H0, w, 24) == Hash(0xd541_f12d, 0x2128_3486, 0x0ce8_8eff, 0x868d_ec32, 0x7f67_875f)
  {
    hide Rounds;
    NextRound(w, 16);
    assert Rounds(H0, w, 17) == Hash(0x4e92_5823, 0x20bd_d62f, 0xc65a_fb9d, 0x644a_3da5, 0x1181_ed99);
    NextRound(w, 17);
    assert Rounds(H0, w, 18) == Hash(0x82aa_6728, 0x4e92_5823, 0xc82f_758b, 0xc65a_fb9d, 0x644a_3da5);
    NextRound(w, 18);
    assert Rounds(H0, w, 19) == Hash(0xdc64_901d, 0x82aa_6728, 0xd3a4_9608, 0xc82f_758b, 0xc65a_fb9d);
    NextRound(w, 19);
    assert Rounds(H0, w, 20) == Hash(0xfd9e_1d7d, 0xdc64_901d, 0x20aa_99ca, 0xd3a4_9608, 0xc82f_758b);
    NextRound(w, 20);
    assert Rounds(H0, w, 21) == Hash(0x1a37_b0ca, 0xfd9e_1d7d, 0x7719_2407, 0x20aa_99ca, 0xd3a4_9608);
    NextRound(w, 21);
    assert Rounds(H0, w, 22) == Hash(0x33a2_3bfc, 0x1a37_b0ca, 0x7f67_875f, 0x7719_2407, 0x20aa_99ca);
    NextRound(w, 22);
    assert Rounds(H0, w, 23) == Hash(0x2128_3486, 0x33a2_3bfc, 0x868d_ec32, 0x7f67_875f, 0x7719_2407);
    NextRound(w, 23);
    assert Rounds(H0, w, 24) == Hash(0xd541_f12d, 0x2128_3486, 0x0ce8_8eff, 0x868d_ec32, 0x7f67_875f);
  }

  lemma Rounds24To32(w: seq<word>)
    requires |w| == 80 && Rounds(H0, w, 24) == Hash(0xd541_f12d, 0x2128_3486, 0x0ce8_8eff, 0x868d_ec32, 0x7f67_875f)
    requires w[24] == 0x8589_8ec1 && w[25] == 0x1626_3806 && w[26] == 0x0000_0000 && w[27] == 0x0000_0180 &&
             w[28] == 0x2c4c_700c && w[29] == 0x0000_00f0 && w[30] == 0x93af_b507 && w[31] == 0x5898_e048
    ensures Rounds(H0, w, 32) == Hash(0x3b84_5d33, 0x1267_b407, 0x717e_ebd7, 0xa0dc_2d4b, 0xd2aa_1365)
  {
    hide Rounds;
    NextRound(w, 24);
    assert Rounds(H0, w, 25) == Hash(0xc756_7dc6, 0xd541_f12d, 0x884a_0d21, 0x0ce8_8eff, 0x868d_ec32);
    NextRound(w, 25);
    assert Rounds(H0, w, 26) == Hash(0x4841_3ba4, 0xc756_7dc6, 0x7550_7c4b, 0x884a_0d21, 0x0ce8_8eff);
    NextRound(w, 26);
    assert Rounds(H0, w, 27) == Hash(0xbe35_fbd5, 0x4841_3ba4, 0xb1d5_9f71, 0x7550_7c4b, 0x884a_0d21);
    NextRound(w, 27);
    assert Rounds(H0, w, 28) == Hash(0x4aa8_4d97, 0xbe35_fbd5, 0x1210_4ee9, 0xb1d5_9f71, 0x7550_7c4b);
    NextRound(w, 28);
    assert Rounds(H0, w, 29) == Hash(0x8370_b52e, 0x4aa8_4d97, 0x6f8d_7ef5, 0x1210_4ee9, 0xb1d5_9f71);
    NextRound(w, 29);
    assert Rounds(H0, w, 30) == Hash(0xc5fb_af5d, 0x8370_b52e, 0xd2aa_1365, 0x6f8d_7ef5, 0x1210_4ee9);
    NextRound(w, 30);
    assert Rounds(H0, w, 31) == Hash(0x1267_b407, 0xc5fb_af5d, 0xa0dc_2d4b, 0xd2aa_1365, 0x6f8d_7ef5);
    NextRound(w, 31);
    assert Rounds(H0, w, 32) == Hash(0x3b84_5d33, 0x1267_b407, 0x717e_ebd7, 0xa0dc_2d4b, 0xd2aa_1365);
  }

  lemma Rounds32To40(w: seq<word>)
    requires |w| == 80 && Rounds(H0, w, 32) == Hash(0x3b84_5d33, 0x1267_b407, 0x717e_ebd7, 0xa0dc_2d4b, 0xd2aa_1365)
    requires w[32] == 0x8e9a_9202 && w[33] == 0x0000_0600 && w[34] == 0xb131_c0f0 && w[35] == 0x1626_3bc6 &&
             w[36] == 0x4ebe_d41e && w[37] == 0x6263_80a1 && w[38] == 0x1626_3806 && w[39] == 0x0000_18c0
    ensures Rounds(H0, w, 40) == Hash(0x32de_1cba, 0x4c98_6405, 0xf718_e5cf, 0x03d4_47f6, 0xf72e_ec32)
  {
    hide Rounds;
    NextRound(w, 32);
    assert Rounds(H0, w, 33) == Hash(0x046f_aa0a, 0x3b84_5d33, 0xc499_ed01, 0x717e_ebd7, 0xa0dc_2d4b);
    NextRound(w, 33);
    assert Rounds(H0, w, 34) == Hash(0x2c0e_bc11, 0x046f_aa0a, 0xcee1_174c, 0xc499_ed01, 0x717e_ebd7);
    NextRound(w, 34);
    assert Rounds(H0, w, 35) == Hash(0x2179_6ad4, 0x2c0e_bc11, 0x811b_ea82, 0xcee1_174c, 0xc499_ed01);
    NextRound(w, 35);
    assert Rounds(H0, w, 36) == Hash(0xdcbb_b0cb, 0x2179_6ad4, 0x4b03_af04, 0x811b_ea82, 0xcee1_174c);
    NextRound(w, 36);
    assert Rounds(H0, w, 37) == Hash(0x0f51_1fd8, 0xdcbb_b0cb, 0x085e_5ab5, 0x4b03_af04, 0x811b_ea82);
    NextRound(w, 37);
    assert Rounds(H0, w, 38) == Hash(0xdc63_973f, 0x0f51_1fd8, 0xf72e_ec32, 0x085e_5ab5, 0x4b03_af04);
    NextRound(w, 38);
    assert Rounds(H0, w, 39) == Hash(0x4c98_6405, 0xdc63_973f, 0x03d4_47f6, 0xf72e_ec32, 0x085e_5ab5);
    NextRound(w, 39);
    assert Rounds(H0, w, 40) == Hash(0x32de_1cba, 0x4c98_6405, 0xf718_e5cf, 0x03d4_47f6, 0xf72e_ec32);
  }

  lemma Rounds40To48(w: seq<word>)
    requires |w| == 80 && Rounds(H0, w, 40) == Hash(0x32de_1cba, 0x4c98_6405, 0xf718_e5cf, 0x03d4_47f6, 0xf72e_ec32)
    requires w[40] == 0xd2e1_38c4 && w[41] == 0x0000_0f00 && w[42] == 0x3afb_5079 && w[43] == 0x898e_04e5 &&
             w[44] == 0xe2ba_3c2b && w[45] == 0x0000_60c0 && w[46] == 0x053a_37cd && w[47] == 0x7445_8547
    ensures Rounds(H0, w, 48) == Hash(0xbead_02ca, 0xa01b_846c, 0x8714_787c, 0x503c_a382, 0xfb86_c6ab)
  {
    hide Rounds;
    NextRound(w, 40);
    assert Rounds(H0, w, 41) == Hash(0xfc87_dedf, 0x32de_1cba, 0x5326_1901, 0xf718_e5cf, 0x03d4_47f6);
    NextRound(w, 41);
    assert Rounds(H0, w, 42) == Hash(0x970a_0d5c, 0xfc87_dedf, 0x8cb7_872e, 0x5326_1901, 0xf718_e5cf);
    NextRound(w, 42);
    assert Rounds(H0, w, 43) == Hash(0x7f19_3dc5, 0x970a_0d5c, 0xff21_f7b7, 0x8cb7_872e, 0x5326_1901);
    NextRound(w, 43);
    assert Rounds(H0, w, 44) == Hash(0xee1b_1aaf, 0x7f19_3dc5, 0x25c2_8357, 0xff21_f7b7, 0x8cb7_872e);
    NextRound(w, 44);
    assert Rounds(H0, w, 45) == Hash(0x40f2_8e09, 0xee1b_1aaf, 0x5fc6_4f71, 0x25c2_8357, 0xff21_f7b7);
    NextRound(w, 45);
    assert Rounds(H0, w, 46) == Hash(0x1c51_e1f2, 0x40f2_8e09, 0xfb86_c6ab, 0x5fc6_4f71, 0x25c2_8357);
    NextRound(w, 46);
    assert Rounds(H0, w, 47) == Hash(0xa01b_846c, 0x1c51_e1f2, 0x503c_a382, 0xfb86_c6ab, 0x5fc6_4f71);
    NextRound(w, 47);
    assert Rounds(H0, w, 48) == Hash(0xbead_02ca, 0xa01b_846c, 0x8714_787c, 0x503c_a382, 0xfb86_c6ab);
  }

  lemma Rounds48To56(w: seq<word>)
    requires |w| == 80 && Rounds(H0, w, 48) == Hash(0xbead_02ca, 0xa01b_846c, 0x8714_787c, 0x503c_a382, 0xfb86_c6ab)
    requires w[48] == 0xda94_15ed && w[49] == 0x2638_0a16 && w[50] == 0x6263_83a1 && w[51] == 0x4ebf_54de &&
             w[52] == 0x3835_b44b && w[53] == 0x0000_f600 && w[54] == 0x1e84_c7a3 && w[55] == 0x98e0_4d98
    ensures Rounds(H0, w, 56) == Hash(0x5e64_56af, 0x7b71_f76d, 0x09fa_7c76, 0x7924_10db, 0x8e11_eb59)
  {
    hide Rounds;
    NextRound(w, 48);
    assert Rounds(H0, w, 49) == Hash(0xbaf3_9337, 0xbead_02ca, 0x2806_e11b, 0x8714_787c, 0x503c_a382);
    NextRound(w, 49);
    assert Rounds(H0, w, 50) == Hash(0x1207_31c5, 0xbaf3_9337, 0xafab_40b2, 0x2806_e11b, 0x8714_787c);
    NextRound(w, 50);
    assert Rounds(H0, w, 51) == Hash(0x641d_b2ce, 0x1207_31c5, 0xeebc_e4cd, 0xafab_40b2, 0x2806_e11b);
    NextRound(w, 51);
    assert Rounds(H0, w, 52) == Hash(0x3847_ad66, 0x641d_b2ce, 0x4481_cc71, 0xeebc_e4cd, 0xafab_40b2);
    NextRound(w, 52);
    assert Rounds(H0, w, 53) == Hash(0xe490_436d, 0x3847_ad66, 0x9907_6cb3, 0x4481_cc71, 0xeebc_e4cd);
    NextRound(w, 53);
    assert Rounds(H0, w, 54) == Hash(0x27e9_f1d8, 0xe490_436d, 0x8e11_eb59, 0x9907_6cb3, 0x4481_cc71);
    NextRound(w, 54);
    assert Rounds(H0, w, 55) == Hash(0x7b71_f76d, 0x27e9_f1d8, 0x7924_10db, 0x8e11_eb59, 0x9907_6cb3);
    NextRound(w, 55);
    assert Rounds(H0, w, 56) == Hash(0x5e64_56af, 0x7b71_f76d, 0x09fa_7c76, 0x7924_10db, 0x8e11_eb59);
  }

  lemma Rounds56To64(w: seq<word>)
    requires |w| == 80 && Rounds(H0, w, 56) == Hash(0x5e64_56af, 0x7b71_f76d, 0x09fa_7c76, 0x7924_10db, 0x8e11_eb59)
    requires w[56] == 0x651d_16a0 && w[57] == 0x6265_8ca1 && w[58] == 0x4585_44d6 && w[59] == 0x4458_4cb7 &&
             w[60] == 0x7ba0_6619 && w[61] == 0x6380_aea2 && w[62] == 0x0ae5_5269 && w[63] == 0x627b_49a1
    ensures Rounds(H0, w, 64) == Hash(0x6b61_c9e1, 0xb66c_020b, 0x9523_272c, 0xf5d5_b051, 0x8fd4_b796)
  {
    hide Rounds;
    NextRound(w, 56);
    assert Rounds(H0, w, 57) == Hash(0xc846_093f, 0x5e64_56af, 0x5edc_7ddb, 0x09fa_7c76, 0x7924_10db);
    NextRound(w, 57);
    assert Rounds(H0, w, 58) == Hash(0xd262_ff50, 0xc846_093f, 0xd799_15ab, 0x5edc_7ddb, 0x09fa_7c76);
    NextRound(w, 58);
    assert Rounds(H0, w, 59) == Hash(0x09d7_85fd, 0xd262_ff50, 0xf211_824f, 0xd799_15ab, 0x5edc_7ddb);
    NextRound(w, 59);
    assert Rounds(H0, w, 60) == Hash(0x3f52_de5a, 0x09d7_85fd, 0x3498_bfd4, 0xf211_824f, 0xd799_15ab);
    NextRound(w, 60);
    assert Rounds(H0, w, 61) == Hash(0xd756_c147, 0x3f52_de5a, 0x4275_e17f, 0x3498_bfd4, 0xf211_824f);
    NextRound(w, 61);
    assert Rounds(H0, w, 62) == Hash(0x548c_9cb2, 0xd756_c147, 0x8fd4_b796, 0x4275_e17f, 0x3498_bfd4);
    NextRound(w, 62);
    assert Rounds(H0, w, 63) == Hash(0xb66c_020b, 0x548c_9cb2, 0xf5d5_b051, 0x8fd4_b796, 0x4275_e17f);
    NextRound(w, 63);
    assert Rounds(H0, w, 64) == Hash(0x6b61_c9e1, 0xb66c_020b, 0x9523_272c, 0xf5d5_b051, 0x8fd4_b796);
  }

  lemma Rounds64To72(w: seq<word>)
    requires |w| == 80 && Rounds(H0, w, 64) == Hash(0x6b61_c9e1, 0xb66c_020b, 0x9523_272c, 0xf5d5_b051, 0x8fd4_b796)
    requires w[64] == 0x7cd4_5c9d && w[65] == 0x000f_0000 && w[66] == 0xfb50_753a && w[67] == 0xec67_65e8 &&
             w[68] == 0xba3c_2be2 && w[69] == 0x0060_c000 && w[70] == 0x3a37_cd05 && w[71] == 0x4585_46f4
    ensures Rounds(H0, w, 72) == Hash(0x3985_9de7, 0xc199_f8c7, 0x8fc9_6230, 0x125c_24f0, 0xde37_534a)
  {
    hide Rounds;
    NextRound(w, 64);
    assert Rounds(H0, w, 65) == Hash(0x19df_a7ac, 0x6b61_c9e1, 0xed9b_0082, 0x9523_272c, 0xf5d5_b051);
    NextRound(w, 65);
    assert Rounds(H0, w, 66) == Hash(0x1016_55f9, 0x19df_a7ac, 0x5ad8_7278, 0xed9b_0082, 0x9523_272c);
    NextRound(w, 66);
    assert Rounds(H0, w, 67) == Hash(0x0c3d_f2b4, 0x1016_55f9, 0x0677_e9eb, 0x5ad8_7278, 0xed9b_0082);
    NextRound(w, 67);
    assert Rounds(H0, w, 68) == Hash(0x78dd_4d2b, 0x0c3d_f2b4, 0x4405_957e, 0x0677_e9eb, 0x5ad8_7278);
    NextRound(w, 68);
    assert Rounds(H0, w, 69) == Hash(0x4970_93c0, 0x78dd_4d2b, 0x030f_7cad, 0x4405_957e, 0x0677_e9eb);
    NextRound(w, 69);
    assert Rounds(H0, w, 70) == Hash(0x3f25_88c2, 0x4970_93c0, 0xde37_534a, 0x030f_7cad, 0x4405_957e);
    NextRound(w, 70);
    assert Rounds(H0, w, 71) == Hash(0xc199_f8c7, 0x3f25_88c2, 0x125c_24f0, 0xde37_534a, 0x030f_7cad);
    NextRound(w, 71);
    assert Rounds(H0, w, 72) == Hash(0x3985_9de7, 0xc199_f8c7, 0x8fc9_6230, 0x125c_24f0, 0xde37_534a);
  }

  lemma Rounds72To80(w: seq<word>)
    requires |w| == 80 && Rounds(H0, w, 72) == Hash(0x3985_9de7, 0xc199_f8c7, 0x8fc9_6230, 0x125c_24f0, 0xde37_534a)
    requires w[72] == 0xb859_9dd6 && w[73] == 0x380a_1a26 && w[74] == 0x01e0_2203 && w[75] == 0xe7cc_3456 &&
             w[76] == 0xe6e6_0b69 && w[77] == 0x00f6_0a00 && w[78] == 0x5795_ef4f && w[79] == 0x822e_0879
    ensures Rounds(H0, w, 80) == Hash(0x4254_1b35, 0x5738_d5e1, 0x2183_4873, 0x681e_6df6, 0xd8fd_f6ad)
  {
    hide Rounds;
    NextRound(w, 72);
    assert Rounds(H0, w, 73) == Hash(0xedb4_2de4, 0x3985_9de7, 0xf066_7e31, 0x8fc9_6230, 0x125c_24f0);
    NextRound(w, 73);
    assert Rounds(H0, w, 74) == Hash(0x1179_3f6f, 0xedb4_2de4, 0xce61_6779, 0xf066_7e31, 0x8fc9_6230);
    NextRound(w, 74);
    assert Rounds(H0, w, 75) == Hash(0x5ee7_6897, 0x1179_3f6f, 0x3b6d_0b79, 0xce61_6779, 0xf066_7e31);
    NextRound(w, 75);
    assert Rounds(H0, w, 76) == Hash(0x63f7_dab7, 0x5ee7_6897, 0xc45e_4fdb, 0x3b6d_0b79, 0xce61_6779);
    NextRound(w, 76);
    assert Rounds(H0, w, 77) == Hash(0xa079_b7d9, 0x63f7_dab7, 0xd7b9_da25, 0xc45e_4fdb, 0x3b6d_0b79);
    NextRound(w, 77);
    assert Rounds(H0, w, 78) == Hash(0x860d_21cc, 0xa079_b7d9, 0xd8fd_f6ad, 0xd7b9_da25, 0xc45e_4fdb);
    NextRound(w, 78);
    assert Rounds(H0, w, 79) == Hash(0x5738_d5e1, 0x860d_21cc, 0x681e_6df6, 0xd8fd_f6ad, 0xd7b9_da25);
    NextRound(w, 79);
    assert Rounds(H0, w, 80) == Hash(0x4254_1b35, 0x5738_d5e1, 0x2183_4873, 0x681e_6df6, 0xd8fd_f6ad);
  }

  lemma NextRound(w: seq<word>, t: nat)
    requires t < |w|
    ensures Rounds(H0, w, t + 1) == Round(t, Rounds(H0, w, t), w[t])
  {}

  lemma AllWords(w: seq<word>)
    requires w == Schedule(Pad(ABC), 80) && |Pad(ABC)| == 64
    ensures |w| == 80
    ensures w[0] == 0x6162_6380 && w[1] == 0x0000_0000 && w[2] == 0x0000_0000 && w[3] == 0x0000_0000 &&
            w[4] == 0x0000_0000 && w[5] == 0x0000_0000 && w[6] == 0x0000_0000 && w[7] == 0x0000_0000
    ensures w[8] == 0x0000_0000 && w[9] == 0x0000_0000 && w[10] == 0x0000_0000 && w[11] == 0x0000_0000 &&
            w[12] == 0x0000_0000 && w[13] == 0x0000_0000 && w[14] == 0x0000_0000 && w[15] == 0x0000_0018
    ensures w[16] == 0xc2c4_c700 && w[17] == 0x0000_0000 && w[18] == 0x0000_0030 && w[19] == 0x8589_8e01 &&
            w[20] == 0x0000_0000 && w[21] == 0x0000_0060 && w[22] == 0x0b13_1c03 && w[23] == 0x0000_0030
    ensures w[24] == 0x8589_8ec1 && w[25] == 0x1626_3806 && w[26] == 0x0000_0000 && w[27] == 0x0000_0180 &&
            w[28] == 0x2c4c_700c && w[29] == 0x0000_00f0 && w[30] == 0x93af_b507 && w[31] == 0x5898_e048
    ensures w[32] == 0x8e9a_9202 && w[33] == 0x0000_0600 && w[34] == 0xb131_c0f0 && w[35] == 0x1626_3bc6 &&
            w[36] == 0x4ebe_d41e && w[37] == 0x6263_80a1 && w[38] == 0x1626_3806 && w[39] == 0x0000_18c0
    ensures w[40] == 0xd2e1_38c4 && w[41] == 0x0000_0f00 && w[42] == 0x3afb_5079 && w[43] == 0x898e_04e5 &&
            w[44] == 0xe2ba_3c2b && w[45] == 0x0000_60c0 && w[46] == 0x053a_37cd && w[47] == 0x7445_8547
    ensures w[48] == 0xda94_15ed && w[49] == 0x2638_0a16 && w[50] == 0x6263_83a1 && w[51] == 0x4ebf_54de &&
            w[52] == 0x3835_b44b && w[53] == 0x0000_f600 && w[54] == 0x1e84_c7a3 && w[55] == 0x98e0_4d98
    ensures w[56] == 0x651d_16a0 && w[57] == 0x6265_8ca1 && w[58] == 0x4585_44d6 && w[59] == 0x4458_4cb7 &&
            w[60] == 0x7ba0_6619 && w[61] == 0x6380_aea2 && w[62] == 0x0ae5_5269 && w[63] == 0x627b_49a1
    ensures w[64] == 0x7cd4_5c9d && w[65] == 0x000f_0000 && w[66] == 0xfb50_753a && w[67] == 0xec67_65e8 &&
            w[68] == 0xba3c_2be2 && w[69] == 0x0060_c000 && w[70] == 0x3a37_cd05 && w[71] == 0x4585_46f4
    ensures w[72] == 0xb859_9dd6 && w[73] == 0x380a_1a26 && w[74] == 0x01e0_2203 && w[75] == 0xe7cc_3456 &&
            w[76] == 0xe6e6_0b69 && w[77] == 0x00f6_0a00 && w[78] == 0x5795_ef4f && w[79] == 0x822e_0879
  {
    hide Schedule, Pad;
    Words16(w);
    Words16To24(Pad(ABC), w);
    Words24To32(Pad(ABC), w);
    Words32To40(Pad(ABC), w);
    Words40To48(Pad(ABC), w);
    Words48To56(Pad(ABC), w);
    Words56To64(Pad(ABC), w);
    Words64To72(Pad(ABC), w);
    Words72To80(Pad(ABC), w);
  }

  lemma AllRoundsOfAbc(w: seq<word>)
    requires w == Schedule(Pad(ABC), 80) && |Pad(ABC)| == 64
    ensures Rounds(H0, w, 80) == Hash(0x4254_1b35, 0x5738_d5e1, 0x2183_4873, 0x681e_6df6, 0xd8fd_f6ad)
  {
    hide Schedule, Pad, Round, Rounds;
    AllWords(w);
    NoRounds(w);
    Rounds0To8(w);
    Rounds8To16(w);
    Rounds16To24(w);
    Rounds24To32(w);
    Rounds32To40(w);
    Rounds40To48(w);
    Rounds48To56(w);
    Rounds56To64(w);
    Rounds64To72(w);
    Rounds72To80(w);
  }

  lemma NoRounds(w: seq<word>)
    ensures Rounds(H0, w, 0) == Hash(0x6745_2301, 0xefcd_ab89, 0x98ba_dcfe, 0x1032_5476, 0xc3d2_e1f0)
  {}

  // The hash value of the example.
  lemma AbcHash()
    ensures HashBlocks(Pad(ABC)) == Hash(0xa999_3e36, 0x4706_816a, 0xba3e_2571, 0x7850_c26c, 0x9cd0_d89d)
  {
    hide Rounds, Schedule, Pad;
    AbcIsPadded();
    var p := Pad(ABC);
    assert p[..|p| - 64] == [] && p[|p| - 64..] == p;
    AllRoundsOfAbc(Schedule(p, 80));
  }

  lemma AbcOctets()
    ensures Octets(0xa999_3e36) == [0xa9, 0x99, 0x3e, 0x36]
    ensures Octets(0x4706_816a) == [0x47, 0x06, 0x81, 0x6a]
    ensures Octets(0xba3e_2571) == [0xba, 0x3e, 0x25, 0x71]
    ensures Octets(0x7850_c26c) == [0x78, 0x50, 0xc2, 0x6c]
    ensures Octets(0x9cd0_d89d) == [0x9c, 0xd0, 0xd8, 0x9d]
  {}

  // The digest of the example.
  lemma AbcDigest()
    ensures Sha1(ABC) == [0xa9, 0x99, 0x3e, 0x36, 0x47, 0x06, 0x81, 0x6a, 0xba, 0x3e,
                          0x25, 0x71, 0x78, 0x50, 0xc2, 0x6c, 0x9c, 0xd0, 0xd8, 0x9d]
  {
    hide Octets, HashBlocks, Pad;
    AbcHash();
    AbcOctets();
  }
}
