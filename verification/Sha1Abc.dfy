// The digest of "abc", the first example of FIPS 180-4: it pins the constants, the functions and the schedule.
module Sha1Abc {
  import opened Bits32
  import opened CodeUnits
  import opened Sha1Spec
  import opened StringSha1
  import opened Utf
  import Hex

  // The padded message: the three bytes, the bit behind them, and the bit length 24.
  ghost predicate IsAbc(block: seq<Byte>) {
    && |block| == 64 && block[..4] == [0x61, 0x62, 0x63, 0x80] && block[63] == 24
    && forall i :: 4 <= i < 63 ==> block[i] == 0
  }

  lemma AbcPadded()
    ensures IsAbc(Pad([0x61, 0x62, 0x63]))
  {
    assert Length64(24) == [0, 0, 0, 0, 0, 0, 0, 24];
    assert PadZeros(3) == 52;
  }

  // ---- the schedule

  lemma Words0(block: seq<Byte>)
    requires IsAbc(block)
    ensures W(block, 0) == 0x61626380 && W(block, 1) == 0 && W(block, 2) == 0 && W(block, 3) == 0
    ensures W(block, 4) == 0 && W(block, 5) == 0 && W(block, 6) == 0 && W(block, 7) == 0
  {
    assert block[0] == block[..4][0] && block[1] == block[..4][1] && block[2] == block[..4][2] && block[3] == block[..4][3];
  }

  lemma Words8(block: seq<Byte>)
    requires IsAbc(block)
    ensures W(block, 8) == 0 && W(block, 9) == 0 && W(block, 10) == 0 && W(block, 11) == 0
    ensures W(block, 12) == 0 && W(block, 13) == 0 && W(block, 14) == 0 && W(block, 15) == 24
  {
  }

  lemma Words16(block: seq<Byte>)
    requires IsAbc(block)
    ensures W(block, 16) == 0xC2C4C700 && W(block, 17) == 0 && W(block, 18) == 0x30 && W(block, 19) == 0x85898E01
    ensures W(block, 20) == 0 && W(block, 21) == 0x60 && W(block, 22) == 0x0B131C03 && W(block, 23) == 0x30
  {
    Words0(block);
    Words8(block);
  }

  lemma Words24(block: seq<Byte>)
    requires IsAbc(block)
    ensures W(block, 24) == 0x85898EC1 && W(block, 25) == 0x16263806 && W(block, 26) == 0 && W(block, 27) == 0x00000180
    ensures W(block, 28) == 0x2C4C700C && W(block, 29) == 0x000000F0 && W(block, 30) == 0x93AFB507 && W(block, 31) == 0x5898E048
  {
    Words8(block);
    Words16(block);
  }

  lemma Words32(block: seq<Byte>)
    requires IsAbc(block)
    ensures W(block, 32) == 0x8E9A9202 && W(block, 33) == 0x00000600 && W(block, 34) == 0xB131C0F0 && W(block, 35) == 0x16263BC6
    ensures W(block, 36) == 0x4EBED41E && W(block, 37) == 0x626380A1 && W(block, 38) == 0x16263806 && W(block, 39) == 0x000018C0
  {
    Words16(block);
    Words24(block);
  }

  lemma Words40(block: seq<Byte>)
    requires IsAbc(block)
    ensures W(block, 40) == 0xD2E138C4 && W(block, 41) == 0x00000F00 && W(block, 42) == 0x3AFB5079 && W(block, 43) == 0x898E04E5
    ensures W(block, 44) == 0xE2BA3C2B && W(block, 45) == 0x000060C0 && W(block, 46) == 0x053A37CD && W(block, 47) == 0x74458547
  {
    Words24(block);
    Words32(block);
  }

  lemma Words48(block: seq<Byte>)
    requires IsAbc(block)
    ensures W(block, 48) == 0xDA9415ED && W(block, 49) == 0x26380A16 && W(block, 50) == 0x626383A1 && W(block, 51) == 0x4EBF54DE
    ensures W(block, 52) == 0x3835B44B && W(block, 53) == 0x0000F600 && W(block, 54) == 0x1E84C7A3 && W(block, 55) == 0x98E04D98
  {
    Words32(block);
    Words40(block);
  }

  lemma Words56(block: seq<Byte>)
    requires IsAbc(block)
    ensures W(block, 56) == 0x651D16A0 && W(block, 57) == 0x62658CA1 && W(block, 58) == 0x458544D6 && W(block, 59) == 0x44584CB7
    ensures W(block, 60) == 0x7BA06619 && W(block, 61) == 0x6380AEA2 && W(block, 62) == 0x0AE55269 && W(block, 63) == 0x627B49A1
  {
    Words40(block);
    Words48(block);
  }

  lemma Words64(block: seq<Byte>)
    requires IsAbc(block)
    ensures W(block, 64) == 0x7CD45C9D && W(block, 65) == 0x000F0000 && W(block, 66) == 0xFB50753A && W(block, 67) == 0xEC6765E8
    ensures W(block, 68) == 0xBA3C2BE2 && W(block, 69) == 0x0060C000 && W(block, 70) == 0x3A37CD05 && W(block, 71) == 0x458546F4
  {
    Words48(block);
    Words56(block);
  }

  lemma Words72(block: seq<Byte>)
    requires IsAbc(block)
    ensures W(block, 72) == 0xB8599DD6 && W(block, 73) == 0x380A1A26 && W(block, 74) == 0x01E02203 && W(block, 75) == 0xE7CC3456
    ensures W(block, 76) == 0xE6E60B69 && W(block, 77) == 0x00F60A00 && W(block, 78) == 0x5795EF4F && W(block, 79) == 0x822E0879
  {
    Words56(block);
    Words64(block);
  }

  // ---- the rounds

  lemma Rounds0(block: seq<Byte>)
    requires IsAbc(block)
    ensures Rounds(IV, block, 8) == State(0x9E8C07D4, 0x993E30C1, 0x0FF1F290, 0xB3F52677, 0xF3763846)
  {
    Words0(block);
    assert Rounds(IV, block, 1) == State(0x0116FC33, 0x67452301, 0x7BF36AE2, 0x98BADCFE, 0x10325476);
    assert Rounds(IV, block, 2) == State(0x8990536D, 0x0116FC33, 0x59D148C0, 0x7BF36AE2, 0x98BADCFE);
    assert Rounds(IV, block, 3) == State(0xA1390F08, 0x8990536D, 0xC045BF0C, 0x59D148C0, 0x7BF36AE2);
    assert Rounds(IV, block, 4) == State(0xCDD8E11B, 0xA1390F08, 0x626414DB, 0xC045BF0C, 0x59D148C0);
    assert Rounds(IV, block, 5) == State(0xCFD499DE, 0xCDD8E11B, 0x284E43C2, 0x626414DB, 0xC045BF0C);
    assert Rounds(IV, block, 6) == State(0x3FC7CA40, 0xCFD499DE, 0xF3763846, 0x284E43C2, 0x626414DB);
    assert Rounds(IV, block, 7) == State(0x993E30C1, 0x3FC7CA40, 0xB3F52677, 0xF3763846, 0x284E43C2);
    assert Rounds(IV, block, 8) == State(0x9E8C07D4, 0x993E30C1, 0x0FF1F290, 0xB3F52677, 0xF3763846);
  }

  lemma Rounds8(block: seq<Byte>)
    requires IsAbc(block)
    ensures Rounds(IV, block, 16) == State(0x20BDD62F, 0x196BEE77, 0x644A3DA5, 0x1181ED99, 0x18C623F9)
  {
    Rounds0(block);
    Words8(block);
    assert Rounds(IV, block, 9) == State(0x4B6AE328, 0x9E8C07D4, 0x664F8C30, 0x0FF1F290, 0xB3F52677);
    assert Rounds(IV, block, 10) == State(0x8351F929, 0x4B6AE328, 0x27A301F5, 0x664F8C30, 0x0FF1F290);
    assert Rounds(IV, block, 11) == State(0xFBDA9E89, 0x8351F929, 0x12DAB8CA, 0x27A301F5, 0x664F8C30);
    assert Rounds(IV, block, 12) == State(0x63188FE4, 0xFBDA9E89, 0x60D47E4A, 0x12DAB8CA, 0x27A301F5);
    assert Rounds(IV, block, 13) == State(0x4607B664, 0x63188FE4, 0x7EF6A7A2, 0x60D47E4A, 0x12DAB8CA);
    assert Rounds(IV, block, 14) == State(0x9128F695, 0x4607B664, 0x18C623F9, 0x7EF6A7A2, 0x60D47E4A);
    assert Rounds(IV, block, 15) == State(0x196BEE77, 0x9128F695, 0x1181ED99, 0x18C623F9, 0x7EF6A7A2);
    assert Rounds(IV, block, 16) == State(0x20BDD62F, 0x196BEE77, 0x644A3DA5, 0x1181ED99, 0x18C623F9);
  }

  lemma Rounds16(block: seq<Byte>)
    requires IsAbc(block)
    ensures Rounds(IV, block, 24) == State(0xD541F12D, 0x21283486, 0x0CE88EFF, 0x868DEC32, 0x7F67875F)
  {
    Rounds8(block);
    Words16(block);
    assert Rounds(IV, block, 17) == State(0x4E925823, 0x20BDD62F, 0xC65AFB9D, 0x644A3DA5, 0x1181ED99);
    assert Rounds(IV, block, 18) == State(0x82AA6728, 0x4E925823, 0xC82F758B, 0xC65AFB9D, 0x644A3DA5);
    assert Rounds(IV, block, 19) == State(0xDC64901D, 0x82AA6728, 0xD3A49608, 0xC82F758B, 0xC65AFB9D);
    assert Rounds(IV, block, 20) == State(0xFD9E1D7D, 0xDC64901D, 0x20AA99CA, 0xD3A49608, 0xC82F758B);
    assert Rounds(IV, block, 21) == State(0x1A37B0CA, 0xFD9E1D7D, 0x77192407, 0x20AA99CA, 0xD3A49608);
    assert Rounds(IV, block, 22) == State(0x33A23BFC, 0x1A37B0CA, 0x7F67875F, 0x77192407, 0x20AA99CA);
    assert Rounds(IV, block, 23) == State(0x21283486, 0x33A23BFC, 0x868DEC32, 0x7F67875F, 0x77192407);
    assert Rounds(IV, block, 24) == State(0xD541F12D, 0x21283486, 0x0CE88EFF, 0x868DEC32, 0x7F67875F);
  }

  lemma Rounds24(block: seq<Byte>)
    requires IsAbc(block)
    ensures Rounds(IV, block, 32) == State(0x3B845D33, 0x1267B407, 0x717EEBD7, 0xA0DC2D4B, 0xD2AA1365)
  {
    Rounds16(block);
    Words24(block);
    assert Rounds(IV, block, 25) == State(0xC7567DC6, 0xD541F12D, 0x884A0D21, 0x0CE88EFF, 0x868DEC32);
    assert Rounds(IV, block, 26) == State(0x48413BA4, 0xC7567DC6, 0x75507C4B, 0x884A0D21, 0x0CE88EFF);
    assert Rounds(IV, block, 27) == State(0xBE35FBD5, 0x48413BA4, 0xB1D59F71, 0x75507C4B, 0x884A0D21);
    assert Rounds(IV, block, 28) == State(0x4AA84D97, 0xBE35FBD5, 0x12104EE9, 0xB1D59F71, 0x75507C4B);
    assert Rounds(IV, block, 29) == State(0x8370B52E, 0x4AA84D97, 0x6F8D7EF5, 0x12104EE9, 0xB1D59F71);
    assert Rounds(IV, block, 30) == State(0xC5FBAF5D, 0x8370B52E, 0xD2AA1365, 0x6F8D7EF5, 0x12104EE9);
    assert Rounds(IV, block, 31) == State(0x1267B407, 0xC5FBAF5D, 0xA0DC2D4B, 0xD2AA1365, 0x6F8D7EF5);
    assert Rounds(IV, block, 32) == State(0x3B845D33, 0x1267B407, 0x717EEBD7, 0xA0DC2D4B, 0xD2AA1365);
  }

  lemma Rounds32(block: seq<Byte>)
    requires IsAbc(block)
    ensures Rounds(IV, block, 40) == State(0x32DE1CBA, 0x4C986405, 0xF718E5CF, 0x03D447F6, 0xF72EEC32)
  {
    Rounds24(block);
    Words32(block);
    assert Rounds(IV, block, 33) == State(0x046FAA0A, 0x3B845D33, 0xC499ED01, 0x717EEBD7, 0xA0DC2D4B);
    assert Rounds(IV, block, 34) == State(0x2C0EBC11, 0x046FAA0A, 0xCEE1174C, 0xC499ED01, 0x717EEBD7);
    assert Rounds(IV, block, 35) == State(0x21796AD4, 0x2C0EBC11, 0x811BEA82, 0xCEE1174C, 0xC499ED01);
    assert Rounds(IV, block, 36) == State(0xDCBBB0CB, 0x21796AD4, 0x4B03AF04, 0x811BEA82, 0xCEE1174C);
    assert Rounds(IV, block, 37) == State(0x0F511FD8, 0xDCBBB0CB, 0x085E5AB5, 0x4B03AF04, 0x811BEA82);
    assert Rounds(IV, block, 38) == State(0xDC63973F, 0x0F511FD8, 0xF72EEC32, 0x085E5AB5, 0x4B03AF04);
    assert Rounds(IV, block, 39) == State(0x4C986405, 0xDC63973F, 0x03D447F6, 0xF72EEC32, 0x085E5AB5);
    assert Rounds(IV, block, 40) == State(0x32DE1CBA, 0x4C986405, 0xF718E5CF, 0x03D447F6, 0xF72EEC32);
  }

  lemma Rounds40(block: seq<Byte>)
    requires IsAbc(block)
    ensures Rounds(IV, block, 48) == State(0xBEAD02CA, 0xA01B846C, 0x8714787C, 0x503CA382, 0xFB86C6AB)
  {
    Rounds32(block);
    Words40(block);
    assert Rounds(IV, block, 41) == State(0xFC87DEDF, 0x32DE1CBA, 0x53261901, 0xF718E5CF, 0x03D447F6);
    assert Rounds(IV, block, 42) == State(0x970A0D5C, 0xFC87DEDF, 0x8CB7872E, 0x53261901, 0xF718E5CF);
    assert Rounds(IV, block, 43) == State(0x7F193DC5, 0x970A0D5C, 0xFF21F7B7, 0x8CB7872E, 0x53261901);
    assert Rounds(IV, block, 44) == State(0xEE1B1AAF, 0x7F193DC5, 0x25C28357, 0xFF21F7B7, 0x8CB7872E);
    assert Rounds(IV, block, 45) == State(0x40F28E09, 0xEE1B1AAF, 0x5FC64F71, 0x25C28357, 0xFF21F7B7);
    assert Rounds(IV, block, 46) == State(0x1C51E1F2, 0x40F28E09, 0xFB86C6AB, 0x5FC64F71, 0x25C28357);
    assert Rounds(IV, block, 47) == State(0xA01B846C, 0x1C51E1F2, 0x503CA382, 0xFB86C6AB, 0x5FC64F71);
    assert Rounds(IV, block, 48) == State(0xBEAD02CA, 0xA01B846C, 0x8714787C, 0x503CA382, 0xFB86C6AB);
  }

  lemma Rounds48(block: seq<Byte>)
    requires IsAbc(block)
    ensures Rounds(IV, block, 56) == State(0x5E6456AF, 0x7B71F76D, 0x09FA7C76, 0x792410DB, 0x8E11EB59)
  {
    Rounds40(block);
    Words48(block);
    assert Rounds(IV, block, 49) == State(0xBAF39337, 0xBEAD02CA, 0x2806E11B, 0x8714787C, 0x503CA382);
    assert Rounds(IV, block, 50) == State(0x120731C5, 0xBAF39337, 0xAFAB40B2, 0x2806E11B, 0x8714787C);
    assert Rounds(IV, block, 51) == State(0x641DB2CE, 0x120731C5, 0xEEBCE4CD, 0xAFAB40B2, 0x2806E11B);
    assert Rounds(IV, block, 52) == State(0x3847AD66, 0x641DB2CE, 0x4481CC71, 0xEEBCE4CD, 0xAFAB40B2);
    assert Rounds(IV, block, 53) == State(0xE490436D, 0x3847AD66, 0x99076CB3, 0x4481CC71, 0xEEBCE4CD);
    assert Rounds(IV, block, 54) == State(0x27E9F1D8, 0xE490436D, 0x8E11EB59, 0x99076CB3, 0x4481CC71);
    assert Rounds(IV, block, 55) == State(0x7B71F76D, 0x27E9F1D8, 0x792410DB, 0x8E11EB59, 0x99076CB3);
    assert Rounds(IV, block, 56) == State(0x5E6456AF, 0x7B71F76D, 0x09FA7C76, 0x792410DB, 0x8E11EB59);
  }

  lemma Rounds56(block: seq<Byte>)
    requires IsAbc(block)
    ensures Rounds(IV, block, 64) == State(0x6B61C9E1, 0xB66C020B, 0x9523272C, 0xF5D5B051, 0x8FD4B796)
  {
    Rounds48(block);
    Words56(block);
    assert Rounds(IV, block, 57) == State(0xC846093F, 0x5E6456AF, 0x5EDC7DDB, 0x09FA7C76, 0x792410DB);
    assert Rounds(IV, block, 58) == State(0xD262FF50, 0xC846093F, 0xD79915AB, 0x5EDC7DDB, 0x09FA7C76);
    assert Rounds(IV, block, 59) == State(0x09D785FD, 0xD262FF50, 0xF211824F, 0xD79915AB, 0x5EDC7DDB);
    assert Rounds(IV, block, 60) == State(0x3F52DE5A, 0x09D785FD, 0x3498BFD4, 0xF211824F, 0xD79915AB);
    assert Rounds(IV, block, 61) == State(0xD756C147, 0x3F52DE5A, 0x4275E17F, 0x3498BFD4, 0xF211824F);
    assert Rounds(IV, block, 62) == State(0x548C9CB2, 0xD756C147, 0x8FD4B796, 0x4275E17F, 0x3498BFD4);
    assert Rounds(IV, block, 63) == State(0xB66C020B, 0x548C9CB2, 0xF5D5B051, 0x8FD4B796, 0x4275E17F);
    assert Rounds(IV, block, 64) == State(0x6B61C9E1, 0xB66C020B, 0x9523272C, 0xF5D5B051, 0x8FD4B796);
  }

  lemma Rounds64(block: seq<Byte>)
    requires IsAbc(block)
    ensures Rounds(IV, block, 72) == State(0x39859DE7, 0xC199F8C7, 0x8FC96230, 0x125C24F0, 0xDE37534A)
  {
    Rounds56(block);
    Words64(block);
    assert Rounds(IV, block, 65) == State(0x19DFA7AC, 0x6B61C9E1, 0xED9B0082, 0x9523272C, 0xF5D5B051);
    assert Rounds(IV, block, 66) == State(0x101655F9, 0x19DFA7AC, 0x5AD87278, 0xED9B0082, 0x9523272C);
    assert Rounds(IV, block, 67) == State(0x0C3DF2B4, 0x101655F9, 0x0677E9EB, 0x5AD87278, 0xED9B0082);
    assert Rounds(IV, block, 68) == State(0x78DD4D2B, 0x0C3DF2B4, 0x4405957E, 0x0677E9EB, 0x5AD87278);
    assert Rounds(IV, block, 69) == State(0x497093C0, 0x78DD4D2B, 0x030F7CAD, 0x4405957E, 0x0677E9EB);
    assert Rounds(IV, block, 70) == State(0x3F2588C2, 0x497093C0, 0xDE37534A, 0x030F7CAD, 0x4405957E);
    assert Rounds(IV, block, 71) == State(0xC199F8C7, 0x3F2588C2, 0x125C24F0, 0xDE37534A, 0x030F7CAD);
    assert Rounds(IV, block, 72) == State(0x39859DE7, 0xC199F8C7, 0x8FC96230, 0x125C24F0, 0xDE37534A);
  }

  lemma Rounds72(block: seq<Byte>)
    requires IsAbc(block)
    ensures Rounds(IV, block, 80) == State(0x42541B35, 0x5738D5E1, 0x21834873, 0x681E6DF6, 0xD8FDF6AD)
  {
    Rounds64(block);
    Words72(block);
    assert Rounds(IV, block, 73) == State(0xEDB42DE4, 0x39859DE7, 0xF0667E31, 0x8FC96230, 0x125C24F0);
    assert Rounds(IV, block, 74) == State(0x11793F6F, 0xEDB42DE4, 0xCE616779, 0xF0667E31, 0x8FC96230);
    assert Rounds(IV, block, 75) == State(0x5EE76897, 0x11793F6F, 0x3B6D0B79, 0xCE616779, 0xF0667E31);
    assert Rounds(IV, block, 76) == State(0x63F7DAB7, 0x5EE76897, 0xC45E4FDB, 0x3B6D0B79, 0xCE616779);
    assert Rounds(IV, block, 77) == State(0xA079B7D9, 0x63F7DAB7, 0xD7B9DA25, 0xC45E4FDB, 0x3B6D0B79);
    assert Rounds(IV, block, 78) == State(0x860D21CC, 0xA079B7D9, 0xD8FDF6AD, 0xD7B9DA25, 0xC45E4FDB);
    assert Rounds(IV, block, 79) == State(0x5738D5E1, 0x860D21CC, 0x681E6DF6, 0xD8FDF6AD, 0xD7B9DA25);
    assert Rounds(IV, block, 80) == State(0x42541B35, 0x5738D5E1, 0x21834873, 0x681E6DF6, 0xD8FDF6AD);
  }


  // ---- the digest

  lemma AbcHashed()
    ensures Sha1Spec.Sha1([0x61, 0x62, 0x63]) == State(0xA9993E36, 0x4706816A, 0xBA3E2571, 0x7850C26C, 0x9CD0D89D)
  {
    var p := Pad([0x61, 0x62, 0x63]);
    AbcPadded();
    Rounds72(p);
    assert p[..0] == [] && p[0..] == p;
  }

  lemma OneDigit(d: nat)
    requires d < 16
    ensures Hex.ToString16(d) == [Hex.Digit(d)]
  {
  }

  lemma OneMoreDigit(n: nat, d: nat)
    requires n > 0 && d < 16
    ensures Hex.ToString16(16 * n + d) == Hex.ToString16(n) + [Hex.Digit(d)]
  {
    assert (16 * n + d) / 16 == n && (16 * n + d) % 16 == d;
  }

  lemma FourMoreDigits(n: nat, a: nat, b: nat, c: nat, d: nat)
    requires n > 0 && a < 16 && b < 16 && c < 16 && d < 16
    ensures Hex.ToString16(0x1_0000 * n + 0x1000 * a + 0x100 * b + 0x10 * c + d)
      == Hex.ToString16(n) + [Hex.Digit(a), Hex.Digit(b), Hex.Digit(c), Hex.Digit(d)]
  {
    hide *;
    var na := 16 * n + a;
    var nab := 16 * na + b;
    OneMoreDigit(n, a);
    OneMoreDigit(na, b);
    OneMoreDigit(nab, c);
    OneMoreDigit(16 * nab + c, d);
  }

  // Eight digits, the first of them not zero.
  lemma Printed(v: nat, a: nat, b: nat, c: nat, d: nat, e: nat, f: nat, g: nat, h: nat)
    requires 0 < a < 16 && b < 16 && c < 16 && d < 16 && e < 16 && f < 16 && g < 16 && h < 16
    requires v == 0x1000_0000 * a + 0x100_0000 * b + 0x10_0000 * c + 0x1_0000 * d + 0x1000 * e + 0x100 * f + 0x10 * g + h
    ensures Hex.ToString16(v) == [Hex.Digit(a), Hex.Digit(b), Hex.Digit(c), Hex.Digit(d)]
                                 + [Hex.Digit(e), Hex.Digit(f), Hex.Digit(g), Hex.Digit(h)]
  {
    hide *;
    var ab := 16 * a + b;
    var abc := 16 * ab + c;
    OneDigit(a);
    OneMoreDigit(a, b);
    OneMoreDigit(ab, c);
    OneMoreDigit(abc, d);
    var front := Hex.ToString16(16 * abc + d);
    assert front == [Hex.Digit(a), Hex.Digit(b), Hex.Digit(c), Hex.Digit(d)];
    FourMoreDigits(16 * abc + d, e, f, g, h);
  }

  lemma AbcPrinted()
    ensures Hex.ToHexString(0xA9993E36) == "a9993e36" && Hex.ToHexString(0x4706816A) == "4706816a"
    ensures Hex.ToHexString(0xBA3E2571) == "ba3e2571" && Hex.ToHexString(0x7850C26C) == "7850c26c"
    ensures Hex.ToHexString(0x9CD0D89D) == "9cd0d89d"
  {
    hide Hex.ToString16;
    Printed(0xA9993E36, 0xA, 9, 9, 9, 3, 0xE, 3, 6);
    Printed(0x4706816A, 4, 7, 0, 6, 8, 1, 6, 0xA);
    Printed(0xBA3E2571, 0xB, 0xA, 3, 0xE, 2, 5, 7, 1);
    Printed(0x7850C26C, 7, 8, 5, 0, 0xC, 2, 6, 0xC);
    Printed(0x9CD0D89D, 9, 0xC, 0xD, 0, 0xD, 8, 9, 0xD);
  }

  lemma AbcMessage()
    ensures Message([0x61, 0x62, 0x63]) == [0x61, 0x62, 0x63]
  {
    MessageOne(0x61);
    MessageOne(0x62);
    MessageOne(0x63);
    hide Message;
    MessageConcat([0x61], [0x62]);
    MessageConcat([0x61, 0x62], [0x63]);
    assert [0x61] + [0x62] == [0x61, 0x62] && [0x61, 0x62] + [0x63] == [0x61, 0x62, 0x63];
  }

  /** What the hasher prints for the text abc, in whatever pieces it gets it. */
  lemma AbcDigest(pieces: seq<seq<CodeUnit>>)
    requires Joined(pieces) == [0x61, 0x62, 0x63]
    ensures HexState(Sha1Spec.Sha1(Message(Joined(pieces)))) == "a9993e364706816aba3e25717850c26c9cd0d89d"
  {
    hide Sha1Spec.Sha1, Hex.ToHexString, Message, Joined;
    AbcMessage();
    AbcHashed();
    AbcPrinted();
  }

  /** The round constants are the integer parts of 2^30 times the square roots of 2, 3, 5 and 10. */
  lemma ConstantsAreRoots(t: nat)
    requires t < 80
    ensures var n := if t < 20 then 2 else if t < 40 then 3 else if t < 60 then 5 else 10;
      var k := K(t) as nat;
      k * k <= n * 0x1000_0000_0000_0000 < (k + 1) * (k + 1)
  {
  }
}
