/** The known answer of FIPS PUB 180-1, appendix A: the digest of "abc", by the appendix's table of words and rounds. */
module Sha1Known {
  import opened Common
  import opened Fips180
  import Sha1

  // ---------- the schedule ----------

  /** Step b of section 7, for word t. */
  ghost predicate Extends(ws: seq<word>, t: nat)
    requires 16 <= t < |ws|
  {
    ws[t] == S(1, ws[t - 3] ^ ws[t - 8] ^ ws[t - 14] ^ ws[t - 16])
  }

  ghost predicate Extended(ws: seq<word>) {
    |ws| == 80 && forall t :: 16 <= t < 80 ==> Extends(ws, t)
  }

  ghost predicate Sixteen(ws: seq<word>, t: nat,
      x0: word, x1: word, x2: word, x3: word, x4: word, x5: word, x6: word, x7: word,
      x8: word, x9: word, x10: word, x11: word, x12: word, x13: word, x14: word, x15: word)
    requires t + 16 <= |ws|
  {
    && ws[t] == x0 && ws[t + 1] == x1 && ws[t + 2] == x2 && ws[t + 3] == x3
    && ws[t + 4] == x4 && ws[t + 5] == x5 && ws[t + 6] == x6 && ws[t + 7] == x7
    && ws[t + 8] == x8 && ws[t + 9] == x9 && ws[t + 10] == x10 && ws[t + 11] == x11
    && ws[t + 12] == x12 && ws[t + 13] == x13 && ws[t + 14] == x14 && ws[t + 15] == x15
  }

  lemma NextWord(ws: seq<word>, t: nat, w3: word, w8: word, w14: word, w16: word)
    requires Extended(ws) && 16 <= t < 80
    requires ws[t - 3] == w3 && ws[t - 8] == w8 && ws[t - 14] == w14 && ws[t - 16] == w16
    ensures ws[t] == S(1, w3 ^ w8 ^ w14 ^ w16)
  {
    assert Extends(ws, t);
  }

  /** The sixteen words after sixteen known ones. */
  lemma NextSixteen(ws: seq<word>, t: nat,
      x0: word, x1: word, x2: word, x3: word, x4: word, x5: word, x6: word, x7: word,
      x8: word, x9: word, x10: word, x11: word, x12: word, x13: word, x14: word, x15: word,
      y0: word, y1: word, y2: word, y3: word, y4: word, y5: word, y6: word, y7: word,
      y8: word, y9: word, y10: word, y11: word, y12: word, y13: word, y14: word, y15: word)
    requires Extended(ws) && t <= 48
    requires Sixteen(ws, t, x0, x1, x2, x3, x4, x5, x6, x7, x8, x9, x10, x11, x12, x13, x14, x15)
    requires y0 == S(1, x13 ^ x8 ^ x2 ^ x0) && y1 == S(1, x14 ^ x9 ^ x3 ^ x1)
    requires y2 == S(1, x15 ^ x10 ^ x4 ^ x2) && y3 == S(1, y0 ^ x11 ^ x5 ^ x3)
    requires y4 == S(1, y1 ^ x12 ^ x6 ^ x4) && y5 == S(1, y2 ^ x13 ^ x7 ^ x5)
    requires y6 == S(1, y3 ^ x14 ^ x8 ^ x6) && y7 == S(1, y4 ^ x15 ^ x9 ^ x7)
    requires y8 == S(1, y5 ^ y0 ^ x10 ^ x8) && y9 == S(1, y6 ^ y1 ^ x11 ^ x9)
    requires y10 == S(1, y7 ^ y2 ^ x12 ^ x10) && y11 == S(1, y8 ^ y3 ^ x13 ^ x11)
    requires y12 == S(1, y9 ^ y4 ^ x14 ^ x12) && y13 == S(1, y10 ^ y5 ^ x15 ^ x13)
    requires y14 == S(1, y11 ^ y6 ^ y0 ^ x14) && y15 == S(1, y12 ^ y7 ^ y1 ^ x15)
    ensures Sixteen(ws, t + 16, y0, y1, y2, y3, y4, y5, y6, y7, y8, y9, y10, y11, y12, y13, y14, y15)
  {
    NextWord(ws, t + 16, x13, x8, x2, x0);
    NextWord(ws, t + 17, x14, x9, x3, x1);
    NextWord(ws, t + 18, x15, x10, x4, x2);
    NextWord(ws, t + 19, y0, x11, x5, x3);
    NextWord(ws, t + 20, y1, x12, x6, x4);
    NextWord(ws, t + 21, y2, x13, x7, x5);
    NextWord(ws, t + 22, y3, x14, x8, x6);
    NextWord(ws, t + 23, y4, x15, x9, x7);
    NextWord(ws, t + 24, y5, y0, x10, x8);
    NextWord(ws, t + 25, y6, y1, x11, x9);
    NextWord(ws, t + 26, y7, y2, x12, x10);
    NextWord(ws, t + 27, y8, y3, x13, x11);
    NextWord(ws, t + 28, y9, y4, x14, x12);
    NextWord(ws, t + 29, y10, y5, x15, x13);
    NextWord(ws, t + 30, y11, y6, y0, x14);
    NextWord(ws, t + 31, y12, y7, y1, x15);
  }

  ghost predicate Words0(ws: seq<word>) {
    |ws| == 80 && Sixteen(ws, 0,
      0x61626380, 0x00000000, 0x00000000, 0x00000000, 0x00000000, 0x00000000, 0x00000000, 0x00000000,
      0x00000000, 0x00000000, 0x00000000, 0x00000000, 0x00000000, 0x00000000, 0x00000000, 0x00000018)
  }

  ghost predicate Words16(ws: seq<word>) {
    |ws| == 80 && Sixteen(ws, 16,
      0xC2C4C700, 0x00000000, 0x00000030, 0x85898E01, 0x00000000, 0x00000060, 0x0B131C03, 0x00000030,
      0x85898EC1, 0x16263806, 0x00000000, 0x00000180, 0x2C4C700C, 0x000000F0, 0x93AFB507, 0x5898E048)
  }

  ghost predicate Words32(ws: seq<word>) {
    |ws| == 80 && Sixteen(ws, 32,
      0x8E9A9202, 0x00000600, 0xB131C0F0, 0x16263BC6, 0x4EBED41E, 0x626380A1, 0x16263806, 0x000018C0,
      0xD2E138C4, 0x00000F00, 0x3AFB5079, 0x898E04E5, 0xE2BA3C2B, 0x000060C0, 0x053A37CD, 0x74458547)
  }

  ghost predicate Words48(ws: seq<word>) {
    |ws| == 80 && Sixteen(ws, 48,
      0xDA9415ED, 0x26380A16, 0x626383A1, 0x4EBF54DE, 0x3835B44B, 0x0000F600, 0x1E84C7A3, 0x98E04D98,
      0x651D16A0, 0x62658CA1, 0x458544D6, 0x44584CB7, 0x7BA06619, 0x6380AEA2, 0x0AE55269, 0x627B49A1)
  }

  ghost predicate Words64(ws: seq<word>) {
    |ws| == 80 && Sixteen(ws, 64,
      0x7CD45C9D, 0x000F0000, 0xFB50753A, 0xEC6765E8, 0xBA3C2BE2, 0x0060C000, 0x3A37CD05, 0x458546F4,
      0xB8599DD6, 0x380A1A26, 0x01E02203, 0xE7CC3456, 0xE6E60B69, 0x00F60A00, 0x5795EF4F, 0x822E0879)
  }

  lemma Schedule(ws: seq<word>)
    requires Extended(ws) && Words0(ws)
    ensures Words16(ws) && Words32(ws) && Words48(ws) && Words64(ws)
  {
    NextSixteen(ws, 0,
      0x61626380, 0x00000000, 0x00000000, 0x00000000, 0x00000000, 0x00000000, 0x00000000, 0x00000000,
      0x00000000, 0x00000000, 0x00000000, 0x00000000, 0x00000000, 0x00000000, 0x00000000, 0x00000018,
      0xC2C4C700, 0x00000000, 0x00000030, 0x85898E01, 0x00000000, 0x00000060, 0x0B131C03, 0x00000030,
      0x85898EC1, 0x16263806, 0x00000000, 0x00000180, 0x2C4C700C, 0x000000F0, 0x93AFB507, 0x5898E048);
    NextSixteen(ws, 16,
      0xC2C4C700, 0x00000000, 0x00000030, 0x85898E01, 0x00000000, 0x00000060, 0x0B131C03, 0x00000030,
      0x85898EC1, 0x16263806, 0x00000000, 0x00000180, 0x2C4C700C, 0x000000F0, 0x93AFB507, 0x5898E048,
      0x8E9A9202, 0x00000600, 0xB131C0F0, 0x16263BC6, 0x4EBED41E, 0x626380A1, 0x16263806, 0x000018C0,
      0xD2E138C4, 0x00000F00, 0x3AFB5079, 0x898E04E5, 0xE2BA3C2B, 0x000060C0, 0x053A37CD, 0x74458547);
    NextSixteen(ws, 32,
      0x8E9A9202, 0x00000600, 0xB131C0F0, 0x16263BC6, 0x4EBED41E, 0x626380A1, 0x16263806, 0x000018C0,
      0xD2E138C4, 0x00000F00, 0x3AFB5079, 0x898E04E5, 0xE2BA3C2B, 0x000060C0, 0x053A37CD, 0x74458547,
      0xDA9415ED, 0x26380A16, 0x626383A1, 0x4EBF54DE, 0x3835B44B, 0x0000F600, 0x1E84C7A3, 0x98E04D98,
      0x651D16A0, 0x62658CA1, 0x458544D6, 0x44584CB7, 0x7BA06619, 0x6380AEA2, 0x0AE55269, 0x627B49A1);
    NextSixteen(ws, 48,
      0xDA9415ED, 0x26380A16, 0x626383A1, 0x4EBF54DE, 0x3835B44B, 0x0000F600, 0x1E84C7A3, 0x98E04D98,
      0x651D16A0, 0x62658CA1, 0x458544D6, 0x44584CB7, 0x7BA06619, 0x6380AEA2, 0x0AE55269, 0x627B49A1,
      0x7CD45C9D, 0x000F0000, 0xFB50753A, 0xEC6765E8, 0xBA3C2BE2, 0x0060C000, 0x3A37CD05, 0x458546F4,
      0xB8599DD6, 0x380A1A26, 0x01E02203, 0xE7CC3456, 0xE6E60B69, 0x00F60A00, 0x5795EF4F, 0x822E0879);
  }

  // ---------- the rounds ----------

  /** Section 7, step d, over given words. */
  ghost function Turns(ws: seq<word>, t: nat): Five
    requires t <= |ws|
  {
    if t == 0 then H0 else Round(Turns(ws, t - 1), t - 1, ws[t - 1])
  }

  /** A row of the table: A to E before round t, word t, and the new A and C. */
  lemma Row(ws: seq<word>, t: nat, a: word, b: word, c: word, d: word, e: word, w: word, a': word, c': word)
    requires t < |ws| && ws[t] == w && Turns(ws, t) == Five(a, b, c, d, e)
    requires a' == Add(Add(Add(Add(S(5, a), F(t, b, c, d)), e), w), K(t)) && c' == S(30, b)
    ensures Turns(ws, t + 1) == Five(a', a, c', c, d)
  {
  }

  lemma Rounds0(ws: seq<word>)
    requires Words0(ws) && Turns(ws, 0) == H0
    ensures Turns(ws, 16) == Five(0x20BDD62F, 0x196BEE77, 0x644A3DA5, 0x1181ED99, 0x18C623F9)
  {
    Row(ws, 0, 0x67452301, 0xEFCDAB89, 0x98BADCFE, 0x10325476, 0xC3D2E1F0, 0x61626380, 0x0116FC33, 0x7BF36AE2);
    Row(ws, 1, 0x0116FC33, 0x67452301, 0x7BF36AE2, 0x98BADCFE, 0x10325476, 0x00000000, 0x8990536D, 0x59D148C0);
    Row(ws, 2, 0x8990536D, 0x0116FC33, 0x59D148C0, 0x7BF36AE2, 0x98BADCFE, 0x00000000, 0xA1390F08, 0xC045BF0C);
    Row(ws, 3, 0xA1390F08, 0x8990536D, 0xC045BF0C, 0x59D148C0, 0x7BF36AE2, 0x00000000, 0xCDD8E11B, 0x626414DB);
    Row(ws, 4, 0xCDD8E11B, 0xA1390F08, 0x626414DB, 0xC045BF0C, 0x59D148C0, 0x00000000, 0xCFD499DE, 0x284E43C2);
    Row(ws, 5, 0xCFD499DE, 0xCDD8E11B, 0x284E43C2, 0x626414DB, 0xC045BF0C, 0x00000000, 0x3FC7CA40, 0xF3763846);
    Row(ws, 6, 0x3FC7CA40, 0xCFD499DE, 0xF3763846, 0x284E43C2, 0x626414DB, 0x00000000, 0x993E30C1, 0xB3F52677);
    Row(ws, 7, 0x993E30C1, 0x3FC7CA40, 0xB3F52677, 0xF3763846, 0x284E43C2, 0x00000000, 0x9E8C07D4, 0x0FF1F290);
    Row(ws, 8, 0x9E8C07D4, 0x993E30C1, 0x0FF1F290, 0xB3F52677, 0xF3763846, 0x00000000, 0x4B6AE328, 0x664F8C30);
    Row(ws, 9, 0x4B6AE328, 0x9E8C07D4, 0x664F8C30, 0x0FF1F290, 0xB3F52677, 0x00000000, 0x8351F929, 0x27A301F5);
    Row(ws, 10, 0x8351F929, 0x4B6AE328, 0x27A301F5, 0x664F8C30, 0x0FF1F290, 0x00000000, 0xFBDA9E89, 0x12DAB8CA);
    Row(ws, 11, 0xFBDA9E89, 0x8351F929, 0x12DAB8CA, 0x27A301F5, 0x664F8C30, 0x00000000, 0x63188FE4, 0x60D47E4A);
    Row(ws, 12, 0x63188FE4, 0xFBDA9E89, 0x60D47E4A, 0x12DAB8CA, 0x27A301F5, 0x00000000, 0x4607B664, 0x7EF6A7A2);
    Row(ws, 13, 0x4607B664, 0x63188FE4, 0x7EF6A7A2, 0x60D47E4A, 0x12DAB8CA, 0x00000000, 0x9128F695, 0x18C623F9);
    Row(ws, 14, 0x9128F695, 0x4607B664, 0x18C623F9, 0x7EF6A7A2, 0x60D47E4A, 0x00000000, 0x196BEE77, 0x1181ED99);
    Row(ws, 15, 0x196BEE77, 0x9128F695, 0x1181ED99, 0x18C623F9, 0x7EF6A7A2, 0x00000018, 0x20BDD62F, 0x644A3DA5);
  }

  lemma Rounds16(ws: seq<word>)
    requires Words16(ws) && Turns(ws, 16) == Five(0x20BDD62F, 0x196BEE77, 0x644A3DA5, 0x1181ED99, 0x18C623F9)
    ensures Turns(ws, 32) == Five(0x3B845D33, 0x1267B407, 0x717EEBD7, 0xA0DC2D4B, 0xD2AA1365)
  {
    Row(ws, 16, 0x20BDD62F, 0x196BEE77, 0x644A3DA5, 0x1181ED99, 0x18C623F9, 0xC2C4C700, 0x4E925823, 0xC65AFB9D);
    Row(ws, 17, 0x4E925823, 0x20BDD62F, 0xC65AFB9D, 0x644A3DA5, 0x1181ED99, 0x00000000, 0x82AA6728, 0xC82F758B);
    Row(ws, 18, 0x82AA6728, 0x4E925823, 0xC82F758B, 0xC65AFB9D, 0x644A3DA5, 0x00000030, 0xDC64901D, 0xD3A49608);
    Row(ws, 19, 0xDC64901D, 0x82AA6728, 0xD3A49608, 0xC82F758B, 0xC65AFB9D, 0x85898E01, 0xFD9E1D7D, 0x20AA99CA);
    Row(ws, 20, 0xFD9E1D7D, 0xDC64901D, 0x20AA99CA, 0xD3A49608, 0xC82F758B, 0x00000000, 0x1A37B0CA, 0x77192407);
    Row(ws, 21, 0x1A37B0CA, 0xFD9E1D7D, 0x77192407, 0x20AA99CA, 0xD3A49608, 0x00000060, 0x33A23BFC, 0x7F67875F);
    Row(ws, 22, 0x33A23BFC, 0x1A37B0CA, 0x7F67875F, 0x77192407, 0x20AA99CA, 0x0B131C03, 0x21283486, 0x868DEC32);
    Row(ws, 23, 0x21283486, 0x33A23BFC, 0x868DEC32, 0x7F67875F, 0x77192407, 0x00000030, 0xD541F12D, 0x0CE88EFF);
    Row(ws, 24, 0xD541F12D, 0x21283486, 0x0CE88EFF, 0x868DEC32, 0x7F67875F, 0x85898EC1, 0xC7567DC6, 0x884A0D21);
    Row(ws, 25, 0xC7567DC6, 0xD541F12D, 0x884A0D21, 0x0CE88EFF, 0x868DEC32, 0x16263806, 0x48413BA4, 0x75507C4B);
    Row(ws, 26, 0x48413BA4, 0xC7567DC6, 0x75507C4B, 0x884A0D21, 0x0CE88EFF, 0x00000000, 0xBE35FBD5, 0xB1D59F71);
    Row(ws, 27, 0xBE35FBD5, 0x48413BA4, 0xB1D59F71, 0x75507C4B, 0x884A0D21, 0x00000180, 0x4AA84D97, 0x12104EE9);
    Row(ws, 28, 0x4AA84D97, 0xBE35FBD5, 0x12104EE9, 0xB1D59F71, 0x75507C4B, 0x2C4C700C, 0x8370B52E, 0x6F8D7EF5);
    Row(ws, 29, 0x8370B52E, 0x4AA84D97, 0x6F8D7EF5, 0x12104EE9, 0xB1D59F71, 0x000000F0, 0xC5FBAF5D, 0xD2AA1365);
    Row(ws, 30, 0xC5FBAF5D, 0x8370B52E, 0xD2AA1365, 0x6F8D7EF5, 0x12104EE9, 0x93AFB507, 0x1267B407, 0xA0DC2D4B);
    Row(ws, 31, 0x1267B407, 0xC5FBAF5D, 0xA0DC2D4B, 0xD2AA1365, 0x6F8D7EF5, 0x5898E048, 0x3B845D33, 0x717EEBD7);
  }

  lemma Rounds32(ws: seq<word>)
    requires Words32(ws) && Turns(ws, 32) == Five(0x3B845D33, 0x1267B407, 0x717EEBD7, 0xA0DC2D4B, 0xD2AA1365)
    ensures Turns(ws, 48) == Five(0xBEAD02CA, 0xA01B846C, 0x8714787C, 0x503CA382, 0xFB86C6AB)
  {
    Row(ws, 32, 0x3B845D33, 0x1267B407, 0x717EEBD7, 0xA0DC2D4B, 0xD2AA1365, 0x8E9A9202, 0x046FAA0A, 0xC499ED01);
    Row(ws, 33, 0x046FAA0A, 0x3B845D33, 0xC499ED01, 0x717EEBD7, 0xA0DC2D4B, 0x00000600, 0x2C0EBC11, 0xCEE1174C);
    Row(ws, 34, 0x2C0EBC11, 0x046FAA0A, 0xCEE1174C, 0xC499ED01, 0x717EEBD7, 0xB131C0F0, 0x21796AD4, 0x811BEA82);
    Row(ws, 35, 0x21796AD4, 0x2C0EBC11, 0x811BEA82, 0xCEE1174C, 0xC499ED01, 0x16263BC6, 0xDCBBB0CB, 0x4B03AF04);
    Row(ws, 36, 0xDCBBB0CB, 0x21796AD4, 0x4B03AF04, 0x811BEA82, 0xCEE1174C, 0x4EBED41E, 0x0F511FD8, 0x085E5AB5);
    Row(ws, 37, 0x0F511FD8, 0xDCBBB0CB, 0x085E5AB5, 0x4B03AF04, 0x811BEA82, 0x626380A1, 0xDC63973F, 0xF72EEC32);
    Row(ws, 38, 0xDC63973F, 0x0F511FD8, 0xF72EEC32, 0x085E5AB5, 0x4B03AF04, 0x16263806, 0x4C986405, 0x03D447F6);
    Row(ws, 39, 0x4C986405, 0xDC63973F, 0x03D447F6, 0xF72EEC32, 0x085E5AB5, 0x000018C0, 0x32DE1CBA, 0xF718E5CF);
    Row(ws, 40, 0x32DE1CBA, 0x4C986405, 0xF718E5CF, 0x03D447F6, 0xF72EEC32, 0xD2E138C4, 0xFC87DEDF, 0x53261901);
    Row(ws, 41, 0xFC87DEDF, 0x32DE1CBA, 0x53261901, 0xF718E5CF, 0x03D447F6, 0x00000F00, 0x970A0D5C, 0x8CB7872E);
    Row(ws, 42, 0x970A0D5C, 0xFC87DEDF, 0x8CB7872E, 0x53261901, 0xF718E5CF, 0x3AFB5079, 0x7F193DC5, 0xFF21F7B7);
    Row(ws, 43, 0x7F193DC5, 0x970A0D5C, 0xFF21F7B7, 0x8CB7872E, 0x53261901, 0x898E04E5, 0xEE1B1AAF, 0x25C28357);
    Row(ws, 44, 0xEE1B1AAF, 0x7F193DC5, 0x25C28357, 0xFF21F7B7, 0x8CB7872E, 0xE2BA3C2B, 0x40F28E09, 0x5FC64F71);
    Row(ws, 45, 0x40F28E09, 0xEE1B1AAF, 0x5FC64F71, 0x25C28357, 0xFF21F7B7, 0x000060C0, 0x1C51E1F2, 0xFB86C6AB);
    Row(ws, 46, 0x1C51E1F2, 0x40F28E09, 0xFB86C6AB, 0x5FC64F71, 0x25C28357, 0x053A37CD, 0xA01B846C, 0x503CA382);
    Row(ws, 47, 0xA01B846C, 0x1C51E1F2, 0x503CA382, 0xFB86C6AB, 0x5FC64F71, 0x74458547, 0xBEAD02CA, 0x8714787C);
  }

  lemma Rounds48(ws: seq<word>)
    requires Words48(ws) && Turns(ws, 48) == Five(0xBEAD02CA, 0xA01B846C, 0x8714787C, 0x503CA382, 0xFB86C6AB)
    ensures Turns(ws, 64) == Five(0x6B61C9E1, 0xB66C020B, 0x9523272C, 0xF5D5B051, 0x8FD4B796)
  {
    Row(ws, 48, 0xBEAD02CA, 0xA01B846C, 0x8714787C, 0x503CA382, 0xFB86C6AB, 0xDA9415ED, 0xBAF39337, 0x2806E11B);
    Row(ws, 49, 0xBAF39337, 0xBEAD02CA, 0x2806E11B, 0x8714787C, 0x503CA382, 0x26380A16, 0x120731C5, 0xAFAB40B2);
    Row(ws, 50, 0x120731C5, 0xBAF39337, 0xAFAB40B2, 0x2806E11B, 0x8714787C, 0x626383A1, 0x641DB2CE, 0xEEBCE4CD);
    Row(ws, 51, 0x641DB2CE, 0x120731C5, 0xEEBCE4CD, 0xAFAB40B2, 0x2806E11B, 0x4EBF54DE, 0x3847AD66, 0x4481CC71);
    Row(ws, 52, 0x3847AD66, 0x641DB2CE, 0x4481CC71, 0xEEBCE4CD, 0xAFAB40B2, 0x3835B44B, 0xE490436D, 0x99076CB3);
    Row(ws, 53, 0xE490436D, 0x3847AD66, 0x99076CB3, 0x4481CC71, 0xEEBCE4CD, 0x0000F600, 0x27E9F1D8, 0x8E11EB59);
    Row(ws, 54, 0x27E9F1D8, 0xE490436D, 0x8E11EB59, 0x99076CB3, 0x4481CC71, 0x1E84C7A3, 0x7B71F76D, 0x792410DB);
    Row(ws, 55, 0x7B71F76D, 0x27E9F1D8, 0x792410DB, 0x8E11EB59, 0x99076CB3, 0x98E04D98, 0x5E6456AF, 0x09FA7C76);
    Row(ws, 56, 0x5E6456AF, 0x7B71F76D, 0x09FA7C76, 0x792410DB, 0x8E11EB59, 0x651D16A0, 0xC846093F, 0x5EDC7DDB);
    Row(ws, 57, 0xC846093F, 0x5E6456AF, 0x5EDC7DDB, 0x09FA7C76, 0x792410DB, 0x62658CA1, 0xD262FF50, 0xD79915AB);
    Row(ws, 58, 0xD262FF50, 0xC846093F, 0xD79915AB, 0x5EDC7DDB, 0x09FA7C76, 0x458544D6, 0x09D785FD, 0xF211824F);
    Row(ws, 59, 0x09D785FD, 0xD262FF50, 0xF211824F, 0xD79915AB, 0x5EDC7DDB, 0x44584CB7, 0x3F52DE5A, 0x3498BFD4);
    Row(ws, 60, 0x3F52DE5A, 0x09D785FD, 0x3498BFD4, 0xF211824F, 0xD79915AB, 0x7BA06619, 0xD756C147, 0x4275E17F);
    Row(ws, 61, 0xD756C147, 0x3F52DE5A, 0x4275E17F, 0x3498BFD4, 0xF211824F, 0x6380AEA2, 0x548C9CB2, 0x8FD4B796);
    Row(ws, 62, 0x548C9CB2, 0xD756C147, 0x8FD4B796, 0x4275E17F, 0x3498BFD4, 0x0AE55269, 0xB66C020B, 0xF5D5B051);
    Row(ws, 63, 0xB66C020B, 0x548C9CB2, 0xF5D5B051, 0x8FD4B796, 0x4275E17F, 0x627B49A1, 0x6B61C9E1, 0x9523272C);
  }

  lemma Rounds64(ws: seq<word>)
    requires Words64(ws) && Turns(ws, 64) == Five(0x6B61C9E1, 0xB66C020B, 0x9523272C, 0xF5D5B051, 0x8FD4B796)
    ensures Turns(ws, 80) == Five(0x42541B35, 0x5738D5E1, 0x21834873, 0x681E6DF6, 0xD8FDF6AD)
  {
    Row(ws, 64, 0x6B61C9E1, 0xB66C020B, 0x9523272C, 0xF5D5B051, 0x8FD4B796, 0x7CD45C9D, 0x19DFA7AC, 0xED9B0082);
    Row(ws, 65, 0x19DFA7AC, 0x6B61C9E1, 0xED9B0082, 0x9523272C, 0xF5D5B051, 0x000F0000, 0x101655F9, 0x5AD87278);
    Row(ws, 66, 0x101655F9, 0x19DFA7AC, 0x5AD87278, 0xED9B0082, 0x9523272C, 0xFB50753A, 0x0C3DF2B4, 0x0677E9EB);
    Row(ws, 67, 0x0C3DF2B4, 0x101655F9, 0x0677E9EB, 0x5AD87278, 0xED9B0082, 0xEC6765E8, 0x78DD4D2B, 0x4405957E);
    Row(ws, 68, 0x78DD4D2B, 0x0C3DF2B4, 0x4405957E, 0x0677E9EB, 0x5AD87278, 0xBA3C2BE2, 0x497093C0, 0x030F7CAD);
    Row(ws, 69, 0x497093C0, 0x78DD4D2B, 0x030F7CAD, 0x4405957E, 0x0677E9EB, 0x0060C000, 0x3F2588C2, 0xDE37534A);
    Row(ws, 70, 0x3F2588C2, 0x497093C0, 0xDE37534A, 0x030F7CAD, 0x4405957E, 0x3A37CD05, 0xC199F8C7, 0x125C24F0);
    Row(ws, 71, 0xC199F8C7, 0x3F2588C2, 0x125C24F0, 0xDE37534A, 0x030F7CAD, 0x458546F4, 0x39859DE7, 0x8FC96230);
    Row(ws, 72, 0x39859DE7, 0xC199F8C7, 0x8FC96230, 0x125C24F0, 0xDE37534A, 0xB8599DD6, 0xEDB42DE4, 0xF0667E31);
    Row(ws, 73, 0xEDB42DE4, 0x39859DE7, 0xF0667E31, 0x8FC96230, 0x125C24F0, 0x380A1A26, 0x11793F6F, 0xCE616779);
    Row(ws, 74, 0x11793F6F, 0xEDB42DE4, 0xCE616779, 0xF0667E31, 0x8FC96230, 0x01E02203, 0x5EE76897, 0x3B6D0B79);
    Row(ws, 75, 0x5EE76897, 0x11793F6F, 0x3B6D0B79, 0xCE616779, 0xF0667E31, 0xE7CC3456, 0x63F7DAB7, 0xC45E4FDB);
    Row(ws, 76, 0x63F7DAB7, 0x5EE76897, 0xC45E4FDB, 0x3B6D0B79, 0xCE616779, 0xE6E60B69, 0xA079B7D9, 0xD7B9DA25);
    Row(ws, 77, 0xA079B7D9, 0x63F7DAB7, 0xD7B9DA25, 0xC45E4FDB, 0x3B6D0B79, 0x00F60A00, 0x860D21CC, 0xD8FDF6AD);
    Row(ws, 78, 0x860D21CC, 0xA079B7D9, 0xD8FDF6AD, 0xD7B9DA25, 0xC45E4FDB, 0x5795EF4F, 0x5738D5E1, 0x681E6DF6);
    Row(ws, 79, 0x5738D5E1, 0x860D21CC, 0x681E6DF6, 0xD8FDF6AD, 0xD7B9DA25, 0x822E0879, 0x42541B35, 0x21834873);
  }

  lemma {:induction false} TurnsAreRounds(b: seq<byte>, ws: seq<word>, t: nat)
    requires |b| == 64 && |ws| == 80 && t <= 80 && forall i :: 0 <= i < 80 ==> ws[i] == W(b, i)
    ensures Turns(ws, t) == Rounds(H0, b, t)
  {
    if t > 0 {
      TurnsAreRounds(b, ws, t - 1);
    }
  }

  // ---------- the message ----------

  /** The octets of "abc" padded. */
  ghost predicate Abc(b: seq<byte>) {
    && |b| == 64 && b[0] == 0x61 && b[1] == 0x62 && b[2] == 0x63 && b[3] == 0x80
    && (forall i :: 4 <= i < 63 ==> b[i] == 0) && b[63] == 0x18
  }

  lemma LoadedWord(b: seq<byte>, t: nat, x0: byte, x1: byte, x2: byte, x3: byte)
    requires |b| == 64 && t < 16 && b[4 * t] == x0 && b[4 * t + 1] == x1 && b[4 * t + 2] == x2 && b[4 * t + 3] == x3
    ensures W(b, t) == BigEndian([x0, x1, x2, x3])
  {
    assert b[4 * t..4 * t + 4] == [x0, x1, x2, x3];
  }

  function Join(w0: word, w1: word, w2: word, w3: word): word {
    (w0 << 24) | (w1 << 16) | (w2 << 8) | w3
  }

  lemma Joins(x0: byte, x1: byte, x2: byte, x3: byte)
    ensures BigEndian([x0, x1, x2, x3]) == Join(Word(x0), Word(x1), Word(x2), Word(x3))
  {
  }

  lemma Octets()
    ensures Word(0x61) == 0x61 && Word(0x62) == 0x62 && Word(0x63) == 0x63 && Word(0x80) == 0x80
    ensures Word(0) == 0 && Word(0x18) == 0x18
  {
  }

  lemma Joined()
    ensures Join(0x61, 0x62, 0x63, 0x80) == 0x61626380
    ensures Join(0, 0, 0, 0) == 0 && Join(0, 0, 0, 0x18) == 0x18
  {
  }

  lemma BigEndians()
    ensures BigEndian([0x61, 0x62, 0x63, 0x80]) == 0x61626380
    ensures BigEndian([0, 0, 0, 0]) == 0 && BigEndian([0, 0, 0, 0x18]) == 0x18
  {
    Joins(0x61, 0x62, 0x63, 0x80);
    Joins(0, 0, 0, 0);
    Joins(0, 0, 0, 0x18);
    Octets();
    Joined();
  }

  lemma FirstWords(b: seq<byte>, t: nat)
    requires Abc(b) && t < 16
    ensures W(b, t) == if t == 0 then 0x61626380 else if t == 15 then 0x18 else 0
  {
    BigEndians();
    if t == 0 {
      LoadedWord(b, t, 0x61, 0x62, 0x63, 0x80);
    } else if t == 15 {
      LoadedWord(b, t, 0, 0, 0, 0x18);
    } else {
      LoadedWord(b, t, 0, 0, 0, 0);
    }
  }

  lemma LengthOctets()
    ensures Octets64(24) == [0, 0, 0, 0, 0, 0, 0, 0x18]
  {
  }

  lemma AbcPadded(m: seq<byte>)
    requires m == [0x61, 0x62, 0x63]
    ensures Abc(Pad(m))
  {
    LengthOctets();
    assert Pad(m) == m + [0x80] + Zeros(52) + Octets64(24);
  }

  ghost function ScheduleOf(b: seq<byte>): (ws: seq<word>)
    requires |b| == 64
    ensures |ws| == 80 && forall t :: 0 <= t < 80 ==> ws[t] == W(b, t)
  {
    seq(80, t requires t >= 0 => W(b, t))
  }

  lemma WordExtends(b: seq<byte>, t: nat, w: word, w3: word, w8: word, w14: word, w16: word)
    requires |b| == 64 && t >= 16 && W(b, t) == w
    requires W(b, t - 3) == w3 && W(b, t - 8) == w8 && W(b, t - 14) == w14 && W(b, t - 16) == w16
    ensures w == S(1, w3 ^ w8 ^ w14 ^ w16)
  {
  }

  lemma ScheduleExtends(b: seq<byte>)
    requires |b| == 64
    ensures Extended(ScheduleOf(b))
  {
    var ws := ScheduleOf(b);
    forall t | 16 <= t < 80 ensures Extends(ws, t) {
      WordExtends(b, t, ws[t], ws[t - 3], ws[t - 8], ws[t - 14], ws[t - 16]);
    }
  }

  lemma AbcWords(ws: seq<word>)
    requires |ws| == 80
    requires forall t :: 0 <= t < 16 ==> ws[t] == if t == 0 then 0x61626380 else if t == 15 then 0x18 else 0
    ensures Words0(ws)
  {
  }

  lemma TurnsOfAbc(ws: seq<word>)
    requires Extended(ws) && Words0(ws)
    ensures Sum(H0, Turns(ws, 80)) == Five(0xA9993E36, 0x4706816A, 0xBA3E2571, 0x7850C26C, 0x9CD0D89D)
  {
    Schedule(ws);
    Rounds0(ws);
    Rounds16(ws);
    Rounds32(ws);
    Rounds48(ws);
    Rounds64(ws);
  }

  lemma CompressAbc(b: seq<byte>)
    requires Abc(b)
    ensures Compress(H0, b) == Five(0xA9993E36, 0x4706816A, 0xBA3E2571, 0x7850C26C, 0x9CD0D89D)
  {
    var ws := ScheduleOf(b);
    ScheduleExtends(b);
    forall t | 0 <= t < 16 ensures ws[t] == if t == 0 then 0x61626380 else if t == 15 then 0x18 else 0 {
      FirstWords(b, t);
    }
    AbcWords(ws);
    TurnsOfAbc(ws);
    TurnsAreRounds(b, ws, 80);
  }

  /** The digest of "abc". */
  lemma KnownAnswer(m: seq<byte>)
    requires m == [0x61, 0x62, 0x63]
    ensures Digest(m) == Five(0xA9993E36, 0x4706816A, 0xBA3E2571, 0x7850C26C, 0x9CD0D89D)
  {
    var b := Pad(m);
    AbcPadded(m);
    CompressAbc(b);
    FoldBlock(H0, [], b);
    assert [] + b == b;
  }

  /** Hashed in two pieces. */
  method HashAbc() returns (ok: bool, digest: Five)
    ensures ok && digest == Five(0xA9993E36, 0x4706816A, 0xBA3E2571, 0x7850C26C, 0x9CD0D89D)
  {
    var parts: seq<seq<byte>> := [[0x61], [0x62, 0x63]];
    ghost var m: seq<byte> := [0x61, 0x62, 0x63];
    assert Sha1.Concat(parts) == m by {
      assert parts[..1] == [parts[0]] && parts[..1][..0] == [];
    }
    KnownAnswer(m);
    ok, digest := Sha1.HashPieces(parts);
  }
}
