/** The first example of section 7.3 of RFC 3174, worked out: the digest of "abc". */
module Sha1Example {
  import opened Common
  import opened Sha1Spec
  import opened Sha1Words
  import Crc8

  // ---------- the steps on bare machine words ----------

  function MixBits(t: nat, b: bv32, c: bv32, d: bv32): bv32 {
    if t < 20 then Ch(b, c, d)
    else if t < 40 then Differ(Differ(b, c), d)
    else if t < 60 then Maj(b, c, d)
    else Differ(Differ(b, c), d)
  }

  function Next(t: nat, a: bv32, b: bv32, c: bv32, d: bv32, e: bv32, w: bv32): bv32 {
    Sum(Sum(Sum(Sum(By5(a), MixBits(t, b, c, d)), e), w), Constant(t).x)
  }

  /** Sixteen successive words of the expanded block. */
  datatype Line = Line(w0: bv32, w1: bv32, w2: bv32, w3: bv32, w4: bv32, w5: bv32, w6: bv32, w7: bv32, w8: bv32,
                       w9: bv32, w10: bv32, w11: bv32, w12: bv32, w13: bv32, w14: bv32, w15: bv32)

  function NextLine(l: Line): Line {
    Line(l.w1, l.w2, l.w3, l.w4, l.w5, l.w6, l.w7, l.w8, l.w9, l.w10, l.w11, l.w12, l.w13, l.w14, l.w15,
         By1(Differ(Differ(Differ(l.w13, l.w8), l.w2), l.w0)))
  }

  /** The next words and the registers. */
  datatype Stage = Stage(l: Line, a: bv32, b: bv32, c: bv32, d: bv32, e: bv32)

  function NextStage(t: nat, s: Stage): Stage {
    Stage(NextLine(s.l), Next(t, s.a, s.b, s.c, s.d, s.e, s.l.w0), s.a, By30(s.b), s.c, s.d)
  }

  /** Five steps from t on. */
  function FiveSteps(t: nat, s: Stage): Stage {
    NextStage(t + 4, NextStage(t + 3, NextStage(t + 2, NextStage(t + 1, NextStage(t, s)))))
  }

  /** The line stands at word t of the expanded block. */
  ghost predicate StandsAt(l: Line, words: Words, t: nat) {
    && Expanded(words, t) == Reg(l.w0) && Expanded(words, t + 1) == Reg(l.w1) && Expanded(words, t + 2) == Reg(l.w2)
    && Expanded(words, t + 3) == Reg(l.w3) && Expanded(words, t + 4) == Reg(l.w4) && Expanded(words, t + 5) == Reg(l.w5)
    && Expanded(words, t + 6) == Reg(l.w6) && Expanded(words, t + 7) == Reg(l.w7) && Expanded(words, t + 8) == Reg(l.w8)
    && Expanded(words, t + 9) == Reg(l.w9) && Expanded(words, t + 10) == Reg(l.w10)
    && Expanded(words, t + 11) == Reg(l.w11) && Expanded(words, t + 12) == Reg(l.w12)
    && Expanded(words, t + 13) == Reg(l.w13) && Expanded(words, t + 14) == Reg(l.w14)
    && Expanded(words, t + 15) == Reg(l.w15)
  }

  lemma NextStands(l: Line, words: Words, t: nat)
    requires StandsAt(l, words, t)
    ensures StandsAt(NextLine(l), words, t + 1) && Expanded(words, t) == Reg(l.w0)
  {
    hide By1, Differ;
  }

  /** The stage is the one the definition has reached before step t. */
  ghost predicate Reached(words: Words, t: nat, start: Regs, s: Stage) {
    StandsAt(s.l, words, t) && Rounds(words, t, start) == Regs(Reg(s.a), Reg(s.b), Reg(s.c), Reg(s.d), Reg(s.e))
  }

  lemma NextReached(words: Words, t: nat, start: Regs, s: Stage)
    requires t < 80 && Reached(words, t, start, s)
    ensures Reached(words, t + 1, start, NextStage(t, s))
  {
    hide StandsAt, NextLine, Expanded, Sum, By5, By30, Ch, Maj, Differ;
    NextStands(s.l, words, t);
  }

  lemma FiveReached(words: Words, t: nat, start: Regs, s: Stage)
    requires t <= 75 && Reached(words, t, start, s)
    ensures Reached(words, t + 5, start, FiveSteps(t, s))
  {
    hide Reached, NextStage;
    NextReached(words, t, start, s);
    NextReached(words, t + 1, start, NextStage(t, s));
    NextReached(words, t + 2, start, NextStage(t + 1, NextStage(t, s)));
    NextReached(words, t + 3, start, NextStage(t + 2, NextStage(t + 1, NextStage(t, s))));
    NextReached(words, t + 4, start, NextStage(t + 3, NextStage(t + 2, NextStage(t + 1, NextStage(t, s)))));
  }

  // ---------- five steps at a time ----------

  /** The first five, one by one. */
  lemma Steps0()
    ensures FiveSteps(0, Stage(Line(0x61626380, 0, 0, 0, 0, 0, 0, 0, 0, 0, 0, 0, 0, 0, 0, 0x00000018), 0x67452301,
                               0xEFCDAB89, 0x98BADCFE, 0x10325476, 0xC3D2E1F0)) ==
            Stage(Line(0, 0, 0, 0, 0, 0, 0, 0, 0, 0, 0x00000018, 0xC2C4C700, 0, 0x00000030, 0x85898E01, 0),
                  0xCFD499DE, 0xCDD8E11B, 0x284E43C2, 0x626414DB, 0xC045BF0C)
  {
    assert NextStage(0, Stage(Line(0x61626380, 0, 0, 0, 0, 0, 0, 0, 0, 0, 0, 0, 0, 0, 0, 0x00000018), 0x67452301,
                              0xEFCDAB89, 0x98BADCFE, 0x10325476, 0xC3D2E1F0)) ==
           Stage(Line(0, 0, 0, 0, 0, 0, 0, 0, 0, 0, 0, 0, 0, 0, 0x00000018, 0xC2C4C700), 0x0116FC33, 0x67452301,
                 0x7BF36AE2, 0x98BADCFE, 0x10325476);
    assert NextStage(1, Stage(Line(0, 0, 0, 0, 0, 0, 0, 0, 0, 0, 0, 0, 0, 0, 0x00000018, 0xC2C4C700), 0x0116FC33,
                              0x67452301, 0x7BF36AE2, 0x98BADCFE, 0x10325476)) ==
           Stage(Line(0, 0, 0, 0, 0, 0, 0, 0, 0, 0, 0, 0, 0, 0x00000018, 0xC2C4C700, 0), 0x8990536D, 0x0116FC33,
                 0x59D148C0, 0x7BF36AE2, 0x98BADCFE);
    assert NextStage(2, Stage(Line(0, 0, 0, 0, 0, 0, 0, 0, 0, 0, 0, 0, 0, 0x00000018, 0xC2C4C700, 0), 0x8990536D,
                              0x0116FC33, 0x59D148C0, 0x7BF36AE2, 0x98BADCFE)) ==
           Stage(Line(0, 0, 0, 0, 0, 0, 0, 0, 0, 0, 0, 0, 0x00000018, 0xC2C4C700, 0, 0x00000030), 0xA1390F08,
                 0x8990536D, 0xC045BF0C, 0x59D148C0, 0x7BF36AE2);
    assert NextStage(3, Stage(Line(0, 0, 0, 0, 0, 0, 0, 0, 0, 0, 0, 0, 0x00000018, 0xC2C4C700, 0, 0x00000030),
                              0xA1390F08, 0x8990536D, 0xC045BF0C, 0x59D148C0, 0x7BF36AE2)) ==
           Stage(Line(0, 0, 0, 0, 0, 0, 0, 0, 0, 0, 0, 0x00000018, 0xC2C4C700, 0, 0x00000030, 0x85898E01), 0xCDD8E11B,
                 0xA1390F08, 0x626414DB, 0xC045BF0C, 0x59D148C0);
    assert NextStage(4, Stage(Line(0, 0, 0, 0, 0, 0, 0, 0, 0, 0, 0, 0x00000018, 0xC2C4C700, 0, 0x00000030,
                              0x85898E01), 0xCDD8E11B, 0xA1390F08, 0x626414DB, 0xC045BF0C, 0x59D148C0)) ==
           Stage(Line(0, 0, 0, 0, 0, 0, 0, 0, 0, 0, 0x00000018, 0xC2C4C700, 0, 0x00000030, 0x85898E01, 0), 0xCFD499DE,
                 0xCDD8E11B, 0x284E43C2, 0x626414DB, 0xC045BF0C);
  }

  lemma Steps5()
    ensures FiveSteps(5, Stage(Line(0, 0, 0, 0, 0, 0, 0, 0, 0, 0, 0x00000018, 0xC2C4C700, 0, 0x00000030, 0x85898E01,
                               0), 0xCFD499DE, 0xCDD8E11B, 0x284E43C2, 0x626414DB, 0xC045BF0C)) ==
            Stage(Line(0, 0, 0, 0, 0, 0x00000018, 0xC2C4C700, 0, 0x00000030, 0x85898E01, 0, 0x00000060, 0x0B131C03,
                  0x00000030, 0x85898EC1, 0x16263806), 0x8351F929, 0x4B6AE328, 0x27A301F5, 0x664F8C30, 0x0FF1F290)
  {}

  lemma Steps10()
    ensures FiveSteps(10, Stage(Line(0, 0, 0, 0, 0, 0x00000018, 0xC2C4C700, 0, 0x00000030, 0x85898E01, 0, 0x00000060,
                                0x0B131C03, 0x00000030, 0x85898EC1, 0x16263806), 0x8351F929, 0x4B6AE328, 0x27A301F5,
                                0x664F8C30, 0x0FF1F290)) ==
            Stage(Line(0x00000018, 0xC2C4C700, 0, 0x00000030, 0x85898E01, 0, 0x00000060, 0x0B131C03, 0x00000030,
                  0x85898EC1, 0x16263806, 0, 0x00000180, 0x2C4C700C, 0x000000F0, 0x93AFB507), 0x196BEE77, 0x9128F695,
                  0x1181ED99, 0x18C623F9, 0x7EF6A7A2)
  {}

  lemma Steps15()
    ensures FiveSteps(15, Stage(Line(0x00000018, 0xC2C4C700, 0, 0x00000030, 0x85898E01, 0, 0x00000060, 0x0B131C03,
                                0x00000030, 0x85898EC1, 0x16263806, 0, 0x00000180, 0x2C4C700C, 0x000000F0,
                                0x93AFB507), 0x196BEE77, 0x9128F695, 0x1181ED99, 0x18C623F9, 0x7EF6A7A2)) ==
            Stage(Line(0, 0x00000060, 0x0B131C03, 0x00000030, 0x85898EC1, 0x16263806, 0, 0x00000180, 0x2C4C700C,
                  0x000000F0, 0x93AFB507, 0x5898E048, 0x8E9A9202, 0x00000600, 0xB131C0F0, 0x16263BC6), 0xFD9E1D7D,
                  0xDC64901D, 0x20AA99CA, 0xD3A49608, 0xC82F758B)
  {}

  lemma Steps20()
    ensures FiveSteps(20, Stage(Line(0, 0x00000060, 0x0B131C03, 0x00000030, 0x85898EC1, 0x16263806, 0, 0x00000180,
                                0x2C4C700C, 0x000000F0, 0x93AFB507, 0x5898E048, 0x8E9A9202, 0x00000600, 0xB131C0F0,
                                0x16263BC6), 0xFD9E1D7D, 0xDC64901D, 0x20AA99CA, 0xD3A49608, 0xC82F758B)) ==
            Stage(Line(0x16263806, 0, 0x00000180, 0x2C4C700C, 0x000000F0, 0x93AFB507, 0x5898E048, 0x8E9A9202,
                  0x00000600, 0xB131C0F0, 0x16263BC6, 0x4EBED41E, 0x626380A1, 0x16263806, 0x000018C0, 0xD2E138C4),
                  0xC7567DC6, 0xD541F12D, 0x884A0D21, 0x0CE88EFF, 0x868DEC32)
  {}

  lemma Steps25()
    ensures FiveSteps(25, Stage(Line(0x16263806, 0, 0x00000180, 0x2C4C700C, 0x000000F0, 0x93AFB507, 0x5898E048,
                                0x8E9A9202, 0x00000600, 0xB131C0F0, 0x16263BC6, 0x4EBED41E, 0x626380A1, 0x16263806,
                                0x000018C0, 0xD2E138C4), 0xC7567DC6, 0xD541F12D, 0x884A0D21, 0x0CE88EFF, 0x868DEC32)) ==
            Stage(Line(0x93AFB507, 0x5898E048, 0x8E9A9202, 0x00000600, 0xB131C0F0, 0x16263BC6, 0x4EBED41E, 0x626380A1,
                  0x16263806, 0x000018C0, 0xD2E138C4, 0x00000F00, 0x3AFB5079, 0x898E04E5, 0xE2BA3C2B, 0x000060C0),
                  0xC5FBAF5D, 0x8370B52E, 0xD2AA1365, 0x6F8D7EF5, 0x12104EE9)
  {}

  lemma Steps30()
    ensures FiveSteps(30, Stage(Line(0x93AFB507, 0x5898E048, 0x8E9A9202, 0x00000600, 0xB131C0F0, 0x16263BC6,
                                0x4EBED41E, 0x626380A1, 0x16263806, 0x000018C0, 0xD2E138C4, 0x00000F00, 0x3AFB5079,
                                0x898E04E5, 0xE2BA3C2B, 0x000060C0), 0xC5FBAF5D, 0x8370B52E, 0xD2AA1365, 0x6F8D7EF5,
                                0x12104EE9)) ==
            Stage(Line(0x16263BC6, 0x4EBED41E, 0x626380A1, 0x16263806, 0x000018C0, 0xD2E138C4, 0x00000F00, 0x3AFB5079,
                  0x898E04E5, 0xE2BA3C2B, 0x000060C0, 0x053A37CD, 0x74458547, 0xDA9415ED, 0x26380A16, 0x626383A1),
                  0x21796AD4, 0x2C0EBC11, 0x811BEA82, 0xCEE1174C, 0xC499ED01)
  {}

  lemma Steps35()
    ensures FiveSteps(35, Stage(Line(0x16263BC6, 0x4EBED41E, 0x626380A1, 0x16263806, 0x000018C0, 0xD2E138C4,
                                0x00000F00, 0x3AFB5079, 0x898E04E5, 0xE2BA3C2B, 0x000060C0, 0x053A37CD, 0x74458547,
                                0xDA9415ED, 0x26380A16, 0x626383A1), 0x21796AD4, 0x2C0EBC11, 0x811BEA82, 0xCEE1174C,
                                0xC499ED01)) ==
            Stage(Line(0xD2E138C4, 0x00000F00, 0x3AFB5079, 0x898E04E5, 0xE2BA3C2B, 0x000060C0, 0x053A37CD, 0x74458547,
                  0xDA9415ED, 0x26380A16, 0x626383A1, 0x4EBF54DE, 0x3835B44B, 0x0000F600, 0x1E84C7A3, 0x98E04D98),
                  0x32DE1CBA, 0x4C986405, 0xF718E5CF, 0x03D447F6, 0xF72EEC32)
  {}

  lemma Steps40()
    ensures FiveSteps(40, Stage(Line(0xD2E138C4, 0x00000F00, 0x3AFB5079, 0x898E04E5, 0xE2BA3C2B, 0x000060C0,
                                0x053A37CD, 0x74458547, 0xDA9415ED, 0x26380A16, 0x626383A1, 0x4EBF54DE, 0x3835B44B,
                                0x0000F600, 0x1E84C7A3, 0x98E04D98), 0x32DE1CBA, 0x4C986405, 0xF718E5CF, 0x03D447F6,
                                0xF72EEC32)) ==
            Stage(Line(0x000060C0, 0x053A37CD, 0x74458547, 0xDA9415ED, 0x26380A16, 0x626383A1, 0x4EBF54DE, 0x3835B44B,
                  0x0000F600, 0x1E84C7A3, 0x98E04D98, 0x651D16A0, 0x62658CA1, 0x458544D6, 0x44584CB7, 0x7BA06619),
                  0x40F28E09, 0xEE1B1AAF, 0x5FC64F71, 0x25C28357, 0xFF21F7B7)
  {}

  lemma Steps45()
    ensures FiveSteps(45, Stage(Line(0x000060C0, 0x053A37CD, 0x74458547, 0xDA9415ED, 0x26380A16, 0x626383A1,
                                0x4EBF54DE, 0x3835B44B, 0x0000F600, 0x1E84C7A3, 0x98E04D98, 0x651D16A0, 0x62658CA1,
                                0x458544D6, 0x44584CB7, 0x7BA06619), 0x40F28E09, 0xEE1B1AAF, 0x5FC64F71, 0x25C28357,
                                0xFF21F7B7)) ==
            Stage(Line(0x626383A1, 0x4EBF54DE, 0x3835B44B, 0x0000F600, 0x1E84C7A3, 0x98E04D98, 0x651D16A0, 0x62658CA1,
                  0x458544D6, 0x44584CB7, 0x7BA06619, 0x6380AEA2, 0x0AE55269, 0x627B49A1, 0x7CD45C9D, 0x000F0000),
                  0x120731C5, 0xBAF39337, 0xAFAB40B2, 0x2806E11B, 0x8714787C)
  {}

  lemma Steps50()
    ensures FiveSteps(50, Stage(Line(0x626383A1, 0x4EBF54DE, 0x3835B44B, 0x0000F600, 0x1E84C7A3, 0x98E04D98,
                                0x651D16A0, 0x62658CA1, 0x458544D6, 0x44584CB7, 0x7BA06619, 0x6380AEA2, 0x0AE55269,
                                0x627B49A1, 0x7CD45C9D, 0x000F0000), 0x120731C5, 0xBAF39337, 0xAFAB40B2, 0x2806E11B,
                                0x8714787C)) ==
            Stage(Line(0x98E04D98, 0x651D16A0, 0x62658CA1, 0x458544D6, 0x44584CB7, 0x7BA06619, 0x6380AEA2, 0x0AE55269,
                  0x627B49A1, 0x7CD45C9D, 0x000F0000, 0xFB50753A, 0xEC6765E8, 0xBA3C2BE2, 0x0060C000, 0x3A37CD05),
                  0x7B71F76D, 0x27E9F1D8, 0x792410DB, 0x8E11EB59, 0x99076CB3)
  {}

  lemma Steps55()
    ensures FiveSteps(55, Stage(Line(0x98E04D98, 0x651D16A0, 0x62658CA1, 0x458544D6, 0x44584CB7, 0x7BA06619,
                                0x6380AEA2, 0x0AE55269, 0x627B49A1, 0x7CD45C9D, 0x000F0000, 0xFB50753A, 0xEC6765E8,
                                0xBA3C2BE2, 0x0060C000, 0x3A37CD05), 0x7B71F76D, 0x27E9F1D8, 0x792410DB, 0x8E11EB59,
                                0x99076CB3)) ==
            Stage(Line(0x7BA06619, 0x6380AEA2, 0x0AE55269, 0x627B49A1, 0x7CD45C9D, 0x000F0000, 0xFB50753A, 0xEC6765E8,
                  0xBA3C2BE2, 0x0060C000, 0x3A37CD05, 0x458546F4, 0xB8599DD6, 0x380A1A26, 0x01E02203, 0xE7CC3456),
                  0x3F52DE5A, 0x09D785FD, 0x3498BFD4, 0xF211824F, 0xD79915AB)
  {}

  lemma Steps60()
    ensures FiveSteps(60, Stage(Line(0x7BA06619, 0x6380AEA2, 0x0AE55269, 0x627B49A1, 0x7CD45C9D, 0x000F0000,
                                0xFB50753A, 0xEC6765E8, 0xBA3C2BE2, 0x0060C000, 0x3A37CD05, 0x458546F4, 0xB8599DD6,
                                0x380A1A26, 0x01E02203, 0xE7CC3456), 0x3F52DE5A, 0x09D785FD, 0x3498BFD4, 0xF211824F,
                                0xD79915AB)) ==
            Stage(Line(0x000F0000, 0xFB50753A, 0xEC6765E8, 0xBA3C2BE2, 0x0060C000, 0x3A37CD05, 0x458546F4, 0xB8599DD6,
                  0x380A1A26, 0x01E02203, 0xE7CC3456, 0xE6E60B69, 0x00F60A00, 0x5795EF4F, 0x822E0879, 0x7E577CE2),
                  0x19DFA7AC, 0x6B61C9E1, 0xED9B0082, 0x9523272C, 0xF5D5B051)
  {}

  lemma Steps65()
    ensures FiveSteps(65, Stage(Line(0x000F0000, 0xFB50753A, 0xEC6765E8, 0xBA3C2BE2, 0x0060C000, 0x3A37CD05,
                                0x458546F4, 0xB8599DD6, 0x380A1A26, 0x01E02203, 0xE7CC3456, 0xE6E60B69, 0x00F60A00,
                                0x5795EF4F, 0x822E0879, 0x7E577CE2), 0x19DFA7AC, 0x6B61C9E1, 0xED9B0082, 0x9523272C,
                                0xF5D5B051)) ==
            Stage(Line(0x3A37CD05, 0x458546F4, 0xB8599DD6, 0x380A1A26, 0x01E02203, 0xE7CC3456, 0xE6E60B69, 0x00F60A00,
                  0x5795EF4F, 0x822E0879, 0x7E577CE2, 0x07EF2103, 0x8544E945, 0xEB39DAB8, 0xC205991A, 0x80AECB63),
                  0x3F2588C2, 0x497093C0, 0xDE37534A, 0x030F7CAD, 0x4405957E)
  {}

  lemma Steps70()
    ensures FiveSteps(70, Stage(Line(0x3A37CD05, 0x458546F4, 0xB8599DD6, 0x380A1A26, 0x01E02203, 0xE7CC3456,
                                0xE6E60B69, 0x00F60A00, 0x5795EF4F, 0x822E0879, 0x7E577CE2, 0x07EF2103, 0x8544E945,
                                0xEB39DAB8, 0xC205991A, 0x80AECB63), 0x3F2588C2, 0x497093C0, 0xDE37534A, 0x030F7CAD,
                                0x4405957E)) ==
            Stage(Line(0xE7CC3456, 0xE6E60B69, 0x00F60A00, 0x5795EF4F, 0x822E0879, 0x7E577CE2, 0x07EF2103, 0x8544E945,
                  0xEB39DAB8, 0xC205991A, 0x80AECB63, 0x7D84CA48, 0x7B499B62, 0x8E8010A8, 0x4B5B8A77, 0x3216B69A),
                  0x5EE76897, 0x11793F6F, 0x3B6D0B79, 0xCE616779, 0xF0667E31)
  {}

  lemma Steps75()
    ensures FiveSteps(75, Stage(Line(0xE7CC3456, 0xE6E60B69, 0x00F60A00, 0x5795EF4F, 0x822E0879, 0x7E577CE2,
                                0x07EF2103, 0x8544E945, 0xEB39DAB8, 0xC205991A, 0x80AECB63, 0x7D84CA48, 0x7B499B62,
                                0x8E8010A8, 0x4B5B8A77, 0x3216B69A), 0x5EE76897, 0x11793F6F, 0x3B6D0B79, 0xCE616779,
                                0xF0667E31)) ==
            Stage(Line(0x7E577CE2, 0x07EF2103, 0x8544E945, 0xEB39DAB8, 0xC205991A, 0x80AECB63, 0x7D84CA48, 0x7B499B62,
                  0x8E8010A8, 0x4B5B8A77, 0x3216B69A, 0x0507E88D, 0x705BEE96, 0x60C0FF00, 0xA28362D0, 0x1DA6B91D),
                  0x42541B35, 0x5738D5E1, 0x21834873, 0x681E6DF6, 0xD8FDF6AD)
  {}

  // ---------- the padded message ----------

  /** The characters 0x61, 0x62 and 0x63. */
  const ABC := [Byte(false, true, true, false, false, false, false, true),
                Byte(false, true, true, false, false, false, true, false),
                Byte(false, true, true, false, false, false, true, true)]

  /** Four more bits are one more hexadecimal digit. */
  lemma ValueFour(s: seq<bool>, b3: bool, b2: bool, b1: bool, b0: bool)
    ensures Value(s + [b3, b2, b1, b0]) == Four(Value(s), b3, b2, b1, b0)
  {
    hide *;
    var s3, s2, s1 := s + [b3], s + [b3, b2], s + [b3, b2, b1];
    ValueSnoc(s3);
    ValueSnoc(s2);
    ValueSnoc(s1);
    ValueSnoc(s + [b3, b2, b1, b0]);
    assert s3[..|s|] == s && s2[..|s| + 1] == s3 && s1[..|s| + 2] == s2 && (s + [b3, b2, b1, b0])[..|s| + 3] == s1;
    PushFour(Value(s), b3, b2, b1, b0);
  }

  function FirstWord(): Word {
    [false, true, true, false] + [false, false, false, true] + [false, true, true, false] +
    [false, false, true, false] + [false, true, true, false] + [false, false, true, true] +
    [true, false, false, false] + [false, false, false, false]
  }

  lemma FirstWordValue()
    ensures Value(FirstWord()) == Reg(0x61626380)
  {
    hide Value, Push, Append;
    ValueSnoc([]);
    var s1 := [false, true, true, false];
    var s2 := s1 + [false, false, false, true];
    var s3 := s2 + [false, true, true, false];
    var s4 := s3 + [false, false, true, false];
    var s5 := s4 + [false, true, true, false];
    var s6 := s5 + [false, false, true, true];
    var s7 := s6 + [true, false, false, false];
    assert [] + s1 == s1;
    ValueFour([], false, true, true, false);
    ValueFour(s1, false, false, false, true);
    ValueFour(s2, false, true, true, false);
    ValueFour(s3, false, false, true, false);
    ValueFour(s4, false, true, true, false);
    ValueFour(s5, false, false, true, true);
    ValueFour(s6, true, false, false, false);
    ValueFour(s7, false, false, false, false);
  }

  lemma {:induction false} ZerosValue(n: nat)
    ensures Value(Zeros(n)) == Reg(0)
  {
    if n > 0 {
      assert Zeros(n)[..n - 1] == Zeros(n - 1);
      ZerosValue(n - 1);
    }
  }

  lemma LengthValues()
    ensures LowBits(24, 64) == LowBits(0, 32) + LowBits(24, 32)
    ensures Value(LowBits(0, 32)) == Reg(0) && Value(LowBits(24, 32)) == Reg(24)
  {
    hide LowBits, Value, Image, Halved;
    LowBitsSplit(24, 32, 32);
    HalvedWord(24);
    ImageStep(0);
    LowBitsImage(0);
    LowBitsImage(24);
    HexFour(0, 0, 0, 1, 8, 24);
  }

  lemma ThreeBytes(a: Byte, b: Byte, c: Byte)
    ensures Crc8.Bits([a, b, c]) == BitsOf(a) + BitsOf(b) + BitsOf(c)
  {
    hide BitsOf;
    assert [a, b, c][..2] == [a, b] && [a, b][..1] == [a] && [a][..0] == [];
    assert Crc8.Bits([a]) == BitsOf(a);
    assert Crc8.Bits([a, b]) == BitsOf(a) + BitsOf(b);
  }

  lemma AbcBits()
    ensures |Crc8.Bits(ABC)| == 24 && Crc8.Bits(ABC) + [true] + Zeros(7) == FirstWord()
  {
    hide Crc8.Bits;
    ThreeBytes(ABC[0], ABC[1], ABC[2]);
    assert ABC == [ABC[0], ABC[1], ABC[2]];
  }

  lemma AbcPadded()
    ensures Pad(Crc8.Bits(ABC)) == FirstWord() + Zeros(416) + LowBits(0, 32) + LowBits(24, 32)
  {
    hide LowBits, Crc8.Bits;
    AbcBits();
    LengthValues();
    assert Zeros(423) == Zeros(7) + Zeros(416);
  }

  lemma AbcLine(block: Block)
    requires block == FirstWord() + Zeros(416) + LowBits(0, 32) + LowBits(24, 32)
    ensures StandsAt(Line(0x61626380, 0, 0, 0, 0, 0, 0, 0, 0, 0, 0, 0, 0, 0, 0, 0x18), WordsOf(block), 0)
  {
    hide Value, LowBits, FirstWord;
    FirstWordValue();
    LengthValues();
    ZerosValue(32);
    assert block[..32] == FirstWord();
    forall t | 1 <= t < 14 ensures block[32 * t..32 * t + 32] == Zeros(32) {
    }
    assert block[448..480] == LowBits(0, 32) && block[480..512] == LowBits(24, 32);
  }

  // ---------- the digest ----------

  lemma AbcRounds(words: Words)
    requires StandsAt(Line(0x61626380, 0, 0, 0, 0, 0, 0, 0, 0, 0, 0, 0, 0, 0, 0, 0x18), words, 0)
    ensures Rounds(words, 80, START) ==
            Regs(Reg(0x42541B35), Reg(0x5738D5E1), Reg(0x21834873), Reg(0x681E6DF6), Reg(0xD8FDF6AD))
  {
    hide *;
    var s := Stage(Line(0x61626380, 0, 0, 0, 0, 0, 0, 0, 0, 0, 0, 0, 0, 0, 0, 0x18),
                   0x67452301, 0xEFCDAB89, 0x98BADCFE, 0x10325476, 0xC3D2E1F0);
    StartReached(words, s);
    FiveReached(words, 0, START, s);
    s := FiveSteps(0, s);
    Steps0();
    FiveReached(words, 5, START, s);
    s := FiveSteps(5, s);
    Steps5();
    FiveReached(words, 10, START, s);
    s := FiveSteps(10, s);
    Steps10();
    FiveReached(words, 15, START, s);
    s := FiveSteps(15, s);
    Steps15();
    FiveReached(words, 20, START, s);
    s := FiveSteps(20, s);
    Steps20();
    FiveReached(words, 25, START, s);
    s := FiveSteps(25, s);
    Steps25();
    FiveReached(words, 30, START, s);
    s := FiveSteps(30, s);
    Steps30();
    FiveReached(words, 35, START, s);
    s := FiveSteps(35, s);
    Steps35();
    FiveReached(words, 40, START, s);
    s := FiveSteps(40, s);
    Steps40();
    FiveReached(words, 45, START, s);
    s := FiveSteps(45, s);
    Steps45();
    FiveReached(words, 50, START, s);
    s := FiveSteps(50, s);
    Steps50();
    FiveReached(words, 55, START, s);
    s := FiveSteps(55, s);
    Steps55();
    FiveReached(words, 60, START, s);
    s := FiveSteps(60, s);
    Steps60();
    FiveReached(words, 65, START, s);
    s := FiveSteps(65, s);
    Steps65();
    FiveReached(words, 70, START, s);
    s := FiveSteps(70, s);
    Steps70();
    FiveReached(words, 75, START, s);
    s := FiveSteps(75, s);
    Steps75();
    ReachedIs(words, 80, START, s);
  }

  lemma StartReached(words: Words, s: Stage)
    requires StandsAt(s.l, words, 0)
    requires s.a == 0x67452301 && s.b == 0xEFCDAB89 && s.c == 0x98BADCFE && s.d == 0x10325476 && s.e == 0xC3D2E1F0
    ensures Reached(words, 0, START, s)
  {
    hide StandsAt;
  }

  lemma ReachedIs(words: Words, t: nat, start: Regs, s: Stage)
    requires Reached(words, t, start, s)
    ensures Rounds(words, t, start) == Regs(Reg(s.a), Reg(s.b), Reg(s.c), Reg(s.d), Reg(s.e))
  {
    hide StandsAt;
  }

  lemma AbcTotal(words: Words)
    requires Rounds(words, 80, START) ==
             Regs(Reg(0x42541B35), Reg(0x5738D5E1), Reg(0x21834873), Reg(0x681E6DF6), Reg(0xD8FDF6AD))
    ensures Processed(START, words) ==
            Regs(Reg(0xA9993E36), Reg(0x4706816A), Reg(0xBA3E2571), Reg(0x7850C26C), Reg(0x9CD0D89D))
  {
    hide Rounds;
  }

  /** The digest of "abc", in hexadecimal: A9993E36 4706816A BA3E2571 7850C26C 9CD0D89D. */
  lemma AbcDigest()
    ensures Values(Digest(Crc8.Bits(ABC))) ==
            Regs(Reg(0xA9993E36), Reg(0x4706816A), Reg(0xBA3E2571), Reg(0x7850C26C), Reg(0x9CD0D89D))
  {
    hide *;
    var m := Crc8.Bits(ABC);
    DigestValue(m);
    AbcPadded();
    AbcBits();
    var block: Block := Pad(m);
    AbsorbStep(START, block);
    assert block[..512] == block && block[512..] == [];
    AbsorbStep(Processed(START, WordsOf(block)), []);
    AbcLine(block);
    AbcRounds(WordsOf(block));
    AbcTotal(WordsOf(block));
  }
}
