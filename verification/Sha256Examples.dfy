/**
 The two worked examples published with the standard, block by block: what pins the round functions, the schedule, the
 order of the bytes and the chaining to their published values.
 */
module Sha256Examples {
  import opened Bytes
  import opened Fips180

  datatype Eight = Eight(x0: bv32, x1: bv32, x2: bv32, x3: bv32, x4: bv32, x5: bv32, x6: bv32, x7: bv32)

  predicate WordsAre(w: seq<bv32>, t: nat, v: Eight)
    requires t + 8 <= |w|
  {
    && w[t] == v.x0 && w[t + 1] == v.x1 && w[t + 2] == v.x2 && w[t + 3] == v.x3
    && w[t + 4] == v.x4 && w[t + 5] == v.x5 && w[t + 6] == v.x6 && w[t + 7] == v.x7
  }

  // ---------------------------------------------------------------- eight words of the schedule at a time

  lemma {:induction false} SameWord(m: seq<byte>, p: nat, n: nat, k: nat, t: nat)
    requires p + 64 <= |m| && t < n <= k <= 64
    ensures Schedule(m, p, n)[t] == Schedule(m, p, k)[t]
  {
    hide BlockWord, NextWord;
    if n < k { SameWord(m, p, n, k - 1, t); }
  }

  lemma LastWord(m: seq<byte>, p: nat, t: nat)
    requires p + 64 <= |m| && t < 64
    ensures var w := Schedule(m, p, t);
      Schedule(m, p, t + 1)[t]
      == if t < 16 then BlockWord(m, p + 4 * t) else NextWord(w[t - 16], w[t - 15], w[t - 7], w[t - 2])
  {
    hide BlockWord, NextWord;
  }

  /** The recurrence of the schedule, on the whole schedule. */
  lemma ScheduleAt(m: seq<byte>, p: nat, t: nat)
    requires p + 64 <= |m| && t < 64
    ensures var w := Schedule(m, p, 64);
      w[t] == if t < 16 then BlockWord(m, p + 4 * t) else NextWord(w[t - 16], w[t - 15], w[t - 7], w[t - 2])
  {
    hide Schedule, BlockWord, NextWord;
    LastWord(m, p, t);
    SameWord(m, p, t + 1, 64, t);
    if t >= 16 {
      SameWord(m, p, t, 64, t - 16);
      SameWord(m, p, t, 64, t - 15);
      SameWord(m, p, t, 64, t - 7);
      SameWord(m, p, t, 64, t - 2);
    }
  }

  /** The eight words v after o and q. */
  predicate Follows(o: Eight, q: Eight, v: Eight) {
    && v.x0 == NextWord(o.x0, o.x1, q.x1, q.x6) && v.x1 == NextWord(o.x1, o.x2, q.x2, q.x7)
    && v.x2 == NextWord(o.x2, o.x3, q.x3, v.x0) && v.x3 == NextWord(o.x3, o.x4, q.x4, v.x1)
    && v.x4 == NextWord(o.x4, o.x5, q.x5, v.x2) && v.x5 == NextWord(o.x5, o.x6, q.x6, v.x3)
    && v.x6 == NextWord(o.x6, o.x7, q.x7, v.x4) && v.x7 == NextWord(o.x7, q.x0, v.x0, v.x5)
  }

  lemma NextWords(m: seq<byte>, p: nat, t: nat, o: Eight, q: Eight, v: Eight)
    requires p + 64 <= |m| && 16 <= t <= 56 && Follows(o, q, v)
    requires WordsAre(Schedule(m, p, 64), t - 16, o) && WordsAre(Schedule(m, p, 64), t - 8, q)
    ensures WordsAre(Schedule(m, p, 64), t, v)
  {
    hide Schedule, NextWord, BlockWord;
    ScheduleAt(m, p, t);
    ScheduleAt(m, p, t + 1);
    ScheduleAt(m, p, t + 2);
    ScheduleAt(m, p, t + 3);
    ScheduleAt(m, p, t + 4);
    ScheduleAt(m, p, t + 5);
    ScheduleAt(m, p, t + 6);
    ScheduleAt(m, p, t + 7);
  }

  // ---------------------------------------------------------------- one round at a time

  lemma Next(v: Vars, w: seq<bv32>, t: nat, a: bv32, b: bv32, c: bv32, d: bv32, e: bv32, f: bv32, g: bv32, h: bv32,
             k: bv32, x: bv32, a1: bv32, e1: bv32)
    requires t < 64 == |w| && Rounds(v, w, t) == Vars(a, b, c, d, e, f, g, h) && RoundConstant(t) == k && w[t] == x
    requires Round(Vars(a, b, c, d, e, f, g, h), k, x) == Vars(a1, a, b, c, e1, e, f, g)
    ensures Rounds(v, w, t + 1) == Vars(a1, a, b, c, e1, e, f, g)
  {
    hide Round, RoundConstant;
  }

  predicate ConstantsAre(t: nat, v: Eight)
    requires t + 8 <= 64
  {
    && RoundConstant(t) == v.x0 && RoundConstant(t + 1) == v.x1 && RoundConstant(t + 2) == v.x2
    && RoundConstant(t + 3) == v.x3 && RoundConstant(t + 4) == v.x4 && RoundConstant(t + 5) == v.x5
    && RoundConstant(t + 6) == v.x6 && RoundConstant(t + 7) == v.x7
  }

  lemma Constants0()
    ensures ConstantsAre(0, Eight(
      0x428a2f98, 0x71374491, 0xb5c0fbcf, 0xe9b5dba5, 0x3956c25b, 0x59f111f1, 0x923f82a4, 0xab1c5ed5))
  {
  }

  lemma Constants1()
    ensures ConstantsAre(8, Eight(
      0xd807aa98, 0x12835b01, 0x243185be, 0x550c7dc3, 0x72be5d74, 0x80deb1fe, 0x9bdc06a7, 0xc19bf174))
  {
  }

  lemma Constants2()
    ensures ConstantsAre(16, Eight(
      0xe49b69c1, 0xefbe4786, 0x0fc19dc6, 0x240ca1cc, 0x2de92c6f, 0x4a7484aa, 0x5cb0a9dc, 0x76f988da))
  {
  }

  lemma Constants3()
    ensures ConstantsAre(24, Eight(
      0x983e5152, 0xa831c66d, 0xb00327c8, 0xbf597fc7, 0xc6e00bf3, 0xd5a79147, 0x06ca6351, 0x14292967))
  {
  }

  lemma Constants4()
    ensures ConstantsAre(32, Eight(
      0x27b70a85, 0x2e1b2138, 0x4d2c6dfc, 0x53380d13, 0x650a7354, 0x766a0abb, 0x81c2c92e, 0x92722c85))
  {
  }

  lemma Constants5()
    ensures ConstantsAre(40, Eight(
      0xa2bfe8a1, 0xa81a664b, 0xc24b8b70, 0xc76c51a3, 0xd192e819, 0xd6990624, 0xf40e3585, 0x106aa070))
  {
  }

  lemma Constants6()
    ensures ConstantsAre(48, Eight(
      0x19a4c116, 0x1e376c08, 0x2748774c, 0x34b0bcb5, 0x391c0cb3, 0x4ed8aa4a, 0x5b9cca4f, 0x682e6ff3))
  {
  }

  lemma Constants7()
    ensures ConstantsAre(56, Eight(
      0x748f82ee, 0x78a5636f, 0x84c87814, 0x8cc70208, 0x90befffa, 0xa4506ceb, 0xbef9a3f7, 0xc67178f2))
  {
  }

  // ---------------------------------------------------------------- the block of "abc"

  const ABC_W0 := Eight(
    0x61626380, 0x00000000, 0x00000000, 0x00000000, 0x00000000, 0x00000000, 0x00000000, 0x00000000)
  const ABC_W1 := Eight(
    0x00000000, 0x00000000, 0x00000000, 0x00000000, 0x00000000, 0x00000000, 0x00000000, 0x00000018)
  const ABC_W2 := Eight(
    0x61626380, 0x000f0000, 0x7da86405, 0x600003c6, 0x3e9d7b78, 0x0183fc00, 0x12dcbfdb, 0xe2e2c38e)
  const ABC_W3 := Eight(
    0xc8215c1a, 0xb73679a2, 0xe5bc3909, 0x32663c5b, 0x9d209d67, 0xec8726cb, 0x702138a4, 0xd3b7973b)
  const ABC_W4 := Eight(
    0x93f5997f, 0x3b68ba73, 0xaff4ffc1, 0xf10a5c62, 0x0a8b3996, 0x72af830a, 0x9409e33e, 0x24641522)
  const ABC_W5 := Eight(
    0x9f47bf94, 0xf0a64f5a, 0x3e246a79, 0x27333ba3, 0x0c4763f2, 0x840abf27, 0x7a290d5d, 0x065c43da)
  const ABC_W6 := Eight(
    0xfb3e89cb, 0xcc7617db, 0xb9e66c34, 0xa9993667, 0x84badedd, 0xc21462bc, 0x1487472c, 0xb20f7a99)
  const ABC_W7 := Eight(
    0xef57b9cd, 0xebe6b238, 0x9fe3095e, 0x78bc8d4b, 0xa43fcf15, 0x668b2ff8, 0xeeaba2cc, 0x12b1edeb)
  const ABC_START := Vars(
    0x6a09e667, 0xbb67ae85, 0x3c6ef372, 0xa54ff53a, 0x510e527f, 0x9b05688c, 0x1f83d9ab, 0x5be0cd19)
  const ABC_VALUE := Vars(
    0xba7816bf, 0x8f01cfea, 0x414140de, 0x5dae2223, 0xb00361a3, 0x96177a9c, 0xb410ff61, 0xf20015ad)

  lemma AbcNext2()
    ensures NextWord(0x61626380, 0x00000000, 0x00000000, 0x00000000) == 0x61626380
    ensures NextWord(0x00000000, 0x00000000, 0x00000000, 0x00000018) == 0x000f0000
    ensures NextWord(0x00000000, 0x00000000, 0x00000000, 0x61626380) == 0x7da86405
    ensures NextWord(0x00000000, 0x00000000, 0x00000000, 0x000f0000) == 0x600003c6
    ensures NextWord(0x00000000, 0x00000000, 0x00000000, 0x7da86405) == 0x3e9d7b78
    ensures NextWord(0x00000000, 0x00000000, 0x00000000, 0x600003c6) == 0x0183fc00
    ensures NextWord(0x00000000, 0x00000000, 0x00000018, 0x3e9d7b78) == 0x12dcbfdb
    ensures NextWord(0x00000000, 0x00000000, 0x61626380, 0x0183fc00) == 0xe2e2c38e
  {
  }

  lemma AbcFollows2()
    ensures Follows(ABC_W0, ABC_W1, ABC_W2)
  {
    AbcNext2();
    hide NextWord;
  }

  lemma AbcNext3()
    ensures NextWord(0x00000000, 0x00000000, 0x000f0000, 0x12dcbfdb) == 0xc8215c1a
    ensures NextWord(0x00000000, 0x00000000, 0x7da86405, 0xe2e2c38e) == 0xb73679a2
    ensures NextWord(0x00000000, 0x00000000, 0x600003c6, 0xc8215c1a) == 0xe5bc3909
    ensures NextWord(0x00000000, 0x00000000, 0x3e9d7b78, 0xb73679a2) == 0x32663c5b
    ensures NextWord(0x00000000, 0x00000000, 0x0183fc00, 0xe5bc3909) == 0x9d209d67
    ensures NextWord(0x00000000, 0x00000000, 0x12dcbfdb, 0x32663c5b) == 0xec8726cb
    ensures NextWord(0x00000000, 0x00000018, 0xe2e2c38e, 0x9d209d67) == 0x702138a4
    ensures NextWord(0x00000018, 0x61626380, 0xc8215c1a, 0xec8726cb) == 0xd3b7973b
  {
  }

  lemma AbcFollows3()
    ensures Follows(ABC_W1, ABC_W2, ABC_W3)
  {
    AbcNext3();
    hide NextWord;
  }

  lemma AbcNext4()
    ensures NextWord(0x61626380, 0x000f0000, 0xb73679a2, 0x702138a4) == 0x93f5997f
    ensures NextWord(0x000f0000, 0x7da86405, 0xe5bc3909, 0xd3b7973b) == 0x3b68ba73
    ensures NextWord(0x7da86405, 0x600003c6, 0x32663c5b, 0x93f5997f) == 0xaff4ffc1
    ensures NextWord(0x600003c6, 0x3e9d7b78, 0x9d209d67, 0x3b68ba73) == 0xf10a5c62
    ensures NextWord(0x3e9d7b78, 0x0183fc00, 0xec8726cb, 0xaff4ffc1) == 0x0a8b3996
    ensures NextWord(0x0183fc00, 0x12dcbfdb, 0x702138a4, 0xf10a5c62) == 0x72af830a
    ensures NextWord(0x12dcbfdb, 0xe2e2c38e, 0xd3b7973b, 0x0a8b3996) == 0x9409e33e
    ensures NextWord(0xe2e2c38e, 0xc8215c1a, 0x93f5997f, 0x72af830a) == 0x24641522
  {
  }

  lemma AbcFollows4()
    ensures Follows(ABC_W2, ABC_W3, ABC_W4)
  {
    AbcNext4();
    hide NextWord;
  }

  lemma AbcNext5()
    ensures NextWord(0xc8215c1a, 0xb73679a2, 0x3b68ba73, 0x9409e33e) == 0x9f47bf94
    ensures NextWord(0xb73679a2, 0xe5bc3909, 0xaff4ffc1, 0x24641522) == 0xf0a64f5a
    ensures NextWord(0xe5bc3909, 0x32663c5b, 0xf10a5c62, 0x9f47bf94) == 0x3e246a79
    ensures NextWord(0x32663c5b, 0x9d209d67, 0x0a8b3996, 0xf0a64f5a) == 0x27333ba3
    ensures NextWord(0x9d209d67, 0xec8726cb, 0x72af830a, 0x3e246a79) == 0x0c4763f2
    ensures NextWord(0xec8726cb, 0x702138a4, 0x9409e33e, 0x27333ba3) == 0x840abf27
    ensures NextWord(0x702138a4, 0xd3b7973b, 0x24641522, 0x0c4763f2) == 0x7a290d5d
    ensures NextWord(0xd3b7973b, 0x93f5997f, 0x9f47bf94, 0x840abf27) == 0x065c43da
  {
  }

  lemma AbcFollows5()
    ensures Follows(ABC_W3, ABC_W4, ABC_W5)
  {
    AbcNext5();
    hide NextWord;
  }

  lemma AbcNext6()
    ensures NextWord(0x93f5997f, 0x3b68ba73, 0xf0a64f5a, 0x7a290d5d) == 0xfb3e89cb
    ensures NextWord(0x3b68ba73, 0xaff4ffc1, 0x3e246a79, 0x065c43da) == 0xcc7617db
    ensures NextWord(0xaff4ffc1, 0xf10a5c62, 0x27333ba3, 0xfb3e89cb) == 0xb9e66c34
    ensures NextWord(0xf10a5c62, 0x0a8b3996, 0x0c4763f2, 0xcc7617db) == 0xa9993667
    ensures NextWord(0x0a8b3996, 0x72af830a, 0x840abf27, 0xb9e66c34) == 0x84badedd
    ensures NextWord(0x72af830a, 0x9409e33e, 0x7a290d5d, 0xa9993667) == 0xc21462bc
    ensures NextWord(0x9409e33e, 0x24641522, 0x065c43da, 0x84badedd) == 0x1487472c
    ensures NextWord(0x24641522, 0x9f47bf94, 0xfb3e89cb, 0xc21462bc) == 0xb20f7a99
  {
  }

  lemma AbcFollows6()
    ensures Follows(ABC_W4, ABC_W5, ABC_W6)
  {
    AbcNext6();
    hide NextWord;
  }

  lemma AbcNext7()
    ensures NextWord(0x9f47bf94, 0xf0a64f5a, 0xcc7617db, 0x1487472c) == 0xef57b9cd
    ensures NextWord(0xf0a64f5a, 0x3e246a79, 0xb9e66c34, 0xb20f7a99) == 0xebe6b238
    ensures NextWord(0x3e246a79, 0x27333ba3, 0xa9993667, 0xef57b9cd) == 0x9fe3095e
    ensures NextWord(0x27333ba3, 0x0c4763f2, 0x84badedd, 0xebe6b238) == 0x78bc8d4b
    ensures NextWord(0x0c4763f2, 0x840abf27, 0xc21462bc, 0x9fe3095e) == 0xa43fcf15
    ensures NextWord(0x840abf27, 0x7a290d5d, 0x1487472c, 0x78bc8d4b) == 0x668b2ff8
    ensures NextWord(0x7a290d5d, 0x065c43da, 0xb20f7a99, 0xa43fcf15) == 0xeeaba2cc
    ensures NextWord(0x065c43da, 0xfb3e89cb, 0xef57b9cd, 0x668b2ff8) == 0x12b1edeb
  {
  }

  lemma AbcFollows7()
    ensures Follows(ABC_W5, ABC_W6, ABC_W7)
  {
    AbcNext7();
    hide NextWord;
  }


  /** The words of the schedule after the sixteen of the block. */
  lemma AbcSchedule(m: seq<byte>, p: nat)
    requires p + 64 <= |m| && WordsAre(Schedule(m, p, 64), 0, ABC_W0) && WordsAre(Schedule(m, p, 64), 8, ABC_W1)
    ensures var w := Schedule(m, p, 64);
      && WordsAre(w, 16, ABC_W2) && WordsAre(w, 24, ABC_W3) && WordsAre(w, 32, ABC_W4)
      && WordsAre(w, 40, ABC_W5) && WordsAre(w, 48, ABC_W6) && WordsAre(w, 56, ABC_W7)
  {
    hide WordsAre, Follows, Schedule;
    AbcFollows2();
    NextWords(m, p, 16, ABC_W0, ABC_W1, ABC_W2);
    AbcFollows3();
    NextWords(m, p, 24, ABC_W1, ABC_W2, ABC_W3);
    AbcFollows4();
    NextWords(m, p, 32, ABC_W2, ABC_W3, ABC_W4);
    AbcFollows5();
    NextWords(m, p, 40, ABC_W3, ABC_W4, ABC_W5);
    AbcFollows6();
    NextWords(m, p, 48, ABC_W4, ABC_W5, ABC_W6);
    AbcFollows7();
    NextWords(m, p, 56, ABC_W5, ABC_W6, ABC_W7);
  }

  lemma AbcRounds0(v: Vars, w: seq<bv32>)
    requires |w| == 64 && WordsAre(w, 0, ABC_W0)
    requires Rounds(v, w, 0)
          == Vars(0x6a09e667, 0xbb67ae85, 0x3c6ef372, 0xa54ff53a, 0x510e527f, 0x9b05688c, 0x1f83d9ab, 0x5be0cd19)
    ensures Rounds(v, w, 8)
         == Vars(0x85a07b5f, 0xe5030380, 0x2b4209f5, 0x04409a6a, 0x0c657a79, 0x9b27a401, 0x714260ad, 0x43ada245)
  {
    hide Rounds, RoundConstant;
    Constants0();
    Next(v, w, 0, 0x6a09e667, 0xbb67ae85, 0x3c6ef372, 0xa54ff53a, 0x510e527f, 0x9b05688c, 0x1f83d9ab, 0x5be0cd19,
         0x428a2f98, 0x61626380, 0x5d6aebcd, 0xfa2a4622);
    Next(v, w, 1, 0x5d6aebcd, 0x6a09e667, 0xbb67ae85, 0x3c6ef372, 0xfa2a4622, 0x510e527f, 0x9b05688c, 0x1f83d9ab,
         0x71374491, 0x00000000, 0x5a6ad9ad, 0x78ce7989);
    Next(v, w, 2, 0x5a6ad9ad, 0x5d6aebcd, 0x6a09e667, 0xbb67ae85, 0x78ce7989, 0xfa2a4622, 0x510e527f, 0x9b05688c,
         0xb5c0fbcf, 0x00000000, 0xc8c347a7, 0xf92939eb);
    Next(v, w, 3, 0xc8c347a7, 0x5a6ad9ad, 0x5d6aebcd, 0x6a09e667, 0xf92939eb, 0x78ce7989, 0xfa2a4622, 0x510e527f,
         0xe9b5dba5, 0x00000000, 0xd550f666, 0x24e00850);
    Next(v, w, 4, 0xd550f666, 0xc8c347a7, 0x5a6ad9ad, 0x5d6aebcd, 0x24e00850, 0xf92939eb, 0x78ce7989, 0xfa2a4622,
         0x3956c25b, 0x00000000, 0x04409a6a, 0x43ada245);
    Next(v, w, 5, 0x04409a6a, 0xd550f666, 0xc8c347a7, 0x5a6ad9ad, 0x43ada245, 0x24e00850, 0xf92939eb, 0x78ce7989,
         0x59f111f1, 0x00000000, 0x2b4209f5, 0x714260ad);
    Next(v, w, 6, 0x2b4209f5, 0x04409a6a, 0xd550f666, 0xc8c347a7, 0x714260ad, 0x43ada245, 0x24e00850, 0xf92939eb,
         0x923f82a4, 0x00000000, 0xe5030380, 0x9b27a401);
    Next(v, w, 7, 0xe5030380, 0x2b4209f5, 0x04409a6a, 0xd550f666, 0x9b27a401, 0x714260ad, 0x43ada245, 0x24e00850,
         0xab1c5ed5, 0x00000000, 0x85a07b5f, 0x0c657a79);
  }

  lemma AbcRounds1(v: Vars, w: seq<bv32>)
    requires |w| == 64 && WordsAre(w, 8, ABC_W1)
    requires Rounds(v, w, 8)
          == Vars(0x85a07b5f, 0xe5030380, 0x2b4209f5, 0x04409a6a, 0x0c657a79, 0x9b27a401, 0x714260ad, 0x43ada245)
    ensures Rounds(v, w, 16)
         == Vars(0xb0fa238e, 0xc0645fde, 0xd932eb16, 0x87912990, 0x07590dcd, 0x0b92f20c, 0x745a48de, 0x1e578218)
  {
    hide Rounds, RoundConstant;
    Constants1();
    Next(v, w, 8, 0x85a07b5f, 0xe5030380, 0x2b4209f5, 0x04409a6a, 0x0c657a79, 0x9b27a401, 0x714260ad, 0x43ada245,
         0xd807aa98, 0x00000000, 0x8e04ecb9, 0x32ca2d8c);
    Next(v, w, 9, 0x8e04ecb9, 0x85a07b5f, 0xe5030380, 0x2b4209f5, 0x32ca2d8c, 0x0c657a79, 0x9b27a401, 0x714260ad,
         0x12835b01, 0x00000000, 0x8c87346b, 0x1cc92596);
    Next(v, w, 10, 0x8c87346b, 0x8e04ecb9, 0x85a07b5f, 0xe5030380, 0x1cc92596, 0x32ca2d8c, 0x0c657a79, 0x9b27a401,
         0x243185be, 0x00000000, 0x4798a3f4, 0x436b23e8);
    Next(v, w, 11, 0x4798a3f4, 0x8c87346b, 0x8e04ecb9, 0x85a07b5f, 0x436b23e8, 0x1cc92596, 0x32ca2d8c, 0x0c657a79,
         0x550c7dc3, 0x00000000, 0xf71fc5a9, 0x816fd6e9);
    Next(v, w, 12, 0xf71fc5a9, 0x4798a3f4, 0x8c87346b, 0x8e04ecb9, 0x816fd6e9, 0x436b23e8, 0x1cc92596, 0x32ca2d8c,
         0x72be5d74, 0x00000000, 0x87912990, 0x1e578218);
    Next(v, w, 13, 0x87912990, 0xf71fc5a9, 0x4798a3f4, 0x8c87346b, 0x1e578218, 0x816fd6e9, 0x436b23e8, 0x1cc92596,
         0x80deb1fe, 0x00000000, 0xd932eb16, 0x745a48de);
    Next(v, w, 14, 0xd932eb16, 0x87912990, 0xf71fc5a9, 0x4798a3f4, 0x745a48de, 0x1e578218, 0x816fd6e9, 0x436b23e8,
         0x9bdc06a7, 0x00000000, 0xc0645fde, 0x0b92f20c);
    Next(v, w, 15, 0xc0645fde, 0xd932eb16, 0x87912990, 0xf71fc5a9, 0x0b92f20c, 0x745a48de, 0x1e578218, 0x816fd6e9,
         0xc19bf174, 0x00000018, 0xb0fa238e, 0x07590dcd);
  }

  lemma AbcRounds2(v: Vars, w: seq<bv32>)
    requires |w| == 64 && WordsAre(w, 16, ABC_W2)
    requires Rounds(v, w, 16)
          == Vars(0xb0fa238e, 0xc0645fde, 0xd932eb16, 0x87912990, 0x07590dcd, 0x0b92f20c, 0x745a48de, 0x1e578218)
    ensures Rounds(v, w, 24)
         == Vars(0xc5d53d8d, 0xa7a3623f, 0xc2606d6d, 0x9dc68b63, 0xaa47c347, 0x49f5114a, 0xe1257970, 0x8ada8930)
  {
    hide Rounds, RoundConstant;
    Constants2();
    Next(v, w, 16, 0xb0fa238e, 0xc0645fde, 0xd932eb16, 0x87912990, 0x07590dcd, 0x0b92f20c, 0x745a48de, 0x1e578218,
         0xe49b69c1, 0x61626380, 0x21da9a9b, 0x8034229c);
    Next(v, w, 17, 0x21da9a9b, 0xb0fa238e, 0xc0645fde, 0xd932eb16, 0x8034229c, 0x07590dcd, 0x0b92f20c, 0x745a48de,
         0xefbe4786, 0x000f0000, 0xc2fbd9d1, 0x846ee454);
    Next(v, w, 18, 0xc2fbd9d1, 0x21da9a9b, 0xb0fa238e, 0xc0645fde, 0x846ee454, 0x8034229c, 0x07590dcd, 0x0b92f20c,
         0x0fc19dc6, 0x7da86405, 0xfe777bbf, 0xcc899961);
    Next(v, w, 19, 0xfe777bbf, 0xc2fbd9d1, 0x21da9a9b, 0xb0fa238e, 0xcc899961, 0x846ee454, 0x8034229c, 0x07590dcd,
         0x240ca1cc, 0x600003c6, 0xe1f20c33, 0xb0638179);
    Next(v, w, 20, 0xe1f20c33, 0xfe777bbf, 0xc2fbd9d1, 0x21da9a9b, 0xb0638179, 0xcc899961, 0x846ee454, 0x8034229c,
         0x2de92c6f, 0x3e9d7b78, 0x9dc68b63, 0x8ada8930);
    Next(v, w, 21, 0x9dc68b63, 0xe1f20c33, 0xfe777bbf, 0xc2fbd9d1, 0x8ada8930, 0xb0638179, 0xcc899961, 0x846ee454,
         0x4a7484aa, 0x0183fc00, 0xc2606d6d, 0xe1257970);
    Next(v, w, 22, 0xc2606d6d, 0x9dc68b63, 0xe1f20c33, 0xfe777bbf, 0xe1257970, 0x8ada8930, 0xb0638179, 0xcc899961,
         0x5cb0a9dc, 0x12dcbfdb, 0xa7a3623f, 0x49f5114a);
    Next(v, w, 23, 0xa7a3623f, 0xc2606d6d, 0x9dc68b63, 0xe1f20c33, 0x49f5114a, 0xe1257970, 0x8ada8930, 0xb0638179,
         0x76f988da, 0xe2e2c38e, 0xc5d53d8d, 0xaa47c347);
  }

  lemma AbcRounds3(v: Vars, w: seq<bv32>)
    requires |w| == 64 && WordsAre(w, 24, ABC_W3)
    requires Rounds(v, w, 24)
          == Vars(0xc5d53d8d, 0xa7a3623f, 0xc2606d6d, 0x9dc68b63, 0xaa47c347, 0x49f5114a, 0xe1257970, 0x8ada8930)
    ensures Rounds(v, w, 32)
         == Vars(0x73b33bf5, 0xea992a22, 0xa0060b30, 0x363482c9, 0xba591112, 0x0109ab3a, 0xade79437, 0x6112a3b7)
  {
    hide Rounds, RoundConstant;
    Constants3();
    Next(v, w, 24, 0xc5d53d8d, 0xa7a3623f, 0xc2606d6d, 0x9dc68b63, 0xaa47c347, 0x49f5114a, 0xe1257970, 0x8ada8930,
         0x983e5152, 0xc8215c1a, 0x1c2c2838, 0x2823ef91);
    Next(v, w, 25, 0x1c2c2838, 0xc5d53d8d, 0xa7a3623f, 0xc2606d6d, 0x2823ef91, 0xaa47c347, 0x49f5114a, 0xe1257970,
         0xa831c66d, 0xb73679a2, 0xcde8037d, 0x14383d8e);
    Next(v, w, 26, 0xcde8037d, 0x1c2c2838, 0xc5d53d8d, 0xa7a3623f, 0x14383d8e, 0x2823ef91, 0xaa47c347, 0x49f5114a,
         0xb00327c8, 0xe5bc3909, 0xb62ec4bc, 0xc74c6516);
    Next(v, w, 27, 0xb62ec4bc, 0xcde8037d, 0x1c2c2838, 0xc5d53d8d, 0xc74c6516, 0x14383d8e, 0x2823ef91, 0xaa47c347,
         0xbf597fc7, 0x32663c5b, 0x77d37528, 0xedffbff8);
    Next(v, w, 28, 0x77d37528, 0xb62ec4bc, 0xcde8037d, 0x1c2c2838, 0xedffbff8, 0xc74c6516, 0x14383d8e, 0x2823ef91,
         0xc6e00bf3, 0x9d209d67, 0x363482c9, 0x6112a3b7);
    Next(v, w, 29, 0x363482c9, 0x77d37528, 0xb62ec4bc, 0xcde8037d, 0x6112a3b7, 0xedffbff8, 0xc74c6516, 0x14383d8e,
         0xd5a79147, 0xec8726cb, 0xa0060b30, 0xade79437);
    Next(v, w, 30, 0xa0060b30, 0x363482c9, 0x77d37528, 0xb62ec4bc, 0xade79437, 0x6112a3b7, 0xedffbff8, 0xc74c6516,
         0x06ca6351, 0x702138a4, 0xea992a22, 0x0109ab3a);
    Next(v, w, 31, 0xea992a22, 0xa0060b30, 0x363482c9, 0x77d37528, 0x0109ab3a, 0xade79437, 0x6112a3b7, 0xedffbff8,
         0x14292967, 0xd3b7973b, 0x73b33bf5, 0xba591112);
  }

  lemma AbcRounds4(v: Vars, w: seq<bv32>)
    requires |w| == 64 && WordsAre(w, 32, ABC_W4)
    requires Rounds(v, w, 32)
          == Vars(0x73b33bf5, 0xea992a22, 0xa0060b30, 0x363482c9, 0xba591112, 0x0109ab3a, 0xade79437, 0x6112a3b7)
    ensures Rounds(v, w, 40)
         == Vars(0x79ea687a, 0x6dc57a8a, 0x34df1604, 0x41a65cb1, 0x1efbc0a0, 0xf0781bc8, 0xa507a53d, 0x0772a26b)
  {
    hide Rounds, RoundConstant;
    Constants4();
    Next(v, w, 32, 0x73b33bf5, 0xea992a22, 0xa0060b30, 0x363482c9, 0xba591112, 0x0109ab3a, 0xade79437, 0x6112a3b7,
         0x27b70a85, 0x93f5997f, 0x98e12507, 0x9cd9f5f6);
    Next(v, w, 33, 0x98e12507, 0x73b33bf5, 0xea992a22, 0xa0060b30, 0x9cd9f5f6, 0xba591112, 0x0109ab3a, 0xade79437,
         0x2e1b2138, 0x3b68ba73, 0xfe604df5, 0x59249dd3);
    Next(v, w, 34, 0xfe604df5, 0x98e12507, 0x73b33bf5, 0xea992a22, 0x59249dd3, 0x9cd9f5f6, 0xba591112, 0x0109ab3a,
         0x4d2c6dfc, 0xaff4ffc1, 0xa9a7738c, 0x085f3833);
    Next(v, w, 35, 0xa9a7738c, 0xfe604df5, 0x98e12507, 0x73b33bf5, 0x085f3833, 0x59249dd3, 0x9cd9f5f6, 0xba591112,
         0x53380d13, 0xf10a5c62, 0x65a0cfe4, 0xf4b002d6);
    Next(v, w, 36, 0x65a0cfe4, 0xa9a7738c, 0xfe604df5, 0x98e12507, 0xf4b002d6, 0x085f3833, 0x59249dd3, 0x9cd9f5f6,
         0x650a7354, 0x0a8b3996, 0x41a65cb1, 0x0772a26b);
    Next(v, w, 37, 0x41a65cb1, 0x65a0cfe4, 0xa9a7738c, 0xfe604df5, 0x0772a26b, 0xf4b002d6, 0x085f3833, 0x59249dd3,
         0x766a0abb, 0x72af830a, 0x34df1604, 0xa507a53d);
    Next(v, w, 38, 0x34df1604, 0x41a65cb1, 0x65a0cfe4, 0xa9a7738c, 0xa507a53d, 0x0772a26b, 0xf4b002d6, 0x085f3833,
         0x81c2c92e, 0x9409e33e, 0x6dc57a8a, 0xf0781bc8);
    Next(v, w, 39, 0x6dc57a8a, 0x34df1604, 0x41a65cb1, 0x65a0cfe4, 0xf0781bc8, 0xa507a53d, 0x0772a26b, 0xf4b002d6,
         0x92722c85, 0x24641522, 0x79ea687a, 0x1efbc0a0);
  }

  lemma AbcRounds5(v: Vars, w: seq<bv32>)
    requires |w| == 64 && WordsAre(w, 40, ABC_W5)
    requires Rounds(v, w, 40)
          == Vars(0x79ea687a, 0x6dc57a8a, 0x34df1604, 0x41a65cb1, 0x1efbc0a0, 0xf0781bc8, 0xa507a53d, 0x0772a26b)
    ensures Rounds(v, w, 48)
         == Vars(0x4172328d, 0xa14c14b0, 0x72ab4b91, 0x26628815, 0xfecf0bc6, 0xd57b94a9, 0xb7755da1, 0xa80f11f0)
  {
    hide Rounds, RoundConstant;
    Constants5();
    Next(v, w, 40, 0x79ea687a, 0x6dc57a8a, 0x34df1604, 0x41a65cb1, 0x1efbc0a0, 0xf0781bc8, 0xa507a53d, 0x0772a26b,
         0xa2bfe8a1, 0x9f47bf94, 0xd6670766, 0x26352d63);
    Next(v, w, 41, 0xd6670766, 0x79ea687a, 0x6dc57a8a, 0x34df1604, 0x26352d63, 0x1efbc0a0, 0xf0781bc8, 0xa507a53d,
         0xa81a664b, 0xf0a64f5a, 0xdf46652f, 0x838b2711);
    Next(v, w, 42, 0xdf46652f, 0xd6670766, 0x79ea687a, 0x6dc57a8a, 0x838b2711, 0x26352d63, 0x1efbc0a0, 0xf0781bc8,
         0xc24b8b70, 0x3e246a79, 0x17aa0dfe, 0xdecd4715);
    Next(v, w, 43, 0x17aa0dfe, 0xdf46652f, 0xd6670766, 0x79ea687a, 0xdecd4715, 0x838b2711, 0x26352d63, 0x1efbc0a0,
         0xc76c51a3, 0x27333ba3, 0x9d4baf93, 0xfda24c2e);
    Next(v, w, 44, 0x9d4baf93, 0x17aa0dfe, 0xdf46652f, 0xd6670766, 0xfda24c2e, 0xdecd4715, 0x838b2711, 0x26352d63,
         0xd192e819, 0x0c4763f2, 0x26628815, 0xa80f11f0);
    Next(v, w, 45, 0x26628815, 0x9d4baf93, 0x17aa0dfe, 0xdf46652f, 0xa80f11f0, 0xfda24c2e, 0xdecd4715, 0x838b2711,
         0xd6990624, 0x840abf27, 0x72ab4b91, 0xb7755da1);
    Next(v, w, 46, 0x72ab4b91, 0x26628815, 0x9d4baf93, 0x17aa0dfe, 0xb7755da1, 0xa80f11f0, 0xfda24c2e, 0xdecd4715,
         0xf40e3585, 0x7a290d5d, 0xa14c14b0, 0xd57b94a9);
    Next(v, w, 47, 0xa14c14b0, 0x72ab4b91, 0x26628815, 0x9d4baf93, 0xd57b94a9, 0xb7755da1, 0xa80f11f0, 0xfda24c2e,
         0x106aa070, 0x065c43da, 0x4172328d, 0xfecf0bc6);
  }

  lemma AbcRounds6(v: Vars, w: seq<bv32>)
    requires |w| == 64 && WordsAre(w, 48, ABC_W6)
    requires Rounds(v, w, 48)
          == Vars(0x4172328d, 0xa14c14b0, 0x72ab4b91, 0x26628815, 0xfecf0bc6, 0xd57b94a9, 0xb7755da1, 0xa80f11f0)
    ensures Rounds(v, w, 56)
         == Vars(0x38cc9913, 0x3ec45cdb, 0xf5702fdb, 0x101fd28f, 0x54cb266b, 0xe50e1b4f, 0x9f4787c3, 0x529e7d00)
  {
    hide Rounds, RoundConstant;
    Constants6();
    Next(v, w, 48, 0x4172328d, 0xa14c14b0, 0x72ab4b91, 0x26628815, 0xfecf0bc6, 0xd57b94a9, 0xb7755da1, 0xa80f11f0,
         0x19a4c116, 0xfb3e89cb, 0x05757ceb, 0xbd714038);
    Next(v, w, 49, 0x05757ceb, 0x4172328d, 0xa14c14b0, 0x72ab4b91, 0xbd714038, 0xfecf0bc6, 0xd57b94a9, 0xb7755da1,
         0x1e376c08, 0xcc7617db, 0xf11bfaa8, 0x6e5c390c);
    Next(v, w, 50, 0xf11bfaa8, 0x05757ceb, 0x4172328d, 0xa14c14b0, 0x6e5c390c, 0xbd714038, 0xfecf0bc6, 0xd57b94a9,
         0x2748774c, 0xb9e66c34, 0x7a0508a1, 0x52f1ccf7);
    Next(v, w, 51, 0x7a0508a1, 0xf11bfaa8, 0x05757ceb, 0x4172328d, 0x52f1ccf7, 0x6e5c390c, 0xbd714038, 0xfecf0bc6,
         0x34b0bcb5, 0xa9993667, 0x886e7a22, 0x49231c1e);
    Next(v, w, 52, 0x886e7a22, 0x7a0508a1, 0xf11bfaa8, 0x05757ceb, 0x49231c1e, 0x52f1ccf7, 0x6e5c390c, 0xbd714038,
         0x391c0cb3, 0x84badedd, 0x101fd28f, 0x529e7d00);
    Next(v, w, 53, 0x101fd28f, 0x886e7a22, 0x7a0508a1, 0xf11bfaa8, 0x529e7d00, 0x49231c1e, 0x52f1ccf7, 0x6e5c390c,
         0x4ed8aa4a, 0xc21462bc, 0xf5702fdb, 0x9f4787c3);
    Next(v, w, 54, 0xf5702fdb, 0x101fd28f, 0x886e7a22, 0x7a0508a1, 0x9f4787c3, 0x529e7d00, 0x49231c1e, 0x52f1ccf7,
         0x5b9cca4f, 0x1487472c, 0x3ec45cdb, 0xe50e1b4f);
    Next(v, w, 55, 0x3ec45cdb, 0xf5702fdb, 0x101fd28f, 0x886e7a22, 0xe50e1b4f, 0x9f4787c3, 0x529e7d00, 0x49231c1e,
         0x682e6ff3, 0xb20f7a99, 0x38cc9913, 0x54cb266b);
  }

  lemma AbcRounds7(v: Vars, w: seq<bv32>)
    requires |w| == 64 && WordsAre(w, 56, ABC_W7)
    requires Rounds(v, w, 56)
          == Vars(0x38cc9913, 0x3ec45cdb, 0xf5702fdb, 0x101fd28f, 0x54cb266b, 0xe50e1b4f, 0x9f4787c3, 0x529e7d00)
    ensures Rounds(v, w, 64)
         == Vars(0x506e3058, 0xd39a2165, 0x04d24d6c, 0xb85e2ce9, 0x5ef50f24, 0xfb121210, 0x948d25b6, 0x961f4894)
  {
    hide Rounds, RoundConstant;
    Constants7();
    Next(v, w, 56, 0x38cc9913, 0x3ec45cdb, 0xf5702fdb, 0x101fd28f, 0x54cb266b, 0xe50e1b4f, 0x9f4787c3, 0x529e7d00,
         0x748f82ee, 0xef57b9cd, 0xfcd1887b, 0x9b5e906c);
    Next(v, w, 57, 0xfcd1887b, 0x38cc9913, 0x3ec45cdb, 0xf5702fdb, 0x9b5e906c, 0x54cb266b, 0xe50e1b4f, 0x9f4787c3,
         0x78a5636f, 0xebe6b238, 0xc062d46f, 0x7e44008e);
    Next(v, w, 58, 0xc062d46f, 0xfcd1887b, 0x38cc9913, 0x3ec45cdb, 0x7e44008e, 0x9b5e906c, 0x54cb266b, 0xe50e1b4f,
         0x84c87814, 0x9fe3095e, 0xffb70472, 0x6d83bfc6);
    Next(v, w, 59, 0xffb70472, 0xc062d46f, 0xfcd1887b, 0x38cc9913, 0x6d83bfc6, 0x7e44008e, 0x9b5e906c, 0x54cb266b,
         0x8cc70208, 0x78bc8d4b, 0xb6ae8fff, 0xb21bad3d);
    Next(v, w, 60, 0xb6ae8fff, 0xffb70472, 0xc062d46f, 0xfcd1887b, 0xb21bad3d, 0x6d83bfc6, 0x7e44008e, 0x9b5e906c,
         0x90befffa, 0xa43fcf15, 0xb85e2ce9, 0x961f4894);
    Next(v, w, 61, 0xb85e2ce9, 0xb6ae8fff, 0xffb70472, 0xc062d46f, 0x961f4894, 0xb21bad3d, 0x6d83bfc6, 0x7e44008e,
         0xa4506ceb, 0x668b2ff8, 0x04d24d6c, 0x948d25b6);
    Next(v, w, 62, 0x04d24d6c, 0xb85e2ce9, 0xb6ae8fff, 0xffb70472, 0x948d25b6, 0x961f4894, 0xb21bad3d, 0x6d83bfc6,
         0xbef9a3f7, 0xeeaba2cc, 0xd39a2165, 0xfb121210);
    Next(v, w, 63, 0xd39a2165, 0x04d24d6c, 0xb85e2ce9, 0xb6ae8fff, 0xfb121210, 0x948d25b6, 0x961f4894, 0xb21bad3d,
         0xc67178f2, 0x12b1edeb, 0x506e3058, 0x5ef50f24);
  }

  lemma AbcSum()
    ensures Plus(Vars(0x6a09e667, 0xbb67ae85, 0x3c6ef372, 0xa54ff53a, 0x510e527f, 0x9b05688c, 0x1f83d9ab, 0x5be0cd19),
                 Vars(0x506e3058, 0xd39a2165, 0x04d24d6c, 0xb85e2ce9, 0x5ef50f24, 0xfb121210, 0x948d25b6, 0x961f4894))
         == Vars(0xba7816bf, 0x8f01cfea, 0x414140de, 0x5dae2223, 0xb00361a3, 0x96177a9c, 0xb410ff61, 0xf20015ad)
  {
  }

  lemma AbcCompress(m: seq<byte>, p: nat)
    requires p + 64 <= |m| && WordsAre(Schedule(m, p, 64), 0, ABC_W0) && WordsAre(Schedule(m, p, 64), 8, ABC_W1)
    ensures Compress(ABC_START, m, p) == ABC_VALUE
  {
    hide WordsAre, Schedule, Rounds, Plus;
    var w, v := Schedule(m, p, 64), ABC_START;
    AbcSchedule(m, p);
    NoRounds(v, w);
    AbcRounds0(v, w);
    AbcRounds1(v, w);
    AbcRounds2(v, w);
    AbcRounds3(v, w);
    AbcRounds4(v, w);
    AbcRounds5(v, w);
    AbcRounds6(v, w);
    AbcRounds7(v, w);
    AbcSum();
  }

  // ---------------------------------------------------------------- the first block of the longer message

  const FIRST_W0 := Eight(
    0x61626364, 0x62636465, 0x63646566, 0x64656667, 0x65666768, 0x66676869, 0x6768696a, 0x68696a6b)
  const FIRST_W1 := Eight(
    0x696a6b6c, 0x6a6b6c6d, 0x6b6c6d6e, 0x6c6d6e6f, 0x6d6e6f70, 0x6e6f7071, 0x80000000, 0x00000000)
  const FIRST_W2 := Eight(
    0xeb8012ad, 0xa7c3ae92, 0x76e93ba2, 0xba42e743, 0x92a92204, 0xd847e75e, 0x9e160036, 0xb280a7cb)
  const FIRST_W3 := Eight(
    0xddeb1516, 0xf36586f4, 0x969cd048, 0xe959d99d, 0x6accc0ec, 0xf54cb098, 0x2af1b2da, 0xee59c4c9)
  const FIRST_W4 := Eight(
    0xa835e16a, 0x1dff4429, 0xd6e15959, 0xc397cd6e, 0x6f1801ca, 0x21574205, 0x35ff7a84, 0x9743ee78)
  const FIRST_W5 := Eight(
    0xe44183e7, 0x0d09f00d, 0x9c89af54, 0x042d5bef, 0x71f134d0, 0x0f94f463, 0x7e49dc63, 0x6f65c997)
  const FIRST_W6 := Eight(
    0x0b706583, 0x179312ca, 0x503054e9, 0xba125c39, 0x7e9392c9, 0xd5cbaa1e, 0x78e0585d, 0xf6e7611c)
  const FIRST_W7 := Eight(
    0x8ac830ce, 0x8b47a303, 0xfd6e627f, 0x8c6e2c6a, 0x4001adf1, 0x1a3dd097, 0xa9df6f62, 0x6aa60a39)
  const FIRST_START := Vars(
    0x6a09e667, 0xbb67ae85, 0x3c6ef372, 0xa54ff53a, 0x510e527f, 0x9b05688c, 0x1f83d9ab, 0x5be0cd19)
  const FIRST_VALUE := Vars(
    0x85e655d6, 0x417a1795, 0x3363376a, 0x624cde5c, 0x76e09589, 0xcac5f811, 0xcc4b32c1, 0xf20e533a)

  lemma FirstNext2()
    ensures NextWord(0x61626364, 0x62636465, 0x6a6b6c6d, 0x80000000) == 0xeb8012ad
    ensures NextWord(0x62636465, 0x63646566, 0x6b6c6d6e, 0x00000000) == 0xa7c3ae92
    ensures NextWord(0x63646566, 0x64656667, 0x6c6d6e6f, 0xeb8012ad) == 0x76e93ba2
    ensures NextWord(0x64656667, 0x65666768, 0x6d6e6f70, 0xa7c3ae92) == 0xba42e743
    ensures NextWord(0x65666768, 0x66676869, 0x6e6f7071, 0x76e93ba2) == 0x92a92204
    ensures NextWord(0x66676869, 0x6768696a, 0x80000000, 0xba42e743) == 0xd847e75e
    ensures NextWord(0x6768696a, 0x68696a6b, 0x00000000, 0x92a92204) == 0x9e160036
    ensures NextWord(0x68696a6b, 0x696a6b6c, 0xeb8012ad, 0xd847e75e) == 0xb280a7cb
  {
  }

  lemma FirstFollows2()
    ensures Follows(FIRST_W0, FIRST_W1, FIRST_W2)
  {
    FirstNext2();
    hide NextWord;
  }

  lemma FirstNext3()
    ensures NextWord(0x696a6b6c, 0x6a6b6c6d, 0xa7c3ae92, 0x9e160036) == 0xddeb1516
    ensures NextWord(0x6a6b6c6d, 0x6b6c6d6e, 0x76e93ba2, 0xb280a7cb) == 0xf36586f4
    ensures NextWord(0x6b6c6d6e, 0x6c6d6e6f, 0xba42e743, 0xddeb1516) == 0x969cd048
    ensures NextWord(0x6c6d6e6f, 0x6d6e6f70, 0x92a92204, 0xf36586f4) == 0xe959d99d
    ensures NextWord(0x6d6e6f70, 0x6e6f7071, 0xd847e75e, 0x969cd048) == 0x6accc0ec
    ensures NextWord(0x6e6f7071, 0x80000000, 0x9e160036, 0xe959d99d) == 0xf54cb098
    ensures NextWord(0x80000000, 0x00000000, 0xb280a7cb, 0x6accc0ec) == 0x2af1b2da
    ensures NextWord(0x00000000, 0xeb8012ad, 0xddeb1516, 0xf54cb098) == 0xee59c4c9
  {
  }

  lemma FirstFollows3()
    ensures Follows(FIRST_W1, FIRST_W2, FIRST_W3)
  {
    FirstNext3();
    hide NextWord;
  }

  lemma FirstNext4()
    ensures NextWord(0xeb8012ad, 0xa7c3ae92, 0xf36586f4, 0x2af1b2da) == 0xa835e16a
    ensures NextWord(0xa7c3ae92, 0x76e93ba2, 0x969cd048, 0xee59c4c9) == 0x1dff4429
    ensures NextWord(0x76e93ba2, 0xba42e743, 0xe959d99d, 0xa835e16a) == 0xd6e15959
    ensures NextWord(0xba42e743, 0x92a92204, 0x6accc0ec, 0x1dff4429) == 0xc397cd6e
    ensures NextWord(0x92a92204, 0xd847e75e, 0xf54cb098, 0xd6e15959) == 0x6f1801ca
    ensures NextWord(0xd847e75e, 0x9e160036, 0x2af1b2da, 0xc397cd6e) == 0x21574205
    ensures NextWord(0x9e160036, 0xb280a7cb, 0xee59c4c9, 0x6f1801ca) == 0x35ff7a84
    ensures NextWord(0xb280a7cb, 0xddeb1516, 0xa835e16a, 0x21574205) == 0x9743ee78
  {
  }

  lemma FirstFollows4()
    ensures Follows(FIRST_W2, FIRST_W3, FIRST_W4)
  {
    FirstNext4();
    hide NextWord;
  }

  lemma FirstNext5()
    ensures NextWord(0xddeb1516, 0xf36586f4, 0x1dff4429, 0x35ff7a84) == 0xe44183e7
    ensures NextWord(0xf36586f4, 0x969cd048, 0xd6e15959, 0x9743ee78) == 0x0d09f00d
    ensures NextWord(0x969cd048, 0xe959d99d, 0xc397cd6e, 0xe44183e7) == 0x9c89af54
    ensures NextWord(0xe959d99d, 0x6accc0ec, 0x6f1801ca, 0x0d09f00d) == 0x042d5bef
    ensures NextWord(0x6accc0ec, 0xf54cb098, 0x21574205, 0x9c89af54) == 0x71f134d0
    ensures NextWord(0xf54cb098, 0x2af1b2da, 0x35ff7a84, 0x042d5bef) == 0x0f94f463
    ensures NextWord(0x2af1b2da, 0xee59c4c9, 0x9743ee78, 0x71f134d0) == 0x7e49dc63
    ensures NextWord(0xee59c4c9, 0xa835e16a, 0xe44183e7, 0x0f94f463) == 0x6f65c997
  {
  }

  lemma FirstFollows5()
    ensures Follows(FIRST_W3, FIRST_W4, FIRST_W5)
  {
    FirstNext5();
    hide NextWord;
  }

  lemma FirstNext6()
    ensures NextWord(0xa835e16a, 0x1dff4429, 0x0d09f00d, 0x7e49dc63) == 0x0b706583
    ensures NextWord(0x1dff4429, 0xd6e15959, 0x9c89af54, 0x6f65c997) == 0x179312ca
    ensures NextWord(0xd6e15959, 0xc397cd6e, 0x042d5bef, 0x0b706583) == 0x503054e9
    ensures NextWord(0xc397cd6e, 0x6f1801ca, 0x71f134d0, 0x179312ca) == 0xba125c39
    ensures NextWord(0x6f1801ca, 0x21574205, 0x0f94f463, 0x503054e9) == 0x7e9392c9
    ensures NextWord(0x21574205, 0x35ff7a84, 0x7e49dc63, 0xba125c39) == 0xd5cbaa1e
    ensures NextWord(0x35ff7a84, 0x9743ee78, 0x6f65c997, 0x7e9392c9) == 0x78e0585d
    ensures NextWord(0x9743ee78, 0xe44183e7, 0x0b706583, 0xd5cbaa1e) == 0xf6e7611c
  {
  }

  lemma FirstFollows6()
    ensures Follows(FIRST_W4, FIRST_W5, FIRST_W6)
  {
    FirstNext6();
    hide NextWord;
  }

  lemma FirstNext7()
    ensures NextWord(0xe44183e7, 0x0d09f00d, 0x179312ca, 0x78e0585d) == 0x8ac830ce
    ensures NextWord(0x0d09f00d, 0x9c89af54, 0x503054e9, 0xf6e7611c) == 0x8b47a303
    ensures NextWord(0x9c89af54, 0x042d5bef, 0xba125c39, 0x8ac830ce) == 0xfd6e627f
    ensures NextWord(0x042d5bef, 0x71f134d0, 0x7e9392c9, 0x8b47a303) == 0x8c6e2c6a
    ensures NextWord(0x71f134d0, 0x0f94f463, 0xd5cbaa1e, 0xfd6e627f) == 0x4001adf1
    ensures NextWord(0x0f94f463, 0x7e49dc63, 0x78e0585d, 0x8c6e2c6a) == 0x1a3dd097
    ensures NextWord(0x7e49dc63, 0x6f65c997, 0xf6e7611c, 0x4001adf1) == 0xa9df6f62
    ensures NextWord(0x6f65c997, 0x0b706583, 0x8ac830ce, 0x1a3dd097) == 0x6aa60a39
  {
  }

  lemma FirstFollows7()
    ensures Follows(FIRST_W5, FIRST_W6, FIRST_W7)
  {
    FirstNext7();
    hide NextWord;
  }


  /** The words of the schedule after the sixteen of the block. */
  lemma FirstSchedule(m: seq<byte>, p: nat)
    requires p + 64 <= |m| && WordsAre(Schedule(m, p, 64), 0, FIRST_W0) && WordsAre(Schedule(m, p, 64), 8, FIRST_W1)
    ensures var w := Schedule(m, p, 64);
      && WordsAre(w, 16, FIRST_W2) && WordsAre(w, 24, FIRST_W3) && WordsAre(w, 32, FIRST_W4)
      && WordsAre(w, 40, FIRST_W5) && WordsAre(w, 48, FIRST_W6) && WordsAre(w, 56, FIRST_W7)
  {
    hide WordsAre, Follows, Schedule;
    FirstFollows2();
    NextWords(m, p, 16, FIRST_W0, FIRST_W1, FIRST_W2);
    FirstFollows3();
    NextWords(m, p, 24, FIRST_W1, FIRST_W2, FIRST_W3);
    FirstFollows4();
    NextWords(m, p, 32, FIRST_W2, FIRST_W3, FIRST_W4);
    FirstFollows5();
    NextWords(m, p, 40, FIRST_W3, FIRST_W4, FIRST_W5);
    FirstFollows6();
    NextWords(m, p, 48, FIRST_W4, FIRST_W5, FIRST_W6);
    FirstFollows7();
    NextWords(m, p, 56, FIRST_W5, FIRST_W6, FIRST_W7);
  }

  lemma FirstRounds0(v: Vars, w: seq<bv32>)
    requires |w| == 64 && WordsAre(w, 0, FIRST_W0)
    requires Rounds(v, w, 0)
          == Vars(0x6a09e667, 0xbb67ae85, 0x3c6ef372, 0xa54ff53a, 0x510e527f, 0x9b05688c, 0x1f83d9ab, 0x5be0cd19)
    ensures Rounds(v, w, 8)
         == Vars(0xd237e6db, 0x485835b7, 0x55c8ef48, 0xf921c212, 0xa401d211, 0x39a5b2ca, 0x7ff91c94, 0x05c4f88a)
  {
    hide Rounds, RoundConstant;
    Constants0();
    Next(v, w, 0, 0x6a09e667, 0xbb67ae85, 0x3c6ef372, 0xa54ff53a, 0x510e527f, 0x9b05688c, 0x1f83d9ab, 0x5be0cd19,
         0x428a2f98, 0x61626364, 0x5d6aebb1, 0xfa2a4606);
    Next(v, w, 1, 0x5d6aebb1, 0x6a09e667, 0xbb67ae85, 0x3c6ef372, 0xfa2a4606, 0x510e527f, 0x9b05688c, 0x1f83d9ab,
         0x71374491, 0x62636465, 0x2f2d5fcf, 0x4eb1cfce);
    Next(v, w, 2, 0x2f2d5fcf, 0x5d6aebb1, 0x6a09e667, 0xbb67ae85, 0x4eb1cfce, 0xfa2a4606, 0x510e527f, 0x9b05688c,
         0xb5c0fbcf, 0x63646566, 0x97651825, 0x62d5c49e);
    Next(v, w, 3, 0x97651825, 0x2f2d5fcf, 0x5d6aebb1, 0x6a09e667, 0x62d5c49e, 0x4eb1cfce, 0xfa2a4606, 0x510e527f,
         0xe9b5dba5, 0x64656667, 0x4a8d64d5, 0x6494841b);
    Next(v, w, 4, 0x4a8d64d5, 0x97651825, 0x2f2d5fcf, 0x5d6aebb1, 0x6494841b, 0x62d5c49e, 0x4eb1cfce, 0xfa2a4606,
         0x3956c25b, 0x65666768, 0xf921c212, 0x05c4f88a);
    Next(v, w, 5, 0xf921c212, 0x4a8d64d5, 0x97651825, 0x2f2d5fcf, 0x05c4f88a, 0x6494841b, 0x62d5c49e, 0x4eb1cfce,
         0x59f111f1, 0x66676869, 0x55c8ef48, 0x7ff91c94);
    Next(v, w, 6, 0x55c8ef48, 0xf921c212, 0x4a8d64d5, 0x97651825, 0x7ff91c94, 0x05c4f88a, 0x6494841b, 0x62d5c49e,
         0x923f82a4, 0x6768696a, 0x485835b7, 0x39a5b2ca);
    Next(v, w, 7, 0x485835b7, 0x55c8ef48, 0xf921c212, 0x4a8d64d5, 0x39a5b2ca, 0x7ff91c94, 0x05c4f88a, 0x6494841b,
         0xab1c5ed5, 0x68696a6b, 0xd237e6db, 0xa401d211);
  }

  lemma FirstRounds1(v: Vars, w: seq<bv32>)
    requires |w| == 64 && WordsAre(w, 8, FIRST_W1)
    requires Rounds(v, w, 8)
          == Vars(0xd237e6db, 0x485835b7, 0x55c8ef48, 0xf921c212, 0xa401d211, 0x39a5b2ca, 0x7ff91c94, 0x05c4f88a)
    ensures Rounds(v, w, 16)
         == Vars(0xc3486194, 0xdd16cbb3, 0xd68e6457, 0x101a4861, 0x1496a54f, 0x9162aded, 0x9243f8af, 0x839a0fc9)
  {
    hide Rounds, RoundConstant;
    Constants1();
    Next(v, w, 8, 0xd237e6db, 0x485835b7, 0x55c8ef48, 0xf921c212, 0xa401d211, 0x39a5b2ca, 0x7ff91c94, 0x05c4f88a,
         0xd807aa98, 0x696a6b6c, 0x359f2bce, 0xc09ffec4);
    Next(v, w, 9, 0x359f2bce, 0xd237e6db, 0x485835b7, 0x55c8ef48, 0xc09ffec4, 0xa401d211, 0x39a5b2ca, 0x7ff91c94,
         0x12835b01, 0x6a6b6c6d, 0x3a474b2b, 0x9037b3b8);
    Next(v, w, 10, 0x3a474b2b, 0x359f2bce, 0xd237e6db, 0x485835b7, 0x9037b3b8, 0xc09ffec4, 0xa401d211, 0x39a5b2ca,
         0x243185be, 0x6b6c6d6e, 0xb8e2b4cb, 0x443ed29e);
    Next(v, w, 11, 0xb8e2b4cb, 0x3a474b2b, 0x359f2bce, 0xd237e6db, 0x443ed29e, 0x9037b3b8, 0xc09ffec4, 0xa401d211,
         0x550c7dc3, 0x6c6d6e6f, 0x1762215c, 0xee1c97a8);
    Next(v, w, 12, 0x1762215c, 0xb8e2b4cb, 0x3a474b2b, 0x359f2bce, 0xee1c97a8, 0x443ed29e, 0x9037b3b8, 0xc09ffec4,
         0x72be5d74, 0x6d6e6f70, 0x101a4861, 0x839a0fc9);
    Next(v, w, 13, 0x101a4861, 0x1762215c, 0xb8e2b4cb, 0x3a474b2b, 0x839a0fc9, 0xee1c97a8, 0x443ed29e, 0x9037b3b8,
         0x80deb1fe, 0x6e6f7071, 0xd68e6457, 0x9243f8af);
    Next(v, w, 14, 0xd68e6457, 0x101a4861, 0x1762215c, 0xb8e2b4cb, 0x9243f8af, 0x839a0fc9, 0xee1c97a8, 0x443ed29e,
         0x9bdc06a7, 0x80000000, 0xdd16cbb3, 0x9162aded);
    Next(v, w, 15, 0xdd16cbb3, 0xd68e6457, 0x101a4861, 0x1762215c, 0x9162aded, 0x9243f8af, 0x839a0fc9, 0xee1c97a8,
         0xc19bf174, 0x00000000, 0xc3486194, 0x1496a54f);
  }

  lemma FirstRounds2(v: Vars, w: seq<bv32>)
    requires |w| == 64 && WordsAre(w, 16, FIRST_W2)
    requires Rounds(v, w, 16)
          == Vars(0xc3486194, 0xdd16cbb3, 0xd68e6457, 0x101a4861, 0x1496a54f, 0x9162aded, 0x9243f8af, 0x839a0fc9)
    ensures Rounds(v, w, 24)
         == Vars(0x59fce6b9, 0xae2e2d4f, 0x1b2b66b8, 0xd70ac17d, 0xa2c7d51d, 0xf074fc95, 0xd560b028, 0x7cc6b262)
  {
    hide Rounds, RoundConstant;
    Constants2();
    Next(v, w, 16, 0xc3486194, 0xdd16cbb3, 0xd68e6457, 0x101a4861, 0x1496a54f, 0x9162aded, 0x9243f8af, 0x839a0fc9,
         0xe49b69c1, 0xeb8012ad, 0xb9dcacb1, 0xd4f64250);
    Next(v, w, 17, 0xb9dcacb1, 0xc3486194, 0xdd16cbb3, 0xd68e6457, 0xd4f64250, 0x1496a54f, 0x9162aded, 0x9243f8af,
         0xefbe4786, 0xa7c3ae92, 0x046a193e, 0x885370b6);
    Next(v, w, 18, 0x046a193e, 0xb9dcacb1, 0xc3486194, 0xdd16cbb3, 0x885370b6, 0xd4f64250, 0x1496a54f, 0x9162aded,
         0x0fc19dc6, 0x76e93ba2, 0xf402f058, 0x6f433549);
    Next(v, w, 19, 0xf402f058, 0x046a193e, 0xb9dcacb1, 0xc3486194, 0x6f433549, 0x885370b6, 0xd4f64250, 0x1496a54f,
         0x240ca1cc, 0xba42e743, 0x2139187b, 0x7c304206);
    Next(v, w, 20, 0x2139187b, 0xf402f058, 0x046a193e, 0xb9dcacb1, 0x7c304206, 0x6f433549, 0x885370b6, 0xd4f64250,
         0x2de92c6f, 0x92a92204, 0xd70ac17d, 0x7cc6b262);
    Next(v, w, 21, 0xd70ac17d, 0x2139187b, 0xf402f058, 0x046a193e, 0x7cc6b262, 0x7c304206, 0x6f433549, 0x885370b6,
         0x4a7484aa, 0xd847e75e, 0x1b2b66b8, 0xd560b028);
    Next(v, w, 22, 0x1b2b66b8, 0xd70ac17d, 0x2139187b, 0xf402f058, 0xd560b028, 0x7cc6b262, 0x7c304206, 0x6f433549,
         0x5cb0a9dc, 0x9e160036, 0xae2e2d4f, 0xf074fc95);
    Next(v, w, 23, 0xae2e2d4f, 0x1b2b66b8, 0xd70ac17d, 0x2139187b, 0xf074fc95, 0xd560b028, 0x7cc6b262, 0x7c304206,
         0x76f988da, 0xb280a7cb, 0x59fce6b9, 0xa2c7d51d);
  }

  lemma FirstRounds3(v: Vars, w: seq<bv32>)
    requires |w| == 64 && WordsAre(w, 24, FIRST_W3)
    requires Rounds(v, w, 24)
          == Vars(0x59fce6b9, 0xae2e2d4f, 0x1b2b66b8, 0xd70ac17d, 0xa2c7d51d, 0xf074fc95, 0xd560b028, 0x7cc6b262)
    ensures Rounds(v, w, 32)
         == Vars(0x5581ab07, 0xeb43f3ed, 0xdf7151a0, 0x74bcf468, 0xdf980085, 0x0635d880, 0x7629c961, 0x72abaecd)
  {
    hide Rounds, RoundConstant;
    Constants3();
    Next(v, w, 24, 0x59fce6b9, 0xae2e2d4f, 0x1b2b66b8, 0xd70ac17d, 0xa2c7d51d, 0xf074fc95, 0xd560b028, 0x7cc6b262,
         0x983e5152, 0xddeb1516, 0x4a885065, 0x763597fb);
    Next(v, w, 25, 0x4a885065, 0x59fce6b9, 0xae2e2d4f, 0x1b2b66b8, 0x763597fb, 0xa2c7d51d, 0xf074fc95, 0xd560b028,
         0xa831c66d, 0xf36586f4, 0x573221da, 0x36e74eb4);
    Next(v, w, 26, 0x573221da, 0x4a885065, 0x59fce6b9, 0xae2e2d4f, 0x36e74eb4, 0x763597fb, 0xa2c7d51d, 0xf074fc95,
         0xb00327c8, 0x969cd048, 0x128661da, 0x1162d575);
    Next(v, w, 27, 0x128661da, 0x573221da, 0x4a885065, 0x59fce6b9, 0x1162d575, 0x36e74eb4, 0x763597fb, 0xa2c7d51d,
         0xbf597fc7, 0xe959d99d, 0x73f858af, 0xe77c797f);
    Next(v, w, 28, 0x73f858af, 0x128661da, 0x573221da, 0x4a885065, 0xe77c797f, 0x1162d575, 0x36e74eb4, 0x763597fb,
         0xc6e00bf3, 0x6accc0ec, 0x74bcf468, 0x72abaecd);
    Next(v, w, 29, 0x74bcf468, 0x73f858af, 0x128661da, 0x573221da, 0x72abaecd, 0xe77c797f, 0x1162d575, 0x36e74eb4,
         0xd5a79147, 0xf54cb098, 0xdf7151a0, 0x7629c961);
    Next(v, w, 30, 0xdf7151a0, 0x74bcf468, 0x73f858af, 0x128661da, 0x7629c961, 0x72abaecd, 0xe77c797f, 0x1162d575,
         0x06ca6351, 0x2af1b2da, 0xeb43f3ed, 0x0635d880);
    Next(v, w, 31, 0xeb43f3ed, 0xdf7151a0, 0x74bcf468, 0x73f858af, 0x0635d880, 0x7629c961, 0x72abaecd, 0xe77c797f,
         0x14292967, 0xee59c4c9, 0x5581ab07, 0xdf980085);
  }

  lemma FirstRounds4(v: Vars, w: seq<bv32>)
    requires |w| == 64 && WordsAre(w, 32, FIRST_W4)
    requires Rounds(v, w, 32)
          == Vars(0x5581ab07, 0xeb43f3ed, 0xdf7151a0, 0x74bcf468, 0xdf980085, 0x0635d880, 0x7629c961, 0x72abaecd)
    ensures Rounds(v, w, 40)
         == Vars(0x7e4d30b8, 0x91ac9d5d, 0xa985b4be, 0x2c55d3a6, 0x9f5b9b6d, 0x68d8d590, 0xf72bf353, 0xb067c1af)
  {
    hide Rounds, RoundConstant;
    Constants4();
    Next(v, w, 32, 0x5581ab07, 0xeb43f3ed, 0xdf7151a0, 0x74bcf468, 0xdf980085, 0x0635d880, 0x7629c961, 0x72abaecd,
         0x27b70a85, 0xa835e16a, 0x9fc905c8, 0xa94d2af1);
    Next(v, w, 33, 0x9fc905c8, 0x5581ab07, 0xeb43f3ed, 0xdf7151a0, 0xa94d2af1, 0xdf980085, 0x0635d880, 0x7629c961,
         0x2e1b2138, 0x1dff4429, 0x9ce5a62f, 0x6ef3b6bd);
    Next(v, w, 34, 0x9ce5a62f, 0x9fc905c8, 0x5581ab07, 0xeb43f3ed, 0x6ef3b6bd, 0xa94d2af1, 0xdf980085, 0x0635d880,
         0x4d2c6dfc, 0xd6e15959, 0x1df8e885, 0x2a9e048e);
    Next(v, w, 35, 0x1df8e885, 0x9ce5a62f, 0x9fc905c8, 0x5581ab07, 0x2a9e048e, 0x6ef3b6bd, 0xa94d2af1, 0xdf980085,
         0x53380d13, 0xc397cd6e, 0x0786dce8, 0xde2a21d1);
    Next(v, w, 36, 0x0786dce8, 0x1df8e885, 0x9ce5a62f, 0x9fc905c8, 0xde2a21d1, 0x2a9e048e, 0x6ef3b6bd, 0xa94d2af1,
         0x650a7354, 0x6f1801ca, 0x2c55d3a6, 0xb067c1af);
    Next(v, w, 37, 0x2c55d3a6, 0x0786dce8, 0x1df8e885, 0x9ce5a62f, 0xb067c1af, 0xde2a21d1, 0x2a9e048e, 0x6ef3b6bd,
         0x766a0abb, 0x21574205, 0xa985b4be, 0xf72bf353);
    Next(v, w, 38, 0xa985b4be, 0x2c55d3a6, 0x0786dce8, 0x1df8e885, 0xf72bf353, 0xb067c1af, 0xde2a21d1, 0x2a9e048e,
         0x81c2c92e, 0x35ff7a84, 0x91ac9d5d, 0x68d8d590);
    Next(v, w, 39, 0x91ac9d5d, 0xa985b4be, 0x2c55d3a6, 0x0786dce8, 0x68d8d590, 0xf72bf353, 0xb067c1af, 0xde2a21d1,
         0x92722c85, 0x9743ee78, 0x7e4d30b8, 0x9f5b9b6d);
  }

  lemma FirstRounds5(v: Vars, w: seq<bv32>)
    requires |w| == 64 && WordsAre(w, 40, FIRST_W5)
    requires Rounds(v, w, 40)
          == Vars(0x7e4d30b8, 0x91ac9d5d, 0xa985b4be, 0x2c55d3a6, 0x9f5b9b6d, 0x68d8d590, 0xf72bf353, 0xb067c1af)
    ensures Rounds(v, w, 48)
         == Vars(0x13d82741, 0x165be9cd, 0x18f0d19d, 0xde71e2f2, 0xa7802a4d, 0xa483f080, 0x6b88472c, 0xff61c636)
  {
    hide Rounds, RoundConstant;
    Constants5();
    Next(v, w, 40, 0x7e4d30b8, 0x91ac9d5d, 0xa985b4be, 0x2c55d3a6, 0x9f5b9b6d, 0x68d8d590, 0xf72bf353, 0xb067c1af,
         0xa2bfe8a1, 0xe44183e7, 0x7e056794, 0x423b26c0);
    Next(v, w, 41, 0x7e056794, 0x7e4d30b8, 0x91ac9d5d, 0xa985b4be, 0x423b26c0, 0x9f5b9b6d, 0x68d8d590, 0xf72bf353,
         0xa81a664b, 0x0d09f00d, 0x508a16ab, 0x45459d97);
    Next(v, w, 42, 0x508a16ab, 0x7e056794, 0x7e4d30b8, 0x91ac9d5d, 0x45459d97, 0x423b26c0, 0x9f5b9b6d, 0x68d8d590,
         0xc24b8b70, 0x9c89af54, 0xb62c7013, 0x80a92a00);
    Next(v, w, 43, 0xb62c7013, 0x508a16ab, 0x7e056794, 0x7e4d30b8, 0x80a92a00, 0x45459d97, 0x423b26c0, 0x9f5b9b6d,
         0xc76c51a3, 0x042d5bef, 0x167361de, 0x41dd3844);
    Next(v, w, 44, 0x167361de, 0xb62c7013, 0x508a16ab, 0x7e056794, 0x41dd3844, 0x80a92a00, 0x45459d97, 0x423b26c0,
         0xd192e819, 0x71f134d0, 0xde71e2f2, 0xff61c636);
    Next(v, w, 45, 0xde71e2f2, 0x167361de, 0xb62c7013, 0x508a16ab, 0xff61c636, 0x41dd3844, 0x80a92a00, 0x45459d97,
         0xd6990624, 0x0f94f463, 0x18f0d19d, 0x6b88472c);
    Next(v, w, 46, 0x18f0d19d, 0xde71e2f2, 0x167361de, 0xb62c7013, 0x6b88472c, 0xff61c636, 0x41dd3844, 0x80a92a00,
         0xf40e3585, 0x7e49dc63, 0x165be9cd, 0xa483f080);
    Next(v, w, 47, 0x165be9cd, 0x18f0d19d, 0xde71e2f2, 0x167361de, 0xa483f080, 0x6b88472c, 0xff61c636, 0x41dd3844,
         0x106aa070, 0x6f65c997, 0x13d82741, 0xa7802a4d);
  }

  lemma FirstRounds6(v: Vars, w: seq<bv32>)
    requires |w| == 64 && WordsAre(w, 48, FIRST_W6)
    requires Rounds(v, w, 48)
          == Vars(0x13d82741, 0x165be9cd, 0x18f0d19d, 0xde71e2f2, 0xa7802a4d, 0xa483f080, 0x6b88472c, 0xff61c636)
    ensures Rounds(v, w, 56)
         == Vars(0x9e57c4a0, 0xf907b313, 0x1d6de87a, 0xb8d55619, 0xeec13548, 0x61a41711, 0x3443bed4, 0x1c806a61)
  {
    hide Rounds, RoundConstant;
    Constants6();
    Next(v, w, 48, 0x13d82741, 0x165be9cd, 0x18f0d19d, 0xde71e2f2, 0xa7802a4d, 0xa483f080, 0x6b88472c, 0xff61c636,
         0x19a4c116, 0x0b706583, 0x017b9d99, 0xaeb10b60);
    Next(v, w, 49, 0x017b9d99, 0x13d82741, 0x165be9cd, 0x18f0d19d, 0xaeb10b60, 0xa7802a4d, 0xa483f080, 0x6b88472c,
         0x1e376c08, 0x179312ca, 0x543c99a1, 0x16f134b6);
    Next(v, w, 50, 0x543c99a1, 0x017b9d99, 0x13d82741, 0x165be9cd, 0x16f134b6, 0xaeb10b60, 0xa7802a4d, 0xa483f080,
         0x2748774c, 0x503054e9, 0x758ca97a, 0x100cf2ea);
    Next(v, w, 51, 0x758ca97a, 0x543c99a1, 0x017b9d99, 0x13d82741, 0x100cf2ea, 0x16f134b6, 0xaeb10b60, 0xa7802a4d,
         0x34b0bcb5, 0xba125c39, 0x81c1cde0, 0x5c47eb7b);
    Next(v, w, 52, 0x81c1cde0, 0x758ca97a, 0x543c99a1, 0x017b9d99, 0x5c47eb7b, 0x100cf2ea, 0x16f134b6, 0xaeb10b60,
         0x391c0cb3, 0x7e9392c9, 0xb8d55619, 0x1c806a61);
    Next(v, w, 53, 0xb8d55619, 0x81c1cde0, 0x758ca97a, 0x543c99a1, 0x1c806a61, 0x5c47eb7b, 0x100cf2ea, 0x16f134b6,
         0x4ed8aa4a, 0xd5cbaa1e, 0x1d6de87a, 0x3443bed4);
    Next(v, w, 54, 0x1d6de87a, 0xb8d55619, 0x81c1cde0, 0x758ca97a, 0x3443bed4, 0x1c806a61, 0x5c47eb7b, 0x100cf2ea,
         0x5b9cca4f, 0x78e0585d, 0xf907b313, 0x61a41711);
    Next(v, w, 55, 0xf907b313, 0x1d6de87a, 0xb8d55619, 0x81c1cde0, 0x61a41711, 0x3443bed4, 0x1c806a61, 0x5c47eb7b,
         0x682e6ff3, 0xf6e7611c, 0x9e57c4a0, 0xeec13548);
  }

  lemma FirstRounds7(v: Vars, w: seq<bv32>)
    requires |w| == 64 && WordsAre(w, 56, FIRST_W7)
    requires Rounds(v, w, 56)
          == Vars(0x9e57c4a0, 0xf907b313, 0x1d6de87a, 0xb8d55619, 0xeec13548, 0x61a41711, 0x3443bed4, 0x1c806a61)
    ensures Rounds(v, w, 64)
         == Vars(0x1bdc6f6f, 0x86126910, 0xf6f443f8, 0xbcfce922, 0x25d2430a, 0x2fc08f85, 0xacc75916, 0x962d8621)
  {
    hide Rounds, RoundConstant;
    Constants7();
    Next(v, w, 56, 0x9e57c4a0, 0xf907b313, 0x1d6de87a, 0xb8d55619, 0xeec13548, 0x61a41711, 0x3443bed4, 0x1c806a61,
         0x748f82ee, 0x8ac830ce, 0x71629856, 0x2f6c8c4e);
    Next(v, w, 57, 0x71629856, 0x9e57c4a0, 0xf907b313, 0x1d6de87a, 0x2f6c8c4e, 0xeec13548, 0x61a41711, 0x3443bed4,
         0x78a5636f, 0x8b47a303, 0x7c015a2c, 0xcb9d3dd0);
    Next(v, w, 58, 0x7c015a2c, 0x71629856, 0x9e57c4a0, 0xf907b313, 0xcb9d3dd0, 0x2f6c8c4e, 0xeec13548, 0x61a41711,
         0x84c87814, 0xfd6e627f, 0x921fccb6, 0x43d8a034);
    Next(v, w, 59, 0x921fccb6, 0x7c015a2c, 0x71629856, 0x9e57c4a0, 0x43d8a034, 0xcb9d3dd0, 0x2f6c8c4e, 0xeec13548,
         0x8cc70208, 0x8c6e2c6a, 0xe18f259a, 0x51e15869);
    Next(v, w, 60, 0xe18f259a, 0x921fccb6, 0x7c015a2c, 0x71629856, 0x51e15869, 0x43d8a034, 0xcb9d3dd0, 0x2f6c8c4e,
         0x90befffa, 0x4001adf1, 0xbcfce922, 0x962d8621);
    Next(v, w, 61, 0xbcfce922, 0xe18f259a, 0x921fccb6, 0x7c015a2c, 0x962d8621, 0x51e15869, 0x43d8a034, 0xcb9d3dd0,
         0xa4506ceb, 0x1a3dd097, 0xf6f443f8, 0xacc75916);
    Next(v, w, 62, 0xf6f443f8, 0xbcfce922, 0xe18f259a, 0x921fccb6, 0xacc75916, 0x962d8621, 0x51e15869, 0x43d8a034,
         0xbef9a3f7, 0xa9df6f62, 0x86126910, 0x2fc08f85);
    Next(v, w, 63, 0x86126910, 0xf6f443f8, 0xbcfce922, 0xe18f259a, 0x2fc08f85, 0xacc75916, 0x962d8621, 0x51e15869,
         0xc67178f2, 0x6aa60a39, 0x1bdc6f6f, 0x25d2430a);
  }

  lemma FirstSum()
    ensures Plus(Vars(0x6a09e667, 0xbb67ae85, 0x3c6ef372, 0xa54ff53a, 0x510e527f, 0x9b05688c, 0x1f83d9ab, 0x5be0cd19),
                 Vars(0x1bdc6f6f, 0x86126910, 0xf6f443f8, 0xbcfce922, 0x25d2430a, 0x2fc08f85, 0xacc75916, 0x962d8621))
         == Vars(0x85e655d6, 0x417a1795, 0x3363376a, 0x624cde5c, 0x76e09589, 0xcac5f811, 0xcc4b32c1, 0xf20e533a)
  {
  }

  lemma FirstCompress(m: seq<byte>, p: nat)
    requires p + 64 <= |m| && WordsAre(Schedule(m, p, 64), 0, FIRST_W0) && WordsAre(Schedule(m, p, 64), 8, FIRST_W1)
    ensures Compress(FIRST_START, m, p) == FIRST_VALUE
  {
    hide WordsAre, Schedule, Rounds, Plus;
    var w, v := Schedule(m, p, 64), FIRST_START;
    FirstSchedule(m, p);
    NoRounds(v, w);
    FirstRounds0(v, w);
    FirstRounds1(v, w);
    FirstRounds2(v, w);
    FirstRounds3(v, w);
    FirstRounds4(v, w);
    FirstRounds5(v, w);
    FirstRounds6(v, w);
    FirstRounds7(v, w);
    FirstSum();
  }

  // ---------------------------------------------------------------- the second block of the longer message

  const SECOND_W0 := Eight(
    0x00000000, 0x00000000, 0x00000000, 0x00000000, 0x00000000, 0x00000000, 0x00000000, 0x00000000)
  const SECOND_W1 := Eight(
    0x00000000, 0x00000000, 0x00000000, 0x00000000, 0x00000000, 0x00000000, 0x00000000, 0x000001c0)
  const SECOND_W2 := Eight(
    0x00000000, 0x00d80000, 0x00000000, 0x00003677, 0x00000000, 0x1df5600d, 0x000001c0, 0x1c00501c)
  const SECOND_W3 := Eight(
    0x01b00000, 0x220a8d94, 0x0000a365, 0x177017e7, 0x63d38035, 0x090ab713, 0x4c7539ca, 0x0f19a8c9)
  const SECOND_W4 := Eight(
    0x5df4b0c4, 0xe257036a, 0xc97bb6f1, 0xc5b46f4d, 0xf8253c4e, 0xa558d189, 0x78696285, 0xed07117f)
  const SECOND_W5 := Eight(
    0x107358f6, 0x390ae496, 0x565010a2, 0xc51d7d44, 0x9e74c972, 0x6614b561, 0x30fc129d, 0x9ac684a8)
  const SECOND_W6 := Eight(
    0x2b658dbd, 0xe290f793, 0x9eebb24c, 0x9713b5de, 0x41061ab7, 0xe022e23b, 0x0772079e, 0x7de22d9c)
  const SECOND_W7 := Eight(
    0xc8b83778, 0x75a79849, 0xd93dbddb, 0x0a036c9d, 0xcb4f6ac6, 0x823f97e2, 0xea2f2a7a, 0xb9018b52)
  const SECOND_START := Vars(
    0x85e655d6, 0x417a1795, 0x3363376a, 0x624cde5c, 0x76e09589, 0xcac5f811, 0xcc4b32c1, 0xf20e533a)
  const SECOND_VALUE := Vars(
    0x248d6a61, 0xd20638b8, 0xe5c02693, 0x0c3e6039, 0xa33ce459, 0x64ff2167, 0xf6ecedd4, 0x19db06c1)

  lemma SecondNext2()
    ensures NextWord(0x00000000, 0x00000000, 0x00000000, 0x00000000) == 0x00000000
    ensures NextWord(0x00000000, 0x00000000, 0x00000000, 0x000001c0) == 0x00d80000
    ensures NextWord(0x00000000, 0x00000000, 0x00000000, 0x00000000) == 0x00000000
    ensures NextWord(0x00000000, 0x00000000, 0x00000000, 0x00d80000) == 0x00003677
    ensures NextWord(0x00000000, 0x00000000, 0x00000000, 0x00000000) == 0x00000000
    ensures NextWord(0x00000000, 0x00000000, 0x00000000, 0x00003677) == 0x1df5600d
    ensures NextWord(0x00000000, 0x00000000, 0x000001c0, 0x00000000) == 0x000001c0
    ensures NextWord(0x00000000, 0x00000000, 0x00000000, 0x1df5600d) == 0x1c00501c
  {
  }

  lemma SecondFollows2()
    ensures Follows(SECOND_W0, SECOND_W1, SECOND_W2)
  {
    SecondNext2();
    hide NextWord;
  }

  lemma SecondNext3()
    ensures NextWord(0x00000000, 0x00000000, 0x00d80000, 0x000001c0) == 0x01b00000
    ensures NextWord(0x00000000, 0x00000000, 0x00000000, 0x1c00501c) == 0x220a8d94
    ensures NextWord(0x00000000, 0x00000000, 0x00003677, 0x01b00000) == 0x0000a365
    ensures NextWord(0x00000000, 0x00000000, 0x00000000, 0x220a8d94) == 0x177017e7
    ensures NextWord(0x00000000, 0x00000000, 0x1df5600d, 0x0000a365) == 0x63d38035
    ensures NextWord(0x00000000, 0x00000000, 0x000001c0, 0x177017e7) == 0x090ab713
    ensures NextWord(0x00000000, 0x000001c0, 0x1c00501c, 0x63d38035) == 0x4c7539ca
    ensures NextWord(0x000001c0, 0x00000000, 0x01b00000, 0x090ab713) == 0x0f19a8c9
  {
  }

  lemma SecondFollows3()
    ensures Follows(SECOND_W1, SECOND_W2, SECOND_W3)
  {
    SecondNext3();
    hide NextWord;
  }

  lemma SecondNext4()
    ensures NextWord(0x00000000, 0x00d80000, 0x220a8d94, 0x4c7539ca) == 0x5df4b0c4
    ensures NextWord(0x00d80000, 0x00000000, 0x0000a365, 0x0f19a8c9) == 0xe257036a
    ensures NextWord(0x00000000, 0x00003677, 0x177017e7, 0x5df4b0c4) == 0xc97bb6f1
    ensures NextWord(0x00003677, 0x00000000, 0x63d38035, 0xe257036a) == 0xc5b46f4d
    ensures NextWord(0x00000000, 0x1df5600d, 0x090ab713, 0xc97bb6f1) == 0xf8253c4e
    ensures NextWord(0x1df5600d, 0x000001c0, 0x4c7539ca, 0xc5b46f4d) == 0xa558d189
    ensures NextWord(0x000001c0, 0x1c00501c, 0x0f19a8c9, 0xf8253c4e) == 0x78696285
    ensures NextWord(0x1c00501c, 0x01b00000, 0x5df4b0c4, 0xa558d189) == 0xed07117f
  {
  }

  lemma SecondFollows4()
    ensures Follows(SECOND_W2, SECOND_W3, SECOND_W4)
  {
    SecondNext4();
    hide NextWord;
  }

  lemma SecondNext5()
    ensures NextWord(0x01b00000, 0x220a8d94, 0xe257036a, 0x78696285) == 0x107358f6
    ensures NextWord(0x220a8d94, 0x0000a365, 0xc97bb6f1, 0xed07117f) == 0x390ae496
    ensures NextWord(0x0000a365, 0x177017e7, 0xc5b46f4d, 0x107358f6) == 0x565010a2
    ensures NextWord(0x177017e7, 0x63d38035, 0xf8253c4e, 0x390ae496) == 0xc51d7d44
    ensures NextWord(0x63d38035, 0x090ab713, 0xa558d189, 0x565010a2) == 0x9e74c972
    ensures NextWord(0x090ab713, 0x4c7539ca, 0x78696285, 0xc51d7d44) == 0x6614b561
    ensures NextWord(0x4c7539ca, 0x0f19a8c9, 0xed07117f, 0x9e74c972) == 0x30fc129d
    ensures NextWord(0x0f19a8c9, 0x5df4b0c4, 0x107358f6, 0x6614b561) == 0x9ac684a8
  {
  }

  lemma SecondFollows5()
    ensures Follows(SECOND_W3, SECOND_W4, SECOND_W5)
  {
    SecondNext5();
    hide NextWord;
  }

  lemma SecondNext6()
    ensures NextWord(0x5df4b0c4, 0xe257036a, 0x390ae496, 0x30fc129d) == 0x2b658dbd
    ensures NextWord(0xe257036a, 0xc97bb6f1, 0x565010a2, 0x9ac684a8) == 0xe290f793
    ensures NextWord(0xc97bb6f1, 0xc5b46f4d, 0xc51d7d44, 0x2b658dbd) == 0x9eebb24c
    ensures NextWord(0xc5b46f4d, 0xf8253c4e, 0x9e74c972, 0xe290f793) == 0x9713b5de
    ensures NextWord(0xf8253c4e, 0xa558d189, 0x6614b561, 0x9eebb24c) == 0x41061ab7
    ensures NextWord(0xa558d189, 0x78696285, 0x30fc129d, 0x9713b5de) == 0xe022e23b
    ensures NextWord(0x78696285, 0xed07117f, 0x9ac684a8, 0x41061ab7) == 0x0772079e
    ensures NextWord(0xed07117f, 0x107358f6, 0x2b658dbd, 0xe022e23b) == 0x7de22d9c
  {
  }

  lemma SecondFollows6()
    ensures Follows(SECOND_W4, SECOND_W5, SECOND_W6)
  {
    SecondNext6();
    hide NextWord;
  }

  lemma SecondNext7()
    ensures NextWord(0x107358f6, 0x390ae496, 0xe290f793, 0x0772079e) == 0xc8b83778
    ensures NextWord(0x390ae496, 0x565010a2, 0x9eebb24c, 0x7de22d9c) == 0x75a79849
    ensures NextWord(0x565010a2, 0xc51d7d44, 0x9713b5de, 0xc8b83778) == 0xd93dbddb
    ensures NextWord(0xc51d7d44, 0x9e74c972, 0x41061ab7, 0x75a79849) == 0x0a036c9d
    ensures NextWord(0x9e74c972, 0x6614b561, 0xe022e23b, 0xd93dbddb) == 0xcb4f6ac6
    ensures NextWord(0x6614b561, 0x30fc129d, 0x0772079e, 0x0a036c9d) == 0x823f97e2
    ensures NextWord(0x30fc129d, 0x9ac684a8, 0x7de22d9c, 0xcb4f6ac6) == 0xea2f2a7a
    ensures NextWord(0x9ac684a8, 0x2b658dbd, 0xc8b83778, 0x823f97e2) == 0xb9018b52
  {
  }

  lemma SecondFollows7()
    ensures Follows(SECOND_W5, SECOND_W6, SECOND_W7)
  {
    SecondNext7();
    hide NextWord;
  }


  /** The words of the schedule after the sixteen of the block. */
  lemma SecondSchedule(m: seq<byte>, p: nat)
    requires p + 64 <= |m| && WordsAre(Schedule(m, p, 64), 0, SECOND_W0) && WordsAre(Schedule(m, p, 64), 8, SECOND_W1)
    ensures var w := Schedule(m, p, 64);
      && WordsAre(w, 16, SECOND_W2) && WordsAre(w, 24, SECOND_W3) && WordsAre(w, 32, SECOND_W4)
      && WordsAre(w, 40, SECOND_W5) && WordsAre(w, 48, SECOND_W6) && WordsAre(w, 56, SECOND_W7)
  {
    hide WordsAre, Follows, Schedule;
    SecondFollows2();
    NextWords(m, p, 16, SECOND_W0, SECOND_W1, SECOND_W2);
    SecondFollows3();
    NextWords(m, p, 24, SECOND_W1, SECOND_W2, SECOND_W3);
    SecondFollows4();
    NextWords(m, p, 32, SECOND_W2, SECOND_W3, SECOND_W4);
    SecondFollows5();
    NextWords(m, p, 40, SECOND_W3, SECOND_W4, SECOND_W5);
    SecondFollows6();
    NextWords(m, p, 48, SECOND_W4, SECOND_W5, SECOND_W6);
    SecondFollows7();
    NextWords(m, p, 56, SECOND_W5, SECOND_W6, SECOND_W7);
  }

  lemma SecondRounds0(v: Vars, w: seq<bv32>)
    requires |w| == 64 && WordsAre(w, 0, SECOND_W0)
    requires Rounds(v, w, 0)
          == Vars(0x85e655d6, 0x417a1795, 0x3363376a, 0x624cde5c, 0x76e09589, 0xcac5f811, 0xcc4b32c1, 0xf20e533a)
    ensures Rounds(v, w, 8)
         == Vars(0xbf9a93a0, 0x89bba3f1, 0x3eeb6c06, 0x185a5d79, 0x059abdd1, 0x0a34df03, 0xfe20cda6, 0x8dff3001)
  {
    hide Rounds, RoundConstant;
    Constants0();
    Next(v, w, 0, 0x85e655d6, 0x417a1795, 0x3363376a, 0x624cde5c, 0x76e09589, 0xcac5f811, 0xcc4b32c1, 0xf20e533a,
         0x428a2f98, 0x00000000, 0x7c20c838, 0x4670ae6e);
    Next(v, w, 1, 0x7c20c838, 0x85e655d6, 0x417a1795, 0x3363376a, 0x4670ae6e, 0x76e09589, 0xcac5f811, 0xcc4b32c1,
         0x71374491, 0x00000000, 0x7c3c0f86, 0x8c51be64);
    Next(v, w, 2, 0x7c3c0f86, 0x7c20c838, 0x85e655d6, 0x417a1795, 0x8c51be64, 0x4670ae6e, 0x76e09589, 0xcac5f811,
         0xb5c0fbcf, 0x00000000, 0xfd1eebdc, 0xaf71b9ea);
    Next(v, w, 3, 0xfd1eebdc, 0x7c3c0f86, 0x7c20c838, 0x85e655d6, 0xaf71b9ea, 0x8c51be64, 0x4670ae6e, 0x76e09589,
         0xe9b5dba5, 0x00000000, 0xf268faa9, 0xe20362ef);
    Next(v, w, 4, 0xf268faa9, 0xfd1eebdc, 0x7c3c0f86, 0x7c20c838, 0xe20362ef, 0xaf71b9ea, 0x8c51be64, 0x4670ae6e,
         0x3956c25b, 0x00000000, 0x185a5d79, 0x8dff3001);
    Next(v, w, 5, 0x185a5d79, 0xf268faa9, 0xfd1eebdc, 0x7c3c0f86, 0x8dff3001, 0xe20362ef, 0xaf71b9ea, 0x8c51be64,
         0x59f111f1, 0x00000000, 0x3eeb6c06, 0xfe20cda6);
    Next(v, w, 6, 0x3eeb6c06, 0x185a5d79, 0xf268faa9, 0xfd1eebdc, 0xfe20cda6, 0x8dff3001, 0xe20362ef, 0xaf71b9ea,
         0x923f82a4, 0x00000000, 0x89bba3f1, 0x0a34df03);
    Next(v, w, 7, 0x89bba3f1, 0x3eeb6c06, 0x185a5d79, 0xf268faa9, 0x0a34df03, 0xfe20cda6, 0x8dff3001, 0xe20362ef,
         0xab1c5ed5, 0x00000000, 0xbf9a93a0, 0x059abdd1);
  }

  lemma SecondRounds1(v: Vars, w: seq<bv32>)
    requires |w| == 64 && WordsAre(w, 8, SECOND_W1)
    requires Rounds(v, w, 8)
          == Vars(0xbf9a93a0, 0x89bba3f1, 0x3eeb6c06, 0x185a5d79, 0x059abdd1, 0x0a34df03, 0xfe20cda6, 0x8dff3001)
    ensures Rounds(v, w, 16)
         == Vars(0x16a8cc79, 0x0cea5cbc, 0xd74080fa, 0x35ee996d, 0x0fcb1f6f, 0x60356548, 0x68aa893f, 0x5c24e2a2)
  {
    hide Rounds, RoundConstant;
    Constants1();
    Next(v, w, 8, 0xbf9a93a0, 0x89bba3f1, 0x3eeb6c06, 0x185a5d79, 0x059abdd1, 0x0a34df03, 0xfe20cda6, 0x8dff3001,
         0xd807aa98, 0x00000000, 0x2c096744, 0xabfa465b);
    Next(v, w, 9, 0x2c096744, 0xbf9a93a0, 0x89bba3f1, 0x3eeb6c06, 0xabfa465b, 0x059abdd1, 0x0a34df03, 0xfe20cda6,
         0x12835b01, 0x00000000, 0x2d964e86, 0xaa27ed82);
    Next(v, w, 10, 0x2d964e86, 0x2c096744, 0xbf9a93a0, 0x89bba3f1, 0xaa27ed82, 0xabfa465b, 0x059abdd1, 0x0a34df03,
         0x243185be, 0x00000000, 0x5b35025b, 0x10e77723);
    Next(v, w, 11, 0x5b35025b, 0x2d964e86, 0x2c096744, 0xbf9a93a0, 0x10e77723, 0xaa27ed82, 0xabfa465b, 0x059abdd1,
         0x550c7dc3, 0x00000000, 0x5eb4ec40, 0xe11b4548);
    Next(v, w, 12, 0x5eb4ec40, 0x5b35025b, 0x2d964e86, 0x2c096744, 0xe11b4548, 0x10e77723, 0xaa27ed82, 0xabfa465b,
         0x72be5d74, 0x00000000, 0x35ee996d, 0x5c24e2a2);
    Next(v, w, 13, 0x35ee996d, 0x5eb4ec40, 0x5b35025b, 0x2d964e86, 0x5c24e2a2, 0xe11b4548, 0x10e77723, 0xaa27ed82,
         0x80deb1fe, 0x00000000, 0xd74080fa, 0x68aa893f);
    Next(v, w, 14, 0xd74080fa, 0x35ee996d, 0x5eb4ec40, 0x5b35025b, 0x68aa893f, 0x5c24e2a2, 0xe11b4548, 0x10e77723,
         0x9bdc06a7, 0x00000000, 0x0cea5cbc, 0x60356548);
    Next(v, w, 15, 0x0cea5cbc, 0xd74080fa, 0x35ee996d, 0x5eb4ec40, 0x60356548, 0x68aa893f, 0x5c24e2a2, 0xe11b4548,
         0xc19bf174, 0x000001c0, 0x16a8cc79, 0x0fcb1f6f);
  }

  lemma SecondRounds2(v: Vars, w: seq<bv32>)
    requires |w| == 64 && WordsAre(w, 16, SECOND_W2)
    requires Rounds(v, w, 16)
          == Vars(0x16a8cc79, 0x0cea5cbc, 0xd74080fa, 0x35ee996d, 0x0fcb1f6f, 0x60356548, 0x68aa893f, 0x5c24e2a2)
    ensures Rounds(v, w, 24)
         == Vars(0xa4195b91, 0xf13ae55b, 0xd44dc81a, 0x20aad899, 0xeddbd6ed, 0x966aa287, 0x5bace62d, 0xcc4769f2)
  {
    hide Rounds, RoundConstant;
    Constants2();
    Next(v, w, 16, 0x16a8cc79, 0x0cea5cbc, 0xd74080fa, 0x35ee996d, 0x0fcb1f6f, 0x60356548, 0x68aa893f, 0x5c24e2a2,
         0xe49b69c1, 0x00000000, 0xf16f634e, 0x8b21cdc1);
    Next(v, w, 17, 0xf16f634e, 0x16a8cc79, 0x0cea5cbc, 0xd74080fa, 0x8b21cdc1, 0x0fcb1f6f, 0x60356548, 0x68aa893f,
         0xefbe4786, 0x00d80000, 0x23dcb6c2, 0xca9182d3);
    Next(v, w, 18, 0x23dcb6c2, 0xf16f634e, 0x16a8cc79, 0x0cea5cbc, 0xca9182d3, 0x8b21cdc1, 0x0fcb1f6f, 0x60356548,
         0x0fc19dc6, 0x00000000, 0xdcff40fd, 0x69bf7b95);
    Next(v, w, 19, 0xdcff40fd, 0x23dcb6c2, 0xf16f634e, 0x16a8cc79, 0x69bf7b95, 0xca9182d3, 0x8b21cdc1, 0x0fcb1f6f,
         0x240ca1cc, 0x00003677, 0x76f1a2bc, 0x0dc84bb1);
    Next(v, w, 20, 0x76f1a2bc, 0xdcff40fd, 0x23dcb6c2, 0xf16f634e, 0x0dc84bb1, 0x69bf7b95, 0xca9182d3, 0x8b21cdc1,
         0x2de92c6f, 0x00000000, 0x20aad899, 0xcc4769f2);
    Next(v, w, 21, 0x20aad899, 0x76f1a2bc, 0xdcff40fd, 0x23dcb6c2, 0xcc4769f2, 0x0dc84bb1, 0x69bf7b95, 0xca9182d3,
         0x4a7484aa, 0x1df5600d, 0xd44dc81a, 0x5bace62d);
    Next(v, w, 22, 0xd44dc81a, 0x20aad899, 0x76f1a2bc, 0xdcff40fd, 0x5bace62d, 0xcc4769f2, 0x0dc84bb1, 0x69bf7b95,
         0x5cb0a9dc, 0x000001c0, 0xf13ae55b, 0x966aa287);
    Next(v, w, 23, 0xf13ae55b, 0xd44dc81a, 0x20aad899, 0x76f1a2bc, 0x966aa287, 0x5bace62d, 0xcc4769f2, 0x0dc84bb1,
         0x76f988da, 0x1c00501c, 0xa4195b91, 0xeddbd6ed);
  }

  lemma SecondRounds3(v: Vars, w: seq<bv32>)
    requires |w| == 64 && WordsAre(w, 24, SECOND_W3)
    requires Rounds(v, w, 24)
          == Vars(0xa4195b91, 0xf13ae55b, 0xd44dc81a, 0x20aad899, 0xeddbd6ed, 0x966aa287, 0x5bace62d, 0xcc4769f2)
    ensures Rounds(v, w, 32)
         == Vars(0xb0eab1c5, 0x02ef3a5f, 0x1cfa5eb0, 0xd958b529, 0xf6d93952, 0x5da10665, 0x6c49db9f, 0xc2fa99b1)
  {
    hide Rounds, RoundConstant;
    Constants3();
    Next(v, w, 24, 0xa4195b91, 0xf13ae55b, 0xd44dc81a, 0x20aad899, 0xeddbd6ed, 0x966aa287, 0x5bace62d, 0xcc4769f2,
         0x983e5152, 0x01b00000, 0x4984fa79, 0xa530d939);
    Next(v, w, 25, 0x4984fa79, 0xa4195b91, 0xf13ae55b, 0xd44dc81a, 0xa530d939, 0xeddbd6ed, 0x966aa287, 0x5bace62d,
         0xa831c66d, 0x220a8d94, 0xaa6cb982, 0x0b5eeea4);
    Next(v, w, 26, 0xaa6cb982, 0x4984fa79, 0xa4195b91, 0xf13ae55b, 0x0b5eeea4, 0xa530d939, 0xeddbd6ed, 0x966aa287,
         0xb00327c8, 0x0000a365, 0x9450fbbc, 0x09166dda);
    Next(v, w, 27, 0x9450fbbc, 0xaa6cb982, 0x4984fa79, 0xa4195b91, 0x09166dda, 0x0b5eeea4, 0xa530d939, 0xeddbd6ed,
         0xbf597fc7, 0x177017e7, 0x0d936bab, 0x6e495d4b);
    Next(v, w, 28, 0x0d936bab, 0x9450fbbc, 0xaa6cb982, 0x4984fa79, 0x6e495d4b, 0x09166dda, 0x0b5eeea4, 0xa530d939,
         0xc6e00bf3, 0x63d38035, 0xd958b529, 0xc2fa99b1);
    Next(v, w, 29, 0xd958b529, 0x0d936bab, 0x9450fbbc, 0xaa6cb982, 0xc2fa99b1, 0x6e495d4b, 0x09166dda, 0x0b5eeea4,
         0xd5a79147, 0x090ab713, 0x1cfa5eb0, 0x6c49db9f);
    Next(v, w, 30, 0x1cfa5eb0, 0xd958b529, 0x0d936bab, 0x9450fbbc, 0x6c49db9f, 0xc2fa99b1, 0x6e495d4b, 0x09166dda,
         0x06ca6351, 0x4c7539ca, 0x02ef3a5f, 0x5da10665);
    Next(v, w, 31, 0x02ef3a5f, 0x1cfa5eb0, 0xd958b529, 0x0d936bab, 0x5da10665, 0x6c49db9f, 0xc2fa99b1, 0x6e495d4b,
         0x14292967, 0x0f19a8c9, 0xb0eab1c5, 0xf6d93952);
  }

  lemma SecondRounds4(v: Vars, w: seq<bv32>)
    requires |w| == 64 && WordsAre(w, 32, SECOND_W4)
    requires Rounds(v, w, 32)
          == Vars(0xb0eab1c5, 0x02ef3a5f, 0x1cfa5eb0, 0xd958b529, 0xf6d93952, 0x5da10665, 0x6c49db9f, 0xc2fa99b1)
    ensures Rounds(v, w, 40)
         == Vars(0x221b8a5a, 0xadca7a96, 0xd949682b, 0x2f11c939, 0x0b82c5eb, 0xc6cce4ff, 0x32d99008, 0xfed4ce1d)
  {
    hide Rounds, RoundConstant;
    Constants4();
    Next(v, w, 32, 0xb0eab1c5, 0x02ef3a5f, 0x1cfa5eb0, 0xd958b529, 0xf6d93952, 0x5da10665, 0x6c49db9f, 0xc2fa99b1,
         0x27b70a85, 0x5df4b0c4, 0x0bfba73c, 0x8b99e3a9);
    Next(v, w, 33, 0x0bfba73c, 0xb0eab1c5, 0x02ef3a5f, 0x1cfa5eb0, 0x8b99e3a9, 0xf6d93952, 0x5da10665, 0x6c49db9f,
         0x2e1b2138, 0xe257036a, 0x4bd1df96, 0x905e44ac);
    Next(v, w, 34, 0x4bd1df96, 0x0bfba73c, 0xb0eab1c5, 0x02ef3a5f, 0x905e44ac, 0x8b99e3a9, 0xf6d93952, 0x5da10665,
         0x4d2c6dfc, 0xc97bb6f1, 0x9907f1b6, 0x66c3043d);
    Next(v, w, 35, 0x9907f1b6, 0x4bd1df96, 0x0bfba73c, 0xb0eab1c5, 0x66c3043d, 0x905e44ac, 0x8b99e3a9, 0xf6d93952,
         0x53380d13, 0xc5b46f4d, 0xecde4e0d, 0x5dc119e6);
    Next(v, w, 36, 0xecde4e0d, 0x9907f1b6, 0x4bd1df96, 0x0bfba73c, 0x5dc119e6, 0x66c3043d, 0x905e44ac, 0x8b99e3a9,
         0x650a7354, 0xf8253c4e, 0x2f11c939, 0xfed4ce1d);
    Next(v, w, 37, 0x2f11c939, 0xecde4e0d, 0x9907f1b6, 0x4bd1df96, 0xfed4ce1d, 0x5dc119e6, 0x66c3043d, 0x905e44ac,
         0x766a0abb, 0xa558d189, 0xd949682b, 0x32d99008);
    Next(v, w, 38, 0xd949682b, 0x2f11c939, 0xecde4e0d, 0x9907f1b6, 0x32d99008, 0xfed4ce1d, 0x5dc119e6, 0x66c3043d,
         0x81c2c92e, 0x78696285, 0xadca7a96, 0xc6cce4ff);
    Next(v, w, 39, 0xadca7a96, 0xd949682b, 0x2f11c939, 0xecde4e0d, 0xc6cce4ff, 0x32d99008, 0xfed4ce1d, 0x5dc119e6,
         0x92722c85, 0xed07117f, 0x221b8a5a, 0x0b82c5eb);
  }

  lemma SecondRounds5(v: Vars, w: seq<bv32>)
    requires |w| == 64 && WordsAre(w, 40, SECOND_W5)
    requires Rounds(v, w, 40)
          == Vars(0x221b8a5a, 0xadca7a96, 0xd949682b, 0x2f11c939, 0x0b82c5eb, 0xc6cce4ff, 0x32d99008, 0xfed4ce1d)
    ensures Rounds(v, w, 48)
         == Vars(0xd7354d5b, 0x0b3303a7, 0x104a7db4, 0x0f154e11, 0xaad55b6b, 0xbbe1c39a, 0x5348e8f6, 0x6f9517cb)
  {
    hide Rounds, RoundConstant;
    Constants5();
    Next(v, w, 40, 0x221b8a5a, 0xadca7a96, 0xd949682b, 0x2f11c939, 0x0b82c5eb, 0xc6cce4ff, 0x32d99008, 0xfed4ce1d,
         0xa2bfe8a1, 0x107358f6, 0x12d97845, 0xe4213ca2);
    Next(v, w, 41, 0x12d97845, 0x221b8a5a, 0xadca7a96, 0xd949682b, 0xe4213ca2, 0x0b82c5eb, 0xc6cce4ff, 0x32d99008,
         0xa81a664b, 0x390ae496, 0x2c794876, 0xff6759ba);
    Next(v, w, 42, 0x2c794876, 0x12d97845, 0x221b8a5a, 0xadca7a96, 0xff6759ba, 0xe4213ca2, 0x0b82c5eb, 0xc6cce4ff,
         0xc24b8b70, 0x565010a2, 0x8300fca2, 0xe0e3457c);
    Next(v, w, 43, 0x8300fca2, 0x2c794876, 0x12d97845, 0x221b8a5a, 0xe0e3457c, 0xff6759ba, 0xe4213ca2, 0x0b82c5eb,
         0xc76c51a3, 0xc51d7d44, 0xf2ad6322, 0xcc48c7f3);
    Next(v, w, 44, 0xf2ad6322, 0x8300fca2, 0x2c794876, 0x12d97845, 0xcc48c7f3, 0xe0e3457c, 0xff6759ba, 0xe4213ca2,
         0xd192e819, 0x9e74c972, 0x0f154e11, 0x6f9517cb);
    Next(v, w, 45, 0x0f154e11, 0xf2ad6322, 0x8300fca2, 0x2c794876, 0x6f9517cb, 0xcc48c7f3, 0xe0e3457c, 0xff6759ba,
         0xd6990624, 0x6614b561, 0x104a7db4, 0x5348e8f6);
    Next(v, w, 46, 0x104a7db4, 0x0f154e11, 0xf2ad6322, 0x8300fca2, 0x5348e8f6, 0x6f9517cb, 0xcc48c7f3, 0xe0e3457c,
         0xf40e3585, 0x30fc129d, 0x0b3303a7, 0xbbe1c39a);
    Next(v, w, 47, 0x0b3303a7, 0x104a7db4, 0x0f154e11, 0xf2ad6322, 0xbbe1c39a, 0x5348e8f6, 0x6f9517cb, 0xcc48c7f3,
         0x106aa070, 0x9ac684a8, 0xd7354d5b, 0xaad55b6b);
  }

  lemma SecondRounds6(v: Vars, w: seq<bv32>)
    requires |w| == 64 && WordsAre(w, 48, SECOND_W6)
    requires Rounds(v, w, 48)
          == Vars(0xd7354d5b, 0x0b3303a7, 0x104a7db4, 0x0f154e11, 0xaad55b6b, 0xbbe1c39a, 0x5348e8f6, 0x6f9517cb)
    ensures Rounds(v, w, 56)
         == Vars(0x92952710, 0xd9f0c115, 0xec02560a, 0x4eca6fa0, 0x226806d6, 0x624150c4, 0x7151df8e, 0x989ed071)
  {
    hide Rounds, RoundConstant;
    Constants6();
    Next(v, w, 48, 0xd7354d5b, 0x0b3303a7, 0x104a7db4, 0x0f154e11, 0xaad55b6b, 0xbbe1c39a, 0x5348e8f6, 0x6f9517cb,
         0x19a4c116, 0x2b658dbd, 0xb736d7a6, 0x68f25260);
    Next(v, w, 49, 0xb736d7a6, 0xd7354d5b, 0x0b3303a7, 0x104a7db4, 0x68f25260, 0xaad55b6b, 0xbbe1c39a, 0x5348e8f6,
         0x1e376c08, 0xe290f793, 0x2748e5ec, 0xd4b58576);
    Next(v, w, 50, 0x2748e5ec, 0xb736d7a6, 0xd7354d5b, 0x0b3303a7, 0xd4b58576, 0x68f25260, 0xaad55b6b, 0xbbe1c39a,
         0x2748774c, 0x9eebb24c, 0xd8aabcf9, 0x27844711);
    Next(v, w, 51, 0xd8aabcf9, 0x2748e5ec, 0xb736d7a6, 0xd7354d5b, 0x27844711, 0xd4b58576, 0x68f25260, 0xaad55b6b,
         0x34b0bcb5, 0x9713b5de, 0x1a6bcf6a, 0xff5e99d0);
    Next(v, w, 52, 0x1a6bcf6a, 0xd8aabcf9, 0x2748e5ec, 0xb736d7a6, 0xff5e99d0, 0x27844711, 0xd4b58576, 0x68f25260,
         0x391c0cb3, 0x41061ab7, 0x4eca6fa0, 0x989ed071);
    Next(v, w, 53, 0x4eca6fa0, 0x1a6bcf6a, 0xd8aabcf9, 0x2748e5ec, 0x989ed071, 0xff5e99d0, 0x27844711, 0xd4b58576,
         0x4ed8aa4a, 0xe022e23b, 0xec02560a, 0x7151df8e);
    Next(v, w, 54, 0xec02560a, 0x4eca6fa0, 0x1a6bcf6a, 0xd8aabcf9, 0x7151df8e, 0x989ed071, 0xff5e99d0, 0x27844711,
         0x5b9cca4f, 0x0772079e, 0xd9f0c115, 0x624150c4);
    Next(v, w, 55, 0xd9f0c115, 0xec02560a, 0x4eca6fa0, 0x1a6bcf6a, 0x624150c4, 0x7151df8e, 0x989ed071, 0xff5e99d0,
         0x682e6ff3, 0x7de22d9c, 0x92952710, 0x226806d6);
  }

  lemma SecondRounds7(v: Vars, w: seq<bv32>)
    requires |w| == 64 && WordsAre(w, 56, SECOND_W7)
    requires Rounds(v, w, 56)
          == Vars(0x92952710, 0xd9f0c115, 0xec02560a, 0x4eca6fa0, 0x226806d6, 0x624150c4, 0x7151df8e, 0x989ed071)
    ensures Rounds(v, w, 64)
         == Vars(0x9ea7148b, 0x908c2123, 0xb25cef29, 0xa9f181dd, 0x2c5c4ed0, 0x9a392956, 0x2aa1bb13, 0x27ccb387)
  {
    hide Rounds, RoundConstant;
    Constants7();
    Next(v, w, 56, 0x92952710, 0xd9f0c115, 0xec02560a, 0x4eca6fa0, 0x226806d6, 0x624150c4, 0x7151df8e, 0x989ed071,
         0x748f82ee, 0xc8b83778, 0x20d4d0e4, 0x4e515a4d);
    Next(v, w, 57, 0x20d4d0e4, 0x92952710, 0xd9f0c115, 0xec02560a, 0x4e515a4d, 0x226806d6, 0x624150c4, 0x7151df8e,
         0x78a5636f, 0x75a79849, 0x4348eb1f, 0xc21eddf9);
    Next(v, w, 58, 0x4348eb1f, 0x20d4d0e4, 0x92952710, 0xd9f0c115, 0xc21eddf9, 0x4e515a4d, 0x226806d6, 0x624150c4,
         0x84c87814, 0xd93dbddb, 0x286fe5f0, 0x54076664);
    Next(v, w, 59, 0x286fe5f0, 0x4348eb1f, 0x20d4d0e4, 0x92952710, 0x54076664, 0xc21eddf9, 0x4e515a4d, 0x226806d6,
         0x8cc70208, 0x0a036c9d, 0x1c4cddd9, 0xf487a853);
    Next(v, w, 60, 0x1c4cddd9, 0x286fe5f0, 0x4348eb1f, 0x20d4d0e4, 0xf487a853, 0x54076664, 0xc21eddf9, 0x4e515a4d,
         0x90befffa, 0xcb4f6ac6, 0xa9f181dd, 0x27ccb387);
    Next(v, w, 61, 0xa9f181dd, 0x1c4cddd9, 0x286fe5f0, 0x4348eb1f, 0x27ccb387, 0xf487a853, 0x54076664, 0xc21eddf9,
         0xa4506ceb, 0x823f97e2, 0xb25cef29, 0x2aa1bb13);
    Next(v, w, 62, 0xb25cef29, 0xa9f181dd, 0x1c4cddd9, 0x286fe5f0, 0x2aa1bb13, 0x27ccb387, 0xf487a853, 0x54076664,
         0xbef9a3f7, 0xea2f2a7a, 0x908c2123, 0x9a392956);
    Next(v, w, 63, 0x908c2123, 0xb25cef29, 0xa9f181dd, 0x1c4cddd9, 0x9a392956, 0x2aa1bb13, 0x27ccb387, 0xf487a853,
         0xc67178f2, 0xb9018b52, 0x9ea7148b, 0x2c5c4ed0);
  }

  lemma SecondSum()
    ensures Plus(Vars(0x85e655d6, 0x417a1795, 0x3363376a, 0x624cde5c, 0x76e09589, 0xcac5f811, 0xcc4b32c1, 0xf20e533a),
                 Vars(0x9ea7148b, 0x908c2123, 0xb25cef29, 0xa9f181dd, 0x2c5c4ed0, 0x9a392956, 0x2aa1bb13, 0x27ccb387))
         == Vars(0x248d6a61, 0xd20638b8, 0xe5c02693, 0x0c3e6039, 0xa33ce459, 0x64ff2167, 0xf6ecedd4, 0x19db06c1)
  {
  }

  lemma SecondCompress(m: seq<byte>, p: nat)
    requires p + 64 <= |m| && WordsAre(Schedule(m, p, 64), 0, SECOND_W0) && WordsAre(Schedule(m, p, 64), 8, SECOND_W1)
    ensures Compress(SECOND_START, m, p) == SECOND_VALUE
  {
    hide WordsAre, Schedule, Rounds, Plus;
    var w, v := Schedule(m, p, 64), SECOND_START;
    SecondSchedule(m, p);
    NoRounds(v, w);
    SecondRounds0(v, w);
    SecondRounds1(v, w);
    SecondRounds2(v, w);
    SecondRounds3(v, w);
    SecondRounds4(v, w);
    SecondRounds5(v, w);
    SecondRounds6(v, w);
    SecondRounds7(v, w);
    SecondSum();
  }

  lemma NoRounds(v: Vars, w: seq<bv32>)
    ensures Rounds(v, w, 0) == v
  {
  }

  // ---------------------------------------------------------------- the padded messages

  /** Byte i of a padded message. */
  lemma PadAt(message: seq<byte>, i: nat)
    requires i < |Pad(message)|
    ensures var n, size := |message|, |Pad(message)|;
      && size == n + 9 + ZeroBytes(n)
      && Pad(message)[i] == if i < n then message[i] else if i == n then 0x80 else if i < size - 8 then 0
                            else LengthByte(n * 8 % 0x1_0000_0000_0000_0000, i - (size - 8))
  {
    hide LengthByte;
  }

  const ABC: seq<byte> := [0x61, 0x62, 0x63]

  lemma AbcBytes()
    ensures var m := Pad(ABC);
      && |m| == 64 && m[0] == 0x61 && m[1] == 0x62 && m[2] == 0x63 && m[3] == 0x80 && m[63] == 24
      && forall i | 4 <= i < 63 :: m[i] == 0
  {
    LengthOf24();
    assert |Pad(ABC)| == 3 + 9 + ZeroBytes(3) by { PadLength(ABC); PadAt(ABC, 0); }
    forall i: nat | i < 64
      ensures Pad(ABC)[i] == if i < 3 then ABC[i] else if i == 3 then 0x80 else if i == 63 then 24 else 0
    {
      PadAt(ABC, i);
    }
  }

  lemma LengthOf24()
    ensures LengthByte(24, 7) == 24 && forall i | 0 <= i < 7 :: LengthByte(24, i) == 0
  {
    Powers();
  }

  /** "abcdbcdecdefdefgefghfghighijhijkijkljklmklmnlmnomnopnopq" */
  function Longer(): (m: seq<byte>)
    ensures |m| == 56
  {
    seq(56, i requires 0 <= i < 56 => 0x61 + i / 4 + i % 4)
  }

  lemma LongerBytes()
    ensures var m := Pad(Longer());
      && |m| == 128 && (forall i | 0 <= i < 56 :: m[i] == 0x61 + i / 4 + i % 4) && m[56] == 0x80
      && (forall i | 57 <= i < 126 :: m[i] == 0) && m[126] == 1 && m[127] == 0xc0
  {
    LengthOf448();
    var m := Longer();
    assert |Pad(m)| == 56 + 9 + ZeroBytes(56) by { PadLength(m); PadAt(m, 0); }
    forall i: nat | i < 128
      ensures Pad(m)[i] == if i < 56 then m[i] else if i == 56 then 0x80 else if i == 126 then 1
                           else if i == 127 then 0xc0 else 0
    {
      PadAt(m, i);
    }
  }

  lemma LengthOf448()
    ensures LengthByte(448, 7) == 0xc0 && LengthByte(448, 6) == 1 && forall i | 0 <= i < 6 :: LengthByte(448, i) == 0
  {
    Powers();
  }

  lemma Powers()
    ensures Pow256(0) == 1 && Pow256(1) == 256 && forall i | 2 <= i < 8 :: Pow256(i) >= 65536
  {
    assert Pow256(2) == 65536 && Pow256(3) == 0x100_0000 && Pow256(4) == 0x1_0000_0000;
  }

  /** The eight words of a block from t on. */
  lemma BlockWords(m: seq<byte>, p: nat, t: nat, v: Eight)
    requires p + 64 <= |m| && t <= 8 && BlockWord(m, p + 4 * t) == v.x0 && BlockWord(m, p + 4 * t + 4) == v.x1
    requires BlockWord(m, p + 4 * t + 8) == v.x2 && BlockWord(m, p + 4 * t + 12) == v.x3
    requires BlockWord(m, p + 4 * t + 16) == v.x4 && BlockWord(m, p + 4 * t + 20) == v.x5
    requires BlockWord(m, p + 4 * t + 24) == v.x6 && BlockWord(m, p + 4 * t + 28) == v.x7
    ensures WordsAre(Schedule(m, p, 64), t, v)
  {
    hide Schedule, BlockWord, NextWord;
    ScheduleAt(m, p, t);
    ScheduleAt(m, p, t + 1);
    ScheduleAt(m, p, t + 2);
    ScheduleAt(m, p, t + 3);
    ScheduleAt(m, p, t + 4);
    ScheduleAt(m, p, t + 5);
    ScheduleAt(m, p, t + 6);
    ScheduleAt(m, p, t + 7);
  }

  predicate BytesAre(m: seq<byte>, p: nat, b0: byte, b1: byte, b2: byte, b3: byte)
    requires p + 4 <= |m|
  {
    m[p] == b0 && m[p + 1] == b1 && m[p + 2] == b2 && m[p + 3] == b3
  }

  predicate Spells(b0: byte, b1: byte, b2: byte, b3: byte, x: bv32) {
    BigEndian(Octet(b0), Octet(b1), Octet(b2), Octet(b3)) == x
  }

  lemma Spelled(m: seq<byte>, p: nat, b0: byte, b1: byte, b2: byte, b3: byte, x: bv32)
    requires p + 4 <= |m| && BytesAre(m, p, b0, b1, b2, b3) && Spells(b0, b1, b2, b3, x)
    ensures BlockWord(m, p) == x
  {
    hide Octet, BigEndian;
  }

  lemma AbcSpells0()
    ensures Spells(0x61, 0x62, 0x63, 0x80, 0x61626380)
    ensures Spells(0x00, 0x00, 0x00, 0x00, 0x00000000)
    ensures Spells(0x00, 0x00, 0x00, 0x00, 0x00000000)
    ensures Spells(0x00, 0x00, 0x00, 0x00, 0x00000000)
    ensures Spells(0x00, 0x00, 0x00, 0x00, 0x00000000)
    ensures Spells(0x00, 0x00, 0x00, 0x00, 0x00000000)
    ensures Spells(0x00, 0x00, 0x00, 0x00, 0x00000000)
    ensures Spells(0x00, 0x00, 0x00, 0x00, 0x00000000)
  {
  }

  lemma AbcWords0(m: seq<byte>)
    requires m == Pad(ABC)
    ensures |m| >= 64 && WordsAre(Schedule(m, 0, 64), 0, ABC_W0)
  {
    AbcBytes();
    AbcSpells0();
    hide Pad, Schedule, BlockWord, Spells, WordsAre;
    Spelled(m, 0, 0x61, 0x62, 0x63, 0x80, 0x61626380);
    Spelled(m, 4, 0x00, 0x00, 0x00, 0x00, 0x00000000);
    Spelled(m, 8, 0x00, 0x00, 0x00, 0x00, 0x00000000);
    Spelled(m, 12, 0x00, 0x00, 0x00, 0x00, 0x00000000);
    Spelled(m, 16, 0x00, 0x00, 0x00, 0x00, 0x00000000);
    Spelled(m, 20, 0x00, 0x00, 0x00, 0x00, 0x00000000);
    Spelled(m, 24, 0x00, 0x00, 0x00, 0x00, 0x00000000);
    Spelled(m, 28, 0x00, 0x00, 0x00, 0x00, 0x00000000);
    BlockWords(m, 0, 0, ABC_W0);
  }

  lemma AbcSpells1()
    ensures Spells(0x00, 0x00, 0x00, 0x00, 0x00000000)
    ensures Spells(0x00, 0x00, 0x00, 0x00, 0x00000000)
    ensures Spells(0x00, 0x00, 0x00, 0x00, 0x00000000)
    ensures Spells(0x00, 0x00, 0x00, 0x00, 0x00000000)
    ensures Spells(0x00, 0x00, 0x00, 0x00, 0x00000000)
    ensures Spells(0x00, 0x00, 0x00, 0x00, 0x00000000)
    ensures Spells(0x00, 0x00, 0x00, 0x00, 0x00000000)
    ensures Spells(0x00, 0x00, 0x00, 0x18, 0x00000018)
  {
  }

  lemma AbcWords1(m: seq<byte>)
    requires m == Pad(ABC)
    ensures |m| >= 64 && WordsAre(Schedule(m, 0, 64), 8, ABC_W1)
  {
    AbcBytes();
    AbcSpells1();
    hide Pad, Schedule, BlockWord, Spells, WordsAre;
    Spelled(m, 32, 0x00, 0x00, 0x00, 0x00, 0x00000000);
    Spelled(m, 36, 0x00, 0x00, 0x00, 0x00, 0x00000000);
    Spelled(m, 40, 0x00, 0x00, 0x00, 0x00, 0x00000000);
    Spelled(m, 44, 0x00, 0x00, 0x00, 0x00, 0x00000000);
    Spelled(m, 48, 0x00, 0x00, 0x00, 0x00, 0x00000000);
    Spelled(m, 52, 0x00, 0x00, 0x00, 0x00, 0x00000000);
    Spelled(m, 56, 0x00, 0x00, 0x00, 0x00, 0x00000000);
    Spelled(m, 60, 0x00, 0x00, 0x00, 0x18, 0x00000018);
    BlockWords(m, 0, 8, ABC_W1);
  }

  lemma FirstSpells0()
    ensures Spells(0x61, 0x62, 0x63, 0x64, 0x61626364)
    ensures Spells(0x62, 0x63, 0x64, 0x65, 0x62636465)
    ensures Spells(0x63, 0x64, 0x65, 0x66, 0x63646566)
    ensures Spells(0x64, 0x65, 0x66, 0x67, 0x64656667)
    ensures Spells(0x65, 0x66, 0x67, 0x68, 0x65666768)
    ensures Spells(0x66, 0x67, 0x68, 0x69, 0x66676869)
    ensures Spells(0x67, 0x68, 0x69, 0x6a, 0x6768696a)
    ensures Spells(0x68, 0x69, 0x6a, 0x6b, 0x68696a6b)
  {
  }

  lemma FirstWords0(m: seq<byte>)
    requires m == Pad(Longer())
    ensures |m| >= 64 && WordsAre(Schedule(m, 0, 64), 0, FIRST_W0)
  {
    LongerBytes();
    FirstSpells0();
    hide Pad, Schedule, BlockWord, Spells, WordsAre;
    Spelled(m, 0, 0x61, 0x62, 0x63, 0x64, 0x61626364);
    Spelled(m, 4, 0x62, 0x63, 0x64, 0x65, 0x62636465);
    Spelled(m, 8, 0x63, 0x64, 0x65, 0x66, 0x63646566);
    Spelled(m, 12, 0x64, 0x65, 0x66, 0x67, 0x64656667);
    Spelled(m, 16, 0x65, 0x66, 0x67, 0x68, 0x65666768);
    Spelled(m, 20, 0x66, 0x67, 0x68, 0x69, 0x66676869);
    Spelled(m, 24, 0x67, 0x68, 0x69, 0x6a, 0x6768696a);
    Spelled(m, 28, 0x68, 0x69, 0x6a, 0x6b, 0x68696a6b);
    BlockWords(m, 0, 0, FIRST_W0);
  }

  lemma FirstSpells1()
    ensures Spells(0x69, 0x6a, 0x6b, 0x6c, 0x696a6b6c)
    ensures Spells(0x6a, 0x6b, 0x6c, 0x6d, 0x6a6b6c6d)
    ensures Spells(0x6b, 0x6c, 0x6d, 0x6e, 0x6b6c6d6e)
    ensures Spells(0x6c, 0x6d, 0x6e, 0x6f, 0x6c6d6e6f)
    ensures Spells(0x6d, 0x6e, 0x6f, 0x70, 0x6d6e6f70)
    ensures Spells(0x6e, 0x6f, 0x70, 0x71, 0x6e6f7071)
    ensures Spells(0x80, 0x00, 0x00, 0x00, 0x80000000)
    ensures Spells(0x00, 0x00, 0x00, 0x00, 0x00000000)
  {
  }

  lemma FirstWords1(m: seq<byte>)
    requires m == Pad(Longer())
    ensures |m| >= 64 && WordsAre(Schedule(m, 0, 64), 8, FIRST_W1)
  {
    LongerBytes();
    FirstSpells1();
    hide Pad, Schedule, BlockWord, Spells, WordsAre;
    Spelled(m, 32, 0x69, 0x6a, 0x6b, 0x6c, 0x696a6b6c);
    Spelled(m, 36, 0x6a, 0x6b, 0x6c, 0x6d, 0x6a6b6c6d);
    Spelled(m, 40, 0x6b, 0x6c, 0x6d, 0x6e, 0x6b6c6d6e);
    Spelled(m, 44, 0x6c, 0x6d, 0x6e, 0x6f, 0x6c6d6e6f);
    Spelled(m, 48, 0x6d, 0x6e, 0x6f, 0x70, 0x6d6e6f70);
    Spelled(m, 52, 0x6e, 0x6f, 0x70, 0x71, 0x6e6f7071);
    Spelled(m, 56, 0x80, 0x00, 0x00, 0x00, 0x80000000);
    Spelled(m, 60, 0x00, 0x00, 0x00, 0x00, 0x00000000);
    BlockWords(m, 0, 8, FIRST_W1);
  }

  lemma SecondSpells0()
    ensures Spells(0x00, 0x00, 0x00, 0x00, 0x00000000)
    ensures Spells(0x00, 0x00, 0x00, 0x00, 0x00000000)
    ensures Spells(0x00, 0x00, 0x00, 0x00, 0x00000000)
    ensures Spells(0x00, 0x00, 0x00, 0x00, 0x00000000)
    ensures Spells(0x00, 0x00, 0x00, 0x00, 0x00000000)
    ensures Spells(0x00, 0x00, 0x00, 0x00, 0x00000000)
    ensures Spells(0x00, 0x00, 0x00, 0x00, 0x00000000)
    ensures Spells(0x00, 0x00, 0x00, 0x00, 0x00000000)
  {
  }

  lemma SecondWords0(m: seq<byte>)
    requires m == Pad(Longer())
    ensures |m| >= 128 && WordsAre(Schedule(m, 64, 64), 0, SECOND_W0)
  {
    LongerBytes();
    SecondSpells0();
    hide Pad, Schedule, BlockWord, Spells, WordsAre;
    Spelled(m, 64, 0x00, 0x00, 0x00, 0x00, 0x00000000);
    Spelled(m, 68, 0x00, 0x00, 0x00, 0x00, 0x00000000);
    Spelled(m, 72, 0x00, 0x00, 0x00, 0x00, 0x00000000);
    Spelled(m, 76, 0x00, 0x00, 0x00, 0x00, 0x00000000);
    Spelled(m, 80, 0x00, 0x00, 0x00, 0x00, 0x00000000);
    Spelled(m, 84, 0x00, 0x00, 0x00, 0x00, 0x00000000);
    Spelled(m, 88, 0x00, 0x00, 0x00, 0x00, 0x00000000);
    Spelled(m, 92, 0x00, 0x00, 0x00, 0x00, 0x00000000);
    BlockWords(m, 64, 0, SECOND_W0);
  }

  lemma SecondSpells1()
    ensures Spells(0x00, 0x00, 0x00, 0x00, 0x00000000)
    ensures Spells(0x00, 0x00, 0x00, 0x00, 0x00000000)
    ensures Spells(0x00, 0x00, 0x00, 0x00, 0x00000000)
    ensures Spells(0x00, 0x00, 0x00, 0x00, 0x00000000)
    ensures Spells(0x00, 0x00, 0x00, 0x00, 0x00000000)
    ensures Spells(0x00, 0x00, 0x00, 0x00, 0x00000000)
    ensures Spells(0x00, 0x00, 0x00, 0x00, 0x00000000)
    ensures Spells(0x00, 0x00, 0x01, 0xc0, 0x000001c0)
  {
  }

  lemma SecondWords1(m: seq<byte>)
    requires m == Pad(Longer())
    ensures |m| >= 128 && WordsAre(Schedule(m, 64, 64), 8, SECOND_W1)
  {
    LongerBytes();
    SecondSpells1();
    hide Pad, Schedule, BlockWord, Spells, WordsAre;
    Spelled(m, 96, 0x00, 0x00, 0x00, 0x00, 0x00000000);
    Spelled(m, 100, 0x00, 0x00, 0x00, 0x00, 0x00000000);
    Spelled(m, 104, 0x00, 0x00, 0x00, 0x00, 0x00000000);
    Spelled(m, 108, 0x00, 0x00, 0x00, 0x00, 0x00000000);
    Spelled(m, 112, 0x00, 0x00, 0x00, 0x00, 0x00000000);
    Spelled(m, 116, 0x00, 0x00, 0x00, 0x00, 0x00000000);
    Spelled(m, 120, 0x00, 0x00, 0x00, 0x00, 0x00000000);
    Spelled(m, 124, 0x00, 0x00, 0x01, 0xc0, 0x000001c0);
    BlockWords(m, 64, 8, SECOND_W1);
  }

  // ---------------------------------------------------------------- the digests

  lemma VarWords(v: Vars)
    ensures VarWord(v, 0) == v.a && VarWord(v, 1) == v.b && VarWord(v, 2) == v.c && VarWord(v, 3) == v.d
    ensures VarWord(v, 4) == v.e && VarWord(v, 5) == v.f && VarWord(v, 6) == v.g && VarWord(v, 7) == v.h
  {
  }

  lemma TwoBlocks(v: Vars, m: seq<byte>)
    requires |m| == 128
    ensures HashBlocks(v, m, 2) == Compress(Compress(v, m, 0), m, 64)
  {
    hide Compress;
    assert HashBlocks(v, m, 1) == Compress(HashBlocks(v, m, 0), m, 0);
  }

  predicate Octets(x: bv32, b0: byte, b1: byte, b2: byte, b3: byte) {
    WordByte(x, 0) == b0 && WordByte(x, 1) == b1 && WordByte(x, 2) == b2 && WordByte(x, 3) == b3
  }

  lemma DigestWord(v: Vars, j: nat, x: bv32, b0: byte, b1: byte, b2: byte, b3: byte)
    requires j < 8 && VarWord(v, j) == x && Octets(x, b0, b1, b2, b3)
    ensures var d := DigestBytes(v);
      d[4 * j] == b0 && d[4 * j + 1] == b1 && d[4 * j + 2] == b2 && d[4 * j + 3] == b3
  {
    hide WordByte, VarWord;
  }

  function AbcAnswer(): seq<byte> {
    [
      0xba, 0x78, 0x16, 0xbf, 0x8f, 0x01, 0xcf, 0xea,
      0x41, 0x41, 0x40, 0xde, 0x5d, 0xae, 0x22, 0x23,
      0xb0, 0x03, 0x61, 0xa3, 0x96, 0x17, 0x7a, 0x9c,
      0xb4, 0x10, 0xff, 0x61, 0xf2, 0x00, 0x15, 0xad]
  }

  lemma AbcSplit()
    ensures Octets(0xba7816bf, 0xba, 0x78, 0x16, 0xbf)
    ensures Octets(0x8f01cfea, 0x8f, 0x01, 0xcf, 0xea)
    ensures Octets(0x414140de, 0x41, 0x41, 0x40, 0xde)
    ensures Octets(0x5dae2223, 0x5d, 0xae, 0x22, 0x23)
    ensures Octets(0xb00361a3, 0xb0, 0x03, 0x61, 0xa3)
    ensures Octets(0x96177a9c, 0x96, 0x17, 0x7a, 0x9c)
    ensures Octets(0xb410ff61, 0xb4, 0x10, 0xff, 0x61)
    ensures Octets(0xf20015ad, 0xf2, 0x00, 0x15, 0xad)
  {
  }

  lemma AbcOctets()
    ensures DigestBytes(ABC_VALUE) == AbcAnswer()
  {
    AbcSplit();
    hide Octets, DigestBytes, VarWord;
    VarWords(ABC_VALUE);
    DigestWord(ABC_VALUE, 0, 0xba7816bf, 0xba, 0x78, 0x16, 0xbf);
    DigestWord(ABC_VALUE, 1, 0x8f01cfea, 0x8f, 0x01, 0xcf, 0xea);
    DigestWord(ABC_VALUE, 2, 0x414140de, 0x41, 0x41, 0x40, 0xde);
    DigestWord(ABC_VALUE, 3, 0x5dae2223, 0x5d, 0xae, 0x22, 0x23);
    DigestWord(ABC_VALUE, 4, 0xb00361a3, 0xb0, 0x03, 0x61, 0xa3);
    DigestWord(ABC_VALUE, 5, 0x96177a9c, 0x96, 0x17, 0x7a, 0x9c);
    DigestWord(ABC_VALUE, 6, 0xb410ff61, 0xb4, 0x10, 0xff, 0x61);
    DigestWord(ABC_VALUE, 7, 0xf20015ad, 0xf2, 0x00, 0x15, 0xad);
    AbcAssembles(DigestBytes(ABC_VALUE));
  }

  lemma AbcAssembles(d: seq<byte>)
    requires |d| == 32
    requires d[0] == 0xba && d[1] == 0x78 && d[2] == 0x16 && d[3] == 0xbf
    requires d[4] == 0x8f && d[5] == 0x01 && d[6] == 0xcf && d[7] == 0xea
    requires d[8] == 0x41 && d[9] == 0x41 && d[10] == 0x40 && d[11] == 0xde
    requires d[12] == 0x5d && d[13] == 0xae && d[14] == 0x22 && d[15] == 0x23
    requires d[16] == 0xb0 && d[17] == 0x03 && d[18] == 0x61 && d[19] == 0xa3
    requires d[20] == 0x96 && d[21] == 0x17 && d[22] == 0x7a && d[23] == 0x9c
    requires d[24] == 0xb4 && d[25] == 0x10 && d[26] == 0xff && d[27] == 0x61
    requires d[28] == 0xf2 && d[29] == 0x00 && d[30] == 0x15 && d[31] == 0xad
    ensures d == AbcAnswer()
  {
  }

  /** The published digest of "abc". */
  lemma AbcDigest()
    ensures Digest(ABC) == AbcAnswer()
  {
    var m := Pad(ABC);
    AbcBytes();
    AbcWords0(m);
    AbcWords1(m);
    AbcCompress(m, 0);
    AbcOctets();
    hide Pad, Schedule, Compress, DigestBytes, WordsAre;
    assert HashBlocks(InitialVars(), m, 0) == ABC_START;
    assert HashBlocks(InitialVars(), m, 1) == ABC_VALUE;
  }

  lemma LongerBlocks()
    ensures |Pad(Longer())| == 128 && HashBlocks(InitialVars(), Pad(Longer()), 2) == SECOND_VALUE
  {
    var m := Pad(Longer());
    LongerBytes();
    FirstWords0(m);
    FirstWords1(m);
    FirstCompress(m, 0);
    SecondWords0(m);
    SecondWords1(m);
    SecondCompress(m, 64);
    hide Pad, Schedule, Compress, WordsAre;
    assert InitialVars() == FIRST_START && FIRST_VALUE == SECOND_START;
    hide FIRST_START, FIRST_VALUE, SECOND_START, SECOND_VALUE, InitialVars, HashBlocks;
    TwoBlocks(InitialVars(), m);
  }

  function LongerAnswer(): seq<byte> {
    [
      0x24, 0x8d, 0x6a, 0x61, 0xd2, 0x06, 0x38, 0xb8,
      0xe5, 0xc0, 0x26, 0x93, 0x0c, 0x3e, 0x60, 0x39,
      0xa3, 0x3c, 0xe4, 0x59, 0x64, 0xff, 0x21, 0x67,
      0xf6, 0xec, 0xed, 0xd4, 0x19, 0xdb, 0x06, 0xc1]
  }

  lemma LongerSplit()
    ensures Octets(0x248d6a61, 0x24, 0x8d, 0x6a, 0x61)
    ensures Octets(0xd20638b8, 0xd2, 0x06, 0x38, 0xb8)
    ensures Octets(0xe5c02693, 0xe5, 0xc0, 0x26, 0x93)
    ensures Octets(0x0c3e6039, 0x0c, 0x3e, 0x60, 0x39)
    ensures Octets(0xa33ce459, 0xa3, 0x3c, 0xe4, 0x59)
    ensures Octets(0x64ff2167, 0x64, 0xff, 0x21, 0x67)
    ensures Octets(0xf6ecedd4, 0xf6, 0xec, 0xed, 0xd4)
    ensures Octets(0x19db06c1, 0x19, 0xdb, 0x06, 0xc1)
  {
  }

  lemma LongerOctets()
    ensures DigestBytes(SECOND_VALUE) == LongerAnswer()
  {
    LongerSplit();
    hide Octets, DigestBytes, VarWord;
    VarWords(SECOND_VALUE);
    DigestWord(SECOND_VALUE, 0, 0x248d6a61, 0x24, 0x8d, 0x6a, 0x61);
    DigestWord(SECOND_VALUE, 1, 0xd20638b8, 0xd2, 0x06, 0x38, 0xb8);
    DigestWord(SECOND_VALUE, 2, 0xe5c02693, 0xe5, 0xc0, 0x26, 0x93);
    DigestWord(SECOND_VALUE, 3, 0x0c3e6039, 0x0c, 0x3e, 0x60, 0x39);
    DigestWord(SECOND_VALUE, 4, 0xa33ce459, 0xa3, 0x3c, 0xe4, 0x59);
    DigestWord(SECOND_VALUE, 5, 0x64ff2167, 0x64, 0xff, 0x21, 0x67);
    DigestWord(SECOND_VALUE, 6, 0xf6ecedd4, 0xf6, 0xec, 0xed, 0xd4);
    DigestWord(SECOND_VALUE, 7, 0x19db06c1, 0x19, 0xdb, 0x06, 0xc1);
    LongerAssembles(DigestBytes(SECOND_VALUE));
  }

  lemma LongerAssembles(d: seq<byte>)
    requires |d| == 32
    requires d[0] == 0x24 && d[1] == 0x8d && d[2] == 0x6a && d[3] == 0x61
    requires d[4] == 0xd2 && d[5] == 0x06 && d[6] == 0x38 && d[7] == 0xb8
    requires d[8] == 0xe5 && d[9] == 0xc0 && d[10] == 0x26 && d[11] == 0x93
    requires d[12] == 0x0c && d[13] == 0x3e && d[14] == 0x60 && d[15] == 0x39
    requires d[16] == 0xa3 && d[17] == 0x3c && d[18] == 0xe4 && d[19] == 0x59
    requires d[20] == 0x64 && d[21] == 0xff && d[22] == 0x21 && d[23] == 0x67
    requires d[24] == 0xf6 && d[25] == 0xec && d[26] == 0xed && d[27] == 0xd4
    requires d[28] == 0x19 && d[29] == 0xdb && d[30] == 0x06 && d[31] == 0xc1
    ensures d == LongerAnswer()
  {
  }

  /** The published digest of the two-block message. */
  lemma LongerDigest()
    ensures Digest(Longer()) == LongerAnswer()
  {
    LongerBlocks();
    LongerOctets();
    hide Pad, HashBlocks, InitialVars, DigestBytes, LongerAnswer, SECOND_VALUE;
  }
}
