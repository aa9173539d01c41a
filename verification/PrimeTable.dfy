/** The table sizes of khash (src/util/khash.h), each certified prime. */
module PrimeTable {
  import opened Probing
  import opened Primality

  const PRIME_COUNT := 32

  /** The sizes a table may have; index 0 stands for the table without buckets. */
  const PRIMES: seq<nat> := [
    0, 3, 11, 23, 53, 97, 193, 389,
    769, 1543, 3079, 6151, 12289, 24593, 49157, 98317,
    196613, 393241, 786433, 1572869, 3145739, 6291469, 12582917, 25165843,
    50331653, 100663319, 201326611, 402653189, 805306457, 1610612741, 3221225473, 4294967291
  ]

  function SizeAt(t: nat): nat
    requires t < PRIME_COUNT
  {
    PRIMES[t]
  }

  /** The sizes grow by more than two from one to the next, and only the last two exceed 2^31. */
  lemma SizesIncrease(t: nat)
    requires t + 1 < PRIME_COUNT
    ensures SizeAt(t) + 2 < SizeAt(t + 1)
    ensures t < PRIME_COUNT - 2 <==> SizeAt(t) <= 0x8000_0000
  {
  }

  lemma SizesGrow(s: nat, t: nat)
    requires s <= t < PRIME_COUNT
    ensures SizeAt(s) <= SizeAt(t) && (s < t ==> SizeAt(s) + 2 < SizeAt(t))
    decreases t - s
  {
    hide SizeAt;
    if s < t {
      SizesIncrease(s);
      SizesGrow(s + 1, t);
    }
  }

  /** The first size is 0 and every other at least 3. */
  lemma SizesStart(t: nat)
    requires t < PRIME_COUNT
    ensures SizeAt(0) == 0 && (t > 0 ==> SizeAt(t) >= 3)
  {
    if t > 0 { SizesGrow(1, t); }
  }

  /** Every size but the first, which stands for no buckets, is prime. */
  lemma SizesArePrime(t: nat)
    requires 0 < t < PRIME_COUNT
    ensures IsPrime(SizeAt(t))
  {
    hide IsPrime, SizeAt;
    if t < 16 { LowerHalf(t); } else { UpperHalf(t); }
  }

  lemma LowerHalf(t: nat)
    requires 0 < t < 16
    ensures IsPrime(SizeAt(t))
  {
    hide IsPrime;
    match t
    case 1 => Prime3();
    case 2 => Prime11();
    case 3 => Prime23();
    case 4 => Prime53();
    case 5 => Prime97();
    case 6 => Prime193();
    case 7 => Prime389();
    case 8 => Prime769();
    case 9 => Prime1543();
    case 10 => Prime3079();
    case 11 => Prime6151();
    case 12 => Prime12289();
    case 13 => Prime24593();
    case 14 => Prime49157();
    case 15 => Prime98317();
  }

  lemma UpperHalf(t: nat)
    requires 16 <= t < PRIME_COUNT
    ensures IsPrime(SizeAt(t))
  {
    hide IsPrime;
    match t
    case 16 => Prime196613();
    case 17 => Prime393241();
    case 18 => Prime786433();
    case 19 => Prime1572869();
    case 20 => Prime3145739();
    case 21 => Prime6291469();
    case 22 => Prime12582917();
    case 23 => Prime25165843();
    case 24 => Prime50331653();
    case 25 => Prime100663319();
    case 26 => Prime201326611();
    case 27 => Prime402653189();
    case 28 => Prime805306457();
    case 29 => Prime1610612741();
    case 30 => Prime3221225473();
    case 31 => Prime4294967291();
  }

  // ---------------------------------------------------------------- certificates

  lemma Prime2() ensures IsPrime(2) { Trial(2); }
  lemma Prime3() ensures IsPrime(3) { Trial(3); }
  lemma Prime5() ensures IsPrime(5) { Trial(5); }
  lemma Prime7() ensures IsPrime(7) { Trial(7); }
  lemma Prime11() ensures IsPrime(11) { Trial(11); }
  lemma Prime13() ensures IsPrime(13) { Trial(13); }
  lemma Prime17() ensures IsPrime(17) { Trial(17); }
  lemma Prime19() ensures IsPrime(19) { Trial(19); }
  lemma Prime23() ensures IsPrime(23) { Trial(23); }
  lemma Prime29() ensures IsPrime(29) { Trial(29); }
  lemma Prime41() ensures IsPrime(41) { Trial(41); }
  lemma Prime53() ensures IsPrime(53) { Trial(53); }
  lemma Prime73() ensures IsPrime(73) { Trial(73); }
  lemma Prime97() ensures IsPrime(97) { Trial(97); }
  lemma Prime103() ensures IsPrime(103) { Trial(103); }
  lemma Prime109() ensures IsPrime(109) { Trial(109); }
  lemma Prime113() ensures IsPrime(113) { Trial(113); }
  lemma Prime181() ensures IsPrime(181) { Trial(181); }
  lemma Prime193() ensures IsPrime(193) { Trial(193); }
  lemma Prime199() ensures IsPrime(199) { Trial(199); }
  lemma Prime233() ensures IsPrime(233) { Trial(233); }
  lemma Prime239() ensures IsPrime(239) { Trial(239); }
  lemma Prime241() ensures IsPrime(241) { Trial(241); }
  lemma Prime257() ensures IsPrime(257) { Trial(257); }
  lemma Prime269() ensures IsPrime(269) { Trial(269); }
  lemma Prime283() ensures IsPrime(283) { Trial(283); }

  lemma Power293A() ensures Power(2, 4, 293) == 16 {
    hide Power;
    Start(293, 2);
    Climb(293, 2, 0, 1, 4, 0, 1, 0, 2, 0, 4, 0, 16);
  }
  lemma Power293B() ensures Power(16, 73, 293) == 1 {
    hide Power;
    Start(293, 16);
    Climb(293, 16, 0, 1, 4, 0, 1, 0, 16, 0, 256, 223, 197);
    Climb(293, 16, 4, 197, 9, 2119, 77, 20, 69, 16, 73, 291, 1);
  }
  lemma Prime293() ensures IsPrime(293) {
    hide Power, IsPrime;
    Prime73(); Power293A(); Power293B();
    OneFactor(293, 2, [73], 73, 4, 16, 254);
  }

  lemma Power313A() ensures Power(2, 24, 313) == 103 {
    hide Power;
    Start(313, 2);
    Climb(313, 2, 0, 1, 1, 0, 1, 0, 1, 0, 1, 0, 2);
    Climb(313, 2, 1, 2, 8, 0, 8, 0, 64, 13, 27, 2, 103);
  }
  lemma Power313B() ensures Power(103, 13, 313) == 1 {
    hide Power;
    Start(313, 103);
    Climb(313, 103, 0, 1, 13, 0, 103, 3491, 44, 6, 58, 1107, 1);
  }
  lemma Power313C() ensures Power(2, 104, 313) == 214 {
    hide Power;
    Start(313, 2);
    Climb(313, 2, 0, 1, 6, 0, 1, 0, 2, 0, 8, 0, 64);
    Climb(313, 2, 6, 64, 8, 26, 54, 9, 99, 31, 98, 30, 214);
  }
  lemma Prime313() ensures IsPrime(313) {
    hide Power, IsPrime;
    Prime13(); Prime3(); Power313A(); Power313B(); Power313C();
    TwoFactors(313, 2, 13, 3, 8, 103, 89, 214, 241);
  }

  lemma Power389A() ensures Power(2, 4, 389) == 16 {
    hide Power;
    Start(389, 2);
    Climb(389, 2, 0, 1, 4, 0, 1, 0, 2, 0, 4, 0, 16);
  }
  lemma Power389B() ensures Power(16, 97, 389) == 1 {
    hide Power;
    Start(389, 16);
    Climb(389, 16, 0, 1, 6, 0, 1, 0, 16, 10, 206, 109, 35);
    Climb(389, 16, 6, 35, 1, 3, 58, 8, 252, 163, 97, 387, 1);
  }
  lemma Prime389() ensures IsPrime(389) {
    hide Power, IsPrime;
    Prime97(); Power389A(); Power389B();
    OneFactor(389, 2, [97], 97, 4, 16, 26);
  }

  lemma Power769A() ensures Power(7, 384, 769) == 768 {
    hide Power;
    Start(769, 7);
    Climb(769, 7, 0, 1, 1, 0, 1, 0, 1, 0, 1, 0, 7);
    Climb(769, 7, 1, 7, 8, 0, 343, 152, 761, 753, 64, 5, 251);
    Climb(769, 7, 24, 251, 0, 81, 712, 659, 173, 38, 707, 649, 768);
  }
  lemma Power769B() ensures Power(768, 2, 769) == 1 {
    hide Power;
    Start(769, 768);
    Climb(769, 768, 0, 1, 2, 0, 1, 0, 1, 0, 768, 767, 1);
  }
  lemma Prime769() ensures IsPrime(769) {
    hide Power, IsPrime;
    Prime2(); Power769A(); Power769B();
    OneFactor(769, 7, [2, 2, 2, 2, 2], 2, 24, 768, 384);
  }

  lemma Power1091A() ensures Power(2, 10, 1091) == 1024 {
    hide Power;
    Start(1091, 2);
    Climb(1091, 2, 0, 1, 10, 0, 2, 0, 4, 0, 32, 0, 1024);
  }
  lemma Power1091B() ensures Power(1024, 109, 1091) == 1 {
    hide Power;
    Start(1091, 1024);
    Climb(1091, 1024, 0, 1, 6, 0, 1, 0, 1024, 984181, 353, 114, 235);
    Climb(1091, 1024, 6, 235, 13, 51833, 597, 334521, 405, 150, 375, 131989, 1);
  }
  lemma Prime1091() ensures IsPrime(1091) {
    hide Power, IsPrime;
    Prime109(); Power1091A(); Power1091B();
    OneFactor(1091, 2, [109], 109, 10, 1024, 369);
  }

  lemma Power1399A() ensures Power(2, 6, 1399) == 64 {
    hide Power;
    Start(1399, 2);
    Climb(1399, 2, 0, 1, 6, 0, 1, 0, 2, 0, 8, 0, 64);
  }
  lemma Power1399B() ensures Power(64, 233, 1399) == 1 {
    hide Power;
    Start(1399, 64);
    Climb(1399, 64, 0, 1, 14, 0, 64, 187, 531, 12898, 1202, 1032, 1036);
    Climb(1399, 64, 14, 1036, 9, 49100, 44, 1, 537, 206, 175, 1401, 1);
  }
  lemma Prime1399() ensures IsPrime(1399) {
    hide Power, IsPrime;
    Prime233(); Power1399A(); Power1399B();
    OneFactor(1399, 2, [233], 233, 6, 64, 644);
  }

  lemma Power1543A() ensures Power(2, 6, 1543) == 64 {
    hide Power;
    Start(1543, 2);
    Climb(1543, 2, 0, 1, 6, 0, 1, 0, 2, 0, 8, 0, 64);
  }
  lemma Power1543B() ensures Power(64, 257, 1543) == 1 {
    hide Power;
    Start(1543, 64);
    Climb(1543, 64, 0, 1, 1, 0, 1, 0, 1, 0, 1, 0, 64);
    Climb(1543, 64, 1, 64, 0, 2, 1010, 661, 177, 20, 469, 142, 855);
    Climb(1543, 64, 16, 855, 1, 473, 1186, 911, 923, 552, 193, 1545, 1);
  }
  lemma Prime1543() ensures IsPrime(1543) {
    hide Power, IsPrime;
    Prime257(); Power1543A(); Power1543B();
    OneFactor(1543, 2, [257], 257, 6, 64, 49);
  }

  lemma Power2731A() ensures Power(3, 210, 2731) == 1024 {
    hide Power;
    Start(2731, 3);
    Climb(2731, 3, 0, 1, 13, 0, 3, 0, 27, 0, 729, 583, 2150);
    Climb(2731, 3, 13, 2150, 2, 1692, 1648, 994, 1290, 1828, 32, 0, 1024);
  }
  lemma Power2731B() ensures Power(1024, 13, 2731) == 1 {
    hide Power;
    Start(2731, 1024);
    Climb(2731, 1024, 0, 1, 13, 0, 1024, 393168, 16, 0, 256, 24573, 1);
  }
  lemma Power2731C() ensures Power(3, 390, 2731) == 1238 {
    hide Power;
    Start(2731, 3);
    Climb(2731, 3, 0, 1, 1, 0, 1, 0, 1, 0, 1, 0, 3);
    Climb(2731, 3, 1, 3, 8, 0, 27, 0, 729, 194, 1627, 969, 790);
    Climb(2731, 3, 24, 790, 6, 228, 1432, 2252, 1660, 3027, 63, 1, 1238);
  }
  lemma Prime2731() ensures IsPrime(2731) {
    hide Power, IsPrime;
    Prime13(); Prime7(); Power2731A(); Power2731B(); Power2731C();
    TwoFactors(2731, 3, 13, 7, 30, 1024, 606, 1238, 967);
  }

  lemma Power3079A() ensures Power(2, 1026, 3079) == 546 {
    hide Power;
    Start(3079, 2);
    Climb(3079, 2, 0, 1, 4, 0, 1, 0, 2, 0, 4, 0, 16);
    Climb(3079, 2, 4, 16, 0, 0, 256, 21, 877, 249, 2458, 1962, 766);
    Climb(3079, 2, 64, 766, 2, 190, 1746, 990, 306, 60, 2532, 2082, 546);
  }
  lemma Power3079B() ensures Power(546, 3, 3079) == 1 {
    hide Power;
    Start(3079, 546);
    Climb(3079, 546, 0, 1, 3, 0, 1, 0, 1, 0, 546, 52865, 1);
  }
  lemma Prime3079() ensures IsPrime(3079) {
    hide Power, IsPrime;
    Prime3(); Power3079A(); Power3079B();
    OneFactor(3079, 2, [3, 3, 3, 3], 3, 38, 546, 1870);
  }

  lemma Power4327A() ensures Power(2, 42, 4327) == 962 {
    hide Power;
    Start(4327, 2);
    Climb(4327, 2, 0, 1, 2, 0, 1, 0, 1, 0, 2, 0, 4);
    Climb(4327, 2, 2, 4, 10, 0, 32, 0, 1024, 484, 2884, 1922, 962);
  }
  lemma Power4327B() ensures Power(962, 103, 4327) == 1 {
    hide Power;
    Start(4327, 962);
    Climb(4327, 962, 0, 1, 6, 0, 1, 0, 962, 205749, 1205, 335, 2480);
    Climb(4327, 962, 6, 2480, 7, 1421, 1733, 667706, 156, 5410, 2162, 1039201, 1);
  }
  lemma Prime4327() ensures IsPrime(4327) {
    hide Power, IsPrime;
    Prime103(); Power4327A(); Power4327B();
    OneFactor(4327, 2, [103], 103, 42, 962, 1729);
  }

  lemma Power5233A() ensures Power(2, 48, 5233) == 427 {
    hide Power;
    Start(5233, 2);
    Climb(5233, 2, 0, 1, 3, 0, 1, 0, 1, 0, 2, 0, 8);
    Climb(5233, 2, 3, 8, 0, 0, 64, 0, 4096, 3206, 218, 9, 427);
  }
  lemma Power5233B() ensures Power(427, 109, 5233) == 1 {
    hide Power;
    Start(5233, 427);
    Climb(5233, 427, 0, 1, 6, 0, 1, 0, 427, 14877, 3142, 1886, 2726);
    Climb(5233, 427, 6, 2726, 13, 606357, 3271, 873048, 1123, 240, 5209, 2214042, 1);
  }
  lemma Prime5233() ensures IsPrime(5233) {
    hide Power, IsPrime;
    Prime109(); Power5233A(); Power5233B();
    OneFactor(5233, 2, [109], 109, 48, 427, 3157);
  }

  lemma Power5743A() ensures Power(2, 198, 5743) == 901 {
    hide Power;
    Start(5743, 2);
    Climb(5743, 2, 0, 1, 12, 0, 2, 0, 8, 0, 64, 0, 4096);
    Climb(5743, 2, 12, 4096, 6, 2921, 1913, 1274, 2556, 2275, 947, 156, 901);
  }
  lemma Power5743B() ensures Power(901, 29, 5743) == 1 {
    hide Power;
    Start(5743, 901);
    Climb(5743, 901, 0, 1, 1, 0, 1, 0, 1, 0, 1, 0, 901);
    Climb(5743, 901, 1, 901, 13, 127360, 4221, 2795224, 2309, 928, 1977, 613196, 1);
  }
  lemma Power5743C() ensures Power(2, 522, 5743) == 4052 {
    hide Power;
    Start(5743, 2);
    Climb(5743, 2, 0, 1, 2, 0, 1, 0, 1, 0, 2, 0, 4);
    Climb(5743, 2, 2, 4, 0, 0, 16, 0, 256, 11, 2363, 972, 1573);
    Climb(5743, 2, 32, 1573, 10, 861, 3935, 2696, 1097, 419, 501, 43, 4052);
  }
  lemma Prime5743() ensures IsPrime(5743) {
    hide Power, IsPrime;
    Prime29(); Prime11(); Power5743A(); Power5743B(); Power5743C();
    TwoFactors(5743, 2, 29, 11, 18, 901, 3784, 4052, 4219);
  }

  lemma Power6151A() ensures Power(2, 150, 6151) == 1074 {
    hide Power;
    Start(6151, 2);
    Climb(6151, 2, 0, 1, 9, 0, 2, 0, 4, 0, 16, 0, 512);
    Climb(6151, 2, 9, 512, 6, 42, 3802, 4700, 708, 162, 6066, 5982, 1074);
  }
  lemma Power6151B() ensures Power(1074, 41, 6151) == 1 {
    hide Power;
    Start(6151, 1074);
    Climb(6151, 1074, 0, 1, 2, 0, 1, 0, 1, 0, 1074, 187, 3239);
    Climb(6151, 1074, 2, 3239, 9, 1831810, 644, 67, 2619, 1115, 796, 110633, 1);
  }
  lemma Power6151C() ensures Power(2, 1230, 6151) == 3478 {
    hide Power;
    Start(6151, 2);
    Climb(6151, 2, 0, 1, 4, 0, 1, 0, 2, 0, 4, 0, 16);
    Climb(6151, 2, 4, 16, 12, 0, 512, 85, 1453, 343, 1416, 325, 5981);
    Climb(6151, 2, 76, 5981, 14, 11631, 2441, 1937, 2475, 1991, 4609, 3453, 3478);
  }
  lemma Prime6151() ensures IsPrime(6151) {
    hide Power, IsPrime;
    Prime41(); Prime5(); Power6151A(); Power6151B(); Power6151C();
    TwoFactors(6151, 2, 41, 5, 30, 1074, 4265, 3478, 5385);
  }

  lemma Power12289A() ensures Power(11, 6144, 12289) == 12288 {
    hide Power;
    Start(12289, 11);
    Climb(12289, 11, 0, 1, 1, 0, 1, 0, 1, 0, 1, 0, 11);
    Climb(12289, 11, 1, 11, 8, 0, 1331, 144, 1945, 307, 10302, 8636, 3400);
    Climb(12289, 11, 24, 3400, 0, 940, 8340, 5659, 12149, 12010, 7311, 4349, 5860);
    Climb(12289, 11, 384, 5860, 0, 2794, 4134, 1390, 8246, 5533, 1479, 177, 12288);
  }
  lemma Power12289B() ensures Power(12288, 2, 12289) == 1 {
    hide Power;
    Start(12289, 12288);
    Climb(12289, 12288, 0, 1, 2, 0, 1, 0, 1, 0, 12288, 12287, 1);
  }
  lemma Prime12289() ensures IsPrime(12289) {
    hide Power, IsPrime;
    Prime2(); Power12289A(); Power12289B();
    OneFactor(12289, 11, [2, 2, 2, 2, 2, 2, 2], 2, 96, 12288, 6144);
  }

  lemma Power16981A() ensures Power(2, 60, 16981) == 12470 {
    hide Power;
    Start(16981, 2);
    Climb(16981, 2, 0, 1, 3, 0, 1, 0, 1, 0, 2, 0, 8);
    Climb(16981, 2, 3, 8, 12, 0, 128, 1, 15787, 14676, 16213, 15479, 12470);
  }
  lemma Power16981B() ensures Power(12470, 283, 16981) == 1 {
    hide Power;
    Start(16981, 12470);
    Climb(16981, 12470, 0, 1, 1, 0, 1, 0, 1, 0, 1, 0, 12470);
    Climb(16981, 12470, 1, 12470, 1, 9157, 5883, 2038, 2411, 342, 5419, 21564604, 5146);
    Climb(16981, 12470, 17, 5146, 11, 19446558, 9122, 4900, 3984, 11655793, 11387, 95218609, 1);
  }
  lemma Prime16981() ensures IsPrime(16981) {
    hide Power, IsPrime;
    Prime283(); Power16981A(); Power16981B();
    OneFactor(16981, 2, [283], 283, 60, 12470, 12875);
  }

  lemma Power24593A() ensures Power(2, 464, 24593) == 7906 {
    hide Power;
    Start(24593, 2);
    Climb(24593, 2, 0, 1, 1, 0, 1, 0, 1, 0, 1, 0, 2);
    Climb(24593, 2, 1, 2, 13, 0, 8, 0, 128, 0, 16384, 21830, 5722);
    Climb(24593, 2, 29, 5722, 0, 1331, 8001, 2603, 422, 7, 5933, 1431, 7906);
  }
  lemma Power24593B() ensures Power(7906, 53, 24593) == 1 {
    hide Power;
    Start(24593, 7906);
    Climb(24593, 7906, 0, 1, 3, 0, 1, 0, 1, 0, 7906, 20093654, 594);
    Climb(24593, 7906, 3, 594, 5, 14, 8534, 23412650, 5886, 1408, 18052, 104760111, 1);
  }
  lemma Power24593C() ensures Power(2, 848, 24593) == 14437 {
    hide Power;
    Start(24593, 2);
    Climb(24593, 2, 0, 1, 3, 0, 1, 0, 1, 0, 2, 0, 8);
    Climb(24593, 2, 3, 8, 5, 0, 64, 0, 8192, 2728, 19160, 29854, 11778);
    Climb(24593, 2, 53, 11778, 0, 5640, 16764, 11427, 7485, 2278, 2371, 228, 14437);
  }
  lemma Prime24593() ensures IsPrime(24593) {
    hide Power, IsPrime;
    Prime53(); Prime29(); Power24593A(); Power24593B(); Power24593C();
    TwoFactors(24593, 2, 53, 29, 16, 7906, 8207, 14437, 23501);
  }

  lemma Power35747A() ensures Power(2, 122, 35747) == 20170 {
    hide Power;
    Start(35747, 2);
    Climb(35747, 2, 0, 1, 7, 0, 1, 0, 2, 0, 8, 0, 128);
    Climb(35747, 2, 7, 128, 10, 0, 32768, 30037, 9185, 4720, 2610, 190, 20170);
  }
  lemma Power35747B() ensures Power(20170, 293, 35747) == 1 {
    hide Power;
    Start(35747, 20170);
    Climb(35747, 20170, 0, 1, 1, 0, 1, 0, 1, 0, 1, 0, 20170);
    Climb(35747, 20170, 1, 20170, 2, 11380, 28040, 21994, 22082, 275133269, 16137, 7284, 21621);
    Climb(35747, 20170, 18, 21621, 5, 13077, 4122, 9586989, 34497, 33290, 25379, 363425427, 1);
  }
  lemma Prime35747() ensures IsPrime(35747) {
    hide Power, IsPrime;
    Prime293(); Power35747A(); Power35747B();
    OneFactor(35747, 2, [293], 293, 122, 20170, 911);
  }

  lemma Power49157A() ensures Power(2, 4, 49157) == 16 {
    hide Power;
    Start(49157, 2);
    Climb(49157, 2, 0, 1, 4, 0, 1, 0, 2, 0, 4, 0, 16);
  }
  lemma Power49157B() ensures Power(16, 12289, 49157) == 1 {
    hide Power;
    Start(49157, 16);
    Climb(49157, 16, 0, 1, 3, 0, 1, 0, 1, 0, 16, 0, 4096);
    Climb(49157, 16, 3, 4096, 0, 341, 14679, 4383, 17910, 6525, 18675, 7094, 35867);
    Climb(49157, 16, 48, 35867, 0, 26170, 2999, 182, 47427, 45757, 43480, 38458, 30494);
    Climb(49157, 16, 768, 30494, 1, 18916, 30224, 18583, 5645, 648, 12289, 49155, 1);
  }
  lemma Prime49157() ensures IsPrime(49157) {
    hide Power, IsPrime;
    Prime12289(); Power49157A(); Power49157B();
    OneFactor(49157, 2, [12289], 12289, 4, 16, 22940);
  }

  lemma Power52103A() ensures Power(2, 218, 52103) == 9963 {
    hide Power;
    Start(52103, 2);
    Climb(52103, 2, 0, 1, 13, 0, 2, 0, 8, 0, 64, 0, 8192);
    Climb(52103, 2, 13, 8192, 10, 2576, 400, 3, 3691, 522, 49196, 46451, 9963);
  }
  lemma Power52103B() ensures Power(9963, 239, 52103) == 1 {
    hide Power;
    Start(52103, 9963);
    Climb(52103, 9963, 0, 1, 14, 0, 9963, 18980500, 27847, 148280564, 13775, 3641, 43602);
    Climb(52103, 9963, 14, 43602, 15, 363529970, 40142, 308123919, 22275, 94877411, 6542, 8183677, 1);
  }
  lemma Prime52103() ensures IsPrime(52103) {
    hide Power, IsPrime;
    Prime239(); Power52103A(); Power52103B();
    OneFactor(52103, 2, [239], 239, 218, 9963, 33834);
  }

  lemma Power98317A() ensures Power(2, 36, 98317) == 23050 {
    hide Power;
    Start(98317, 2);
    Climb(98317, 2, 0, 1, 2, 0, 1, 0, 1, 0, 2, 0, 4);
    Climb(98317, 2, 2, 4, 4, 0, 16, 0, 512, 2, 65510, 43650, 23050);
  }
  lemma Power98317B() ensures Power(23050, 2731, 98317) == 1 {
    hide Power;
    Start(98317, 23050);
    Climb(98317, 23050, 0, 1, 10, 0, 23050, 5403, 95749, 2149368131, 37523, 14320, 76089);
    Climb(98317, 23050, 10, 76089, 10, 1357331926, 10508, 1123, 8073, 15279608, 13714, 1912, 91692);
    Climb(98317, 23050, 170, 91692, 11, 1971084319, 24077, 5896, 24897, 145323667, 69011, 1116551997, 1);
  }
  lemma Prime98317() ensures IsPrime(98317) {
    hide Power, IsPrime;
    Prime2731(); Power98317A(); Power98317B();
    OneFactor(98317, 2, [2731], 2731, 36, 23050, 35353);
  }

  lemma Power174763A() ensures Power(3, 2394, 174763) == 54387 {
    hide Power;
    Start(174763, 3);
    Climb(174763, 3, 0, 1, 9, 0, 3, 0, 9, 0, 81, 0, 19683);
    Climb(174763, 3, 9, 19683, 5, 2216, 145681, 364315, 78938, 35655, 33079, 18783, 87294);
    Climb(174763, 3, 149, 87294, 10, 130809, 154041, 135776, 8593, 1267, 94226, 50803, 54387);
  }
  lemma Power174763B() ensures Power(54387, 73, 174763) == 1 {
    hide Power;
    Start(174763, 54387);
    Climb(174763, 54387, 0, 1, 4, 0, 1, 0, 54387, 16925, 81994, 38469, 58189);
    Climb(174763, 54387, 4, 58189, 9, 1053725281, 62624, 22440, 83656, 40044, 116764, 4242907277, 1);
  }
  lemma Power174763C() ensures Power(3, 9198, 174763) == 174755 {
    hide Power;
    Start(174763, 3);
    Climb(174763, 3, 0, 1, 2, 0, 1, 0, 1, 0, 3, 0, 9);
    Climb(174763, 3, 2, 9, 3, 0, 81, 0, 6561, 738, 165069, 467738, 28189);
    Climb(174763, 3, 35, 28189, 14, 13640, 91843, 144798, 77073, 101970, 158877, 144435, 7224);
    Climb(174763, 3, 574, 7224, 14, 895, 145643, 364125, 72972, 91408, 2048, 23, 174755);
  }
  lemma Prime174763() ensures IsPrime(174763) {
    hide Power, IsPrime;
    Prime73(); Prime19(); Power174763A(); Power174763B(); Power174763C();
    TwoFactors(174763, 3, 73, 19, 126, 54387, 30736, 174755, 19418);
  }

  lemma Power196613A() ensures Power(2, 988, 196613) == 182973 {
    hide Power;
    Start(196613, 2);
    Climb(196613, 2, 0, 1, 3, 0, 1, 0, 1, 0, 2, 0, 8);
    Climb(196613, 2, 3, 8, 13, 0, 128, 0, 32768, 5461, 38231, 14867, 173251);
    Climb(196613, 2, 61, 173251, 12, 305329, 167325, 284799, 125463, 80060, 127589, 82796, 182973);
  }
  lemma Power196613B() ensures Power(182973, 199, 196613) == 1 {
    hide Power;
    Start(196613, 182973);
    Climb(196613, 182973, 0, 1, 12, 0, 182973, 31156509443, 84758, 36538, 72770, 26933, 94971);
    Climb(196613, 182973, 12, 94971, 7, 45874, 66079, 4063513462, 74287, 5135709136, 94669, 8340466804, 1);
  }
  lemma Power196613C() ensures Power(2, 10348, 196613) == 39406 {
    hide Power;
    Start(196613, 2);
    Climb(196613, 2, 0, 1, 2, 0, 1, 0, 1, 0, 2, 0, 4);
    Climb(196613, 2, 2, 4, 8, 0, 32, 0, 1024, 5, 65511, 21828, 22557);
    Climb(196613, 2, 40, 22557, 6, 2587, 180418, 331113, 189179, 364052, 32206, 5275, 92861);
    Climb(196613, 2, 646, 92861, 12, 87717, 28121, 8044, 26310, 3520, 138340, 97338, 39406);
  }
  lemma Prime196613() ensures IsPrime(196613) {
    hide Power, IsPrime;
    Prime199(); Prime19(); Power196613A(); Power196613B(); Power196613C();
    TwoFactors(196613, 2, 199, 19, 52, 182973, 3661, 39406, 94966);
  }

  lemma Power312619A() ensures Power(2, 6, 312619) == 64 {
    hide Power;
    Start(312619, 2);
    Climb(312619, 2, 0, 1, 6, 0, 1, 0, 2, 0, 8, 0, 64);
  }
  lemma Power312619B() ensures Power(64, 52103, 312619) == 1 {
    hide Power;
    Start(312619, 64);
    Climb(312619, 64, 0, 1, 12, 0, 64, 0, 262144, 219818, 193394, 119638, 127314);
    Climb(312619, 64, 12, 127314, 11, 3318309, 252873, 204545, 100774, 2079034, 10818, 23958, 137934);
    Climb(312619, 64, 203, 137934, 8, 3894998, 75022, 18003, 220627, 155704, 244353, 190994, 35323);
    Climb(312619, 64, 3256, 35323, 7, 3991, 51900, 551441, 106021, 2301168, 117232, 2813565, 1);
  }
  lemma Prime312619() ensures IsPrime(312619) {
    hide Power, IsPrime;
    Prime52103(); Power312619A(); Power312619B();
    OneFactor(312619, 2, [52103], 52103, 6, 64, 143904);
  }

  lemma Power393241A() ensures Power(2, 3480, 393241) == 221573 {
    hide Power;
    Start(393241, 2);
    Climb(393241, 2, 0, 1, 13, 0, 2, 0, 8, 0, 64, 0, 8192);
    Climb(393241, 2, 13, 8192, 9, 341, 122547, 38189, 286660, 208965, 350035, 623152, 86818);
    Climb(393241, 2, 217, 86818, 8, 38334, 229754, 134235, 194881, 96578, 174863, 77756, 221573);
  }
  lemma Power393241B() ensures Power(221573, 113, 393241) == 1 {
    hide Power;
    Start(393241, 221573);
    Climb(393241, 221573, 0, 1, 7, 0, 1, 0, 221573, 27662518784, 120573, 8191400865, 248052);
    Climb(393241, 221573, 7, 248052, 1, 156468, 161916, 66668, 200068, 101787, 382957, 82633865836, 1);
  }
  lemma Power393241C() ensures Power(2, 13560, 393241) == 1341 {
    hide Power;
    Start(393241, 2);
    Climb(393241, 2, 0, 1, 3, 0, 1, 0, 1, 0, 2, 0, 8);
    Climb(393241, 2, 3, 8, 4, 0, 64, 0, 8192, 170, 257894, 169131, 71665);
    Climb(393241, 2, 52, 71665, 15, 26120, 289530, 426342, 87378, 38830, 281738, 403703, 29865);
    Climb(393241, 2, 847, 29865, 8, 4536, 95274, 23082, 346314, 304986, 386970, 380799, 1341);
  }
  lemma Prime393241() ensures IsPrime(393241) {
    hide Power, IsPrime;
    Prime113(); Prime29(); Power393241A(); Power393241B(); Power393241C();
    TwoFactors(393241, 2, 113, 29, 120, 221573, 217160, 1341, 381209);
  }

  lemma Power786433A() ensures Power(5, 393216, 786433) == 786432 {
    hide Power;
    Start(786433, 5);
    Climb(786433, 5, 0, 1, 6, 0, 1, 0, 5, 0, 125, 0, 15625);
    Climb(786433, 5, 6, 15625, 0, 310, 346395, 152574, 267483, 90976, 626681, 499380, 164221);
    Climb(786433, 5, 96, 164221, 0, 34292, 176405, 39569, 356648, 161740, 122484, 19076, 334348);
    Climb(786433, 5, 1536, 334348, 0, 142146, 279886, 99609, 368299, 172480, 189561, 45691, 462518);
    Climb(786433, 5, 24576, 462518, 0, 272016, 541396, 372707, 544685, 377249, 686408, 599104, 786432);
  }
  lemma Power786433B() ensures Power(786432, 2, 786433) == 1 {
    hide Power;
    Start(786433, 786432);
    Climb(786433, 786432, 0, 1, 2, 0, 1, 0, 1, 0, 786432, 786431, 1);
  }
  lemma Prime786433() ensures IsPrime(786433) {
    hide Power, IsPrime;
    Prime2(); Power786433A(); Power786433B();
    OneFactor(786433, 5, [2, 2, 2, 2, 2, 2, 2, 2, 2, 2], 2, 768, 786432, 393216);
  }

  lemma Power1572869A() ensures Power(2, 44, 1572869) == 174941 {
    hide Power;
    Start(1572869, 2);
    Climb(1572869, 2, 0, 1, 2, 0, 1, 0, 1, 0, 2, 0, 4);
    Climb(1572869, 2, 2, 4, 12, 0, 32, 0, 2048, 2, 1048566, 699035, 174941);
  }
  lemma Power1572869B() ensures Power(174941, 35747, 1572869) == 1 {
    hide Power;
    Start(1572869, 174941);
    Climb(1572869, 174941, 0, 1, 8, 0, 174941, 19457, 1041348, 689444, 562268, 200999, 207693);
    Climb(1572869, 174941, 8, 207693, 11, 4797806967, 643986, 263669, 1171835, 152732683475, 968950, 104424351268,
          904608);
    Climb(1572869, 174941, 139, 904608, 10, 91016451636, 550140, 192421, 993751, 109838402834, 1114195, 789277,
          1172312);
    Climb(1572869, 174941, 2234, 1172312, 3, 873763, 689297, 302078, 1232427, 168935709588, 1297617, 187280303692, 1);
  }
  lemma Prime1572869() ensures IsPrime(1572869) {
    hide Power, IsPrime;
    Prime35747(); Power1572869A(); Power1572869B();
    OneFactor(1572869, 2, [35747], 35747, 44, 174941, 1325718);
  }

  lemma Power3145739A() ensures Power(2, 2, 3145739) == 4 {
    hide Power;
    Start(3145739, 2);
    Climb(3145739, 2, 0, 1, 2, 0, 1, 0, 1, 0, 2, 0, 4);
  }
  lemma Power3145739B() ensures Power(4, 1572869, 3145739) == 1 {
    hide Power;
    Start(3145739, 4);
    Climb(3145739, 4, 0, 1, 1, 0, 1, 0, 1, 0, 1, 0, 4);
    Climb(3145739, 4, 1, 4, 8, 0, 64, 0, 4096, 5, 1048521, 349487, 1401548);
    Climb(3145739, 4, 24, 1401548, 0, 624443, 2097927, 1399129, 3035998, 2930085, 1198189, 456381, 1369162);
    Climb(3145739, 4, 384, 1369162, 0, 595918, 2088842, 1387038, 1369882, 596545, 1822169, 1055491, 661712);
    Climb(3145739, 4, 6144, 661712, 0, 139192, 1068056, 362631, 1139827, 413004, 2799973, 2492212, 316061);
    Climb(3145739, 4, 98304, 316061, 5, 31755, 1613776, 3311492, 2380116, 1800833, 1572869, 3145737, 1);
  }
  lemma Prime3145739() ensures IsPrime(3145739) {
    hide Power, IsPrime;
    Prime1572869(); Power3145739A(); Power3145739B();
    OneFactor(3145739, 2, [1572869], 1572869, 2, 4, 1048580);
  }

  lemma Power5921371A() ensures Power(2, 24570, 5921371) == 5456595 {
    hide Power;
    Start(5921371, 2);
    Climb(5921371, 2, 0, 1, 5, 0, 1, 0, 2, 0, 4, 0, 32);
    Climb(5921371, 2, 5, 32, 15, 0, 2048, 1, 2467237, 2056030, 411208, 57112, 2697976);
    Climb(5921371, 2, 95, 2697976, 15, 2458577, 2444085, 2017624, 2731946, 2520878, 4010094, 5431463, 281899);
    Climb(5921371, 2, 1535, 281899, 10, 26840, 4494762, 3411859, 2497955, 2107545, 2519855, 1072330, 5456595);
  }
  lemma Power5921371B() ensures Power(5456595, 241, 5921371) == 1 {
    hide Power;
    Start(5921371, 5456595);
    Climb(5921371, 5456595, 0, 1, 15, 0, 5456595, 27437395896432, 396603, 144947736664, 2925011, 7884142326063,
          1505622);
    Climb(5921371, 5456595, 15, 1505622, 1, 382833, 1382841, 322940, 1680541, 476953, 2390118, 5264269729649, 1);
  }
  lemma Power5921371C() ensures Power(2, 455490, 5921371) == 4889651 {
    hide Power;
    Start(5921371, 2);
    Climb(5921371, 2, 0, 1, 6, 0, 1, 0, 2, 0, 8, 0, 64);
    Climb(5921371, 2, 6, 64, 15, 0, 8192, 22, 3947566, 5263401, 4605941, 7165466, 2417076);
    Climb(5921371, 2, 111, 2417076, 3, 986639, 827707, 115699, 2174520, 1597108, 5465732, 10090307, 1340751);
    Climb(5921371, 2, 1779, 1340751, 4, 303580, 3435821, 3987206, 5908656, 5895968, 1794208, 543654, 5317630);
    Climb(5921371, 2, 28468, 5317630, 2, 4775446, 1360434, 312559, 2869967, 2782028, 1241790, 260419, 4889651);
  }
  lemma Prime5921371() ensures IsPrime(5921371) {
    hide Power, IsPrime;
    Prime241(); Prime13(); Power5921371A(); Power5921371B(); Power5921371C();
    TwoFactors(5921371, 2, 241, 13, 1890, 5456595, 4692906, 4889651, 1332003);
  }

  lemma Power6291469A() ensures Power(2, 36, 6291469) == 4052318 {
    hide Power;
    Start(6291469, 2);
    Climb(6291469, 2, 0, 1, 2, 0, 1, 0, 1, 0, 2, 0, 4);
    Climb(6291469, 2, 2, 4, 4, 0, 16, 0, 512, 0, 262144, 10922, 4052318);
  }
  lemma Power6291469B() ensures Power(4052318, 174763, 6291469) == 1 {
    hide Power;
    Start(6291469, 4052318);
    Climb(6291469, 4052318, 0, 1, 2, 0, 1, 0, 1, 0, 4052318, 2610086, 6016790);
    Climb(6291469, 4052318, 2, 6016790, 10, 23317455970250, 5906550, 5545180, 4833080, 15045250582828, 5580868,
          4950527, 479261);
    Climb(6291469, 4052318, 42, 479261, 10, 147943414133, 2107101, 705697, 3825308, 9425063287261, 18343, 53, 3017792);
    Climb(6291469, 4052318, 682, 3017792, 10, 5865837983741, 1296423, 267141, 3274800, 6907502027628, 4014468,
          2561556, 3157260);
    Climb(6291469, 4052318, 10922, 3157260, 11, 6420548819940, 1124940, 201143, 5054533, 16455592732489, 483961,
          150859334833, 1);
  }
  lemma Prime6291469() ensures IsPrime(6291469) {
    hide Power, IsPrime;
    Prime174763(); Power6291469A(); Power6291469B();
    OneFactor(6291469, 2, [174763], 174763, 36, 4052318, 5534018);
  }

  lemma Power6710887A() ensures Power(2, 27846, 6710887) == 4521135 {
    hide Power;
    Start(6710887, 2);
    Climb(6710887, 2, 0, 1, 6, 0, 1, 0, 2, 0, 8, 0, 64);
    Climb(6710887, 2, 6, 64, 12, 0, 8192, 19, 6710875, 6710863, 144, 0, 20736);
    Climb(6710887, 2, 108, 20736, 12, 128, 969856, 280326, 5212310, 4048373, 1799249, 482394, 5340523);
    Climb(6710887, 2, 1740, 5340523, 6, 4249987, 3405060, 3455410, 1158530, 400004, 1878252, 525687, 4521135);
  }
  lemma Power6710887B() ensures Power(4521135, 241, 6710887) == 1 {
    hide Power;
    Start(6710887, 4521135);
    Climb(6710887, 4521135, 0, 1, 15, 0, 4521135, 13770905542261, 5839868, 22975957042590, 2978910, 5978363444973,
          1972449);
    Climb(6710887, 4521135, 15, 1972449, 1, 579737, 5560882, 4607946, 3709822, 2050813, 4970553, 16644738135122, 1);
  }
  lemma Power6710887C() ensures Power(2, 394758, 6710887) == 5873722 {
    hide Power;
    Start(6710887, 2);
    Climb(6710887, 2, 0, 1, 6, 0, 1, 0, 2, 0, 8, 0, 64);
    Climb(6710887, 2, 6, 64, 0, 0, 4096, 2, 3355442, 1677720, 1677724, 419431, 3774879);
    Climb(6710887, 2, 96, 3774879, 6, 2123372, 1913677, 1091408, 3561762, 3780766, 3689846, 2028787, 3199647);
    Climb(6710887, 2, 1542, 3199647, 0, 1525542, 948855, 134158, 6632879, 6555777, 5184442, 4005199, 949851);
    Climb(6710887, 2, 24672, 949851, 6, 134440, 5273921, 8289289, 3639139, 3946820, 2293302, 783686, 5873722);
  }
  lemma Prime6710887() ensures IsPrime(6710887) {
    hide Power, IsPrime;
    Prime241(); Prime17(); Power6710887A(); Power6710887B(); Power6710887C();
    TwoFactors(6710887, 2, 241, 17, 1638, 4521135, 4647176, 5873722, 4545031);
  }

  lemma Power12582917A() ensures Power(2, 2908, 12582917) == 4551950 {
    hide Power;
    Start(12582917, 2);
    Climb(12582917, 2, 0, 1, 11, 0, 2, 0, 4, 0, 32, 0, 2048);
    Climb(12582917, 2, 11, 2048, 5, 0, 4194304, 2796201, 6990515, 3883622, 6679851, 7092220, 3158662);
    Climb(12582917, 2, 181, 3158662, 12, 1585823, 12074797, 23174391, 6703871, 3571658, 10218255, 8297975, 4551950);
  }
  lemma Power12582917B() ensures Power(4551950, 4327, 12582917) == 1 {
    hide Power;
    Start(12582917, 4551950);
    Climb(12582917, 4551950, 0, 1, 1, 0, 1, 0, 1, 0, 1, 0, 4551950);
    Climb(12582917, 4551950, 1, 4551950, 0, 1646696, 9710268, 7493437, 8816095, 6176908, 10368389, 8543606, 5276619);
    Climb(12582917, 4551950, 16, 5276619, 14, 10072276166529, 8728857, 27563280743024, 204542, 15134955464, 12031312,
          11503888, 560048);
    Climb(12582917, 4551950, 270, 560048, 7, 24926, 11973162, 51860161920495, 3591885, 4667249289333, 1414389,
          723692199097, 1);
  }
  lemma Prime12582917() ensures IsPrime(12582917) {
    hide Power, IsPrime;
    Prime4327(); Power12582917A(); Power12582917B();
    OneFactor(12582917, 2, [4327], 4327, 2908, 4551950, 7274069);
  }

  lemma Power22605091A() ensures Power(2, 124890, 22605091) == 13954217 {
    hide Power;
    Start(22605091, 2);
    Climb(22605091, 2, 0, 1, 1, 0, 1, 0, 1, 0, 1, 0, 2);
    Climb(22605091, 2, 1, 2, 14, 0, 8, 0, 128, 0, 32768, 47, 11302547);
    Climb(22605091, 2, 30, 11302547, 7, 5651274, 5651275, 2825638, 14128192, 17660252, 14834796, 19470938, 19377874);
    Climb(22605091, 2, 487, 19377874, 13, 33222781, 13741681, 16707191, 20502141, 18594828, 6514533, 3754830, 6576648);
    Climb(22605091, 2, 7805, 6576648, 10, 3826775, 720283, 22950, 20761639, 38137042, 3051820, 412013, 13954217);
  }
  lemma Power22605091B() ensures Power(13954217, 181, 22605091) == 1 {
    hide Power;
    Start(22605091, 13954217);
    Climb(22605091, 13954217, 0, 1, 11, 0, 13954217, 8613996, 8629453, 45969073224695, 8652108, 46210756305187,
          18624071);
    Climb(22605091, 13954217, 11, 18624071, 5, 15344155, 519936, 166877963078, 122734, 666, 8644150, 46125788323489, 1);
  }
  lemma Prime22605091() ensures IsPrime(22605091) {
    hide Power, IsPrime;
    Prime181(); Power22605091A(); Power22605091B();
    OneFactor(22605091, 2, [181, 181], 181, 690, 13954217, 19569746);
  }

  lemma Power25165843A() ensures Power(2, 1482, 25165843) == 12979417 {
    hide Power;
    Start(25165843, 2);
    Climb(25165843, 2, 0, 1, 5, 0, 1, 0, 2, 0, 4, 0, 32);
    Climb(25165843, 2, 5, 32, 12, 0, 2048, 0, 8388608, 2796200, 13981064, 7767280, 1555056);
    Climb(25165843, 2, 92, 1555056, 10, 192181, 1452689, 83855, 23565956, 44135559, 15876635, 10016256, 12979417);
  }
  lemma Power25165843B() ensures Power(12979417, 16981, 25165843) == 1 {
    hide Power;
    Start(25165843, 12979417);
    Climb(25165843, 12979417, 0, 1, 4, 0, 1, 0, 12979417, 6694203, 3951760, 620539, 20048223);
    Climb(25165843, 12979417, 4, 20048223, 2, 15971300, 17151829, 11689862, 6261575, 20221383998544, 18763033,
          13989255, 12342124);
    Climb(25165843, 12979417, 66, 12342124, 5, 6052967, 7625195, 29987869452673, 6433086, 1644474, 20981814,
          227054319429423, 7343943);
    Climb(25165843, 12979417, 1061, 7343943, 5, 2143123, 1839560, 1745306145159, 2127163, 179800, 3857169,
          7673279859752, 1);
  }
  lemma Prime25165843() ensures IsPrime(25165843) {
    hide Power, IsPrime;
    Prime16981(); Power25165843A(); Power25165843B();
    OneFactor(25165843, 2, [16981], 16981, 1482, 12979417, 15038212);
  }

  lemma Power50331653A() ensures Power(2, 8764, 50331653) == 47381548 {
    hide Power;
    Start(50331653, 2);
    Climb(50331653, 2, 0, 1, 2, 0, 1, 0, 1, 0, 2, 0, 4);
    Climb(50331653, 2, 2, 4, 2, 0, 16, 0, 256, 0, 131072, 341, 16775511);
    Climb(50331653, 2, 34, 16775511, 3, 5591268, 8505117, 1437207, 11170518, 4958329, 50088811, 99694281, 17410949);
    Climb(50331653, 2, 547, 17410949, 12, 12045745, 32694717, 42476034, 35315976, 24779996, 819188, 13332, 47381548);
  }
  lemma Power50331653B() ensures Power(47381548, 5743, 50331653) == 1 {
    hide Power;
    Start(50331653, 47381548);
    Climb(50331653, 47381548, 0, 1, 1, 0, 1, 0, 1, 0, 1, 0, 47381548);
    Climb(50331653, 47381548, 1, 47381548, 6, 44604358, 21732530, 444619624178570, 37716990, 1339189713809351,
          29147597, 16879684, 13036757);
    Climb(50331653, 47381548, 22, 13036757, 6, 3376742, 26462523, 659220263698686, 21230934, 424332457097643,
          49813209, 49300105, 13154116);
    Climb(50331653, 47381548, 358, 13154116, 15, 162888860956318, 3320234, 10377803344222, 23263322, 509461670958965,
          40659687, 1556310020877487, 1);
  }
  lemma Power50331653C() ensures Power(2, 160804, 50331653) == 50281560 {
    hide Power;
    Start(50331653, 2);
    Climb(50331653, 2, 0, 1, 2, 0, 1, 0, 1, 0, 2, 0, 4);
    Climb(50331653, 2, 2, 4, 7, 0, 16, 0, 512, 0, 524288, 10922, 33499822);
    Climb(50331653, 2, 39, 33499822, 4, 22296865, 1863839, 138040, 10255722, 2089735, 16859329, 5647280, 36976401);
    Climb(50331653, 2, 628, 36976401, 2, 27164898, 10996407, 2402483, 26215250, 27308434, 41063598, 33502159, 39166777);
    Climb(50331653, 2, 10050, 39166777, 4, 30478562, 14044743, 7838200, 49327498, 48343376, 33259476, 21978072,
          50281560);
  }
  lemma Prime50331653() ensures IsPrime(50331653) {
    hide Power, IsPrime;
    Prime5743(); Prime313(); Power50331653A(); Power50331653B(); Power50331653C();
    TwoFactors(50331653, 2, 5743, 313, 28, 47381548, 30092760, 50281560, 35283600);
  }

  lemma Power100663319A() ensures Power(2, 322, 100663319) == 37769703 {
    hide Power;
    Start(100663319, 2);
    Climb(100663319, 2, 0, 1, 1, 0, 1, 0, 1, 0, 1, 0, 2);
    Climb(100663319, 2, 1, 2, 4, 0, 4, 0, 32, 0, 1024, 0, 1048576);
    Climb(100663319, 2, 20, 1048576, 2, 10922, 66857658, 44404918, 7442122, 1100404, 40844892, 16573119, 37769703);
  }
  lemma Power100663319B() ensures Power(37769703, 312619, 100663319) == 1 {
    hide Power;
    Start(100663319, 37769703);
    Climb(100663319, 37769703, 0, 1, 4, 0, 1, 0, 37769703, 14171502, 38173071, 14475812, 68431013);
    Climb(100663319, 37769703, 4, 68431013, 12, 1757026299926943, 21993990, 181501563603164, 42188984, 17681816,
          86444952, 74234883, 17925627);
    Climb(100663319, 37769703, 76, 17925627, 5, 3192107, 18119996, 123193705719038, 10868126, 1173378, 38830294,
          565735825859974, 34074802);
    Climb(100663319, 37769703, 1221, 34074802, 2, 11534411, 37369095, 13872473, 86201138, 2788035650717900, 94141832,
          88042840, 43730264);
    Climb(100663319, 37769703, 19538, 43730264, 11, 717524149586130, 11374818, 1285338, 95416302, 3415997041514316,
          76009608, 2167750573505689, 1);
  }
  lemma Prime100663319() ensures IsPrime(100663319) {
    hide Power, IsPrime;
    Prime312619(); Power100663319A(); Power100663319B();
    OneFactor(100663319, 2, [312619], 312619, 322, 37769703, 68677938);
  }

  lemma Power201326611A() ensures Power(2, 30, 201326611) == 67108769 {
    hide Power;
    Start(201326611, 2);
    Climb(201326611, 2, 0, 1, 1, 0, 1, 0, 1, 0, 1, 0, 2);
    Climb(201326611, 2, 1, 2, 14, 0, 8, 0, 128, 0, 32768, 5, 67108769);
  }
  lemma Power201326611B() ensures Power(67108769, 6710887, 201326611) == 1 {
    hide Power;
    Start(201326611, 67108769);
    Climb(201326611, 67108769, 0, 1, 6, 0, 1, 0, 67108769, 1501193358783456, 185372993, 170683579, 20357280);
    Climb(201326611, 67108769, 6, 20357280, 6, 2058440, 99851560, 3323439659795606, 199567134, 13275660278257226,
          159379078, 126171549, 139339645);
    Climb(201326611, 67108769, 102, 139339645, 6, 96438004, 151801581, 7681228399482216, 100100433, 3340027185533297,
          38724574, 7448556, 95157760);
    Climb(201326611, 67108769, 1638, 95157760, 6, 44976663, 152338507, 7735661890918210, 29384371, 287813318427663,
          17265836, 1480723, 149359143);
    Climb(201326611, 67108769, 26214, 149359143, 6, 110805787, 21796592, 158363568477975, 59542091, 1181751749121606,
          12094823, 726604, 22542285);
    Climb(201326611, 67108769, 419430, 22542285, 7, 2524031, 5732284, 10953010079988, 57655796, 1108061930972679,
          116557835, 4528569461883784, 1);
  }
  lemma Prime201326611() ensures IsPrime(201326611) {
    hide Power, IsPrime;
    Prime6710887(); Power201326611A(); Power201326611B();
    OneFactor(201326611, 2, [6710887], 6710887, 30, 67108769, 101646986);
  }

  lemma Power402653189A() ensures Power(2, 369068, 402653189) == 275234938 {
    hide Power;
    Start(402653189, 2);
    Climb(402653189, 2, 0, 1, 5, 0, 1, 0, 2, 0, 4, 0, 32);
    Climb(402653189, 2, 5, 32, 10, 0, 2048, 0, 4194304, 87381, 133780823, 44448446, 74563035);
    Climb(402653189, 2, 90, 74563035, 1, 13807530, 201698055, 101035100, 174849125, 75926920, 44317745, 9755603,
          385202083);
    Climb(402653189, 2, 1441, 385202083, 10, 737014625, 399188653, 395753926, 320784395, 511122876, 158780486,
          62612797, 350136563);
    Climb(402653189, 2, 23066, 350136563, 12, 608938988, 74273206, 27400796, 368498428, 337240819, 207149393,
          106570299, 275234938);
  }
  lemma Power402653189B() ensures Power(275234938, 1091, 402653189) == 1 {
    hide Power;
    Start(402653189, 275234938);
    Climb(402653189, 275234938, 0, 1, 4, 0, 1, 0, 275234938, 188137765, 47281259, 5551967, 234852318);
    Climb(402653189, 275234938, 4, 234852318, 4, 136980440, 273349964, 51075245278090172, 353521140, 310384221,
          25968831, 1674841, 113788612);
    Climb(402653189, 275234938, 68, 113788612, 3, 32156328, 205156552, 104529684, 220766428, 33314897429557404,
          252569236, 43604701710557523, 1);
  }
  lemma Power402653189C() ensures Power(2, 1496852, 402653189) == 341376420 {
    hide Power;
    Start(402653189, 2);
    Climb(402653189, 2, 0, 1, 1, 0, 1, 0, 1, 0, 1, 0, 2);
    Climb(402653189, 2, 1, 2, 6, 0, 4, 0, 32, 0, 2048, 0, 4194304);
    Climb(402653189, 2, 22, 4194304, 13, 87381, 133780823, 88896892, 149126070, 55230122, 1485842, 10965, 360680543);
    Climb(402653189, 2, 365, 360680543, 7, 323083133, 284213712, 401225850, 165902238, 136710962, 326259470,
          528719228, 289543708);
    Climb(402653189, 2, 5847, 289543708, 1, 208207860, 38523724, 3685745, 332737371, 274961582, 215206643, 230043622,
          375248340);
    Climb(402653189, 2, 93553, 375248340, 4, 349708683, 241815513, 290447183, 183889751, 83981553, 390219484,
          378169724, 341376420);
  }
  lemma Prime402653189() ensures IsPrime(402653189) {
    hide Power, IsPrime;
    Prime1091(); Prime269(); Power402653189A(); Power402653189B(); Power402653189C();
    TwoFactors(402653189, 2, 1091, 269, 1372, 275234938, 183744784, 341376420, 125189287);
  }

  lemma Power805306457A() ensures Power(2, 136, 805306457) == 456105428 {
    hide Power;
    Start(805306457, 2);
    Climb(805306457, 2, 0, 1, 8, 0, 2, 0, 4, 0, 16, 0, 256);
    Climb(805306457, 2, 8, 256, 8, 0, 131072, 21, 268433587, 89477229, 361518916, 162293404, 456105428);
  }
  lemma Power805306457B() ensures Power(456105428, 5921371, 805306457) == 1 {
    hide Power;
    Start(805306457, 456105428);
    Climb(805306457, 456105428, 0, 1, 5, 0, 1, 0, 456105428, 258326702, 314948370, 56180136419140332, 326929476);
    Climb(805306457, 456105428, 5, 326929476, 10, 60535790248996020, 440777388, 241255616, 419790032,
          99808678014777782, 274899898, 93839995, 22062689);
    Climb(805306457, 456105428, 90, 22062689, 5, 604443, 395122270, 88423372657613123, 274505989, 93571257, 545161672,
          168327351065772352, 716273088);
    Climb(805306457, 456105428, 1445, 716273088, 10, 290577061422903941, 566931395, 399116639, 153808002,
          13398677088142292, 413338268, 212153425, 766074599);
    Climb(805306457, 456105428, 23130, 766074599, 5, 728753986, 742723199, 312433819485065879, 390685525, 189536763,
          361746934, 74116307972083026, 390833486);
    Climb(805306457, 456105428, 370085, 390833486, 11, 86514239008490955, 643403453, 514050272, 68116905,
          2627930486408980, 482263840, 131726592951158807, 1);
  }
  lemma Prime805306457() ensures IsPrime(805306457) {
    hide Power, IsPrime;
    Prime5921371(); Power805306457A(); Power805306457B();
    OneFactor(805306457, 2, [5921371], 5921371, 136, 456105428, 633581941);
  }

  lemma Power1610612741A() ensures Power(2, 307780, 1610612741) == 1492572786 {
    hide Power;
    Start(1610612741, 2);
    Climb(1610612741, 2, 0, 1, 4, 0, 1, 0, 2, 0, 4, 0, 16);
    Climb(1610612741, 2, 4, 16, 11, 0, 512, 0, 262144, 85, 536870487, 357913373, 895148945);
    Climb(1610612741, 2, 75, 895148945, 2, 497507323, 570010682, 201732029, 1418923635, 2500097299, 414139891,
          106488571, 94008770);
    Climb(1610612741, 2, 1202, 94008770, 4, 5487134, 904938606, 1016897308, 705045244, 308633343, 1553796373,
          1498984273, 95532836);
    Climb(1610612741, 2, 19236, 95532836, 4, 5666491, 152841065, 29008079, 671333911, 279824695, 1045116926,
          678170090, 1492572786);
  }
  lemma Power1610612741B() ensures Power(1492572786, 5233, 1610612741) == 1 {
    hide Power;
    Start(1610612741, 1492572786);
    Climb(1610612741, 1492572786, 0, 1, 1, 0, 1, 0, 1, 0, 1, 0, 1492572786);
    Climb(1610612741, 1492572786, 1, 1492572786, 4, 1383183843, 826658133, 633280731680339398, 564949636, 198165631,
          1099627925, 750758728, 706052177);
    Climb(1610612741, 1492572786, 20, 706052177, 7, 309515542, 1163718707, 1254990447214561189, 135072265,
          16907397125794495, 966996055, 866550332432194324, 1580555566);
    Climb(1610612741, 1492572786, 327, 1580555566, 1, 1551059316, 817235200, 414670364, 545532276, 184777790,
          1329917786, 1639056698382156955, 1);
  }
  lemma Power1610612741C() ensures Power(2, 1151260, 1610612741) == 1080352817 {
    hide Power;
    Start(1610612741, 2);
    Climb(1610612741, 2, 0, 1, 1, 0, 1, 0, 1, 0, 1, 0, 2);
    Climb(1610612741, 2, 1, 2, 1, 0, 4, 0, 16, 0, 256, 0, 131072);
    Climb(1610612741, 2, 17, 131072, 9, 21, 536870807, 178956900, 178968349, 19886636, 626556525, 487482892,
          1165424278);
    Climb(1610612741, 2, 281, 1165424278, 1, 843290080, 544912004, 184357843, 1264218353, 992322985, 1233880724,
          1890537187, 1401028785);
    Climb(1610612741, 2, 4497, 1401028785, 1, 1218717328, 244300177, 37055820, 662028709, 272121286, 1211301755,
          1821979802, 386302768);
    Climb(1610612741, 2, 71953, 386302768, 12, 185308143, 1002073685, 1246918821, 243660089, 36861895, 1227083726,
          934882999, 1080352817);
  }
  lemma Prime1610612741() ensures IsPrime(1610612741) {
    hide Power, IsPrime;
    Prime5233(); Prime1399(); Power1610612741A(); Power1610612741B(); Power1610612741C();
    TwoFactors(1610612741, 2, 5233, 1399, 220, 1492572786, 290964600, 1080352817, 446570089);
  }

  lemma Power3221225473Half() ensures Power(5, 24576, 3221225473) == 1800384970 {
    hide Power;
    Start(3221225473, 5);
    Climb(3221225473, 5, 0, 1, 6, 0, 1, 0, 5, 0, 125, 0, 15625);
    Climb(3221225473, 5, 6, 15625, 0, 0, 244140625, 18503717, 229807484, 16394841, 247425463, 19004990, 1838654099);
    Climb(3221225473, 5, 96, 1838654099, 0, 1049491544, 538601489, 90056274, 140749519, 6149965, 3182672916,
          3144581767, 448192265);
    Climb(3221225473, 5, 1536, 448192265, 0, 62360212, 3009749949, 2812157929, 511777184, 81309392, 1358427440,
          572864310, 1800384970);
  }
  lemma Power3221225473A() ensures Power(5, 1610612736, 3221225473) == 3221225472 {
    hide Power;
    Power3221225473Half();
    Climb(3221225473, 5, 24576, 1800384970, 0, 1006258663, 2519378301, 1970451021, 1405588668, 613331640, 1445148504,
          648341513, 1734477367);
    Climb(3221225473, 5, 393216, 1734477367, 0, 933933921, 211283056, 13858244, 1168849724, 424127304, 1855261384,
          1068535820, 764652596);
    Climb(3221225473, 5, 6291456, 764652596, 0, 181512780, 1958494276, 1190757946, 1292405718, 518533258, 651814490,
          131894564, 66931328);
    Climb(3221225473, 5, 100663296, 66931328, 0, 1390713, 2526611335, 1981781434, 1031213943, 330123490, 1013946479,
          319160353, 3221225472);
  }
  lemma Power3221225473B() ensures Power(3221225472, 2, 3221225473) == 1 {
    hide Power;
    Start(3221225473, 3221225472);
    Climb(3221225473, 3221225472, 0, 1, 2, 0, 1, 0, 1, 0, 3221225472, 3221225471, 1);
  }
  lemma Prime3221225473() ensures IsPrime(3221225473) {
    hide Power, IsPrime;
    Prime2(); Power3221225473A(); Power3221225473B();
    ProductConcat([2, 2, 2, 2, 2, 2, 2, 2], [2, 2, 2, 2, 2, 2, 2, 2]);
    assert Product([2, 2, 2, 2, 2, 2, 2, 2]) == 256;
    OneFactor(3221225473, 5, [2, 2, 2, 2, 2, 2, 2, 2] + [2, 2, 2, 2, 2, 2, 2, 2], 2, 49152, 3221225472, 1610612736);
  }

  lemma Power4294967291A() ensures Power(2, 190, 4294967291) == 1073745729 {
    hide Power;
    Start(4294967291, 2);
    Climb(4294967291, 2, 0, 1, 11, 0, 2, 0, 4, 0, 32, 0, 2048);
    Climb(4294967291, 2, 11, 2048, 14, 0, 8388608, 32768, 163840, 12, 2147483708, 1073741885, 1073745729);
  }
  lemma Power4294967291B() ensures Power(1073745729, 22605091, 4294967291) == 1 {
    hide Power;
    Start(4294967291, 1073745729);
    Climb(4294967291, 1073745729, 0, 1, 1, 0, 1, 0, 1, 0, 1, 0, 1073745729);
    Climb(4294967291, 1073745729, 1, 1073745729, 5, 268437408, 3504919713, 3071126721297293695, 2762101756,
          1776312971, 1474251975, 543356698160813817, 4065820878);
    Climb(4294967291, 1073745729, 21, 4065820878, 8, 4132739887760620961, 1820247785, 771438237, 3855700258,
          3461359184, 1858816020, 804475741, 2210652769);
    Climb(4294967291, 1073745729, 344, 2210652769, 14, 1221750860959417051, 3255072328, 2648883601675193906,
          2036108090, 1036437809065933574, 2579436866, 1549137419, 1810740027);
    Climb(4294967291, 1073745729, 5518, 1810740027, 13, 819697843377527508, 3638735613, 3310111257399430197,
          2142344274, 1068608601, 164317185, 6750058878062893, 3827152162);
    Climb(4294967291, 1073745729, 88301, 3827152162, 2, 3410292251, 305512203, 21731878, 999910711,
          249956266825425717, 3852027162, 3454767464, 894754220);
    Climb(4294967291, 1073745729, 1412818, 894754220, 3, 186400747, 2824842023, 1857926245, 3541280234,
          3135177829598793928, 4191888076, 4392997392001035133, 1);
  }
  lemma Prime4294967291() ensures IsPrime(4294967291) {
    hide Power, IsPrime;
    Prime22605091(); Power4294967291A(); Power4294967291B();
    OneFactor(4294967291, 2, [22605091], 22605091, 190, 1073745729, 1771216906);
  }
}
