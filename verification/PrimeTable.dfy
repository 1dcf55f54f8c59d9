/** The schedule of bucket counts, and a primality certificate for every size the model uses. */
module PrimeTable {
  import opened Primes

  /** __ac_prime_list: the bucket counts, smallest first. */
  function Size(t: nat): nat
    requires t < 32
  {
    match t
    case 0 => 0
    case 1 => 3
    case 2 => 11
    case 3 => 23
    case 4 => 53
    case 5 => 97
    case 6 => 193
    case 7 => 389
    case 8 => 769
    case 9 => 1543
    case 10 => 3079
    case 11 => 6151
    case 12 => 12289
    case 13 => 24593
    case 14 => 49157
    case 15 => 98317
    case 16 => 196613
    case 17 => 393241
    case 18 => 786433
    case 19 => 1572869
    case 20 => 3145739
    case 21 => 6291469
    case 22 => 12582917
    case 23 => 25165843
    case 24 => 50331653
    case 25 => 100663319
    case 26 => 201326611
    case 27 => 402653189
    case 28 => 805306457
    case 29 => 1610612741
    case 30 => 3221225473
    case _ => 4294967291
  }

  /** The last entry the model uses. With the two above it the sum of a bucket index and a
      stride no longer fits in 32 bits. */
  const LARGEST: nat := 29

  lemma Prime3()
    ensures IsPrime(3)
  {
  }

  lemma Prime11()
    ensures IsPrime(11)
  {
  }

  lemma Prime23()
    ensures IsPrime(23)
  {
  }

  lemma Prime53()
    ensures IsPrime(53)
  {
  }

  lemma Prime97()
    ensures IsPrime(97)
  {
  }

  lemma Prime193()
    ensures IsPrime(193)
  {
  }

  lemma Prime389()
    ensures IsPrime(389)
  {
  }

  lemma Prime769()
    ensures IsPrime(769)
  {
  }

  lemma Prime1543()
    ensures IsPrime(1543)
  {
  }

  lemma Prime3079()
    ensures IsPrime(3079)
  {
    Prime3();
    hide IsPower, Fermat, Certifies;
    PowerZero(3079, 2);
    Nibble(3079, 2, 0, 1, true, 2, true, 8, false, 64, false, 12, 1017);
    Nibble(3079, 2, 12, 1017, false, 2824, false, 366, false, 1559, false, 192, 1150);
    Nibble(3079, 2, 192, 1150, false, 1609, true, 1963, true, 1, false, 3078, 1);
    var top := Power(3078, 1);
    CertifyFermat(3079, 2, top);
    PowerZero(3079, 2);
    Nibble(3079, 2, 0, 1, false, 1, true, 2, false, 4, false, 4, 16);
    Nibble(3079, 2, 4, 16, false, 256, false, 877, false, 2458, false, 64, 766);
    Nibble(3079, 2, 64, 766, false, 1746, false, 306, true, 2532, false, 1026, 546);
    var w := Power(1026, 546);
    Certify(3079, 2, 3, 1026, 546, 1870, w);
    PocklingtonOne(3079, 2, 3, 4, 81, top, w, 1870);
  }

  lemma Prime41()
    ensures IsPrime(41)
  {
  }

  lemma Prime5()
    ensures IsPrime(5)
  {
  }

  lemma Prime6151()
    ensures IsPrime(6151)
  {
    Prime41();
    Prime5();
    hide IsPower, Fermat, Certifies;
    PowerZero(6151, 2);
    Nibble(6151, 2, 0, 1, false, 1, false, 1, false, 1, true, 1, 2);
    Nibble(6151, 2, 1, 2, true, 8, false, 64, false, 4096, false, 24, 3439);
    Nibble(6151, 2, 24, 3439, false, 4499, false, 4211, false, 5339, false, 384, 1187);
    Nibble(6151, 2, 384, 1187, false, 390, true, 2801, true, 1, false, 6150, 1);
    var top := Power(6150, 1);
    CertifyFermat(6151, 2, top);
    PowerZero(6151, 2);
    Nibble(6151, 2, 0, 1, true, 2, false, 4, false, 16, true, 9, 512);
    Nibble(6151, 2, 9, 512, false, 3802, true, 708, true, 6066, false, 150, 1074);
    var w := Power(150, 1074);
    PowerZero(6151, 2);
    Nibble(6151, 2, 0, 1, false, 1, true, 2, false, 4, false, 4, 16);
    Nibble(6151, 2, 4, 16, true, 512, true, 1453, false, 1416, false, 76, 5981);
    Nibble(6151, 2, 76, 5981, true, 2441, true, 2475, true, 4609, false, 1230, 3478);
    var x := Power(1230, 3478);
    Certify(6151, 2, 41, 150, 1074, 4265, w);
    Certify(6151, 2, 5, 1230, 3478, 5385, x);
    PocklingtonTwo(6151, 2, top, 41, w, 4265, 5, x, 5385, 205);
  }

  lemma Prime2()
    ensures IsPrime(2)
  {
  }

  lemma Prime12289()
    ensures IsPrime(12289)
  {
    Prime2();
    hide IsPower, Fermat, Certifies;
    PowerZero(12289, 11);
    Nibble(12289, 11, 0, 1, false, 1, false, 1, true, 11, true, 3, 1331);
    Nibble(12289, 11, 3, 1331, false, 1945, false, 10302, false, 3400, false, 48, 8340);
    Nibble(12289, 11, 48, 8340, false, 12149, false, 7311, false, 5860, false, 768, 4134);
    Nibble(12289, 11, 768, 4134, false, 8246, false, 1479, false, 12288, false, 12288, 1);
    var top := Power(12288, 1);
    CertifyFermat(12289, 11, top);
    PowerZero(12289, 11);
    Nibble(12289, 11, 0, 1, false, 1, false, 1, false, 1, true, 1, 11);
    Nibble(12289, 11, 1, 11, true, 1331, false, 1945, false, 10302, false, 24, 3400);
    Nibble(12289, 11, 24, 3400, false, 8340, false, 12149, false, 7311, false, 384, 5860);
    Nibble(12289, 11, 384, 5860, false, 4134, false, 8246, false, 1479, false, 6144, 12288);
    var w := Power(6144, 12288);
    Certify(12289, 11, 2, 6144, 12288, 6144, w);
    PocklingtonOne(12289, 11, 2, 7, 128, top, w, 6144);
  }

  lemma Prime29()
    ensures IsPrime(29)
  {
  }

  lemma Prime24593()
    ensures IsPrime(24593)
  {
    Prime53();
    Prime29();
    hide IsPower, Fermat, Certifies;
    PowerZero(24593, 2);
    Nibble(24593, 2, 0, 1, false, 1, true, 2, true, 8, false, 6, 64);
    Nibble(24593, 2, 6, 64, false, 4096, false, 4790, false, 23424, false, 96, 13946);
    Nibble(24593, 2, 96, 13946, false, 9472, false, 3520, false, 20121, true, 1537, 9350);
    Nibble(24593, 2, 1537, 9350, false, 18978, false, 24592, false, 1, false, 24592, 1);
    var top := Power(24592, 1);
    CertifyFermat(24593, 2, top);
    PowerZero(24593, 2);
    Nibble(24593, 2, 0, 1, false, 1, false, 1, false, 1, true, 1, 2);
    Nibble(24593, 2, 1, 2, true, 8, true, 128, false, 16384, true, 29, 5722);
    Nibble(24593, 2, 29, 5722, false, 8001, false, 422, false, 5933, false, 464, 7906);
    var w := Power(464, 7906);
    PowerZero(24593, 2);
    Nibble(24593, 2, 0, 1, false, 1, false, 1, true, 2, true, 3, 8);
    Nibble(24593, 2, 3, 8, false, 64, true, 8192, false, 19160, true, 53, 11778);
    Nibble(24593, 2, 53, 11778, false, 16764, false, 7485, false, 2371, false, 848, 14437);
    var x := Power(848, 14437);
    Certify(24593, 2, 53, 464, 7906, 8207, w);
    Certify(24593, 2, 29, 848, 14437, 23501, x);
    PocklingtonTwo(24593, 2, top, 53, w, 8207, 29, x, 23501, 1537);
  }

  lemma Prime49157()
    ensures IsPrime(49157)
  {
    Prime12289();
    hide IsPower, Fermat, Certifies;
    PowerZero(49157, 2);
    Nibble(49157, 2, 0, 1, true, 2, true, 8, false, 64, false, 12, 4096);
    Nibble(49157, 2, 12, 4096, false, 14679, false, 17910, false, 18675, false, 192, 35867);
    Nibble(49157, 2, 192, 35867, false, 2999, false, 47427, false, 43480, false, 3072, 30494);
    Nibble(49157, 2, 3072, 30494, false, 30224, true, 11290, false, 49156, false, 49156, 1);
    var top := Power(49156, 1);
    CertifyFermat(49157, 2, top);
    PowerZero(49157, 2);
    Nibble(49157, 2, 0, 1, false, 1, true, 2, false, 4, false, 4, 16);
    var w := Power(4, 16);
    Certify(49157, 2, 12289, 4, 16, 22940, w);
    PocklingtonOne(49157, 2, 12289, 1, 12289, top, w, 22940);
  }

  lemma Prime13()
    ensures IsPrime(13)
  {
  }

  lemma Prime7()
    ensures IsPrime(7)
  {
  }

  lemma Prime2731()
    ensures IsPrime(2731)
  {
    Prime13();
    Prime7();
    hide IsPower, Fermat, Certifies;
    PowerZero(2731, 3);
    Nibble(2731, 3, 0, 1, true, 3, false, 9, true, 243, false, 10, 1698);
    Nibble(2731, 3, 10, 1698, true, 535, false, 2201, true, 1552, false, 170, 2693);
    Nibble(2731, 3, 170, 2693, true, 1601, false, 1523, true, 2730, false, 2730, 1);
    var top := Power(2730, 1);
    CertifyFermat(2731, 3, top);
    PowerZero(2731, 3);
    Nibble(2731, 3, 0, 1, true, 3, true, 27, false, 729, true, 13, 2150);
    Nibble(2731, 3, 13, 2150, false, 1648, false, 1290, true, 32, false, 210, 1024);
    var w := Power(210, 1024);
    PowerZero(2731, 3);
    Nibble(2731, 3, 0, 1, false, 1, false, 1, false, 1, true, 1, 3);
    Nibble(2731, 3, 1, 3, true, 27, false, 729, false, 1627, false, 24, 790);
    Nibble(2731, 3, 24, 790, false, 1432, true, 1660, true, 63, false, 390, 1238);
    var x := Power(390, 1238);
    Certify(2731, 3, 13, 210, 1024, 606, w);
    Certify(2731, 3, 7, 390, 1238, 967, x);
    PocklingtonTwo(2731, 3, top, 13, w, 606, 7, x, 967, 91);
  }

  lemma Prime98317()
    ensures IsPrime(98317)
  {
    Prime2731();
    hide IsPower, Fermat, Certifies;
    PowerZero(98317, 2);
    Nibble(98317, 2, 0, 1, false, 1, false, 1, false, 1, true, 1, 2);
    Nibble(98317, 2, 1, 2, true, 8, false, 64, false, 4096, false, 24, 63326);
    Nibble(98317, 2, 24, 63326, false, 28480, false, 93467, false, 24737, false, 384, 92478);
    Nibble(98317, 2, 384, 92478, false, 76239, false, 80715, false, 33537, false, 6144, 82206);
    Nibble(98317, 2, 6144, 82206, true, 14882, true, 29763, false, 98316, false, 98316, 1);
    var top := Power(98316, 1);
    CertifyFermat(98317, 2, top);
    PowerZero(98317, 2);
    Nibble(98317, 2, 0, 1, false, 1, false, 1, true, 2, false, 2, 4);
    Nibble(98317, 2, 2, 4, false, 16, true, 512, false, 65510, false, 36, 23050);
    var w := Power(36, 23050);
    Certify(98317, 2, 2731, 36, 23050, 35353, w);
    PocklingtonOne(98317, 2, 2731, 1, 2731, top, w, 35353);
  }

  lemma Prime199()
    ensures IsPrime(199)
  {
  }

  lemma Prime19()
    ensures IsPrime(19)
  {
  }

  lemma Prime196613()
    ensures IsPrime(196613)
  {
    Prime199();
    Prime19();
    hide IsPower, Fermat, Certifies;
    PowerZero(196613, 2);
    Nibble(196613, 2, 0, 1, false, 1, false, 1, true, 2, true, 3, 8);
    Nibble(196613, 2, 3, 8, false, 64, false, 4096, false, 65111, false, 48, 72815);
    Nibble(196613, 2, 48, 72815, false, 158067, false, 186288, false, 41379, false, 768, 115637);
    Nibble(196613, 2, 768, 115637, false, 69026, false, 65847, false, 117533, false, 12288, 173322);
    Nibble(196613, 2, 12288, 173322, false, 15414, true, 165784, false, 196612, false, 196612, 1);
    var top := Power(196612, 1);
    CertifyFermat(196613, 2, top);
    PowerZero(196613, 2);
    Nibble(196613, 2, 0, 1, false, 1, false, 1, true, 2, true, 3, 8);
    Nibble(196613, 2, 3, 8, true, 128, true, 32768, false, 38231, true, 61, 173251);
    Nibble(196613, 2, 61, 173251, true, 167325, true, 125463, false, 127589, false, 988, 182973);
    var w := Power(988, 182973);
    PowerZero(196613, 2);
    Nibble(196613, 2, 0, 1, false, 1, false, 1, true, 2, false, 2, 4);
    Nibble(196613, 2, 2, 4, true, 32, false, 1024, false, 65511, false, 40, 22557);
    Nibble(196613, 2, 40, 22557, false, 180418, true, 189179, true, 32206, false, 646, 92861);
    Nibble(196613, 2, 646, 92861, true, 28121, true, 26310, false, 138340, false, 10348, 39406);
    var x := Power(10348, 39406);
    Certify(196613, 2, 199, 988, 182973, 3661, w);
    Certify(196613, 2, 19, 10348, 39406, 94966, x);
    PocklingtonTwo(196613, 2, top, 199, w, 3661, 19, x, 94966, 3781);
  }

  lemma Prime113()
    ensures IsPrime(113)
  {
  }

  lemma Prime393241()
    ensures IsPrime(393241)
  {
    Prime113();
    Prime29();
    hide IsPower, Fermat, Certifies;
    PowerZero(393241, 2);
    Nibble(393241, 2, 0, 1, false, 1, true, 2, true, 8, false, 6, 64);
    Nibble(393241, 2, 6, 64, false, 4096, false, 261094, false, 176522, false, 96, 386126);
    Nibble(393241, 2, 96, 386126, false, 288377, false, 260413, false, 126878, false, 1536, 313308);
    Nibble(393241, 2, 1536, 313308, false, 297962, false, 119356, false, 306270, true, 24577, 321653);
    Nibble(393241, 2, 24577, 321653, true, 250064, false, 393240, false, 1, false, 393240, 1);
    var top := Power(393240, 1);
    CertifyFermat(393241, 2, top);
    PowerZero(393241, 2);
    Nibble(393241, 2, 0, 1, true, 2, true, 8, false, 64, true, 13, 8192);
    Nibble(393241, 2, 13, 8192, true, 122547, false, 286660, false, 350035, true, 217, 86818);
    Nibble(393241, 2, 217, 86818, true, 229754, false, 194881, false, 174863, false, 3480, 221573);
    var w := Power(3480, 221573);
    PowerZero(393241, 2);
    Nibble(393241, 2, 0, 1, false, 1, false, 1, true, 2, true, 3, 8);
    Nibble(393241, 2, 3, 8, false, 64, true, 8192, false, 257894, false, 52, 71665);
    Nibble(393241, 2, 52, 71665, true, 289530, true, 87378, true, 281738, true, 847, 29865);
    Nibble(393241, 2, 847, 29865, true, 95274, false, 346314, false, 386970, false, 13560, 1341);
    var x := Power(13560, 1341);
    Certify(393241, 2, 113, 3480, 221573, 217160, w);
    Certify(393241, 2, 29, 13560, 1341, 381209, x);
    PocklingtonTwo(393241, 2, top, 113, w, 217160, 29, x, 381209, 3277);
  }

  lemma Prime786433()
    ensures IsPrime(786433)
  {
    Prime2();
    hide IsPower, Fermat, Certifies;
    PowerZero(786433, 5);
    Nibble(786433, 5, 0, 1, true, 5, true, 125, false, 15625, false, 12, 346395);
    Nibble(786433, 5, 12, 346395, false, 267483, false, 626681, false, 164221, false, 192, 176405);
    Nibble(786433, 5, 192, 176405, false, 356648, false, 122484, false, 334348, false, 3072, 279886);
    Nibble(786433, 5, 3072, 279886, false, 368299, false, 189561, false, 462518, false, 49152, 541396);
    Nibble(786433, 5, 49152, 541396, false, 544685, false, 686408, false, 786432, false, 786432, 1);
    var top := Power(786432, 1);
    CertifyFermat(786433, 5, top);
    PowerZero(786433, 5);
    Nibble(786433, 5, 0, 1, false, 1, true, 5, true, 125, false, 6, 15625);
    Nibble(786433, 5, 6, 15625, false, 346395, false, 267483, false, 626681, false, 96, 164221);
    Nibble(786433, 5, 96, 164221, false, 176405, false, 356648, false, 122484, false, 1536, 334348);
    Nibble(786433, 5, 1536, 334348, false, 279886, false, 368299, false, 189561, false, 24576, 462518);
    Nibble(786433, 5, 24576, 462518, false, 541396, false, 544685, false, 686408, false, 393216, 786432);
    var w := Power(393216, 786432);
    Certify(786433, 5, 2, 393216, 786432, 393216, w);
    PocklingtonOne(786433, 5, 2, 10, 1024, top, w, 393216);
  }

  lemma Prime293()
    ensures IsPrime(293)
  {
  }

  lemma Prime35747()
    ensures IsPrime(35747)
  {
    Prime293();
    hide IsPower, Fermat, Certifies;
    PowerZero(35747, 2);
    Nibble(35747, 2, 0, 1, true, 2, false, 4, false, 16, false, 8, 256);
    Nibble(35747, 2, 8, 256, true, 23831, false, 3972, true, 24714, true, 139, 17108);
    Nibble(35747, 2, 139, 17108, true, 10203, false, 5945, true, 14231, false, 2234, 14606);
    Nibble(35747, 2, 2234, 14606, false, 32887, false, 29284, true, 35746, false, 35746, 1);
    var top := Power(35746, 1);
    CertifyFermat(35747, 2, top);
    PowerZero(35747, 2);
    Nibble(35747, 2, 0, 1, false, 1, true, 2, true, 8, true, 7, 128);
    Nibble(35747, 2, 7, 128, true, 32768, false, 9185, true, 2610, false, 122, 20170);
    var w := Power(122, 20170);
    Certify(35747, 2, 293, 122, 20170, 911, w);
    PocklingtonOne(35747, 2, 293, 1, 293, top, w, 911);
  }

  lemma Prime1572869()
    ensures IsPrime(1572869)
  {
    Prime35747();
    hide IsPower, Fermat, Certifies;
    PowerZero(1572869, 2);
    Nibble(1572869, 2, 0, 1, false, 1, false, 1, false, 1, true, 1, 2);
    Nibble(1572869, 2, 1, 2, true, 8, false, 64, false, 4096, false, 24, 1048526);
    Nibble(1572869, 2, 24, 1048526, false, 1226187, false, 770227, false, 1193585, false, 384, 181047);
    Nibble(1572869, 2, 384, 181047, false, 999118, false, 1311253, false, 1109790, false, 6144, 346519);
    Nibble(1572869, 2, 6144, 346519, false, 1025032, false, 1526072, false, 525561, false, 98304, 1266762);
    Nibble(1572869, 2, 98304, 1266762, false, 970512, true, 1204713, false, 1572868, false, 1572868, 1);
    var top := Power(1572868, 1);
    CertifyFermat(1572869, 2, top);
    PowerZero(1572869, 2);
    Nibble(1572869, 2, 0, 1, false, 1, false, 1, true, 2, false, 2, 4);
    Nibble(1572869, 2, 2, 4, true, 32, true, 2048, false, 1048566, false, 44, 174941);
    var w := Power(44, 174941);
    Certify(1572869, 2, 35747, 44, 174941, 1325718, w);
    PocklingtonOne(1572869, 2, 35747, 1, 35747, top, w, 1325718);
  }

  lemma Prime3145739()
    ensures IsPrime(3145739)
  {
    Prime1572869();
    hide IsPower, Fermat, Certifies;
    PowerZero(3145739, 2);
    Nibble(3145739, 2, 0, 1, false, 1, false, 1, true, 2, true, 3, 8);
    Nibble(3145739, 2, 3, 8, false, 64, false, 4096, false, 1048521, false, 48, 1401548);
    Nibble(3145739, 2, 48, 1401548, false, 2097927, false, 3035998, false, 1198189, false, 768, 1369162);
    Nibble(3145739, 2, 768, 1369162, false, 2088842, false, 1369882, false, 1822169, false, 12288, 661712);
    Nibble(3145739, 2, 12288, 661712, false, 1068056, false, 1139827, false, 2799973, false, 196608, 316061);
    Nibble(3145739, 2, 196608, 316061, true, 81813, false, 2380116, true, 3145738, false, 3145738, 1);
    var top := Power(3145738, 1);
    CertifyFermat(3145739, 2, top);
    PowerZero(3145739, 2);
    Nibble(3145739, 2, 0, 1, false, 1, false, 1, true, 2, false, 2, 4);
    var w := Power(2, 4);
    Certify(3145739, 2, 1572869, 2, 4, 1048580, w);
    PocklingtonOne(3145739, 2, 1572869, 1, 1572869, top, w, 1048580);
  }

  lemma Prime73()
    ensures IsPrime(73)
  {
  }

  lemma Prime174763()
    ensures IsPrime(174763)
  {
    Prime73();
    Prime19();
    hide IsPower, Fermat, Certifies;
    PowerZero(174763, 3);
    Nibble(174763, 3, 0, 1, false, 1, false, 1, true, 3, false, 2, 9);
    Nibble(174763, 3, 2, 9, true, 243, false, 59049, true, 88601, false, 42, 132767);
    Nibble(174763, 3, 42, 132767, true, 42223, false, 24366, true, 96135, false, 682, 121259);
    Nibble(174763, 3, 682, 121259, true, 5465, false, 156515, true, 23204, false, 10922, 155576);
    Nibble(174763, 3, 10922, 155576, true, 95510, false, 55789, true, 174762, false, 174762, 1);
    var top := Power(174762, 1);
    CertifyFermat(174763, 3, top);
    PowerZero(174763, 3);
    Nibble(174763, 3, 0, 1, true, 3, false, 9, false, 81, true, 9, 19683);
    Nibble(174763, 3, 9, 19683, false, 145681, true, 78938, false, 33079, true, 149, 87294);
    Nibble(174763, 3, 149, 87294, true, 154041, false, 8593, true, 94226, false, 2394, 54387);
    var w := Power(2394, 54387);
    PowerZero(174763, 3);
    Nibble(174763, 3, 0, 1, false, 1, false, 1, true, 3, false, 2, 9);
    Nibble(174763, 3, 2, 9, false, 81, false, 6561, true, 165069, true, 35, 28189);
    Nibble(174763, 3, 35, 28189, true, 91843, true, 77073, true, 158877, false, 574, 7224);
    Nibble(174763, 3, 574, 7224, true, 145643, true, 72972, true, 2048, false, 9198, 174755);
    var x := Power(9198, 174755);
    Certify(174763, 3, 73, 2394, 54387, 30736, w);
    Certify(174763, 3, 19, 9198, 174755, 19418, x);
    PocklingtonTwo(174763, 3, top, 73, w, 30736, 19, x, 19418, 1387);
  }

  lemma Prime6291469()
    ensures IsPrime(6291469)
  {
    Prime174763();
    hide IsPower, Fermat, Certifies;
    PowerZero(6291469, 2);
    Nibble(6291469, 2, 0, 1, false, 1, true, 2, true, 8, false, 6, 64);
    Nibble(6291469, 2, 6, 64, false, 4096, false, 4194278, false, 1399306, false, 96, 1133580);
    Nibble(6291469, 2, 96, 1133580, false, 2530495, false, 4420046, false, 2328451, false, 1536, 4357182);
    Nibble(6291469, 2, 1536, 4357182, false, 5081697, false, 1607328, false, 5926769, false, 24576, 4435340);
    Nibble(6291469, 2, 24576, 4435340, false, 148772, false, 6011511, false, 3652431, false, 393216, 3794762);
    Nibble(6291469, 2, 393216, 3794762, true, 4797864, true, 3304258, false, 6291468, false, 6291468, 1);
    var top := Power(6291468, 1);
    CertifyFermat(6291469, 2, top);
    PowerZero(6291469, 2);
    Nibble(6291469, 2, 0, 1, false, 1, false, 1, true, 2, false, 2, 4);
    Nibble(6291469, 2, 2, 4, false, 16, true, 512, false, 262144, false, 36, 4052318);
    var w := Power(36, 4052318);
    Certify(6291469, 2, 174763, 36, 4052318, 5534018, w);
    PocklingtonOne(6291469, 2, 174763, 1, 174763, top, w, 5534018);
  }

  lemma Prime103()
    ensures IsPrime(103)
  {
  }

  lemma Prime4327()
    ensures IsPrime(4327)
  {
    Prime103();
    hide IsPower, Fermat, Certifies;
    PowerZero(4327, 2);
    Nibble(4327, 2, 0, 1, false, 1, false, 1, false, 1, true, 1, 2);
    Nibble(4327, 2, 1, 2, false, 4, false, 16, false, 256, false, 16, 631);
    Nibble(4327, 2, 16, 631, true, 154, true, 4162, true, 2526, false, 270, 2678);
    Nibble(4327, 2, 270, 2678, false, 1845, true, 1679, true, 1, false, 4326, 1);
    var top := Power(4326, 1);
    CertifyFermat(4327, 2, top);
    PowerZero(4327, 2);
    Nibble(4327, 2, 0, 1, false, 1, false, 1, true, 2, false, 2, 4);
    Nibble(4327, 2, 2, 4, true, 32, false, 1024, true, 2884, false, 42, 962);
    var w := Power(42, 962);
    Certify(4327, 2, 103, 42, 962, 1729, w);
    PocklingtonOne(4327, 2, 103, 1, 103, top, w, 1729);
  }

  lemma Prime12582917()
    ensures IsPrime(12582917)
  {
    Prime4327();
    hide IsPower, Fermat, Certifies;
    PowerZero(12582917, 2);
    Nibble(12582917, 2, 0, 1, true, 2, true, 8, false, 64, false, 12, 4096);
    Nibble(12582917, 2, 12, 4096, false, 4194299, false, 5592452, false, 12274203, false, 192, 1320438);
    Nibble(12582917, 2, 192, 1320438, false, 4617739, false, 11590158, false, 875139, false, 3072, 9026116);
    Nibble(12582917, 2, 3072, 9026116, false, 6350552, false, 3428004, false, 71882, false, 49152, 8025954);
    Nibble(12582917, 2, 49152, 8025954, false, 9285344, false, 6979767, false, 6037476, false, 786432, 3932035);
    Nibble(12582917, 2, 786432, 3932035, false, 4882068, true, 2818780, false, 12582916, false, 12582916, 1);
    var top := Power(12582916, 1);
    CertifyFermat(12582917, 2, top);
    PowerZero(12582917, 2);
    Nibble(12582917, 2, 0, 1, true, 2, false, 4, true, 32, true, 11, 2048);
    Nibble(12582917, 2, 11, 2048, false, 4194304, true, 6990515, false, 6679851, true, 181, 3158662);
    Nibble(12582917, 2, 181, 3158662, true, 12074797, true, 6703871, false, 10218255, false, 2908, 4551950);
    var w := Power(2908, 4551950);
    Certify(12582917, 2, 4327, 2908, 4551950, 7274069, w);
    PocklingtonOne(12582917, 2, 4327, 1, 4327, top, w, 7274069);
  }

  lemma Prime283()
    ensures IsPrime(283)
  {
  }

  lemma Prime16981()
    ensures IsPrime(16981)
  {
    Prime283();
    hide IsPower, Fermat, Certifies;
    PowerZero(16981, 2);
    Nibble(16981, 2, 0, 1, false, 1, true, 2, false, 4, false, 4, 16);
    Nibble(16981, 2, 4, 16, false, 256, false, 14593, true, 10837, false, 66, 16954);
    Nibble(16981, 2, 66, 16954, false, 729, true, 10060, false, 13821, true, 1061, 1544);
    Nibble(16981, 2, 1061, 1544, false, 6596, true, 3788, false, 16980, false, 16980, 1);
    var top := Power(16980, 1);
    CertifyFermat(16981, 2, top);
    PowerZero(16981, 2);
    Nibble(16981, 2, 0, 1, false, 1, false, 1, true, 2, true, 3, 8);
    Nibble(16981, 2, 3, 8, true, 128, true, 15787, false, 16213, false, 60, 12470);
    var w := Power(60, 12470);
    Certify(16981, 2, 283, 60, 12470, 12875, w);
    PocklingtonOne(16981, 2, 283, 1, 283, top, w, 12875);
  }

  lemma Prime25165843()
    ensures IsPrime(25165843)
  {
    Prime16981();
    hide IsPower, Fermat, Certifies;
    PowerZero(25165843, 2);
    Nibble(25165843, 2, 0, 1, false, 1, false, 1, false, 1, true, 1, 2);
    Nibble(25165843, 2, 1, 2, true, 8, false, 64, false, 4096, false, 24, 16777216);
    Nibble(25165843, 2, 24, 16777216, false, 5592570, false, 24880896, false, 9783291, false, 384, 10259798);
    Nibble(25165843, 2, 384, 10259798, false, 18558834, false, 22487496, false, 19105259, false, 6144, 23265464);
    Nibble(25165843, 2, 6144, 23265464, false, 16043926, false, 19825969, false, 20427197, false, 98304, 14013863);
    Nibble(25165843, 2, 98304, 14013863, false, 6218031, false, 14302109, false, 9520482, true, 1572865, 24875308);
    Nibble(25165843, 2, 1572865, 24875308, false, 4348803, false, 6849995, true, 25165842, false, 25165842, 1);
    var top := Power(25165842, 1);
    CertifyFermat(25165843, 2, top);
    PowerZero(25165843, 2);
    Nibble(25165843, 2, 0, 1, false, 1, true, 2, false, 4, true, 5, 32);
    Nibble(25165843, 2, 5, 32, true, 2048, true, 8388608, false, 13981064, false, 92, 1555056);
    Nibble(25165843, 2, 92, 1555056, true, 1452689, false, 23565956, true, 15876635, false, 1482, 12979417);
    var w := Power(1482, 12979417);
    Certify(25165843, 2, 16981, 1482, 12979417, 15038212, w);
    PocklingtonOne(25165843, 2, 16981, 1, 16981, top, w, 15038212);
  }

  lemma Prime5743()
    ensures IsPrime(5743)
  {
    Prime29();
    Prime11();
    hide IsPower, Fermat, Certifies;
    PowerZero(5743, 2);
    Nibble(5743, 2, 0, 1, false, 1, false, 1, false, 1, true, 1, 2);
    Nibble(5743, 2, 1, 2, false, 4, true, 32, true, 2048, false, 22, 1914);
    Nibble(5743, 2, 22, 1914, false, 5105, true, 4325, true, 1348, false, 358, 2316);
    Nibble(5743, 2, 358, 2316, true, 5531, true, 3743, true, 1, false, 5742, 1);
    var top := Power(5742, 1);
    CertifyFermat(5743, 2, top);
    PowerZero(5743, 2);
    Nibble(5743, 2, 0, 1, true, 2, true, 8, false, 64, false, 12, 4096);
    Nibble(5743, 2, 12, 4096, false, 1913, true, 2556, true, 947, false, 198, 901);
    var w := Power(198, 901);
    PowerZero(5743, 2);
    Nibble(5743, 2, 0, 1, false, 1, false, 1, true, 2, false, 2, 4);
    Nibble(5743, 2, 2, 4, false, 16, false, 256, false, 2363, false, 32, 1573);
    Nibble(5743, 2, 32, 1573, true, 3935, false, 1097, true, 501, false, 522, 4052);
    var x := Power(522, 4052);
    Certify(5743, 2, 29, 198, 901, 3784, w);
    Certify(5743, 2, 11, 522, 4052, 4219, x);
    PocklingtonTwo(5743, 2, top, 29, w, 3784, 11, x, 4219, 319);
  }

  lemma Prime313()
    ensures IsPrime(313)
  {
  }

  lemma Prime50331653()
    ensures IsPrime(50331653)
  {
    Prime5743();
    Prime313();
    hide IsPower, Fermat, Certifies;
    PowerZero(50331653, 2);
    Nibble(50331653, 2, 0, 1, false, 1, false, 1, true, 2, true, 3, 8);
    Nibble(50331653, 2, 3, 8, false, 64, false, 4096, false, 16777216, false, 48, 39146844);
    Nibble(50331653, 2, 48, 39146844, false, 24855145, false, 24632728, false, 8914951, false, 768, 3667792);
    Nibble(50331653, 2, 768, 3667792, false, 3609771, false, 34695618, false, 39058602, false, 12288, 43163696);
    Nibble(50331653, 2, 12288, 43163696, false, 49538389, false, 21447890, false, 4386852, false, 196608, 11950395);
    Nibble(50331653, 2, 196608, 11950395, false, 2464071, false, 37928345, false, 30059266, false, 3145728, 657620);
    Nibble(50331653, 2, 3145728, 657620, false, 14501824, true, 29003647, false, 50331652, false, 50331652, 1);
    var top := Power(50331652, 1);
    CertifyFermat(50331653, 2, top);
    PowerZero(50331653, 2);
    Nibble(50331653, 2, 0, 1, false, 1, false, 1, true, 2, false, 2, 4);
    Nibble(50331653, 2, 2, 4, false, 16, false, 256, true, 131072, false, 34, 16775511);
    Nibble(50331653, 2, 34, 16775511, false, 8505117, false, 11170518, true, 50088811, true, 547, 17410949);
    Nibble(50331653, 2, 547, 17410949, true, 32694717, true, 35315976, false, 819188, false, 8764, 47381548);
    var w := Power(8764, 47381548);
    PowerZero(50331653, 2);
    Nibble(50331653, 2, 0, 1, false, 1, false, 1, true, 2, false, 2, 4);
    Nibble(50331653, 2, 2, 4, false, 16, true, 512, true, 524288, true, 39, 33499822);
    Nibble(50331653, 2, 39, 33499822, false, 1863839, true, 10255722, false, 16859329, false, 628, 36976401);
    Nibble(50331653, 2, 628, 36976401, false, 10996407, false, 26215250, true, 41063598, false, 10050, 39166777);
    Nibble(50331653, 2, 10050, 39166777, false, 14044743, true, 49327498, false, 33259476, false, 160804, 50281560);
    var x := Power(160804, 50281560);
    Certify(50331653, 2, 5743, 8764, 47381548, 30092760, w);
    Certify(50331653, 2, 313, 160804, 50281560, 35283600, x);
    PocklingtonTwo(50331653, 2, top, 5743, w, 30092760, 313, x, 35283600, 1797559);
  }

  lemma Prime239()
    ensures IsPrime(239)
  {
  }

  lemma Prime52103()
    ensures IsPrime(52103)
  {
    Prime239();
    hide IsPower, Fermat, Certifies;
    PowerZero(52103, 2);
    Nibble(52103, 2, 0, 1, true, 2, true, 8, false, 64, false, 12, 4096);
    Nibble(52103, 2, 12, 4096, true, 100, false, 10000, true, 28686, true, 203, 47834);
    Nibble(52103, 2, 203, 47834, true, 28725, false, 22517, false, 996, false, 3256, 2059);
    Nibble(52103, 2, 3256, 2059, false, 19138, true, 10011, true, 1, false, 52102, 1);
    var top := Power(52102, 1);
    CertifyFermat(52103, 2, top);
    PowerZero(52103, 2);
    Nibble(52103, 2, 0, 1, true, 2, true, 8, false, 64, true, 13, 8192);
    Nibble(52103, 2, 13, 8192, true, 400, false, 3691, true, 49196, false, 218, 9963);
    var w := Power(218, 9963);
    Certify(52103, 2, 239, 218, 9963, 33834, w);
    PocklingtonOne(52103, 2, 239, 1, 239, top, w, 33834);
  }

  lemma Prime312619()
    ensures IsPrime(312619)
  {
    Prime52103();
    hide IsPower, Fermat, Certifies;
    PowerZero(312619, 2);
    Nibble(312619, 2, 0, 1, false, 1, true, 2, false, 4, false, 4, 16);
    Nibble(312619, 2, 4, 16, true, 512, true, 211669, false, 148338, false, 76, 161310);
    Nibble(312619, 2, 76, 161310, false, 73635, true, 98578, false, 173088, true, 1221, 165615);
    Nibble(312619, 2, 1221, 165615, false, 75022, false, 220627, true, 176087, false, 19538, 141292);
    Nibble(312619, 2, 19538, 141292, true, 97705, false, 133241, true, 312618, false, 312618, 1);
    var top := Power(312618, 1);
    CertifyFermat(312619, 2, top);
    PowerZero(312619, 2);
    Nibble(312619, 2, 0, 1, false, 1, true, 2, true, 8, false, 6, 64);
    var w := Power(6, 64);
    Certify(312619, 2, 52103, 6, 64, 143904, w);
    PocklingtonOne(312619, 2, 52103, 1, 52103, top, w, 143904);
  }

  lemma Prime100663319()
    ensures IsPrime(100663319)
  {
    Prime312619();
    hide IsPower, Fermat, Certifies;
    PowerZero(100663319, 2);
    Nibble(100663319, 2, 0, 1, false, 1, true, 2, true, 8, false, 6, 64);
    Nibble(100663319, 2, 6, 64, false, 4096, false, 16777216, false, 2796218, false, 96, 13126837);
    Nibble(100663319, 2, 96, 13126837, false, 91436792, false, 46196447, false, 27597499, false, 1536, 58274793);
    Nibble(100663319, 2, 1536, 58274793, false, 42535108, false, 91299918, false, 57287156, false, 24576, 64952623);
    Nibble(100663319, 2, 24576, 64952623, false, 48736321, false, 59401135, false, 91166503, false, 393216, 12153168);
    Nibble(100663319, 2, 393216, 12153168, false, 29673646, false, 63076946, false, 42659551, true, 6291457, 17658912);
    Nibble(100663319, 2, 6291457, 17658912, false, 28169207, true, 85016646, true, 1, false, 100663318, 1);
    var top := Power(100663318, 1);
    CertifyFermat(100663319, 2, top);
    PowerZero(100663319, 2);
    Nibble(100663319, 2, 0, 1, false, 1, false, 1, false, 1, true, 1, 2);
    Nibble(100663319, 2, 1, 2, false, 4, true, 32, false, 1024, false, 20, 1048576);
    Nibble(100663319, 2, 20, 1048576, false, 66857658, false, 7442122, true, 40844892, false, 322, 37769703);
    var w := Power(322, 37769703);
    Certify(100663319, 2, 312619, 322, 37769703, 68677938, w);
    PocklingtonOne(100663319, 2, 312619, 1, 312619, top, w, 68677938);
  }

  lemma Prime241()
    ensures IsPrime(241)
  {
  }

  lemma Prime17()
    ensures IsPrime(17)
  {
  }

  lemma Prime6710887()
    ensures IsPrime(6710887)
  {
    Prime241();
    Prime17();
    hide IsPower, Fermat, Certifies;
    PowerZero(6710887, 2);
    Nibble(6710887, 2, 0, 1, false, 1, true, 2, true, 8, false, 6, 64);
    Nibble(6710887, 2, 6, 64, false, 4096, true, 6710884, true, 18, false, 102, 324);
    Nibble(6710887, 2, 102, 324, false, 104976, true, 1368244, true, 4946710, false, 1638, 5712452);
    Nibble(6710887, 2, 1638, 5712452, false, 3739810, true, 4924365, true, 6529212, false, 26214, 1663359);
    Nibble(6710887, 2, 26214, 1663359, false, 5381408, true, 1986762, true, 614420, false, 419430, 4409989);
    Nibble(6710887, 2, 419430, 4409989, false, 93635, true, 6189606, true, 1, false, 6710886, 1);
    var top := Power(6710886, 1);
    CertifyFermat(6710887, 2, top);
    PowerZero(6710887, 2);
    Nibble(6710887, 2, 0, 1, false, 1, true, 2, true, 8, false, 6, 64);
    Nibble(6710887, 2, 6, 64, true, 8192, true, 6710875, false, 144, false, 108, 20736);
    Nibble(6710887, 2, 108, 20736, true, 969856, true, 5212310, false, 1799249, false, 1740, 5340523);
    Nibble(6710887, 2, 1740, 5340523, false, 3405060, true, 1158530, true, 1878252, false, 27846, 4521135);
    var w := Power(27846, 4521135);
    PowerZero(6710887, 2);
    Nibble(6710887, 2, 0, 1, false, 1, true, 2, true, 8, false, 6, 64);
    Nibble(6710887, 2, 6, 64, false, 4096, false, 3355442, false, 1677724, false, 96, 3774879);
    Nibble(6710887, 2, 96, 3774879, false, 1913677, true, 3561762, true, 3689846, false, 1542, 3199647);
    Nibble(6710887, 2, 1542, 3199647, false, 948855, false, 6632879, false, 5184442, false, 24672, 949851);
    Nibble(6710887, 2, 24672, 949851, false, 5273921, true, 3639139, true, 2293302, false, 394758, 5873722);
    var x := Power(394758, 5873722);
    Certify(6710887, 2, 241, 27846, 4521135, 4647176, w);
    Certify(6710887, 2, 17, 394758, 5873722, 4545031, x);
    PocklingtonTwo(6710887, 2, top, 241, w, 4647176, 17, x, 4545031, 4097);
  }

  lemma Prime201326611()
    ensures IsPrime(201326611)
  {
    Prime6710887();
    hide IsPower, Fermat, Certifies;
    PowerZero(201326611, 2);
    Nibble(201326611, 2, 0, 1, true, 2, true, 8, false, 64, false, 12, 4096);
    Nibble(201326611, 2, 12, 4096, false, 16777216, false, 40544945, false, 186928114, false, 192, 34201926);
    Nibble(201326611, 2, 192, 34201926, false, 110337178, false, 2927113, false, 133930442, false, 3072, 175570346);
    Nibble(201326611, 2, 3072, 175570346, false, 111969066, false, 18757223, false, 62453404, false, 49152, 199192675);
    Nibble(201326611, 2, 49152, 199192675, false, 77564498, false, 180414564, false, 98380449, false, 786432, 144805510);
    Nibble(201326611, 2, 786432, 144805510, false, 99706470, false, 152405496, false, 170088839, true, 12582913, 49896433);
    Nibble(201326611, 2, 12582913, 49896433, false, 30804405, false, 61064002, true, 201326610, false, 201326610, 1);
    var top := Power(201326610, 1);
    CertifyFermat(201326611, 2, top);
    PowerZero(201326611, 2);
    Nibble(201326611, 2, 0, 1, false, 1, false, 1, false, 1, true, 1, 2);
    Nibble(201326611, 2, 1, 2, true, 8, true, 128, true, 32768, false, 30, 67108769);
    var w := Power(30, 67108769);
    Certify(201326611, 2, 6710887, 30, 67108769, 101646986, w);
    PocklingtonOne(201326611, 2, 6710887, 1, 6710887, top, w, 101646986);
  }

  lemma Prime1091()
    ensures IsPrime(1091)
  {
  }

  lemma Prime269()
    ensures IsPrime(269)
  {
  }

  lemma Prime402653189()
    ensures IsPrime(402653189)
  {
    Prime1091();
    Prime269();
    hide IsPower, Fermat, Certifies;
    PowerZero(402653189, 2);
    Nibble(402653189, 2, 0, 1, false, 1, false, 1, false, 1, true, 1, 2);
    Nibble(402653189, 2, 1, 2, true, 8, false, 64, false, 4096, false, 24, 16777216);
    Nibble(402653189, 2, 24, 16777216, false, 264940206, false, 342849161, false, 313542641, false, 384, 47459180);
    Nibble(402653189, 2, 384, 47459180, false, 278048530, false, 386457855, false, 153403767, false, 6144, 4306530);
    Nibble(402653189, 2, 6144, 4306530, false, 397408749, false, 119532577, false, 87529282, false, 98304, 370099054);
    Nibble(402653189, 2, 98304, 370099054, false, 189092706, false, 126203079, false, 77895422, false, 1572864, 302051841);
    Nibble(402653189, 2, 1572864, 302051841, false, 88001753, false, 21704587, false, 166531751, false, 25165824, 336274933);
    Nibble(402653189, 2, 25165824, 336274933, false, 83650136, true, 167300271, false, 402653188, false, 402653188, 1);
    var top := Power(402653188, 1);
    CertifyFermat(402653189, 2, top);
    PowerZero(402653189, 2);
    Nibble(402653189, 2, 0, 1, false, 1, true, 2, false, 4, true, 5, 32);
    Nibble(402653189, 2, 5, 32, true, 2048, false, 4194304, true, 133780823, false, 90, 74563035);
    Nibble(402653189, 2, 90, 74563035, false, 201698055, false, 174849125, false, 44317745, true, 1441, 385202083);
    Nibble(402653189, 2, 1441, 385202083, true, 399188653, false, 320784395, true, 158780486, false, 23066, 350136563);
    Nibble(402653189, 2, 23066, 350136563, true, 74273206, true, 368498428, false, 207149393, false, 369068, 275234938);
    var w := Power(369068, 275234938);
    PowerZero(402653189, 2);
    Nibble(402653189, 2, 0, 1, false, 1, false, 1, false, 1, true, 1, 2);
    Nibble(402653189, 2, 1, 2, false, 4, true, 32, true, 2048, false, 22, 4194304);
    Nibble(402653189, 2, 22, 4194304, true, 133780823, true, 149126070, false, 1485842, true, 365, 360680543);
    Nibble(402653189, 2, 365, 360680543, false, 284213712, true, 165902238, true, 326259470, true, 5847, 289543708);
    Nibble(402653189, 2, 5847, 289543708, false, 38523724, false, 332737371, false, 215206643, true, 93553, 375248340);
    Nibble(402653189, 2, 93553, 375248340, false, 241815513, true, 183889751, false, 390219484, false, 1496852, 341376420);
    var x := Power(1496852, 341376420);
    Certify(402653189, 2, 1091, 369068, 275234938, 183744784, w);
    Certify(402653189, 2, 269, 1496852, 341376420, 125189287, x);
    PocklingtonTwo(402653189, 2, top, 1091, w, 183744784, 269, x, 125189287, 293479);
  }

  lemma Prime5921371()
    ensures IsPrime(5921371)
  {
    Prime241();
    Prime13();
    hide IsPower, Fermat, Certifies;
    PowerZero(5921371, 2);
    Nibble(5921371, 2, 0, 1, false, 1, true, 2, false, 4, true, 5, 32);
    Nibble(5921371, 2, 5, 32, true, 2048, false, 4194304, true, 102802, false, 90, 4525340);
    Nibble(5921371, 2, 90, 4525340, false, 1715731, true, 499068, false, 4161622, true, 1445, 4695407);
    Nibble(5921371, 2, 1445, 4695407, true, 3313184, false, 2623781, true, 4644899, false, 23130, 3030085);
    Nibble(5921371, 2, 23130, 3030085, false, 3696320, true, 5083115, false, 1789079, true, 370085, 1305640);
    Nibble(5921371, 2, 370085, 1305640, true, 2388933, false, 1272802, true, 5921370, false, 5921370, 1);
    var top := Power(5921370, 1);
    CertifyFermat(5921371, 2, top);
    PowerZero(5921371, 2);
    Nibble(5921371, 2, 0, 1, false, 1, true, 2, false, 4, true, 5, 32);
    Nibble(5921371, 2, 5, 32, true, 2048, true, 2467237, true, 411208, true, 95, 2697976);
    Nibble(5921371, 2, 95, 2697976, true, 2444085, true, 2731946, true, 4010094, true, 1535, 281899);
    Nibble(5921371, 2, 1535, 281899, true, 4494762, false, 2497955, true, 2519855, false, 24570, 5456595);
    var w := Power(24570, 5456595);
    PowerZero(5921371, 2);
    Nibble(5921371, 2, 0, 1, false, 1, true, 2, true, 8, false, 6, 64);
    Nibble(5921371, 2, 6, 64, true, 8192, true, 3947566, true, 4605941, true, 111, 2417076);
    Nibble(5921371, 2, 111, 2417076, false, 827707, false, 2174520, true, 5465732, true, 1779, 1340751);
    Nibble(5921371, 2, 1779, 1340751, false, 3435821, true, 5908656, false, 1794208, false, 28468, 5317630);
    Nibble(5921371, 2, 28468, 5317630, false, 1360434, false, 2869967, true, 1241790, false, 455490, 4889651);
    var x := Power(455490, 4889651);
    Certify(5921371, 2, 241, 24570, 5456595, 4692906, w);
    Certify(5921371, 2, 13, 455490, 4889651, 1332003, x);
    PocklingtonTwo(5921371, 2, top, 241, w, 4692906, 13, x, 1332003, 3133);
  }

  lemma Prime805306457()
    ensures IsPrime(805306457)
  {
    Prime5921371();
    hide IsPower, Fermat, Certifies;
    PowerZero(805306457, 2);
    Nibble(805306457, 2, 0, 1, false, 1, false, 1, true, 2, true, 3, 8);
    Nibble(805306457, 2, 3, 8, false, 64, false, 4096, false, 16777216, false, 48, 237327731);
    Nibble(805306457, 2, 48, 237327731, false, 12358252, false, 22925454, false, 429703179, false, 768, 589815007);
    Nibble(805306457, 2, 768, 589815007, false, 15078046, false, 599995989, false, 463368408, false, 12288, 637537342);
    Nibble(805306457, 2, 12288, 637537342, false, 589597405, false, 630183352, false, 234090014, false, 196608, 225883612);
    Nibble(805306457, 2, 196608, 225883612, false, 803555200, false, 294091793, false, 777106004, false, 3145728, 458617542);
    Nibble(805306457, 2, 3145728, 458617542, false, 674490069, true, 140585718, false, 57668415, true, 50331653, 397730640);
    Nibble(805306457, 2, 50331653, 397730640, true, 9845176, false, 805306456, false, 1, false, 805306456, 1);
    var top := Power(805306456, 1);
    CertifyFermat(805306457, 2, top);
    PowerZero(805306457, 2);
    Nibble(805306457, 2, 0, 1, true, 2, false, 4, false, 16, false, 8, 256);
    Nibble(805306457, 2, 8, 256, true, 131072, false, 268433587, false, 361518916, false, 136, 456105428);
    var w := Power(136, 456105428);
    Certify(805306457, 2, 5921371, 136, 456105428, 633581941, w);
    PocklingtonOne(805306457, 2, 5921371, 1, 5921371, top, w, 633581941);
  }

  lemma Prime109()
    ensures IsPrime(109)
  {
  }

  lemma Prime5233()
    ensures IsPrime(5233)
  {
    Prime109();
    hide IsPower, Fermat, Certifies;
    PowerZero(5233, 2);
    Nibble(5233, 2, 0, 1, false, 1, false, 1, false, 1, true, 1, 2);
    Nibble(5233, 2, 1, 2, false, 4, true, 32, false, 1024, false, 20, 1976);
    Nibble(5233, 2, 20, 1976, false, 758, true, 3101, true, 1127, true, 327, 2253);
    Nibble(5233, 2, 327, 2253, false, 5232, false, 1, false, 1, false, 5232, 1);
    var top := Power(5232, 1);
    CertifyFermat(5233, 2, top);
    PowerZero(5233, 2);
    Nibble(5233, 2, 0, 1, false, 1, false, 1, true, 2, true, 3, 8);
    Nibble(5233, 2, 3, 8, false, 64, false, 4096, false, 218, false, 48, 427);
    var w := Power(48, 427);
    Certify(5233, 2, 109, 48, 427, 3157, w);
    PocklingtonOne(5233, 2, 109, 1, 109, top, w, 3157);
  }

  lemma Prime1399()
    ensures IsPrime(1399)
  {
  }

  lemma Prime1610612741()
    ensures IsPrime(1610612741)
  {
    Prime5233();
    Prime1399();
    hide IsPower, Fermat, Certifies;
    PowerZero(1610612741, 2);
    Nibble(1610612741, 2, 0, 1, false, 1, true, 2, true, 8, false, 6, 64);
    Nibble(1610612741, 2, 6, 64, false, 4096, false, 16777216, false, 1072868014, false, 96, 835130162);
    Nibble(1610612741, 2, 96, 835130162, false, 471790519, false, 1169759942, false, 481131301, false, 1536, 946414092);
    Nibble(1610612741, 2, 1536, 946414092, false, 211965180, false, 47583578, false, 725209766, false, 24576, 502251690);
    Nibble(1610612741, 2, 24576, 502251690, false, 1136535831, false, 1069057528, false, 388088768, false, 393216, 827300434);
    Nibble(1610612741, 2, 393216, 827300434, false, 553505943, false, 1246750226, false, 1447154874, false, 6291456, 196387797);
    Nibble(1610612741, 2, 6291456, 196387797, false, 859699880, false, 1354400412, false, 971253152, false, 100663296, 1543138730);
    Nibble(1610612741, 2, 100663296, 1543138730, false, 576865047, true, 456882646, false, 1610612740, false, 1610612740, 1);
    var top := Power(1610612740, 1);
    CertifyFermat(1610612741, 2, top);
    PowerZero(1610612741, 2);
    Nibble(1610612741, 2, 0, 1, false, 1, true, 2, false, 4, false, 4, 16);
    Nibble(1610612741, 2, 4, 16, true, 512, false, 262144, true, 536870487, true, 75, 895148945);
    Nibble(1610612741, 2, 75, 895148945, false, 570010682, false, 1418923635, true, 414139891, false, 1202, 94008770);
    Nibble(1610612741, 2, 1202, 94008770, false, 904938606, true, 705045244, false, 1553796373, false, 19236, 95532836);
    Nibble(1610612741, 2, 19236, 95532836, false, 152841065, true, 671333911, false, 1045116926, false, 307780, 1492572786);
    var w := Power(307780, 1492572786);
    PowerZero(1610612741, 2);
    Nibble(1610612741, 2, 0, 1, false, 1, false, 1, false, 1, true, 1, 2);
    Nibble(1610612741, 2, 1, 2, false, 4, false, 16, false, 256, true, 17, 131072);
    Nibble(1610612741, 2, 17, 131072, true, 536870807, false, 178968349, false, 626556525, true, 281, 1165424278);
    Nibble(1610612741, 2, 281, 1165424278, false, 544912004, false, 1264218353, false, 1233880724, true, 4497, 1401028785);
    Nibble(1610612741, 2, 4497, 1401028785, false, 244300177, false, 662028709, false, 1211301755, true, 71953, 386302768);
    Nibble(1610612741, 2, 71953, 386302768, true, 1002073685, true, 243660089, false, 1227083726, false, 1151260, 1080352817);
    var x := Power(1151260, 1080352817);
    Certify(1610612741, 2, 5233, 307780, 1492572786, 290964600, w);
    Certify(1610612741, 2, 1399, 1151260, 1080352817, 446570089, x);
    PocklingtonTwo(1610612741, 2, top, 5233, w, 290964600, 1399, x, 446570089, 7320967);
  }

  /** Every bucket count of the schedule that the model uses is prime. */
  lemma ScheduleIsPrime(t: nat)
    requires 1 <= t <= LARGEST
    ensures IsPrime(Size(t))
  {
    match t
    case 1 => Prime3();
    case 2 => Prime11();
    case 3 => Prime23();
    case 4 => Prime53();
    case 5 => Prime97();
    case 6 => Prime193();
    case 7 => Prime389();
    case 8 => Prime769();
    case 9 => Prime1543();
    case 10 => Prime3079();
    case 11 => Prime6151();
    case 12 => Prime12289();
    case 13 => Prime24593();
    case 14 => Prime49157();
    case 15 => Prime98317();
    case 16 => Prime196613();
    case 17 => Prime393241();
    case 18 => Prime786433();
    case 19 => Prime1572869();
    case 20 => Prime3145739();
    case 21 => Prime6291469();
    case 22 => Prime12582917();
    case 23 => Prime25165843();
    case 24 => Prime50331653();
    case 25 => Prime100663319();
    case 26 => Prime201326611();
    case 27 => Prime402653189();
    case 28 => Prime805306457();
    case 29 => Prime1610612741();
    case _ =>
  }
}
