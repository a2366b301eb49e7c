/** Published values of ChaCha (sections 2.1.1, 2.2.1 and 2.3.2 of RFC 8439), which fix rotations, rounds, columns,
    diagonals and the addition of the input. */
module ChaChaVectors {
  import opened ChaCha

  // ---- Rotations, bit by bit ----

  predicate BitOf(v: Word, i: bv5) { (v >> i) & 1 == 1 }

  /** Rotating by c moves bit i to bit i + c, modulo 32. */
  lemma RotatesBits(v: Word, i: bv5)
    ensures BitOf(Rotate16(v), i + 16) == BitOf(v, i) && BitOf(Rotate12(v), i + 12) == BitOf(v, i)
    ensures BitOf(Rotate8(v), i + 8) == BitOf(v, i) && BitOf(Rotate7(v), i + 7) == BitOf(v, i)
  {
  }

  // ---- The quarter round on four words ----

  datatype Four = Four(a: Word, b: Word, c: Word, d: Word)

  /** The two halves of a quarter round. */
  function Half16(f: Four): Four {
    var a := Plus(f.a, f.b);
    var d := Rotate16(Xor(f.d, a));
    var c := Plus(f.c, d);
    Four(a, Rotate12(Xor(f.b, c)), c, d)
  }

  function Half8(f: Four): Four {
    var a := Plus(f.a, f.b);
    var d := Rotate8(Xor(f.d, a));
    var c := Plus(f.c, d);
    Four(a, Rotate7(Xor(f.b, c)), c, d)
  }

  function Mix(a: Word, b: Word, c: Word, d: Word): Four { Half8(Half16(Four(a, b, c, d))) }

  /** A quarter round changes its four words only, and by what they are only. */
  lemma QuarterMixes(x: State, a: nat, b: nat, c: nat, d: nat)
    requires a < b < 16 && c < 16 && d < 16 && a != c && a != d && b != c && b != d && c != d
    ensures var m, y := Mix(x[a], x[b], x[c], x[d]), Quarter(x, a, b, c, d);
      y[a] == m.a && y[b] == m.b && y[c] == m.c && y[d] == m.d &&
      forall i :: 0 <= i < 16 && i != a && i != b && i != c && i != d ==> y[i] == x[i]
  {
    hide Plus, Xor, Rotate16, Rotate12, Rotate8, Rotate7;
  }

  lemma Sixteen(x: State)
    ensures x == [x[0], x[1], x[2], x[3], x[4], x[5], x[6], x[7], x[8], x[9], x[10], x[11], x[12], x[13], x[14], x[15]]
  {
  }

  lemma ColumnsMix(x: State)
    ensures var m0, m1 := Mix(x[0], x[4], x[8], x[12]), Mix(x[1], x[5], x[9], x[13]);
      var m2, m3 := Mix(x[2], x[6], x[10], x[14]), Mix(x[3], x[7], x[11], x[15]);
      Columns(x) == [m0.a, m1.a, m2.a, m3.a, m0.b, m1.b, m2.b, m3.b, m0.c, m1.c, m2.c, m3.c, m0.d, m1.d, m2.d, m3.d]
  {
    hide Quarter, Mix;
    QuarterMixes(x, 0, 4, 8, 12);
    var y := Quarter(x, 0, 4, 8, 12);
    QuarterMixes(y, 1, 5, 9, 13);
    var z := Quarter(y, 1, 5, 9, 13);
    QuarterMixes(z, 2, 6, 10, 14);
    var w := Quarter(z, 2, 6, 10, 14);
    QuarterMixes(w, 3, 7, 11, 15);
    Sixteen(Columns(x));
  }

  lemma DiagonalsMix(x: State)
    ensures var m0, m1 := Mix(x[0], x[5], x[10], x[15]), Mix(x[1], x[6], x[11], x[12]);
      var m2, m3 := Mix(x[2], x[7], x[8], x[13]), Mix(x[3], x[4], x[9], x[14]);
      Diagonals(x) == [m0.a, m1.a, m2.a, m3.a, m3.b, m0.b, m1.b, m2.b, m2.c, m3.c, m0.c, m1.c, m1.d, m2.d, m3.d, m0.d]
  {
    hide Quarter, Mix;
    QuarterMixes(x, 0, 5, 10, 15);
    var y := Quarter(x, 0, 5, 10, 15);
    QuarterMixes(y, 1, 6, 11, 12);
    var z := Quarter(y, 1, 6, 11, 12);
    QuarterMixes(z, 2, 7, 8, 13);
    var w := Quarter(z, 2, 7, 8, 13);
    QuarterMixes(w, 3, 4, 9, 14);
    Sixteen(Diagonals(x));
  }

  /** The quarter round of section 2.1.1. */
  lemma QuarterVector()
    ensures Mix(0x11111111, 0x01020304, 0x9b8d6f43, 0x01234567) == Four(0xea2a92f4, 0xcb1cf8ce, 0x4581472e, 0x5881c4bb)
  {
  }

  const BEFORE: State :=
    [0x879531e0, 0xc5ecf37d, 0x516461b1, 0xc9a62f8a, 0x44c20ef3, 0x3390af7f, 0xd9fc690b, 0x2a5f714c,
     0x53372767, 0xb00a5631, 0x974c541a, 0x359e9963, 0x5c971061, 0x3d631689, 0x2098d9d6, 0x91dbd320]

  const AFTER: State :=
    [0x879531e0, 0xc5ecf37d, 0xbdb886dc, 0xc9a62f8a, 0x44c20ef3, 0x3390af7f, 0xd9fc690b, 0xcfacafd2,
     0xe46bea80, 0xb00a5631, 0x974c541a, 0x359e9963, 0x5c971061, 0xccc07c79, 0x2098d9d6, 0x91dbd320]

  /** The quarter round on a whole state of section 2.2.1. */
  lemma StateVector()
    ensures Quarter(BEFORE, 2, 7, 8, 13) == AFTER
  {
    hide Quarter;
    QuarterMixes(BEFORE, 2, 7, 8, 13);
    assert Mix(0x516461b1, 0x2a5f714c, 0x53372767, 0x3d631689) ==
      Four(0xbdb886dc, 0xcfacafd2, 0xe46bea80, 0xccc07c79);
    hide Mix;
    Sixteen(Quarter(BEFORE, 2, 7, 8, 13));
  }

  // ---- The block of section 2.3.2 ----

  const ROUND_0: State :=
    [0x61707865, 0x3320646e, 0x79622d32, 0x6b206574, 0x03020100, 0x07060504, 0x0b0a0908, 0x0f0e0d0c,
     0x13121110, 0x17161514, 0x1b1a1918, 0x1f1e1d1c, 0x00000001, 0x09000000, 0x4a000000, 0x00000000]

  const ROUND_1: State :=
    [0xcd52e917, 0x85ab03b4, 0xb3457395, 0xf96de7dd, 0xc4b7cd22, 0x5c2e187a, 0xc95eb461, 0x316c801a,
     0x7bf7d740, 0x7eddd644, 0xf1a1bdf5, 0x761246ca, 0x6b0d58a3, 0x6798471a, 0xd737f167, 0xf173888d]

  const ROUND_2: State :=
    [0xcf1a7584, 0x048927ec, 0x54051fda, 0xc244ff28, 0x901d2f40, 0x7974b81c, 0x378dcfb4, 0xcd47fd0e,
     0x2dafb216, 0x27c89cd6, 0xcd3c9aa0, 0x79fc89c7, 0x10aef18d, 0x16218765, 0x68f76705, 0x04d6ee22]

  const ROUND_3: State :=
    [0x03a14032, 0x66b15927, 0x9d6b6b42, 0xb84c4109, 0xa7143ae0, 0xa09b33dd, 0xa5daaf88, 0x2fd91a73,
     0xc90c6b18, 0x5a202413, 0xc20e01b6, 0x72cd6b74, 0xba35d777, 0xb360f1bf, 0x8178315b, 0x2cd11b1a]

  const ROUND_4: State :=
    [0x9a2d3589, 0x0b23fc4e, 0x40af3b6b, 0xceea8144, 0x0a1bffc6, 0x5e5993f7, 0x9904c2e7, 0x0d334718,
     0xe46c6354, 0xc9503229, 0x04fef5aa, 0xf8933f72, 0x2687d476, 0x54e65231, 0x3594ffc5, 0x2b3bb2ca]

  const ROUND_5: State :=
    [0xc53318c5, 0xca325d96, 0x7e7d11cb, 0x3404e2ca, 0x26d7cf73, 0x6088d379, 0xc0f0e9bd, 0xe310cdb9,
     0xae2ca8db, 0x42f67c72, 0x71669aca, 0x975c171d, 0x9e5ec228, 0x7d85a9f3, 0x201d0756, 0x63fa6953]

  const ROUND_6: State :=
    [0x04a3131a, 0x66176309, 0x0415bab1, 0x61b880a2, 0x36cc86c7, 0xbf8a4465, 0xf77dd720, 0xfc0bdc90,
     0x07d13aca, 0xeb0be9af, 0x61599491, 0x918512dc, 0x33b6686d, 0x795cc671, 0xc0049972, 0xa0a81bde]

  const ROUND_7: State :=
    [0x9b70f51f, 0x7ea8ac11, 0x21e54da9, 0xca393b2f, 0x93b08686, 0x6a4c50ae, 0x19212a5a, 0x9b032958,
     0xd839165e, 0x4c06e28a, 0xd3fde99e, 0x26acc13d, 0xa609f555, 0x2c246549, 0x95151853, 0x2c847a0d]

  const ROUND_8: State :=
    [0xca5c85dd, 0x93a4f90e, 0xd9f0df58, 0x26dd82dd, 0x982563f8, 0x712aa9ff, 0x279a61e8, 0x970f72bd,
     0x1c25931a, 0x5180bb10, 0x779c27e7, 0x54077e08, 0xa9b751fb, 0x382f3ce2, 0x8db1757d, 0xcc38080b]

  const ROUND_9: State :=
    [0xb6b87de6, 0x9a016148, 0x93859815, 0x4915e6cc, 0xdc33c122, 0x98e18fa3, 0x5ffbe8fc, 0xf7154b8b,
     0x28c1fcb3, 0xc4b38f9d, 0x83e2f5d7, 0x7d24b98b, 0x21078b22, 0xb193e7a3, 0xb2f49389, 0x6cde6026]

  const ROUND_10: State :=
    [0x837778ab, 0xe238d763, 0xa67ae21e, 0x5950bb2f, 0xc4f2d0c7, 0xfc62bb2f, 0x8fa018fc, 0x3f5ec7b7,
     0x335271c2, 0xf29489f3, 0xeabda8fc, 0x82e46ebd, 0xd19c12b4, 0xb04e16de, 0x9e83d0cb, 0x4e3c50a2]

  lemma Round1()
    ensures Diagonals(Columns(ROUND_0)) == ROUND_1
  {
    hide Columns, Diagonals;
    ColumnsMix(ROUND_0);
    assert Mix(0x61707865, 0x03020100, 0x13121110, 0x00000001) == Four(0xabbaa25c, 0x3a465196, 0x6b3ca454, 0xdec62ed2);
    assert Mix(0x3320646e, 0x07060504, 0x17161514, 0x09000000) == Four(0x1efa51ea, 0x1c7e64f6, 0x08eb14b1, 0x8862cc77);
    assert Mix(0x79622d32, 0x0b0a0908, 0x1b1a1918, 0x4a000000) == Four(0x7354fbdf, 0xb12fb628, 0xbf8a9ac9, 0x6e35b345);
    assert Mix(0x6b206574, 0x0f0e0d0c, 0x1f1e1d1c, 0x00000000) == Four(0x83d2dc69, 0xf05b6976, 0xe444df3b, 0x52a647f1);
    var y: State :=
      [0xabbaa25c, 0x1efa51ea, 0x7354fbdf, 0x83d2dc69, 0x3a465196, 0x1c7e64f6, 0xb12fb628, 0xf05b6976,
       0x6b3ca454, 0x08eb14b1, 0xbf8a9ac9, 0xe444df3b, 0xdec62ed2, 0x8862cc77, 0x6e35b345, 0x52a647f1];
    assert Columns(ROUND_0) == y;
    DiagonalsMix(y);
    assert Mix(0xabbaa25c, 0x1c7e64f6, 0xbf8a9ac9, 0x52a647f1) == Four(0xcd52e917, 0x5c2e187a, 0xf1a1bdf5, 0xf173888d);
    assert Mix(0x1efa51ea, 0xb12fb628, 0xe444df3b, 0xdec62ed2) == Four(0x85ab03b4, 0xc95eb461, 0x761246ca, 0x6b0d58a3);
    assert Mix(0x7354fbdf, 0xf05b6976, 0x6b3ca454, 0x8862cc77) == Four(0xb3457395, 0x316c801a, 0x7bf7d740, 0x6798471a);
    assert Mix(0x83d2dc69, 0x3a465196, 0x08eb14b1, 0x6e35b345) == Four(0xf96de7dd, 0xc4b7cd22, 0x7eddd644, 0xd737f167);
  }

  lemma Round2()
    ensures Diagonals(Columns(ROUND_1)) == ROUND_2
  {
    hide Columns, Diagonals;
    ColumnsMix(ROUND_1);
    assert Mix(0xcd52e917, 0xc4b7cd22, 0x7bf7d740, 0x6b0d58a3) == Four(0xe3e1111b, 0xd65b5b5b, 0xe67aec54, 0x7be81c0d);
    assert Mix(0x85ab03b4, 0x5c2e187a, 0x7eddd644, 0x6798471a) == Four(0xa6291491, 0xf56af099, 0xf7a52d82, 0x1d92d0fd);
    assert Mix(0xb3457395, 0xc95eb461, 0xf1a1bdf5, 0xd737f167) == Four(0x5a82b80c, 0x4ccc8103, 0xdb470914, 0x13139f8c);
    assert Mix(0xf96de7dd, 0x316c801a, 0x761246ca, 0xf173888d) == Four(0x4500fd45, 0xc94d29e2, 0xdfb40f1d, 0x7a26ecaa);
    var y: State :=
      [0xe3e1111b, 0xa6291491, 0x5a82b80c, 0x4500fd45, 0xd65b5b5b, 0xf56af099, 0x4ccc8103, 0xc94d29e2,
       0xe67aec54, 0xf7a52d82, 0xdb470914, 0xdfb40f1d, 0x7be81c0d, 0x1d92d0fd, 0x13139f8c, 0x7a26ecaa];
    assert Columns(ROUND_1) == y;
    DiagonalsMix(y);
    assert Mix(0xe3e1111b, 0xf56af099, 0xdb470914, 0x7a26ecaa) == Four(0xcf1a7584, 0x7974b81c, 0xcd3c9aa0, 0x04d6ee22);
    assert Mix(0xa6291491, 0x4ccc8103, 0xdfb40f1d, 0x7be81c0d) == Four(0x048927ec, 0x378dcfb4, 0x79fc89c7, 0x10aef18d);
    assert Mix(0x5a82b80c, 0xc94d29e2, 0xe67aec54, 0x1d92d0fd) == Four(0x54051fda, 0xcd47fd0e, 0x2dafb216, 0x16218765);
    assert Mix(0x4500fd45, 0xd65b5b5b, 0xf7a52d82, 0x13139f8c) == Four(0xc244ff28, 0x901d2f40, 0x27c89cd6, 0x68f76705);
  }

  lemma Round3()
    ensures Diagonals(Columns(ROUND_2)) == ROUND_3
  {
    hide Columns, Diagonals;
    ColumnsMix(ROUND_2);
    assert Mix(0xcf1a7584, 0x901d2f40, 0x2dafb216, 0x10aef18d) == Four(0xa22695f2, 0x1ece4458, 0xf2d36da6, 0x6fda6bf7);
    assert Mix(0x048927ec, 0x7974b81c, 0x27c89cd6, 0x16218765) == Four(0xa908cf6c, 0xe82b726f, 0xf4dab980, 0x65a4b0ce);
    assert Mix(0x54051fda, 0x378dcfb4, 0xcd3c9aa0, 0x68f76705) == Four(0xe6ae05b2, 0x5a21ab90, 0x7baf5573, 0x25e6d76e);
    assert Mix(0xc244ff28, 0xcd47fd0e, 0x79fc89c7, 0x04d6ee22) == Four(0xfe0ff04b, 0x87698c64, 0xa78c270d, 0x1b7b11ec);
    var y: State :=
      [0xa22695f2, 0xa908cf6c, 0xe6ae05b2, 0xfe0ff04b, 0x1ece4458, 0xe82b726f, 0x5a21ab90, 0x87698c64,
       0xf2d36da6, 0xf4dab980, 0x7baf5573, 0xa78c270d, 0x6fda6bf7, 0x65a4b0ce, 0x25e6d76e, 0x1b7b11ec];
    assert Columns(ROUND_2) == y;
    DiagonalsMix(y);
    assert Mix(0xa22695f2, 0xe82b726f, 0x7baf5573, 0x1b7b11ec) == Four(0x03a14032, 0xa09b33dd, 0xc20e01b6, 0x2cd11b1a);
    assert Mix(0xa908cf6c, 0x5a21ab90, 0xa78c270d, 0x6fda6bf7) == Four(0x66b15927, 0xa5daaf88, 0x72cd6b74, 0xba35d777);
    assert Mix(0xe6ae05b2, 0x87698c64, 0xf2d36da6, 0x65a4b0ce) == Four(0x9d6b6b42, 0x2fd91a73, 0xc90c6b18, 0xb360f1bf);
    assert Mix(0xfe0ff04b, 0x1ece4458, 0xf4dab980, 0x25e6d76e) == Four(0xb84c4109, 0xa7143ae0, 0x5a202413, 0x8178315b);
  }

  lemma Round4()
    ensures Diagonals(Columns(ROUND_3)) == ROUND_4
  {
    hide Columns, Diagonals;
    ColumnsMix(ROUND_3);
    assert Mix(0x03a14032, 0xa7143ae0, 0xc90c6b18, 0xba35d777) == Four(0xfecd0838, 0xcedf6624, 0x1d8a33ea, 0xa818b852);
    assert Mix(0x66b15927, 0xa09b33dd, 0x5a202413, 0xb360f1bf) == Four(0x160ab468, 0xb11de6c4, 0x87dc1ca9, 0xb100446a);
    assert Mix(0x9d6b6b42, 0xa5daaf88, 0xc20e01b6, 0x8178315b) == Four(0x9a0ddf4e, 0xbd7810ef, 0x89bd34a5, 0x9c1d70b1);
    assert Mix(0xb84c4109, 0x2fd91a73, 0x72cd6b74, 0x2cd11b1a) == Four(0xbac7154a, 0xd22b5643, 0x5505ef62, 0xa1d1befa);
    var y: State :=
      [0xfecd0838, 0x160ab468, 0x9a0ddf4e, 0xbac7154a, 0xcedf6624, 0xb11de6c4, 0xbd7810ef, 0xd22b5643,
       0x1d8a33ea, 0x87dc1ca9, 0x89bd34a5, 0x5505ef62, 0xa818b852, 0xb100446a, 0x9c1d70b1, 0xa1d1befa];
    assert Columns(ROUND_3) == y;
    DiagonalsMix(y);
    assert Mix(0xfecd0838, 0xb11de6c4, 0x89bd34a5, 0xa1d1befa) == Four(0x9a2d3589, 0x5e5993f7, 0x04fef5aa, 0x2b3bb2ca);
    assert Mix(0x160ab468, 0xbd7810ef, 0x5505ef62, 0xa818b852) == Four(0x0b23fc4e, 0x9904c2e7, 0xf8933f72, 0x2687d476);
    assert Mix(0x9a0ddf4e, 0xd22b5643, 0x1d8a33ea, 0xb100446a) == Four(0x40af3b6b, 0x0d334718, 0xe46c6354, 0x54e65231);
    assert Mix(0xbac7154a, 0xcedf6624, 0x87dc1ca9, 0x9c1d70b1) == Four(0xceea8144, 0x0a1bffc6, 0xc9503229, 0x3594ffc5);
  }

  lemma Round5()
    ensures Diagonals(Columns(ROUND_4)) == ROUND_5
  {
    hide Columns, Diagonals;
    ColumnsMix(ROUND_4);
    assert Mix(0x9a2d3589, 0x0a1bffc6, 0xe46c6354, 0x2687d476) == Four(0x85e7824a, 0x1c133ea1, 0xa3a66a86, 0xde008464);
    assert Mix(0x0b23fc4e, 0x5e5993f7, 0xc9503229, 0x54e65231) == Four(0x4940cd9e, 0xbba40b0f, 0xc0b4754f, 0x34f0058b);
    assert Mix(0x40af3b6b, 0x9904c2e7, 0x04fef5aa, 0x3594ffc5) == Four(0xfbe7684b, 0x9413992a, 0x771b4ecb, 0x70846cfa);
    assert Mix(0xceea8144, 0x0d334718, 0xf8933f72, 0x2b3bb2ca) == Four(0x7335d03d, 0xa4ab2040, 0x165151a1, 0xa3271b09);
    var y: State :=
      [0x85e7824a, 0x4940cd9e, 0xfbe7684b, 0x7335d03d, 0x1c133ea1, 0xbba40b0f, 0x9413992a, 0xa4ab2040,
       0xa3a66a86, 0xc0b4754f, 0x771b4ecb, 0x165151a1, 0xde008464, 0x34f0058b, 0x70846cfa, 0xa3271b09];
    assert Columns(ROUND_4) == y;
    DiagonalsMix(y);
    assert Mix(0x85e7824a, 0xbba40b0f, 0x771b4ecb, 0xa3271b09) == Four(0xc53318c5, 0x6088d379, 0x71669aca, 0x63fa6953);
    assert Mix(0x4940cd9e, 0x9413992a, 0x165151a1, 0xde008464) == Four(0xca325d96, 0xc0f0e9bd, 0x975c171d, 0x9e5ec228);
    assert Mix(0xfbe7684b, 0xa4ab2040, 0xa3a66a86, 0x34f0058b) == Four(0x7e7d11cb, 0xe310cdb9, 0xae2ca8db, 0x7d85a9f3);
    assert Mix(0x7335d03d, 0x1c133ea1, 0xc0b4754f, 0x70846cfa) == Four(0x3404e2ca, 0x26d7cf73, 0x42f67c72, 0x201d0756);
  }

  lemma Round6()
    ensures Diagonals(Columns(ROUND_5)) == ROUND_6
  {
    hide Columns, Diagonals;
    ColumnsMix(ROUND_5);
    assert Mix(0xc53318c5, 0x26d7cf73, 0xae2ca8db, 0x9e5ec228) == Four(0x9950b826, 0x2121065a, 0x19078de2, 0x40ca72b3);
    assert Mix(0xca325d96, 0x6088d379, 0x42f67c72, 0x7d85a9f3) == Four(0xcac7ccc6, 0xc12bdadb, 0x178ecc02, 0x3b9bf852);
    assert Mix(0x7e7d11cb, 0xc0f0e9bd, 0x71669aca, 0x201d0756) == Four(0x84a67673, 0xcae3acd1, 0xe6adbdb2, 0x78690378);
    assert Mix(0x3404e2ca, 0xe310cdb9, 0x975c171d, 0x63fa6953) == Four(0xdb3109a6, 0x594616cb, 0x52a9d50e, 0xe17d4902);
    var y: State :=
      [0x9950b826, 0xcac7ccc6, 0x84a67673, 0xdb3109a6, 0x2121065a, 0xc12bdadb, 0xcae3acd1, 0x594616cb,
       0x19078de2, 0x178ecc02, 0xe6adbdb2, 0x52a9d50e, 0x40ca72b3, 0x3b9bf852, 0x78690378, 0xe17d4902];
    assert Columns(ROUND_5) == y;
    DiagonalsMix(y);
    assert Mix(0x9950b826, 0xc12bdadb, 0xe6adbdb2, 0xe17d4902) == Four(0x04a3131a, 0xbf8a4465, 0x61599491, 0xa0a81bde);
    assert Mix(0xcac7ccc6, 0xcae3acd1, 0x52a9d50e, 0x40ca72b3) == Four(0x66176309, 0xf77dd720, 0x918512dc, 0x33b6686d);
    assert Mix(0x84a67673, 0x594616cb, 0x19078de2, 0x3b9bf852) == Four(0x0415bab1, 0xfc0bdc90, 0x07d13aca, 0x795cc671);
    assert Mix(0xdb3109a6, 0x2121065a, 0x178ecc02, 0x78690378) == Four(0x61b880a2, 0x36cc86c7, 0xeb0be9af, 0xc0049972);
  }

  lemma Round7()
    ensures Diagonals(Columns(ROUND_6)) == ROUND_7
  {
    hide Columns, Diagonals;
    ColumnsMix(ROUND_6);
    assert Mix(0x04a3131a, 0x36cc86c7, 0x07d13aca, 0x33b6686d) == Four(0x57c5e6da, 0x8e85d82f, 0x434b4749, 0x49ee03a6);
    assert Mix(0x66176309, 0xbf8a4465, 0xeb0be9af, 0x795cc671) == Four(0x35ce46a8, 0xb4819d06, 0x1d459c00, 0xd11a5554);
    assert Mix(0x0415bab1, 0xf77dd720, 0x61599491, 0xc0049972) == Four(0x0c041bb9, 0xb63be200, 0x111cfe2c, 0xa7202e04);
    assert Mix(0x61b880a2, 0xfc0bdc90, 0x918512dc, 0xa0a81bde) == Four(0xfa91df79, 0xacd221e4, 0x55942604, 0x7d2215bc);
    var y: State :=
      [0x57c5e6da, 0x35ce46a8, 0x0c041bb9, 0xfa91df79, 0x8e85d82f, 0xb4819d06, 0xb63be200, 0xacd221e4,
       0x434b4749, 0x1d459c00, 0x111cfe2c, 0x55942604, 0x49ee03a6, 0xd11a5554, 0xa7202e04, 0x7d2215bc];
    assert Columns(ROUND_6) == y;
    DiagonalsMix(y);
    assert Mix(0x57c5e6da, 0xb4819d06, 0x111cfe2c, 0x7d2215bc) == Four(0x9b70f51f, 0x6a4c50ae, 0xd3fde99e, 0x2c847a0d);
    assert Mix(0x35ce46a8, 0xb63be200, 0x55942604, 0x49ee03a6) == Four(0x7ea8ac11, 0x19212a5a, 0x26acc13d, 0xa609f555);
    assert Mix(0x0c041bb9, 0xacd221e4, 0x434b4749, 0xd11a5554) == Four(0x21e54da9, 0x9b032958, 0xd839165e, 0x2c246549);
    assert Mix(0xfa91df79, 0x8e85d82f, 0x1d459c00, 0xa7202e04) == Four(0xca393b2f, 0x93b08686, 0x4c06e28a, 0x95151853);
  }

  lemma Round8()
    ensures Diagonals(Columns(ROUND_7)) == ROUND_8
  {
    hide Columns, Diagonals;
    ColumnsMix(ROUND_7);
    assert Mix(0x9b70f51f, 0x93b08686, 0xd839165e, 0xa609f555) == Four(0xc0b18aee, 0xdeb54e9c, 0xa82d65d4, 0x4103c64e);
    assert Mix(0x7ea8ac11, 0x6a4c50ae, 0x4c06e28a, 0x2c246549) == Four(0x087445ba, 0x802c883b, 0x687f11eb, 0x82816a91);
    assert Mix(0x21e54da9, 0x19212a5a, 0xd3fde99e, 0x95151853) == Four(0x36e52ad9, 0x06e86889, 0xe9d36207, 0xb584ca56);
    assert Mix(0xca393b2f, 0x9b032958, 0x26acc13d, 0x2c847a0d) == Four(0xa777426a, 0x3c002680, 0x4242ddae, 0xfd0bd2b9);
    var y: State :=
      [0xc0b18aee, 0x087445ba, 0x36e52ad9, 0xa777426a, 0xdeb54e9c, 0x802c883b, 0x06e86889, 0x3c002680,
       0xa82d65d4, 0x687f11eb, 0xe9d36207, 0x4242ddae, 0x4103c64e, 0x82816a91, 0xb584ca56, 0xfd0bd2b9];
    assert Columns(ROUND_7) == y;
    DiagonalsMix(y);
    assert Mix(0xc0b18aee, 0x802c883b, 0xe9d36207, 0xfd0bd2b9) == Four(0xca5c85dd, 0x712aa9ff, 0x779c27e7, 0xcc38080b);
    assert Mix(0x087445ba, 0x06e86889, 0x4242ddae, 0x4103c64e) == Four(0x93a4f90e, 0x279a61e8, 0x54077e08, 0xa9b751fb);
    assert Mix(0x36e52ad9, 0x3c002680, 0xa82d65d4, 0x82816a91) == Four(0xd9f0df58, 0x970f72bd, 0x1c25931a, 0x382f3ce2);
    assert Mix(0xa777426a, 0xdeb54e9c, 0x687f11eb, 0xb584ca56) == Four(0x26dd82dd, 0x982563f8, 0x5180bb10, 0x8db1757d);
  }

  lemma Round9()
    ensures Diagonals(Columns(ROUND_8)) == ROUND_9
  {
    hide Columns, Diagonals;
    ColumnsMix(ROUND_8);
    assert Mix(0xca5c85dd, 0x982563f8, 0x1c25931a, 0xa9b751fb) == Four(0x765c6e9c, 0x9046ecaa, 0x46fa091e, 0x72a5aace);
    assert Mix(0x93a4f90e, 0x712aa9ff, 0x5180bb10, 0x382f3ce2) == Four(0x5ab09b11, 0x7b88d882, 0x5117e9b5, 0x5fa7f1c5);
    assert Mix(0xd9f0df58, 0x279a61e8, 0x779c27e7, 0x8db1757d) == Four(0x3ee7da04, 0xb9b577dd, 0x862ff22b, 0xda563e0a);
    assert Mix(0x26dd82dd, 0x970f72bd, 0x54077e08, 0xcc38080b) == Four(0x37c31203, 0x156de7ed, 0xa3fcc7a6, 0x5263d7ca);
    var y: State :=
      [0x765c6e9c, 0x5ab09b11, 0x3ee7da04, 0x37c31203, 0x9046ecaa, 0x7b88d882, 0xb9b577dd, 0x156de7ed,
       0x46fa091e, 0x5117e9b5, 0x862ff22b, 0xa3fcc7a6, 0x72a5aace, 0x5fa7f1c5, 0xda563e0a, 0x5263d7ca];
    assert Columns(ROUND_8) == y;
    DiagonalsMix(y);
    assert Mix(0x765c6e9c, 0x7b88d882, 0x862ff22b, 0x5263d7ca) == Four(0xb6b87de6, 0x98e18fa3, 0x83e2f5d7, 0x6cde6026);
    assert Mix(0x5ab09b11, 0xb9b577dd, 0xa3fcc7a6, 0x72a5aace) == Four(0x9a016148, 0x5ffbe8fc, 0x7d24b98b, 0x21078b22);
    assert Mix(0x3ee7da04, 0x156de7ed, 0x46fa091e, 0x5fa7f1c5) == Four(0x93859815, 0xf7154b8b, 0x28c1fcb3, 0xb193e7a3);
    assert Mix(0x37c31203, 0x9046ecaa, 0x5117e9b5, 0xda563e0a) == Four(0x4915e6cc, 0xdc33c122, 0xc4b38f9d, 0xb2f49389);
  }

  lemma Round10()
    ensures Diagonals(Columns(ROUND_9)) == ROUND_10
  {
    hide Columns, Diagonals;
    ColumnsMix(ROUND_9);
    assert Mix(0xb6b87de6, 0xdc33c122, 0x28c1fcb3, 0x21078b22) == Four(0x8a07ff15, 0x913768fe, 0x0a39aedc, 0x2d4cfe3e);
    assert Mix(0x9a016148, 0x98e18fa3, 0xc4b38f9d, 0xb193e7a3) == Four(0x0cadc51c, 0x442a0c0c, 0xc1428029, 0xe5466d1b);
    assert Mix(0x93859815, 0x5ffbe8fc, 0x83e2f5d7, 0xb2f49389) == Four(0x017c8da9, 0x598fe3bb, 0x7b48135f, 0xe4ccdc13);
    assert Mix(0x4915e6cc, 0xf7154b8b, 0x7d24b98b, 0x6cde6026) == Four(0x4afbe5df, 0x47d18828, 0x5a5f1098, 0x8ac92a18);
    var y: State :=
      [0x8a07ff15, 0x0cadc51c, 0x017c8da9, 0x4afbe5df, 0x913768fe, 0x442a0c0c, 0x598fe3bb, 0x47d18828,
       0x0a39aedc, 0xc1428029, 0x7b48135f, 0x5a5f1098, 0x2d4cfe3e, 0xe5466d1b, 0xe4ccdc13, 0x8ac92a18];
    assert Columns(ROUND_9) == y;
    DiagonalsMix(y);
    assert Mix(0x8a07ff15, 0x442a0c0c, 0x7b48135f, 0x8ac92a18) == Four(0x837778ab, 0xfc62bb2f, 0xeabda8fc, 0x4e3c50a2);
    assert Mix(0x0cadc51c, 0x598fe3bb, 0x5a5f1098, 0x2d4cfe3e) == Four(0xe238d763, 0x8fa018fc, 0x82e46ebd, 0xd19c12b4);
    assert Mix(0x017c8da9, 0x47d18828, 0x0a39aedc, 0xe5466d1b) == Four(0xa67ae21e, 0x3f5ec7b7, 0x335271c2, 0xb04e16de);
    assert Mix(0x4afbe5df, 0x913768fe, 0xc1428029, 0xe4ccdc13) == Four(0x5950bb2f, 0xc4f2d0c7, 0xf29489f3, 0x9e83d0cb);
  }

  lemma DoubleRoundsNext(x: State, n: nat)
    ensures DoubleRounds(x, 0) == x && DoubleRounds(x, n + 1) == Diagonals(Columns(DoubleRounds(x, n)))
  {
  }

  lemma TenRounds()
    ensures DoubleRounds(ROUND_0, 10) == ROUND_10
  {
    hide DoubleRounds, Diagonals, Columns;
    Round1(); Round2(); Round3(); Round4(); Round5(); Round6(); Round7(); Round8(); Round9(); Round10();
    DoubleRoundsNext(ROUND_0, 0);
    DoubleRoundsNext(ROUND_0, 1);
    DoubleRoundsNext(ROUND_0, 2);
    DoubleRoundsNext(ROUND_0, 3);
    DoubleRoundsNext(ROUND_0, 4);
    DoubleRoundsNext(ROUND_0, 5);
    DoubleRoundsNext(ROUND_0, 6);
    DoubleRoundsNext(ROUND_0, 7);
    DoubleRoundsNext(ROUND_0, 8);
    DoubleRoundsNext(ROUND_0, 9);
  }

  /** The key block of section 2.3.2: twenty rounds and the input added back. */
  lemma BlockVector()
    ensures Core(ROUND_0) ==
      [0xe4e7f110, 0x15593bd1, 0x1fdd0f50, 0xc47120a3, 0xc7f4d1c7, 0x0368c033, 0x9aaa2204, 0x4e6cd4c3,
       0x466482d2, 0x09aa9f07, 0x05d7c214, 0xa2028bd9, 0xd19c12b5, 0xb94e16de, 0xe883d0cb, 0x4e3c50a2]
  {
    TenRounds();
    hide DoubleRounds;
    Sixteen(Core(ROUND_0));
  }

  /** The first bytes of its key stream. */
  lemma StreamVector()
    ensures KeyByte(ROUND_0, 0) == 0x10 && KeyByte(ROUND_0, 1) == 0xf1 && KeyByte(ROUND_0, 2) == 0xe7
    ensures KeyByte(ROUND_0, 3) == 0xe4 && KeyByte(ROUND_0, 4) == 0xd1 && KeyByte(ROUND_0, 5) == 0x3b
    ensures KeyByte(ROUND_0, 62) == 0x3c && KeyByte(ROUND_0, 63) == 0x4e
  {
    hide Core;
    BlockVector();
  }

  // ---- Setting up ----

  const KEY: seq<Byte> :=
    [0, 1, 2, 3, 4, 5, 6, 7, 8, 9, 10, 11, 12, 13, 14, 15,
     16, 17, 18, 19, 20, 21, 22, 23, 24, 25, 26, 27, 28, 29, 30, 31]

  /** The same state from its key, with the words after it as counter and nonce. */
  lemma SetupVector()
    ensures Start(KeyWords(KEY, 256), [0, 0, 0, 0x4a, 0, 0, 0, 0], [1, 0, 0, 0, 0, 0, 0, 9]) == ROUND_0
  {
    var k := KeyWords(KEY, 256);
    assert k == [0x61707865, 0x3320646e, 0x79622d32, 0x6b206574, 0x03020100, 0x07060504,
                 0x0b0a0908, 0x0f0e0d0c, 0x13121110, 0x17161514, 0x1b1a1918, 0x1f1e1d1c];
    hide KeyWords;
  }

  /** A short key has constants of its own and is used twice. */
  lemma ShortKey(k: seq<Byte>)
    requires |k| == 16
    ensures var w := [LittleAt(k, 0), LittleAt(k, 4), LittleAt(k, 8), LittleAt(k, 12)];
      KeyWords(k, 128) == [0x61707865, 0x3120646e, 0x79622d36, 0x6b206574] + w + w
  {
    assert LittleAt(Tau(), 0) == 0x61707865 && LittleAt(Tau(), 4) == 0x3120646e;
    assert LittleAt(Tau(), 8) == 0x79622d36 && LittleAt(Tau(), 12) == 0x6b206574;
    hide LittleAt, Tau;
  }
}
