/** The Dallas/Maxim CRC-8 of Maxim Application Note 27 (polynomial
    x^8 + x^5 + x^4 + 1, initial value 0, bits fed least significant first),
    which the OneWire library's crc8 computes. */
module Crc {

  /** n steps of the shift register, fed with the low n bits of inbyte. */
  function Rounds(crc: bv8, inbyte: bv8, n: nat): bv8
    decreases n
  {
    if n == 0 then crc
    else
      var mix := (crc ^ inbyte) & 1;
      var shifted := crc >> 1;
      Rounds(if mix == 1 then shifted ^ 0x8C else shifted, inbyte >> 1, n - 1)
  }

  function CrcByte(crc: bv8, b: bv8): bv8
  {
    Rounds(crc, b, 8)
  }

  /** The CRC of a byte sequence, bytes taken in order. */
  function Crc8(s: seq<bv8>): bv8
  {
    if s == [] then 0 else CrcByte(Crc8(s[..|s| - 1]), s[|s| - 1])
  }

  lemma Crc8Snoc(p: seq<bv8>, b: bv8)
    ensures Crc8(p + [b]) == CrcByte(Crc8(p), b)
  {
    assert (p + [b])[..|p|] == p;
  }

  lemma {:induction false} RoundsOfItself(c: bv8, n: nat)
    requires n <= 8
    ensures Rounds(c, c, n) == c >> n
  {
    if n > 0 {
      RoundsOfItself(c >> 1, n - 1);
      assert (c >> 1) >> (n - 1) == c >> n;
    }
  }

  /** Feeding the register its own value clears it. */
  lemma CrcByteOfItself(c: bv8)
    ensures CrcByte(c, c) == 0
  {
    RoundsOfItself(c, 8);
  }

  /** A sequence followed by its own CRC has CRC zero: the check a reader
      applies to a complete 8-byte identifier. */
  lemma Crc8Residue(p: seq<bv8>)
    ensures Crc8(p + [Crc8(p)]) == 0
  {
    Crc8Snoc(p, Crc8(p));
    CrcByteOfItself(Crc8(p));
  }

  /** The worked example of Application Note 27: family 0x02, serial
      0x000001B81C, CRC 0xA2. */
  lemma Crc8AppNoteExample()
    ensures Crc8([0x02, 0x1C, 0xB8, 0x01, 0x00, 0x00, 0x00]) == 0xA2
  {
    var s: seq<bv8> := [0x02, 0x1C, 0xB8, 0x01, 0x00, 0x00, 0x00];
    AppNoteStep0(); AppNoteStep1(); AppNoteStep2(); AppNoteStep3(); AppNoteStep4(); AppNoteStep5(); AppNoteStep6();
    Crc8Snoc(s[..0], s[0]); assert s[..0] + [s[0]] == s[..1];
    Crc8Snoc(s[..1], s[1]); assert s[..1] + [s[1]] == s[..2];
    Crc8Snoc(s[..2], s[2]); assert s[..2] + [s[2]] == s[..3];
    Crc8Snoc(s[..3], s[3]); assert s[..3] + [s[3]] == s[..4];
    Crc8Snoc(s[..4], s[4]); assert s[..4] + [s[4]] == s[..5];
    Crc8Snoc(s[..5], s[5]); assert s[..5] + [s[5]] == s[..6];
    Crc8Snoc(s[..6], s[6]); assert s[..6] + [s[6]] == s;
  }

  // The register states of the example, one byte at a time.
  lemma AppNoteStep0()
    ensures CrcByte(0x00, 0x02) == 0xBC
  {
    calc {
      Rounds(0x00, 0x02, 8);
      Rounds(0x00, 0x01, 7);
      Rounds(0x8C, 0x00, 6);
      Rounds(0x46, 0x00, 5);
      Rounds(0x23, 0x00, 4);
      Rounds(0x9D, 0x00, 3);
      Rounds(0xC2, 0x00, 2);
      Rounds(0x61, 0x00, 1);
      Rounds(0xBC, 0x00, 0);
    }
  }

  lemma AppNoteStep1()
    ensures CrcByte(0xBC, 0x1C) == 0xAF
  {
    calc {
      Rounds(0xBC, 0x1C, 8);
      Rounds(0x5E, 0x0E, 7);
      Rounds(0x2F, 0x07, 6);
      Rounds(0x17, 0x03, 5);
      Rounds(0x0B, 0x01, 4);
      Rounds(0x05, 0x00, 3);
      Rounds(0x8E, 0x00, 2);
      Rounds(0x47, 0x00, 1);
      Rounds(0xAF, 0x00, 0);
    }
  }

  lemma AppNoteStep2()
    ensures CrcByte(0xAF, 0xB8) == 0x1E
  {
    calc {
      Rounds(0xAF, 0xB8, 8);
      Rounds(0xDB, 0x5C, 7);
      Rounds(0xE1, 0x2E, 6);
      Rounds(0xFC, 0x17, 5);
      Rounds(0xF2, 0x0B, 4);
      Rounds(0xF5, 0x05, 3);
      Rounds(0x7A, 0x02, 2);
      Rounds(0x3D, 0x01, 1);
      Rounds(0x1E, 0x00, 0);
    }
  }

  lemma AppNoteStep3()
    ensures CrcByte(0x1E, 0x01) == 0xDC
  {
    calc {
      Rounds(0x1E, 0x01, 8);
      Rounds(0x83, 0x00, 7);
      Rounds(0xCD, 0x00, 6);
      Rounds(0xEA, 0x00, 5);
      Rounds(0x75, 0x00, 4);
      Rounds(0xB6, 0x00, 3);
      Rounds(0x5B, 0x00, 2);
      Rounds(0xA1, 0x00, 1);
      Rounds(0xDC, 0x00, 0);
    }
  }

  lemma AppNoteStep4()
    ensures CrcByte(0xDC, 0x00) == 0xF4
  {
    calc {
      Rounds(0xDC, 0x00, 8);
      Rounds(0x6E, 0x00, 7);
      Rounds(0x37, 0x00, 6);
      Rounds(0x97, 0x00, 5);
      Rounds(0xC7, 0x00, 4);
      Rounds(0xEF, 0x00, 3);
      Rounds(0xFB, 0x00, 2);
      Rounds(0xF1, 0x00, 1);
      Rounds(0xF4, 0x00, 0);
    }
  }

  lemma AppNoteStep5()
    ensures CrcByte(0xF4, 0x00) == 0x15
  {
    calc {
      Rounds(0xF4, 0x00, 8);
      Rounds(0x7A, 0x00, 7);
      Rounds(0x3D, 0x00, 6);
      Rounds(0x92, 0x00, 5);
      Rounds(0x49, 0x00, 4);
      Rounds(0xA8, 0x00, 3);
      Rounds(0x54, 0x00, 2);
      Rounds(0x2A, 0x00, 1);
      Rounds(0x15, 0x00, 0);
    }
  }

  lemma AppNoteStep6()
    ensures CrcByte(0x15, 0x00) == 0xA2
  {
    calc {
      Rounds(0x15, 0x00, 8);
      Rounds(0x86, 0x00, 7);
      Rounds(0x43, 0x00, 6);
      Rounds(0xAD, 0x00, 5);
      Rounds(0xDA, 0x00, 4);
      Rounds(0x6D, 0x00, 3);
      Rounds(0xBA, 0x00, 2);
      Rounds(0x5D, 0x00, 1);
      Rounds(0xA2, 0x00, 0);
    }
  }
}
