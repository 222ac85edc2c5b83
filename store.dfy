/** The EEPROM slot store: sixteen slots, slot s based at address s << 5,
    its identifier at offsets 0..7 and its name at offsets 8..15. The
    functions here give the EEPROM image that each writing routine of the
    sketch leaves behind; the methods of Firmware.Cloner are proved to
    produce exactly these images. */
module SlotStore {
  import opened Crc

  /** The EEPROM of the ATmega328P on the Arduino Nano. */
  const EepromSize: nat := 1024
  const SlotCount: nat := 16
  /** Bytes from one slot's base to the next (s << 5). */
  const SlotStride: nat := 32
  /** Identifier and name: the bytes a clear zeroes. */
  const RecordLen: nat := 16
  const NameOffset: nat := 8

  /** activeMemSlot only ever holds its lower nibble. */
  type SlotIndex = s: int | 0 <= s < 16

  function Base(s: SlotIndex): (a: nat)
    ensures a % SlotStride == 0 && a + SlotStride <= SlotCount * SlotStride <= EepromSize
  {
    s * 32
  }

  function Id(e: seq<bv8>, s: SlotIndex): seq<bv8>
    requires |e| == EepromSize
  {
    e[Base(s)..Base(s) + 8]
  }

  function Name(e: seq<bv8>, s: SlotIndex): seq<bv8>
    requires |e| == EepromSize
  {
    e[Base(s) + NameOffset..Base(s) + RecordLen]
  }

  /** A slot is full when any identifier byte is nonzero (name bytes do not count). */
  predicate Full(e: seq<bv8>, s: SlotIndex)
    requires |e| == EepromSize
  {
    exists i :: 0 <= i < 8 && Id(e, s)[i] != 0
  }

  /** e with the bytes bs written from address a on. */
  function Overwrite(e: seq<bv8>, a: nat, bs: seq<bv8>): seq<bv8>
    requires a + |bs| <= |e|
  {
    e[..a] + bs + e[a + |bs|..]
  }

  lemma OverwriteAt(e: seq<bv8>, a: nat, bs: seq<bv8>, i: nat)
    requires a + |bs| <= |e| && i < |e|
    ensures |Overwrite(e, a, bs)| == |e|
    ensures Overwrite(e, a, bs)[i] == if a <= i < a + |bs| then bs[i - a] else e[i]
  {
  }

  /** An image that agrees with Overwrite(e, a, bs) at every address is that image. */
  lemma OverwriteExt(e: seq<bv8>, a: nat, bs: seq<bv8>, f: seq<bv8>)
    requires a + |bs| <= |e| && |f| == |e|
    requires forall i :: 0 <= i < |e| ==> f[i] == if a <= i < a + |bs| then bs[i - a] else e[i]
    ensures f == Overwrite(e, a, bs)
  {
    forall i | 0 <= i < |e|
      ensures f[i] == Overwrite(e, a, bs)[i]
    {
      OverwriteAt(e, a, bs, i);
    }
  }

  /** C's conversion of an int to byte: the value modulo 256. */
  function Truncate(v: int): bv8
  {
    (v % 256) as bv8
  }

  /** A byte widened to int and converted back is unchanged. */
  lemma TruncateByte(b: bv8)
    ensures Truncate(b as int) == b
  {
    assert b as int % 256 == b as int;
  }

  function Bytes(result: seq<int>): (bs: seq<bv8>)
    ensures |bs| == |result|
  {
    if result == [] then [] else [Truncate(result[0])] + Bytes(result[1..])
  }

  lemma {:induction false} BytesAt(result: seq<int>, i: nat)
    requires i < |result|
    ensures Bytes(result)[i] == Truncate(result[i])
  {
    if i > 0 {
      BytesAt(result[1..], i - 1);
    }
  }

  /** What write_content_to_mem_slot puts at the slot base for a payload of
      |result| values: arity 7 gets its CRC appended, arity 8 is kept
      verbatim, and every other arity (6 included) writes nothing. */
  function ContentBytes(result: seq<int>): seq<bv8>
  {
    if |result| == 7 then Bytes(result) + [Crc8(Bytes(result))]
    else if |result| == 8 then Bytes(result)
    else []
  }

  function WithContent(e: seq<bv8>, s: SlotIndex, result: seq<int>): seq<bv8>
    requires |e| == EepromSize
  {
    Overwrite(e, Base(s), ContentBytes(result))
  }

  /** The image after read_iButton stores a discovered identifier in slot s. */
  function WithId(e: seq<bv8>, s: SlotIndex, id: seq<bv8>): seq<bv8>
    requires |e| == EepromSize && |id| == 8
  {
    Overwrite(e, Base(s), id)
  }

  /** A name byte as the name loop stores it: CR and LF become 0. */
  function NameByte(c: bv8): bv8
  {
    if c == 13 || c == 10 then 0 else c
  }

  /** The first n name positions stored from the bytes available: position x
      takes available byte x, and positions past the input are 0. */
  function NameField(avail: seq<bv8>, n: nat): (name: seq<bv8>)
    ensures |name| == n
  {
    if n == 0 then []
    else if avail == [] then [0] + NameField([], n - 1)
    else [NameByte(avail[0])] + NameField(avail[1..], n - 1)
  }

  function WithName(e: seq<bv8>, s: SlotIndex, avail: seq<bv8>): seq<bv8>
    requires |e| == EepromSize
  {
    Overwrite(e, Base(s) + NameOffset, NameField(avail, 8))
  }

  function Zeros(n: nat): (z: seq<bv8>)
    ensures |z| == n && forall i :: 0 <= i < n ==> z[i] == 0
  {
    seq(n, _ => 0)
  }

  /** The image after the 16 record bytes of slot s are set to 0. */
  function Cleared(e: seq<bv8>, s: SlotIndex): seq<bv8>
    requires |e| == EepromSize
  {
    Overwrite(e, Base(s), Zeros(RecordLen))
  }

  /** Address a lies in the record (identifier or name) of some slot. */
  predicate InRecord(a: int)
  {
    0 <= a < SlotCount * SlotStride && a % SlotStride < RecordLen
  }

  /** The image after the records of slots 0..k-1 have been cleared. */
  function WipedBelow(e: seq<bv8>, k: nat): seq<bv8>
  {
    seq(|e|, i requires 0 <= i < |e| => if i < k * SlotStride && InRecord(i) then 0 else e[i])
  }

  /** The image after the wipe of all slots. */
  function Wiped(e: seq<bv8>): seq<bv8>
  {
    WipedBelow(e, SlotCount)
  }

  // ---- properties of the writes ----

  /** Arity 7: bytes 0..6 are the payload (the seventh supplied value is kept),
      byte 7 is the CRC of bytes 0..6, so the stored identifier checks. */
  lemma ContentArity7(e: seq<bv8>, s: SlotIndex, result: seq<int>)
    requires |e| == EepromSize && |result| == 7
    ensures Id(WithContent(e, s, result), s)[..7] == Bytes(result)
    ensures Id(WithContent(e, s, result), s)[6] == Truncate(result[6])
    ensures Id(WithContent(e, s, result), s)[7] == Crc8(Bytes(result))
    ensures Crc8(Id(WithContent(e, s, result), s)) == 0
  {
    var id := Id(WithContent(e, s, result), s);
    assert id == Bytes(result) + [Crc8(Bytes(result))];
    BytesAt(result, 6);
    Crc8Residue(Bytes(result));
  }

  /** Arity 8 stores the payload verbatim. */
  lemma ContentArity8(e: seq<bv8>, s: SlotIndex, result: seq<int>)
    requires |e| == EepromSize && |result| == 8
    ensures Id(WithContent(e, s, result), s) == Bytes(result)
  {
  }

  /** Any other arity, the disabled 6 included, leaves the EEPROM as it was. */
  lemma ContentOtherArity(e: seq<bv8>, s: SlotIndex, result: seq<int>)
    requires |e| == EepromSize && |result| != 7 && |result| != 8
    ensures WithContent(e, s, result) == e
  {
    assert e[..Base(s)] + [] + e[Base(s)..] == e;
  }

  /** The content write touches only identifier bytes of slot s. */
  lemma ContentFrame(e: seq<bv8>, s: SlotIndex, result: seq<int>, a: nat)
    requires |e| == EepromSize && a < EepromSize && !(Base(s) <= a < Base(s) + 8)
    ensures |WithContent(e, s, result)| == EepromSize
    ensures WithContent(e, s, result)[a] == e[a]
    ensures Name(WithContent(e, s, result), s) == Name(e, s)
  {
    OverwriteAt(e, Base(s), ContentBytes(result), a);
    var e' := WithContent(e, s, result);
    forall a | Base(s) + NameOffset <= a < Base(s) + RecordLen
      ensures e'[a] == e[a]
    {
      OverwriteAt(e, Base(s), ContentBytes(result), a);
    }
  }

  /** Other slots keep their identifier and name. */
  lemma ContentOtherSlots(e: seq<bv8>, s: SlotIndex, result: seq<int>, t: SlotIndex)
    requires |e| == EepromSize && t != s
    ensures |WithContent(e, s, result)| == EepromSize
    ensures Id(WithContent(e, s, result), t) == Id(e, t)
    ensures Name(WithContent(e, s, result), t) == Name(e, t)
  {
    var e' := WithContent(e, s, result);
    forall a | Base(t) <= a < Base(t) + RecordLen
      ensures e'[a] == e[a]
    {
      OverwriteAt(e, Base(s), ContentBytes(result), a);
    }
    assert Id(e', t) == Id(e, t);
    assert Name(e', t) == Name(e, t);
  }

  /** A payload with a nonzero byte among those stored verbatim fills the slot. */
  lemma ContentMakesFull(e: seq<bv8>, s: SlotIndex, result: seq<int>, i: nat)
    requires |e| == EepromSize && (|result| == 7 || |result| == 8)
    requires i < |result| && Truncate(result[i]) != 0
    ensures Full(WithContent(e, s, result), s)
  {
    var e' := WithContent(e, s, result);
    BytesAt(result, i);
    OverwriteAt(e, Base(s), ContentBytes(result), Base(s) + i);
    assert Id(e', s)[i] != 0;
  }

  lemma {:induction false} Crc8OfZeros(n: nat)
    ensures Crc8(Zeros(n)) == 0
  {
    if n > 0 {
      assert Zeros(n) == Zeros(n - 1) + [0];
      Crc8OfZeros(n - 1);
      Crc8Snoc(Zeros(n - 1), 0);
      CrcByteOfItself(0);
    }
  }

  /** The boundary the sketch does not guard: seven zero bytes get CRC 0,
      so the slot stays empty after a successful edit. */
  lemma ContentZeroPayloadStaysEmpty(e: seq<bv8>, s: SlotIndex, result: seq<int>)
    requires |e| == EepromSize && |result| == 7
    requires forall i :: 0 <= i < 7 ==> result[i] % 256 == 0
    ensures !Full(WithContent(e, s, result), s)
  {
    var e' := WithContent(e, s, result);
    forall i | 0 <= i < 7
      ensures Bytes(result)[i] == 0
    {
      BytesAt(result, i);
    }
    assert Bytes(result) == Zeros(7);
    Crc8OfZeros(7);
    forall a | Base(s) <= a < Base(s) + 8
      ensures e'[a] == 0
    {
      OverwriteAt(e, Base(s), ContentBytes(result), a);
    }
  }

  lemma {:induction false} NameFieldAt(avail: seq<bv8>, n: nat, x: nat)
    requires x < n
    ensures NameField(avail, n)[x] == if x < |avail| then NameByte(avail[x]) else 0
  {
    if x > 0 {
      NameFieldAt(if avail == [] then [] else avail[1..], n - 1, x - 1);
    }
  }

  /** The name loop writes only name bytes 8..15 of slot s: position x holds
      input byte x with CR/LF turned into 0 (later input bytes are still
      stored), and 0 past the input. */
  lemma NameWrite(e: seq<bv8>, s: SlotIndex, avail: seq<bv8>, x: nat, a: nat)
    requires |e| == EepromSize && x < 8 && a < EepromSize
    ensures |WithName(e, s, avail)| == EepromSize
    ensures Name(WithName(e, s, avail), s)[x] == if x < |avail| then NameByte(avail[x]) else 0
    ensures !(Base(s) + NameOffset <= a < Base(s) + RecordLen) ==> WithName(e, s, avail)[a] == e[a]
    ensures Id(WithName(e, s, avail), s) == Id(e, s)
  {
    var e' := WithName(e, s, avail);
    var field := NameField(avail, 8);
    OverwriteAt(e, Base(s) + NameOffset, field, Base(s) + NameOffset + x);
    NameFieldAt(avail, 8, x);
    OverwriteAt(e, Base(s) + NameOffset, field, a);
    forall b | Base(s) <= b < Base(s) + 8
      ensures e'[b] == e[b]
    {
      OverwriteAt(e, Base(s) + NameOffset, field, b);
    }
  }

  /** Clear zeroes exactly the 16 record bytes of slot s. */
  lemma ClearEffect(e: seq<bv8>, s: SlotIndex, a: nat)
    requires |e| == EepromSize && a < EepromSize
    ensures |Cleared(e, s)| == EepromSize
    ensures Cleared(e, s)[a] == if Base(s) <= a < Base(s) + RecordLen then 0 else e[a]
    ensures !Full(Cleared(e, s), s)
    ensures Id(Cleared(e, s), s) == Zeros(8) && Name(Cleared(e, s), s) == Zeros(8)
  {
    OverwriteAt(e, Base(s), Zeros(RecordLen), a);
    var e' := Cleared(e, s);
    forall b | Base(s) <= b < Base(s) + RecordLen
      ensures e'[b] == 0
    {
      OverwriteAt(e, Base(s), Zeros(RecordLen), b);
    }
    assert Id(e', s) == Zeros(8);
    assert Name(e', s) == Zeros(8);
  }

  /** The wipe empties every slot, identifier and name, and changes no byte
      outside the sixteen records. */
  lemma WipeEffect(e: seq<bv8>, t: SlotIndex, a: nat)
    requires |e| == EepromSize && a < EepromSize
    ensures |Wiped(e)| == EepromSize
    ensures Wiped(e)[a] == if InRecord(a) then 0 else e[a]
    ensures !Full(Wiped(e), t)
    ensures Id(Wiped(e), t) == Zeros(8) && Name(Wiped(e), t) == Zeros(8)
  {
    var w := Wiped(e);
    forall b | Base(t) <= b < Base(t) + RecordLen
      ensures w[b] == 0
    {
      assert InRecord(b);
    }
    assert Id(w, t) == Zeros(8);
    assert Name(w, t) == Zeros(8);
  }

  /** Storing a discovered identifier: the identifier bytes of slot s become
      id, its name and every other address keep their value. */
  lemma IdWrite(e: seq<bv8>, s: SlotIndex, id: seq<bv8>, a: nat)
    requires |e| == EepromSize && |id| == 8 && a < EepromSize
    ensures |WithId(e, s, id)| == EepromSize
    ensures Id(WithId(e, s, id), s) == id
    ensures Name(WithId(e, s, id), s) == Name(e, s)
    ensures !(Base(s) <= a < Base(s) + 8) ==> WithId(e, s, id)[a] == e[a]
  {
    var e' := WithId(e, s, id);
    OverwriteAt(e, Base(s), id, a);
    forall b | Base(s) + NameOffset <= b < Base(s) + RecordLen
      ensures e'[b] == e[b]
    {
      OverwriteAt(e, Base(s), id, b);
    }
    assert Name(e', s) == Name(e, s);
  }

  /** Clearing slot k of an image whose slots below k are wiped wipes the
      slots below k + 1: the step of the wipe's outer loop. */
  lemma WipeStep(e: seq<bv8>, k: SlotIndex)
    requires |e| == EepromSize
    ensures |WipedBelow(e, k)| == EepromSize
    ensures Cleared(WipedBelow(e, k), k) == WipedBelow(e, k + 1)
  {
    var w := WipedBelow(e, k);
    var c := Cleared(w, k);
    forall a | 0 <= a < EepromSize
      ensures c[a] == WipedBelow(e, k + 1)[a]
    {
      OverwriteAt(w, Base(k), Zeros(RecordLen), a);
    }
  }
}
