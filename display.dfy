/** The text the sketch renders for a slot (print_mem, print_mem_name and
    the lines of dump_all_mem_slots_to_serial), as the bytes sent on the
    serial line. The rest of the console chatter is not modelled. */
module Display {
  import opened Hex
  import opened SlotStore
  import SerialHex

  /** An ASCII string literal as bytes. */
  function Text(s: string): (bs: seq<bv8>)
    ensures |bs| == |s|
  {
    if s == [] then [] else [(s[0] as int % 256) as bv8] + Text(s[1..])
  }

  /** A hex digit as the byte that carries it. */
  function DigitByte(n: int): (d: bv8)
    requires 0 <= n < 16
    ensures d as int == HexChar(n)
  {
    HexChar(n) as bv8
  }

  /** Arduino's print(n, HEX): upper-case digits, no leading zeros. */
  function PrintHex(n: nat): seq<bv8>
  {
    if n < 16 then [DigitByte(n)] else PrintHex(n / 16) + [DigitByte(n % 16)]
  }

  /** One print_mem field: "0x", a "0" below 0x10, then print(curr_val, HEX). */
  function HexField(b: bv8): seq<bv8>
  {
    FieldOf(b as int)
  }

  function FieldOf(n: nat): seq<bv8>
  {
    [0x30, 0x78] + (if n < 0x10 then [0x30] else []) + PrintHex(n)
  }

  /** Texts with ", " between each two of them. */
  function Joined(fs: seq<seq<bv8>>): seq<bv8>
  {
    if fs == [] then []
    else fs[0] + (if |fs| > 1 then [0x2C, 0x20] else []) + Joined(fs[1..])
  }

  /** The fields of a byte list, separated by ", ". */
  function HexList(bs: seq<bv8>): seq<bv8>
  {
    Joined(seq(|bs|, i requires 0 <= i < |bs| => HexField(bs[i])))
  }

  /** print_mem(lower, upper, memSlot). */
  function PrintMem(e: seq<bv8>, lower: int, upper: int, s: SlotIndex): seq<bv8>
    requires |e| == EepromSize && 0 <= lower && upper <= SlotStride
  {
    if !Full(e, s) then Text("<EMPTY SLOT>")
    else if lower < upper then HexList(e[Base(s) + lower..Base(s) + upper])
    else []
  }

  /** The name bytes with each 0 shown as a space. */
  function NameText(name: seq<bv8>): seq<bv8>
  {
    if name == [] then [] else [if name[0] == 0 then 0x20 else name[0]] + NameText(name[1..])
  }

  /** print_mem_name(memSlot). */
  function PrintMemName(e: seq<bv8>, s: SlotIndex): seq<bv8>
    requires |e| == EepromSize
  {
    if e[Base(s) + NameOffset] == 0 then Text("<NONAME>") else NameText(Name(e, s))
  }

  /** One line of dump_all_mem_slots_to_serial. */
  function DumpLine(e: seq<bv8>, s: SlotIndex, active: SlotIndex, advanced: bool): seq<bv8>
    requires |e| == EepromSize
  {
    PrintHex(s) + Text(" : ") + PrintMemName(e, s) + Text(" : ")
    + PrintMem(e, 0, if advanced then 8 else 7, s)
    + (if s == active then Text("  <<ACTIVE>>  ") else []) + Text("\r\n")
  }

  function Ints(bs: seq<bv8>): (vs: seq<int>)
    ensures |vs| == |bs|
    ensures forall k :: 0 <= k < |bs| ==> vs[k] == bs[k] as int
  {
    if bs == [] then [] else [bs[0] as int] + Ints(bs[1..])
  }

  // ---- properties ----

  lemma FieldOfShape(n: nat)
    requires n < 256
    ensures FieldOf(n) == [0x30, 0x78, DigitByte(n / 16), DigitByte(n % 16)]
  {
    if n < 16 {
      assert DigitByte(0) == 0x30;
    } else {
      assert PrintHex(n / 16) == [DigitByte(n / 16)];
    }
  }

  /** Every field is "0x" and exactly two upper-case digits. */
  lemma HexFieldShape(b: bv8)
    ensures HexField(b) == [0x30, 0x78, DigitByte(b as int / 16), DigitByte(b as int % 16)]
  {
    FieldOfShape(b as int);
  }

  lemma HexFieldLength(b: bv8)
    ensures |HexField(b)| == 4
  {
    HexFieldShape(b);
  }

  /** Texts of four bytes each, joined: text k occupies offsets 6k..6k+3,
      followed by ", " unless it is the last. */
  lemma {:induction false} JoinedAt(fs: seq<seq<bv8>>, k: nat)
    requires k < |fs| && forall i :: 0 <= i < |fs| ==> |fs[i]| == 4
    ensures |Joined(fs)| == 6 * |fs| - 2
    ensures forall j :: 0 <= j < 4 ==> Joined(fs)[6 * k + j] == fs[k][j]
    ensures k + 1 < |fs| ==> Joined(fs)[6 * k + 4] == 0x2C && Joined(fs)[6 * k + 5] == 0x20
  {
    var head := fs[0] + (if |fs| > 1 then [0x2C, 0x20] else []);
    var rest := Joined(fs[1..]);
    assert Joined(fs) == head + rest;
    if |fs| == 1 {
      assert rest == [];
    } else {
      assert |head| == 6;
      JoinedAt(fs[1..], if k > 0 then k - 1 else 0);
    }
  }

  /** Item k occupies offsets 6k..6k+3 of the rendered list, followed by
      ", " unless it is the last. */
  lemma HexListAt(bs: seq<bv8>, k: nat)
    requires k < |bs|
    ensures |HexList(bs)| == 6 * |bs| - 2 && |HexField(bs[k])| == 4
    ensures forall j :: 0 <= j < 4 ==> HexList(bs)[6 * k + j] == HexField(bs[k])[j]
    ensures k + 1 < |bs| ==> HexList(bs)[6 * k + 4] == 0x2C && HexList(bs)[6 * k + 5] == 0x20
  {
    var fs := seq(|bs|, i requires 0 <= i < |bs| => HexField(bs[i]));
    forall i | 0 <= i < |fs|
      ensures |fs[i]| == 4
    {
      HexFieldLength(bs[i]);
    }
    JoinedAt(fs, k);
    assert HexList(bs) == Joined(fs);
    assert fs[k] == HexField(bs[k]);
  }

  /** print_mem's text for n values is six bytes per value less the final
      separator. */
  lemma HexListLength(bs: seq<bv8>)
    requires bs != []
    ensures |HexList(bs)| == 6 * |bs| - 2
  {
    HexListAt(bs, 0);
  }

  /** The bytes of item k in the rendered list: "0x", the two digits, and
      ", " unless it is the last item. */
  lemma FieldBytes(bs: seq<bv8>, k: nat)
    requires k < |bs|
    ensures |HexList(bs)| == 6 * |bs| - 2
    ensures HexList(bs)[6 * k] == 0x30 && HexList(bs)[6 * k + 1] == 0x78
    ensures HexList(bs)[6 * k + 2] == DigitByte(bs[k] as int / 16)
    ensures HexList(bs)[6 * k + 3] == DigitByte(bs[k] as int % 16)
    ensures k + 1 < |bs| ==> HexList(bs)[6 * k + 4] == 0x2C && HexList(bs)[6 * k + 5] == 0x20
  {
    HexListAt(bs, k);
    HexFieldShape(bs[k]);
    var f := HexField(bs[k]);
    assert HexList(bs)[6 * k] == f[0] && HexList(bs)[6 * k + 1] == f[1];
    assert HexList(bs)[6 * k + 2] == f[2] && HexList(bs)[6 * k + 3] == f[3];
  }

  lemma FramedByBytes(input: seq<bv8>, n: nat, k: nat)
    requires k < n && 6 * k + 1 < |input|
    requires input[6 * k] == 0x30 && input[6 * k + 1] == 0x78
    requires k + 1 < n ==> 6 * k + 5 < |input| && input[6 * k + 4] == 0x2C && input[6 * k + 5] == 0x20
    ensures SerialHex.Framed(input, n, k)
  {
  }

  /** The bytes at item k read as the framing and digits of that field. */
  lemma ItemAt(bs: seq<bv8>, tail: seq<bv8>, k: nat)
    requires k < |bs|
    ensures SerialHex.Framed(HexList(bs) + tail, |bs|, k)
    ensures HexStrToInt(SerialHex.Digits(HexList(bs) + tail, k)) == bs[k] as int
  {
    FieldBytes(bs, k);
    FramedByBytes(HexList(bs) + tail, |bs|, k);
    DigitsOfField(HexList(bs) + tail, bs[k], k);
  }

  lemma DigitsOfField(input: seq<bv8>, b: bv8, k: nat)
    requires 6 * k + 3 < |input|
    requires input[6 * k + 2] == DigitByte(b as int / 16) && input[6 * k + 3] == DigitByte(b as int % 16)
    ensures HexStrToInt(SerialHex.Digits(input, k)) == b as int
  {
    var n := b as int;
    assert SerialHex.Read(input, 6 * k + 2) == HexChar(n / 16);
    assert SerialHex.Read(input, 6 * k + 3) == HexChar(n % 16);
    HexStrToIntOfHexChars(n);
  }

  /** What print_mem shows for a list of bytes parses back to those bytes,
      whatever follows it in the buffer. */
  lemma IntsAt(bs: seq<bv8>, vs: seq<int>)
    requires |vs| == |bs| && forall k :: 0 <= k < |bs| ==> vs[k] == bs[k] as int
    ensures vs == Ints(bs)
  {
  }

  lemma HexListParses(bs: seq<bv8>, tail: seq<bv8>)
    ensures SerialHex.ParseSpec(HexList(bs) + tail, |bs|) == SerialHex.Parsed(Ints(bs), tail)
  {
    var n := |bs|;
    var list := HexList(bs);
    var input := list + tail;
    if n == 0 {
      assert list == [];
      assert input == tail;
      SerialHex.ParseSpecWellFormed(input, 0);
    } else {
      HexListLength(bs);
      assert SerialHex.Consumed(n) == |list|;
      forall k | 0 <= k < n
        ensures SerialHex.Framed(input, n, k)
        ensures HexStrToInt(SerialHex.Digits(input, k)) == bs[k] as int
      {
        ItemAt(bs, tail, k);
      }
      SerialHex.ParseSpecWellFormed(input, n);
      IntsAt(bs, SerialHex.Values(input, n));
      assert input[|list|..] == tail;
    }
  }

  /** Show round trip: the bytes "S" prints for a full slot in normal mode,
      typed back to "E", parse as the slot's first seven identifier bytes. */
  lemma ShowOutputParses(e: seq<bv8>, s: SlotIndex, tail: seq<bv8>)
    requires |e| == EepromSize && Full(e, s)
    ensures SerialHex.ParseSpec(PrintMem(e, 0, 7, s) + tail, 7) == SerialHex.Parsed(Ints(Id(e, s)[..7]), tail)
  {
    assert e[Base(s)..Base(s) + 7] == Id(e, s)[..7];
    HexListParses(Id(e, s)[..7], tail);
  }

  /** The same in advanced mode, where all eight bytes are shown and edited. */
  lemma ShowOutputParsesAdvanced(e: seq<bv8>, s: SlotIndex, tail: seq<bv8>)
    requires |e| == EepromSize && Full(e, s)
    ensures SerialHex.ParseSpec(PrintMem(e, 0, 8, s) + tail, 8) == SerialHex.Parsed(Ints(Id(e, s)), tail)
  {
    HexListParses(Id(e, s), tail);
  }

  lemma {:induction false} NameTextAt(name: seq<bv8>, x: nat)
    requires x < |name|
    ensures |NameText(name)| == |name|
    ensures NameText(name)[x] == if name[x] == 0 then 0x20 else name[x]
  {
    if x > 0 {
      NameTextAt(name[1..], x - 1);
    } else if |name| > 1 {
      NameTextAt(name[1..], 0);
    }
  }

  /** The name column is always eight characters: "<NONAME>" when the first
      name byte is 0, otherwise the name with each 0 shown as a space. */
  lemma PrintMemNameShape(e: seq<bv8>, s: SlotIndex)
    requires |e| == EepromSize
    ensures |PrintMemName(e, s)| == 8
    ensures e[Base(s) + NameOffset] == 0 ==> PrintMemName(e, s) == Text("<NONAME>")
    ensures e[Base(s) + NameOffset] != 0 ==> forall x :: 0 <= x < 8 ==>
      PrintMemName(e, s)[x] == if Name(e, s)[x] == 0 then 0x20 else Name(e, s)[x]
  {
    if e[Base(s) + NameOffset] != 0 {
      NameTextAt(Name(e, s), 0);
      forall x | 0 <= x < 8
        ensures PrintMemName(e, s)[x] == if Name(e, s)[x] == 0 then 0x20 else Name(e, s)[x]
      {
        NameTextAt(Name(e, s), x);
      }
    }
  }

  /** After a wipe every dump line reads "<NONAME> : <EMPTY SLOT>". */
  lemma WipedDumpLine(e: seq<bv8>, s: SlotIndex, active: SlotIndex, advanced: bool)
    requires |e| == EepromSize
    ensures DumpLine(Wiped(e), s, active, advanced) ==
      PrintHex(s) + Text(" : ") + Text("<NONAME>") + Text(" : ") + Text("<EMPTY SLOT>")
      + (if s == active then Text("  <<ACTIVE>>  ") else []) + Text("\r\n")
  {
    WipeEffect(e, s, Base(s) + NameOffset);
  }
}
