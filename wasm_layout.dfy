/**
 * The linear-memory layout helpers of the Wasm back end (`ClassInfo.kt`): little-endian `i32`
 * encoding, the WAT data-string form of bytes, and the `LM*` layout elements with their size,
 * bytes and textual dump.
 */
module WasmLayout {
  import Ints
  import Text

  /** A Kotlin `Byte`: a signed 8-bit value. */
  predicate IsByte(b: int) { -128 <= b <= 127 }

  /** `toByte()`: the low 8 bits of `v` read as a signed byte. */
  function ToByte(v: nat): (b: int)
    ensures IsByte(b)
  {
    var low := v % 256;
    if low >= 128 then low - 256 else low
  }

  /** `toUByte()`: a byte's bits read unsigned. */
  function ToUByte(b: int): (u: nat)
    ensures u < 256
  {
    b % 256
  }

  /** The 32-bit pattern of an `Int`, read unsigned. */
  function Bits(x: int): (u: nat)
    ensures u < Ints.TWO_32
  {
    x % Ints.TWO_32
  }

  /** `Int.toLittleEndianBytes()`: byte `i` is `(x ushr 8i).toByte()`. */
  function ToLittleEndianBytes(x: int): (r: seq<int>)
    ensures |r| == 4 && forall i :: 0 <= i < 4 ==> IsByte(r[i])
  {
    var u := Bits(x);
    [ToByte(u), ToByte(u / 0x100), ToByte(u / 0x1_0000), ToByte(u / 0x100_0000)]
  }

  /** Reading four little-endian bytes back as an `Int` (what `i32.load` does). */
  function FromLittleEndianBytes(b: seq<int>): (x: int)
    requires |b| == 4
    ensures Ints.IsInt(x)
  {
    Ints.WrapInt(ToUByte(b[0]) + 0x100 * ToUByte(b[1]) + 0x1_0000 * ToUByte(b[2]) + 0x100_0000 * ToUByte(b[3]))
  }

  lemma ByteBits(v: nat)
    ensures ToUByte(ToByte(v)) == v % 256
  {
  }

  lemma DigitsOfBits(u: nat)
    requires u < Ints.TWO_32
    ensures u == u % 0x100 + 0x100 * ((u / 0x100) % 0x100) + 0x1_0000 * ((u / 0x1_0000) % 0x100) + 0x100_0000 * (u / 0x100_0000)
    ensures u / 0x100_0000 < 0x100
  {
    var q1 := u / 0x100;
    var q2 := q1 / 0x100;
    var q3 := q2 / 0x100;
    assert u == u % 0x100 + 0x100 * q1;
    assert q1 == q1 % 0x100 + 0x100 * q2;
    assert q2 == q2 % 0x100 + 0x100 * q3;
    assert u / 0x1_0000 == q2;
    assert u / 0x100_0000 == q3;
  }

  /** Re-assembling the four bytes gives back the `Int`. */
  lemma LittleEndianRoundTrip(x: int)
    requires Ints.IsInt(x)
    ensures FromLittleEndianBytes(ToLittleEndianBytes(x)) == x
  {
    BytesSumToBits(x);
    WrapBits(x);
  }

  /** The four unsigned bytes of the encoding add up to the bit pattern. */
  lemma BytesSumToBits(x: int)
    ensures var b := ToLittleEndianBytes(x);
      ToUByte(b[0]) + 0x100 * ToUByte(b[1]) + 0x1_0000 * ToUByte(b[2]) + 0x100_0000 * ToUByte(b[3]) == Bits(x)
  {
    var u := Bits(x);
    var b := ToLittleEndianBytes(x);
    ByteBits(u);
    ByteBits(u / 0x100);
    ByteBits(u / 0x1_0000);
    ByteBits(u / 0x100_0000);
    DigitsOfBits(u);
    assert ToUByte(b[3]) == u / 0x100_0000;
  }

  /** Wrapping an `Int`'s bit pattern gives back the `Int`. */
  lemma WrapBits(x: int)
    requires Ints.IsInt(x)
    ensures Ints.WrapInt(Bits(x)) == x
  {
    assert (Bits(x) - x) % Ints.TWO_32 == 0;
  }

  /** Byte `i` of the encoding holds bits `8i .. 8i+7` of the value. */
  lemma LittleEndianBytesAreBits(x: int)
    ensures var b := ToLittleEndianBytes(x);
      ToUByte(b[0]) == Bits(x) % 0x100 && ToUByte(b[1]) == (Bits(x) / 0x100) % 0x100
      && ToUByte(b[2]) == (Bits(x) / 0x1_0000) % 0x100 && ToUByte(b[3]) == (Bits(x) / 0x100_0000) % 0x100
  {
    var u := Bits(x);
    ByteBits(u);
    ByteBits(u / 0x100);
    ByteBits(u / 0x1_0000);
    ByteBits(u / 0x100_0000);
  }

  /** The concatenated encodings of a list of words (`fold(byteArrayOf()) { acc + el.toLittleEndianBytes() }`). */
  function WordsToBytes(ws: seq<int>): (r: seq<int>)
    ensures |r| == 4 * |ws|
  {
    if ws == [] then [] else WordsToBytes(ws[..|ws| - 1]) + ToLittleEndianBytes(ws[|ws| - 1])
  }

  lemma {:induction false} WordsToBytesAppend(a: seq<int>, b: seq<int>)
    ensures WordsToBytes(a + b) == WordsToBytes(a) + WordsToBytes(b)
    decreases |b|
  {
    if b == [] {
      assert a + b == a;
    } else {
      var init := b[..|b| - 1];
      assert (a + b)[..|a + b| - 1] == a + init;
      assert (a + b)[|a + b| - 1] == b[|b| - 1];
      WordsToBytesAppend(a, init);
    }
  }

  /** Word `k` of a list sits at byte offset `4k` of its encoding. */
  lemma {:induction false} WordsToBytesAt(ws: seq<int>, k: nat)
    requires k < |ws|
    ensures WordsToBytes(ws)[4 * k .. 4 * k + 4] == ToLittleEndianBytes(ws[k])
    decreases |ws|
  {
    var init := ws[..|ws| - 1];
    if k < |init| {
      WordsToBytesAt(init, k);
      assert WordsToBytes(ws)[4 * k .. 4 * k + 4] == WordsToBytes(init)[4 * k .. 4 * k + 4];
    } else {
      assert WordsToBytes(ws)[4 * k .. 4 * k + 4] == ToLittleEndianBytes(ws[|ws| - 1]);
    }
  }

  // ---------------------------------------------------------------------------
  // WAT data strings.

  /** `toString(16)`: lower-case hexadecimal digits without leading zeros. */
  function HexString(n: nat): (r: string)
    ensures 1 <= |r|
    ensures n < 16 ==> |r| == 1
    ensures 16 <= n < 256 ==> |r| == 2
    decreases n
  {
    if n < 16 then [Text.DigitChar(n)] else HexString(n / 16) + [Text.DigitChar(n % 16)]
  }

  /** `padStart(length, c)`. */
  function PadStart(s: string, length: nat, c: char): (r: string)
    ensures |r| == if |s| < length then length else |s|
    ensures |s| < length ==> r[length - |s|..] == s && forall i :: 0 <= i < length - |s| ==> r[i] == c
    ensures |s| >= length ==> r == s
  {
    if |s| < length then seq(length - |s|, _ => c) + s else s
  }

  /** `Byte.toWatData()`: a backslash and two hexadecimal digits. */
  function ByteToWatData(b: int): (r: string)
    ensures |r| == 3 && r[0] == '\\'
  {
    "\\" + PadStart(HexString(ToUByte(b)), 2, '0')
  }

  /** The two digits are the high and the low half of the unsigned byte, zero-padded. */
  lemma ByteToWatDataDigits(b: int)
    ensures ByteToWatData(b)[1..] == [Text.DigitChar(ToUByte(b) / 16), Text.DigitChar(ToUByte(b) % 16)]
  {
    var u := ToUByte(b);
    var h := HexString(u);
    var padded := PadStart(h, 2, '0');
    assert ByteToWatData(b)[1..] == padded;
    if u < 16 {
      assert h == [Text.DigitChar(u)];
      assert padded == ['0'] + h;
    } else {
      assert h == HexString(u / 16) + [Text.DigitChar(u % 16)];
    }
  }

  /** `ByteArray.toWatData()`. */
  function BytesToWatData(bs: seq<int>): (r: string)
    ensures |r| == 3 * |bs|
  {
    if bs == [] then [] else BytesToWatData(bs[..|bs| - 1]) + ByteToWatData(bs[|bs| - 1])
  }

  /** Byte `i` is written at characters `3i .. 3i+2`. */
  lemma {:induction false} BytesToWatDataAt(bs: seq<int>, i: nat)
    requires i < |bs|
    ensures BytesToWatData(bs)[3 * i .. 3 * i + 3] == ByteToWatData(bs[i])
    decreases |bs|
  {
    var init := bs[..|bs| - 1];
    var front := BytesToWatData(init);
    var last := ByteToWatData(bs[|bs| - 1]);
    assert BytesToWatData(bs) == front + last;
    var lo := 3 * i;
    if i < |init| {
      BytesToWatDataAt(init, i);
      SliceOfConcat(front, last, lo, lo + 3);
      calc {
        BytesToWatData(bs)[lo .. lo + 3];
        front[lo .. lo + 3];
        ByteToWatData(init[i]);
        { assert init[i] == bs[i]; }
        ByteToWatData(bs[i]);
      }
    } else {
      assert lo == |front| && lo + 3 == |front| + |last|;
      SliceOfConcat(front, last, lo, lo + 3);
      assert last[0..3] == last;
      assert bs[i] == bs[|bs| - 1];
    }
  }

  /** A slice of a concatenation that lies within one of its two parts. */
  lemma SliceOfConcat(a: string, b: string, lo: nat, hi: nat)
    requires lo <= hi <= |a| + |b|
    ensures hi <= |a| ==> (a + b)[lo..hi] == a[lo..hi]
    ensures |a| <= lo ==> (a + b)[lo..hi] == b[lo - |a|..hi - |a|]
  {
  }

  // ---------------------------------------------------------------------------
  // Layout elements.

  datatype LMElement =
    | LMFieldI32(name: string, value: int)
    | LMArrayI32(arrayName: string, values: seq<int>)
    | LMStruct(structName: string, elements: seq<LMElement>)

  function SizeInBytes(e: LMElement): (n: nat)
    decreases e, 1
  {
    match e
    case LMFieldI32(_, _) => 4
    case LMArrayI32(_, vs) => 4 * |vs|
    case LMStruct(_, es) => SumSizes(e, |es|)
  }

  /** The sizes of the first `n` elements of the struct `s`. */
  function SumSizes(s: LMElement, n: nat): nat
    requires s.LMStruct? && n <= |s.elements|
    decreases s, 0, n
  {
    if n == 0 then 0 else SumSizes(s, n - 1) + SizeInBytes(s.elements[n - 1])
  }

  function ToBytes(e: LMElement): seq<int>
    decreases e, 1
  {
    match e
    case LMFieldI32(_, v) => ToLittleEndianBytes(v)
    case LMArrayI32(_, vs) => WordsToBytes(vs)
    case LMStruct(_, es) => ElementsBytes(e, |es|)
  }

  function ElementsBytes(s: LMElement, n: nat): seq<int>
    requires s.LMStruct? && n <= |s.elements|
    decreases s, 0, n
  {
    if n == 0 then [] else ElementsBytes(s, n - 1) + ToBytes(s.elements[n - 1])
  }

  /** For every element, `toBytes().size == sizeInBytes`. */
  lemma {:induction false} BytesMatchSize(e: LMElement)
    ensures |ToBytes(e)| == SizeInBytes(e)
    decreases e, 1
  {
    if e.LMStruct? { ElementsBytesMatchSize(e, |e.elements|); }
  }

  lemma {:induction false} ElementsBytesMatchSize(s: LMElement, n: nat)
    requires s.LMStruct? && n <= |s.elements|
    ensures |ElementsBytes(s, n)| == SumSizes(s, n)
    decreases s, 0, n
  {
    if n > 0 {
      ElementsBytesMatchSize(s, n - 1);
      BytesMatchSize(s.elements[n - 1]);
    }
  }

  /** `contentToString()` of an `IntArray`. */
  function ContentToString(vs: seq<int>): string
  {
    "[" + Text.Join(seq(|vs|, i requires 0 <= i < |vs| => Text.IntToString(vs[i])), ", ") + "]"
  }

  function Dump(e: LMElement, indent: string, startAddress: int): string
    decreases e, 1
  {
    match e
    case LMFieldI32(name, v) =>
      Text.IntToString(startAddress) + ": " + indent + " i32   : " + Text.IntToString(v) + "      // " + name + "\n"
    case LMArrayI32(name, vs) =>
      if vs == [] then ""
      else Text.IntToString(startAddress) + ": " + indent + " i32[] : " + ContentToString(vs) + "      // " + name + "\n"
    case LMStruct(name, es) =>
      indent + "// " + name + "\n" + DumpElements(e, |es|, indent + "  ", startAddress)
  }

  /**
   * The dumps of the first `n` elements of `s`, each at the struct's start plus the sizes of the
   * elements before it.
   */
  function DumpElements(s: LMElement, n: nat, indent: string, startAddress: int): string
    requires s.LMStruct? && n <= |s.elements|
    decreases s, 0, n
  {
    if n == 0 then ""
    else DumpElements(s, n - 1, indent, startAddress) + Dump(s.elements[n - 1], indent, startAddress + SumSizes(s, n - 1))
  }

  lemma DumpOfStruct(s: LMElement, indent: string, startAddress: int)
    requires s.LMStruct?
    ensures Dump(s, indent, startAddress)
      == indent + "// " + s.structName + "\n" + DumpElements(s, |s.elements|, indent + "  ", startAddress)
  {
  }

  lemma DumpElementsNext(s: LMElement, i: nat, indent: string, startAddress: int)
    requires s.LMStruct? && i < |s.elements|
    ensures DumpElements(s, i + 1, indent, startAddress)
      == DumpElements(s, i, indent, startAddress) + Dump(s.elements[i], indent, startAddress + SumSizes(s, i))
  {
    var n := i + 1;
    assert n - 1 == i && n != 0;
  }

  /** One turn of the dump loop: the next element is dumped at the running address, which then moves past it. */
  lemma DumpStep(s: LMElement, i: nat, indent: string, startAddress: int, res: string, addr: int)
    requires s.LMStruct? && i < |s.elements|
    requires res == DumpElements(s, i, indent, startAddress) && addr == startAddress + SumSizes(s, i)
    ensures res + Dump(s.elements[i], indent, addr) == DumpElements(s, i + 1, indent, startAddress)
    ensures addr + SizeInBytes(s.elements[i]) == startAddress + SumSizes(s, i + 1)
  {
    DumpElementsNext(s, i, indent, startAddress);
  }

  /** `LMStruct.dump`: the header line, then each element one indent deeper at its running address. */
  method DumpStruct(s: LMElement, indent: string, startAddress: int) returns (res: string)
    requires s.LMStruct?
    ensures res == Dump(s, indent, startAddress)
  {
    var body := DumpStructElements(s, indent + "  ", startAddress);
    res := indent + "// " + s.structName + "\n" + body;
    DumpOfStruct(s, indent, startAddress);
  }

  /** The loop of `LMStruct.dump` over `elements`, advancing `elemStartAddr` by each element's size. */
  method DumpStructElements(s: LMElement, inner: string, startAddress: int) returns (res: string)
    requires s.LMStruct?
    ensures res == DumpElements(s, |s.elements|, inner, startAddress)
  {
    res := "";
    var elemStartAddr := startAddress;
    var i := 0;
    while i < |s.elements|
      invariant 0 <= i <= |s.elements|
      invariant elemStartAddr == startAddress + SumSizes(s, i)
      invariant res == DumpElements(s, i, inner, startAddress)
    {
      var el := s.elements[i];
      DumpStep(s, i, inner, startAddress, res, elemStartAddr);
      res := res + Dump(el, inner, elemStartAddr);
      elemStartAddr := elemStartAddr + SizeInBytes(el);
      i := i + 1;
    }
  }

  /** A struct's size is the sum of its elements' sizes, so element `j` starts after the first `j`. */
  lemma {:induction false} SumSizesSplit(s: LMElement, j: nat, n: nat)
    requires s.LMStruct? && j < n <= |s.elements|
    ensures SumSizes(s, n) >= SumSizes(s, j) + SizeInBytes(s.elements[j])
    decreases n
  {
    if j < n - 1 { SumSizesSplit(s, j, n - 1); }
  }

  lemma EmptyArrayDumpsNothing(name: string, indent: string, startAddress: int)
    ensures Dump(LMArrayI32(name, []), indent, startAddress) == ""
    ensures SizeInBytes(LMArrayI32(name, [])) == 0
  {
  }

  /** `VirtualMethodMetadata` and `ClassMetadata.virtualMethodsSignatures`. */
  datatype VirtualMethodMetadata = VirtualMethodMetadata(func: nat, signature: nat)

  function Signatures(vms: seq<VirtualMethodMetadata>): (r: set<nat>)
    ensures forall i :: 0 <= i < |vms| ==> vms[i].signature in r
    ensures forall s :: s in r ==> exists i :: 0 <= i < |vms| && vms[i].signature == s
  {
    set i | 0 <= i < |vms| :: vms[i].signature
  }
}
