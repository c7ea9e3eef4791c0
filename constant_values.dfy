/**
 * `ConstantValue` and its subclasses: compile-time constants with equality on their boxed value,
 * a hash of 0 for the `null` value, and their textual renderings. `ErrorValue` has no value:
 * reading it throws.
 */
module ConstantValues {
  import opened Wrappers
  import Ints
  import Text

  /** `ClassId` of an enum class: its package and its (non-empty) relative class name. */
  datatype ClassId = ClassId(packageFqName: seq<string>, relativeClassName: seq<string>)

  /** The boxed value a constant holds, tagged with its run-time class (a `Byte` 1 is not an `Int` 1). */
  datatype BoxedValue =
    | BooleanBox(b: bool)
    | ByteBox(i: int)
    | CharBox(code: int)
    | ShortBox(i: int)
    | IntBox(i: int)
    | LongBox(i: int)
    | StringBox(s: string)
    | EnumPair(classId: ClassId, entry: string)
    | NullBox

  datatype ConstantValue =
    | BooleanValue(b: bool)
    | ByteValue(byte: int)
    | CharValue(code: int)
    | ShortValue(short: int)
    | IntValue(intValue: int)
    | LongValue(long: int)
    | StringValue(str: string)
    | EnumValue(enumClassId: ClassId, enumEntryName: string)
    | NullValue
    | ErrorValueWithMessage(message: string)

  /** Each integer constant holds a value of its Kotlin type's width. */
  predicate Valid(c: ConstantValue)
  {
    match c
    case ByteValue(v) => Ints.BYTE_MIN <= v <= Ints.BYTE_MAX
    case ShortValue(v) => Ints.SHORT_MIN <= v <= Ints.SHORT_MAX
    case IntValue(v) => Ints.IsInt(v)
    case LongValue(v) => Ints.IsLong(v)
    case CharValue(v) => Ints.CHAR_MIN <= v <= Ints.CHAR_MAX
    case EnumValue(id, _) => id.relativeClassName != []
    case _ => true
  }

  /** The `value` property; `ErrorValue` throws `UnsupportedOperationException`. */
  function Value(c: ConstantValue): (r: Result<BoxedValue>)
    ensures r.Err? <==> c.ErrorValueWithMessage?
    ensures r == Ok(NullBox) <==> c.NullValue?
  {
    match c
    case BooleanValue(b) => Ok(BooleanBox(b))
    case ByteValue(v) => Ok(ByteBox(v))
    case CharValue(v) => Ok(CharBox(v))
    case ShortValue(v) => Ok(ShortBox(v))
    case IntValue(v) => Ok(IntBox(v))
    case LongValue(v) => Ok(LongBox(v))
    case StringValue(s) => Ok(StringBox(s))
    case EnumValue(id, e) => Ok(EnumPair(id, e))
    case NullValue => Ok(NullBox)
    case ErrorValueWithMessage(_) => Err("UnsupportedOperationException")
  }

  /**
   * `equals`: true for the same object, otherwise the two values compared with `==`; reading the
   * value of an `ErrorValue` throws.
   */
  function Equals(a: ConstantValue, b: ConstantValue, sameObject: bool): (r: Result<bool>)
    requires sameObject ==> a == b
    ensures sameObject ==> r == Ok(true)
    ensures !sameObject && (a.ErrorValueWithMessage? || b.ErrorValueWithMessage?) ==> r.Err?
    ensures !sameObject && !a.ErrorValueWithMessage? && !b.ErrorValueWithMessage? ==> r == Ok(a == b)
  {
    if sameObject then Ok(true)
    else match (Value(a), Value(b))
      case (Ok(x), Ok(y)) => Ok(x == y)
      case (Err(e), _) => Err(e)
      case (_, Err(e)) => Err(e)
  }

  /** `hashCode`: the value's hash (`valueHash`, the JVM's), or 0 for the `null` value. */
  function HashCode(c: ConstantValue, valueHash: BoxedValue -> int): (r: Result<int>)
    ensures c.NullValue? ==> r == Ok(0)
    ensures r.Err? <==> c.ErrorValueWithMessage?
  {
    match Value(c)
    case Err(e) => Err(e)
    case Ok(NullBox) => Ok(0)
    case Ok(v) => Ok(valueHash(v))
  }

  /** Equal constants have equal hash codes. */
  lemma EqualsImpliesEqualHash(a: ConstantValue, b: ConstantValue, sameObject: bool, valueHash: BoxedValue -> int)
    requires sameObject ==> a == b
    requires Equals(a, b, sameObject) == Ok(true)
    ensures HashCode(a, valueHash) == HashCode(b, valueHash)
  {
  }

  function UpperHexDigit(d: nat): (c: char)
    requires d < 16
  {
    "0123456789ABCDEF"[d]
  }

  /** `%04X` of a `Char` code: exactly four upper-case hexadecimal digits. */
  function Hex4(code: int): (r: string)
    requires 0 <= code <= 0xffff
    ensures |r| == 4
  {
    var q1 := code / 16;
    var q2 := q1 / 16;
    var q3 := q2 / 16;
    [UpperHexDigit(q3), UpperHexDigit(q2 % 16), UpperHexDigit(q1 % 16), UpperHexDigit(code % 16)]
  }

  function UpperHexValue(c: char): (d: int)
  {
    if '0' <= c <= '9' then (c - '0') as int else if 'A' <= c <= 'F' then (c - 'A') as int + 10 else -1
  }

  lemma UpperHexDigitValue(d: nat)
    requires d < 16
    ensures UpperHexValue(UpperHexDigit(d)) == d
  {
    var digits := "0123456789ABCDEF";
    assert digits[d] == ['0', '1', '2', '3', '4', '5', '6', '7', '8', '9', 'A', 'B', 'C', 'D', 'E', 'F'][d];
  }

  /** The four digits read back as hexadecimal give the code. */
  lemma Hex4RoundTrip(code: int)
    requires 0 <= code <= 0xffff
    ensures var h := Hex4(code);
      UpperHexValue(h[0]) * 0x1000 + UpperHexValue(h[1]) * 0x100 + UpperHexValue(h[2]) * 0x10 + UpperHexValue(h[3]) == code
  {
    var q1 := code / 16;
    var q2 := q1 / 16;
    var q3 := q2 / 16;
    UpperHexDigitValue(q3);
    UpperHexDigitValue(q2 % 16);
    UpperHexDigitValue(q1 % 16);
    UpperHexDigitValue(code % 16);
    assert code == q1 * 16 + code % 16;
    assert q1 == q2 * 16 + q1 % 16;
    assert q2 == q3 * 16 + q2 % 16;
  }

  predicate IsSurrogate(code: int) { 0xd800 <= code <= 0xdfff }

  /**
   * `getPrintablePart`: the escapes for backspace, tab, newline, form feed and carriage return,
   * the character itself when it is printable, else "?". `printable` stands for the
   * `Character.getType` categories other than surrogates, which are never printable.
   */
  function PrintablePart(code: int, printable: int -> bool): (r: string)
    requires 0 <= code <= 0xffff
    ensures 1 <= |r| <= 2
    ensures |r| == 2 <==> code in {8, 9, 10, 12, 13}
    ensures r == "?" <==> !(code in {8, 9, 10, 12, 13}) && (IsSurrogate(code) || !printable(code) || code == '?' as int)
  {
    if code == 8 then "\\b"
    else if code == 9 then "\\t"
    else if code == 10 then "\\n"
    else if code == 12 then "\\f"
    else if code == 13 then "\\r"
    else if !IsSurrogate(code) && printable(code) then [code as char]
    else "?"
  }

  /** `ClassId.shortClassName`: the last segment of the relative class name. */
  function ShortClassName(id: ClassId): string
    requires id.relativeClassName != []
  {
    id.relativeClassName[|id.relativeClassName| - 1]
  }

  /** `toString` of each constant. */
  function Render(c: ConstantValue, printable: int -> bool): (r: string)
    requires Valid(c)
    ensures c.BooleanValue? ==> (r == "true" <==> c.b) && (r == "false" <==> !c.b)
    ensures c.StringValue? ==> |r| == |c.str| + 2 && r[0] == '"' && r[|r| - 1] == '"' && r[1..|r| - 1] == c.str
    ensures c.NullValue? ==> r == "null"
    ensures c.ErrorValueWithMessage? ==> r == c.message
  {
    match c
    case BooleanValue(b) => if b then "true" else "false"
    case ByteValue(v) => Text.IntToString(v) + ".toByte()"
    case ShortValue(v) => Text.IntToString(v) + ".toShort()"
    case IntValue(v) => Text.IntToString(v)
    case LongValue(v) => Text.IntToString(v) + ".toLong()"
    case CharValue(v) => "\\u" + Hex4(v) + " ('" + PrintablePart(v, printable) + "')"
    case StringValue(s) => "\"" + s + "\""
    case EnumValue(id, e) => ShortClassName(id) + "." + e
    case NullValue => "null"
    case ErrorValueWithMessage(m) => m
  }

  predicate IsIntegerConstant(c: ConstantValue)
  {
    c.ByteValue? || c.ShortValue? || c.IntValue? || c.LongValue?
  }

  /** The suffix after the digits: it names the kind of an integer constant. */
  function KindSuffix(c: ConstantValue): string
  {
    match c
    case ByteValue(_) => ".toByte()"
    case ShortValue(_) => ".toShort()"
    case LongValue(_) => ".toLong()"
    case _ => ""
  }

  function IntegerOf(c: ConstantValue): int
    requires IsIntegerConstant(c)
  {
    match c
    case ByteValue(v) => v
    case ShortValue(v) => v
    case IntValue(v) => v
    case LongValue(v) => v
  }

  lemma RenderIsDigitsThenSuffix(c: ConstantValue, printable: int -> bool)
    requires Valid(c) && IsIntegerConstant(c)
    ensures Render(c, printable) == Text.IntToString(IntegerOf(c)) + KindSuffix(c)
  {
  }

  lemma IntToStringEndsInDigit(i: int)
    ensures var s := Text.IntToString(i); |s| >= 1 && '0' <= s[|s| - 1] <= '9'
  {
  }

  /**
   * Integer constants render injectively: two Byte/Short/Int/Long constants with the same text are
   * equal (same kind and same value), so the rendering can be read back.
   */
  lemma IntegerRenderingIsInjective(a: ConstantValue, b: ConstantValue, printable: int -> bool)
    requires Valid(a) && Valid(b) && IsIntegerConstant(a) && IsIntegerConstant(b)
    requires Render(a, printable) == Render(b, printable)
    ensures a == b
  {
    RenderIsDigitsThenSuffix(a, printable);
    RenderIsDigitsThenSuffix(b, printable);
    var da, db := Text.IntToString(IntegerOf(a)), Text.IntToString(IntegerOf(b));
    var sa, sb := KindSuffix(a), KindSuffix(b);
    assert da + sa == db + sb;
    IntToStringEndsInDigit(IntegerOf(a));
    IntToStringEndsInDigit(IntegerOf(b));
    SameSuffix(da, sa, db, sb, a, b);
    assert da == (da + sa)[..|da|] == (db + sb)[..|db|] == db;
    Text.IntToStringInjective(IntegerOf(a), IntegerOf(b));
  }

  /** Digits never end in ')' and the three suffixes differ, so equal texts have equal suffixes. */
  lemma SameSuffix(da: string, sa: string, db: string, sb: string, a: ConstantValue, b: ConstantValue)
    requires IsIntegerConstant(a) && IsIntegerConstant(b) && sa == KindSuffix(a) && sb == KindSuffix(b)
    requires |da| >= 1 && '0' <= da[|da| - 1] <= '9' && |db| >= 1 && '0' <= db[|db| - 1] <= '9'
    requires da + sa == db + sb
    ensures sa == sb && a.ByteValue? == b.ByteValue? && a.ShortValue? == b.ShortValue? && a.IntValue? == b.IntValue?
  {
    var t := da + sa;
    assert t[|t| - 1] == (if sa == "" then da[|da| - 1] else ')');
    assert t[|t| - 1] == (if sb == "" then db[|db| - 1] else ')');
    if sa != "" && sb != "" {
      assert t[|t| - 3] == sa[|sa| - 3] && t[|t| - 3] == sb[|sb| - 3];
      assert t[|t| - 4] == sa[|sa| - 4] && t[|t| - 4] == sb[|sb| - 4];
    }
  }

  /** A `Char` renders as `\uXXXX ('p')`: four upper-case digits that read back as its code. */
  lemma CharRendering(code: int, printable: int -> bool)
    requires 0 <= code <= 0xffff
    ensures var r := Render(CharValue(code), printable); var p := PrintablePart(code, printable);
      r[..2] == "\\u" && r[6..9] == " ('" && r[9..9 + |p|] == p && r[9 + |p|..] == "')"
      && UpperHexValue(r[2]) * 0x1000 + UpperHexValue(r[3]) * 0x100 + UpperHexValue(r[4]) * 0x10 + UpperHexValue(r[5]) == code
  {
    Hex4RoundTrip(code);
    var r := Render(CharValue(code), printable);
    assert r == "\\u" + Hex4(code) + " ('" + PrintablePart(code, printable) + "')";
  }

  /** A string constant renders between double quotes, so its value can be read back. */
  lemma StringRenderingRoundTrip(s: string, printable: int -> bool)
    ensures var r := Render(StringValue(s), printable);
      |r| == |s| + 2 && r[0] == '"' && r[|r| - 1] == '"' && r[1..|r| - 1] == s
  {
  }

  /** An enum constant renders as its class's short name, a dot and the entry's name. */
  lemma EnumRendering(id: ClassId, entry: string, printable: int -> bool)
    requires id.relativeClassName != [] && '.' !in ShortClassName(id)
    ensures var r := Render(EnumValue(id, entry), printable);
      r == ShortClassName(id) + "." + entry && Text.SubstringBefore(r, '.') == ShortClassName(id)
  {
    var short := ShortClassName(id);
    var r := short + "." + entry;
    assert r[|short|] == '.';
    assert forall i :: 0 <= i < |short| ==> r[i] == short[i];
    SubstringBeforeAt(r, '.', |short|);
  }

  lemma SubstringBeforeAt(s: string, c: char, k: nat)
    requires k < |s| && s[k] == c && forall i :: 0 <= i < k ==> s[i] != c
    ensures Text.SubstringBefore(s, c) == s[..k]
  {
  }
}
