/** Hexadecimal text of bytes, as used for the stored Merkle root. Text is taken as its bytes. */
module Hex {
  import opened Wrappers

  type Byte = b: int | 0 <= b < 256

  function FromDigit(d: int): Byte
    requires 0 <= d < 16
  {
    if d < 10 then 48 + d else 87 + d
  }

  /** Both cases are read, lower case is written. */
  function ToDigit(c: Byte): (d: Option<int>)
    ensures d.Some? ==> 0 <= d.value < 16
  {
    if 48 <= c <= 57 then Some(c - 48)
    else if 97 <= c <= 102 then Some(c - 87)
    else if 65 <= c <= 70 then Some(c - 55)
    else None
  }

  function Encode(bytes: seq<Byte>): (text: seq<Byte>)
    ensures |text| == 2 * |bytes|
  {
    if bytes == [] then []
    else
      var b := bytes[|bytes| - 1];
      Encode(bytes[..|bytes| - 1]) + [FromDigit(b / 16), FromDigit(b % 16)]
  }

  predicate IsHex(text: seq<Byte>) { |text| % 2 == 0 && forall i :: 0 <= i < |text| ==> ToDigit(text[i]).Some? }

  function Pairs(text: seq<Byte>): (bytes: seq<Byte>)
    requires IsHex(text)
    ensures |bytes| == |text| / 2
  {
    seq(|text| / 2, i requires 0 <= i < |text| / 2 => ToDigit(text[2 * i]).value * 16 + ToDigit(text[2 * i + 1]).value)
  }

  method HexEncode(bytes: seq<Byte>) returns (text: seq<Byte>)
    ensures text == Encode(bytes)
  {
    text := [];
    for i := 0 to |bytes|
      invariant text == Encode(bytes[..i])
    {
      assert bytes[..i + 1][..i] == bytes[..i];
      text := text + [FromDigit(bytes[i] / 16)];
      text := text + [FromDigit(bytes[i] % 16)];
      assert text == Encode(bytes[..i]) + [FromDigit(bytes[i] / 16), FromDigit(bytes[i] % 16)];
    }
    assert bytes[..|bytes|] == bytes;
  }

  /** Fails exactly on text of odd length or with a character that is no digit. */
  method HexDecode(text: seq<Byte>) returns (r: Option<seq<Byte>>)
    ensures r == if IsHex(text) then Some(Pairs(text)) else None
  {
    if |text| % 2 != 0 {
      return None;
    }
    var out: seq<Byte> := [];
    for i := 0 to |text| / 2
      invariant |out| == i && forall k :: 0 <= k < 2 * i ==> ToDigit(text[k]).Some?
      invariant forall k :: 0 <= k < i ==> out[k] == ToDigit(text[2 * k]).value * 16 + ToDigit(text[2 * k + 1]).value
    {
      var hi, lo := ToDigit(text[2 * i]), ToDigit(text[2 * i + 1]);
      if hi.None? || lo.None? {
        return None;
      }
      out := out + [hi.value * 16 + lo.value];
    }
    assert out == Pairs(text);
    r := Some(out);
  }

  lemma DigitBack(d: int)
    requires 0 <= d < 16
    ensures ToDigit(FromDigit(d)) == Some(d)
  {
  }

  function Lower(c: Byte): Byte { if 65 <= c <= 70 then c + 32 else c }

  function Lowered(text: seq<Byte>): seq<Byte> { seq(|text|, i requires 0 <= i < |text| => Lower(text[i])) }

  lemma DigitForth(c: Byte)
    requires ToDigit(c).Some?
    ensures FromDigit(ToDigit(c).value) == Lower(c)
  {
  }

  lemma EncodeSnoc(bytes: seq<Byte>, b: Byte)
    ensures Encode(bytes + [b]) == Encode(bytes) + [FromDigit(b / 16), FromDigit(b % 16)]
  {
    assert (bytes + [b])[..|bytes|] == bytes;
  }

  lemma PairsSnoc(text: seq<Byte>, hi: Byte, lo: Byte)
    requires IsHex(text) && ToDigit(hi).Some? && ToDigit(lo).Some?
    ensures IsHex(text + [hi, lo])
    ensures Pairs(text + [hi, lo]) == Pairs(text) + [ToDigit(hi).value * 16 + ToDigit(lo).value]
  {
    hide ToDigit;
    var longer := text + [hi, lo];
    assert longer[|text|] == hi && longer[|text| + 1] == lo && forall i :: 0 <= i < |text| ==> longer[i] == text[i];
    assert |longer| / 2 == |text| / 2 + 1 && 2 * (|text| / 2) == |text|;
  }

  /** Decoding undoes encoding, for every string of bytes. */
  lemma {:induction false} DecodeOfEncode(bytes: seq<Byte>)
    ensures IsHex(Encode(bytes)) && Pairs(Encode(bytes)) == bytes
  {
    if bytes != [] {
      hide Encode, IsHex, Pairs, ToDigit, FromDigit;
      var before, b := bytes[..|bytes| - 1], bytes[|bytes| - 1];
      assert bytes == before + [b];
      DecodeOfEncode(before);
      EncodeSnoc(before, b);
      DigitBack(b / 16);
      DigitBack(b % 16);
      PairsSnoc(Encode(before), FromDigit(b / 16), FromDigit(b % 16));
    }
  }

  lemma NoPairs()
    ensures IsHex([]) && Encode(Pairs([])) == [] && Lowered([]) == []
  {
  }

  lemma LastPair(text: seq<Byte>)
    requires IsHex(text) && text != []
    ensures |text| >= 2 && IsHex(text[..|text| - 2])
    ensures ToDigit(text[|text| - 2]).Some? && ToDigit(text[|text| - 1]).Some?
  {
  }

  lemma PairForth(hi: Byte, lo: Byte)
    requires ToDigit(hi).Some? && ToDigit(lo).Some?
    ensures var b := ToDigit(hi).value * 16 + ToDigit(lo).value;
      FromDigit(b / 16) == Lower(hi) && FromDigit(b % 16) == Lower(lo)
  {
    hide ToDigit, FromDigit, Lower;
    DigitForth(hi);
    DigitForth(lo);
  }

  lemma LoweredSnoc(text: seq<Byte>, hi: Byte, lo: Byte)
    ensures Lowered(text + [hi, lo]) == Lowered(text) + [Lower(hi), Lower(lo)]
  {
  }

  /** Encoding undoes decoding up to the case of the letters. */
  lemma {:induction false} EncodeOfDecode(text: seq<Byte>)
    requires IsHex(text)
    ensures Encode(Pairs(text)) == Lowered(text)
    decreases |text|
  {
    hide IsHex, Lowered, ToDigit, FromDigit, Lower, Pairs, Encode;
    if text == [] {
      NoPairs();
    } else {
      LastPair(text);
      var before, hi, lo := text[..|text| - 2], text[|text| - 2], text[|text| - 1];
      assert text == before + [hi, lo];
      EncodeOfDecode(before);
      PairsSnoc(before, hi, lo);
      EncodeSnoc(Pairs(before), ToDigit(hi).value * 16 + ToDigit(lo).value);
      PairForth(hi, lo);
      LoweredSnoc(before, hi, lo);
    }
  }
}

/** Canonical leaf bytes of every persisted record: a section tag, then fixed-width little-endian
    numbers and length-prefixed strings. Floating-point numbers and signed integers are their bits. */
module Leaves {
  import opened Hex

  const TWO_32: nat := 0x1_0000_0000
  const TWO_64: nat := 0x1_0000_0000_0000_0000

  type Word32 = n: nat | n < TWO_32
  type Word64 = n: nat | n < TWO_64
  type Text = seq<Byte>

  /** The bits of 1.0 as a 32-bit float. */
  const ONE: Word32 := 0x3F80_0000

  // ---- Fields ----------------------------------------------------------------------------

  datatype Field = Number(width: nat, value: nat) | String(text: Text) | Floats(words: seq<Word32>)

  function LittleEndian(n: nat, width: nat): (bytes: seq<Byte>)
    ensures |bytes| == width
  {
    if width == 0 then [] else [n % 256] + LittleEndian(n / 256, width - 1)
  }

  function Capacity(width: nat): nat { if width == 0 then 1 else 256 * Capacity(width - 1) }

  /** What bytes stand for, the least significant first. */
  function Value(bytes: seq<Byte>): nat { if bytes == [] then 0 else bytes[0] + 256 * Value(bytes[1..]) }

  /** The bytes of a number that fits stand for it. */
  lemma {:induction false} LittleEndianValue(n: nat, width: nat)
    requires n < Capacity(width)
    ensures Value(LittleEndian(n, width)) == n
  {
    if width > 0 {
      assert n / 256 < Capacity(width - 1);
      LittleEndianValue(n / 256, width - 1);
      assert ([n % 256] + LittleEndian(n / 256, width - 1))[1..] == LittleEndian(n / 256, width - 1);
    }
  }

  function FloatBytes(words: seq<Word32>): seq<Byte> {
    if words == [] then [] else LittleEndian(words[0], 4) + FloatBytes(words[1..])
  }

  function Prefixed(text: Text): seq<Byte> { LittleEndian(|text|, 8) + text }

  function FieldBytes(f: Field): seq<Byte> {
    match f
    case Number(width, value) => LittleEndian(value, width)
    case String(text) => Prefixed(text)
    case Floats(words) => LittleEndian(|words|, 8) + FloatBytes(words)
  }

  function FieldsBytes(fields: seq<Field>): seq<Byte> {
    if fields == [] then [] else FieldBytes(fields[0]) + FieldsBytes(fields[1..])
  }

  ghost predicate Fits(f: Field) {
    match f
    case Number(width, value) => value < Capacity(width)
    case String(text) => |text| < TWO_64
    case Floats(words) => |words| < TWO_64
  }

  ghost predicate SameShape(f: Field, g: Field) {
    match f
    case Number(width, _) => g.Number? && g.width == width
    case String(_) => g.String?
    case Floats(_) => g.Floats?
  }

  ghost predicate Comparable(a: seq<Field>, b: seq<Field>) {
    |a| == |b| && forall i :: 0 <= i < |a| ==> Fits(a[i]) && Fits(b[i]) && SameShape(a[i], b[i])
  }

  lemma Capacities()
    ensures Capacity(1) == 256 && Capacity(4) == TWO_32 && Capacity(8) == TWO_64
  {
    assert Capacity(1) == 256 * Capacity(0);
    assert Capacity(2) == 256 * Capacity(1);
    assert Capacity(3) == 256 * Capacity(2);
    assert Capacity(4) == 256 * Capacity(3);
    assert Capacity(5) == 256 * Capacity(4);
    assert Capacity(6) == 256 * Capacity(5);
    assert Capacity(7) == 256 * Capacity(6);
  }

  lemma {:induction false} LittleEndianInjective(m: nat, n: nat, width: nat)
    requires m < Capacity(width) && n < Capacity(width) && LittleEndian(m, width) == LittleEndian(n, width)
    ensures m == n
    decreases width
  {
    if width > 0 {
      var a, b := LittleEndian(m, width), LittleEndian(n, width);
      assert a[0] == m % 256 && b[0] == n % 256;
      assert a[1..] == LittleEndian(m / 256, width - 1) && b[1..] == LittleEndian(n / 256, width - 1);
      LittleEndianInjective(m / 256, n / 256, width - 1);
    }
  }

  lemma SplitFront(a: seq<Byte>, x: seq<Byte>, b: seq<Byte>, y: seq<Byte>)
    requires |a| == |b| && a + x == b + y
    ensures a == b && x == y
  {
    assert a == (a + x)[..|a|] && b == (b + y)[..|a|];
    assert x == (a + x)[|a|..] && y == (b + y)[|a|..];
  }

  lemma {:induction false} FloatBytesSize(words: seq<Word32>)
    ensures |FloatBytes(words)| == 4 * |words|
  {
    if words != [] {
      FloatBytesSize(words[1..]);
    }
  }

  lemma {:induction false} FloatBytesInjective(v: seq<Word32>, w: seq<Word32>)
    requires |v| == |w| && FloatBytes(v) == FloatBytes(w)
    ensures v == w
  {
    if v != [] {
      Capacities();
      SplitFront(LittleEndian(v[0], 4), FloatBytes(v[1..]), LittleEndian(w[0], 4), FloatBytes(w[1..]));
      LittleEndianInjective(v[0], w[0], 4);
      FloatBytesInjective(v[1..], w[1..]);
      assert v == [v[0]] + v[1..] && w == [w[0]] + w[1..];
    }
  }

  /** A field tells where it ends: no field's bytes are a proper prefix of another's of its shape. */
  lemma FieldFront(f: Field, x: seq<Byte>, g: Field, y: seq<Byte>)
    requires Fits(f) && Fits(g) && SameShape(f, g) && FieldBytes(f) + x == FieldBytes(g) + y
    ensures f == g && x == y
  {
    hide LittleEndian, FloatBytes, Capacity;
    Capacities();
    match f
    case Number(width, value) =>
      SplitFront(FieldBytes(f), x, FieldBytes(g), y);
      LittleEndianInjective(value, g.value, width);
    case String(text) =>
      CountedFront(|text|, text, x, |g.text|, g.text, y);
      SplitFront(text, x, g.text, y);
    case Floats(words) =>
      CountedFront(|words|, FloatBytes(words), x, |g.words|, FloatBytes(g.words), y);
      FloatBytesSize(words);
      FloatBytesSize(g.words);
      SplitFront(FloatBytes(words), x, FloatBytes(g.words), y);
      FloatBytesInjective(words, g.words);
  }

  lemma CountedFront(m: nat, a: seq<Byte>, x: seq<Byte>, n: nat, b: seq<Byte>, y: seq<Byte>)
    requires m < TWO_64 && n < TWO_64 && LittleEndian(m, 8) + a + x == LittleEndian(n, 8) + b + y
    ensures m == n && a + x == b + y
  {
    hide LittleEndian, Capacity;
    Capacities();
    var c, d := LittleEndian(m, 8), LittleEndian(n, 8);
    assert c + a + x == c + (a + x) && d + b + y == d + (b + y);
    SplitFront(c, a + x, d, b + y);
    LittleEndianInjective(m, n, 8);
  }

  lemma {:induction false} FieldsInjective(a: seq<Field>, b: seq<Field>)
    requires Comparable(a, b) && FieldsBytes(a) == FieldsBytes(b)
    ensures a == b
  {
    if a != [] {
      hide FieldBytes, Fits, SameShape;
      FieldFront(a[0], FieldsBytes(a[1..]), b[0], FieldsBytes(b[1..]));
      FieldsInjective(a[1..], b[1..]);
      assert a == [a[0]] + a[1..] && b == [b[0]] + b[1..];
    }
  }
}
