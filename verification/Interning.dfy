/** The uuids cache of lib/uuid.js: which spellings of a UUID meet in one object. */
module Interning {
  import opened Bytes
  import opened AttTypes
  import opened Requests
  import opened Uuids

  /** What getUUID accepts: a string, a number, a buffer. */
  datatype Spelling = Str(s: string) | Num(n: int) | Buf(b: UuidBuffer)

  /** The value a short UUID stands for: the base UUID with the number in its third and fourth byte. */
  function Expand(v: u16): Long {
    BASE_LOW + Put16(v) + [0, 0]
  }

  function Zip4(a: Nibble, b: Nibble, c: Nibble, d: Nibble): u16 {
    0x1000 * a + 0x100 * b + 0x10 * c + d
  }

  /** The four digits of a number, lower case. */
  function Hex4(v: u16): (s: string)
    ensures |s| == 4
  {
    [Digit(v / 0x1000), Digit(v / 0x100 % 0x10), Digit(v / 0x10 % 0x10), Digit(v % 0x10)]
  }

  /** Number.toString(16): no leading zeros. */
  function NumberHex(v: u16): (s: string)
    ensures |s| == if v < 0x10 then 1 else if v < 0x100 then 2 else if v < 0x1000 then 3 else 4
    ensures s == Hex4(v)[4 - |s|..]
  {
    if v < 0x10 then Hex4(v)[3..] else if v < 0x100 then Hex4(v)[2..] else if v < 0x1000 then Hex4(v)[1..] else Hex4(v)
  }

  /** The pattern of parseShortUUID: 0x or 0X and four hex digits. */
  predicate ShortOk(s: string) {
    |s| == 6 && s[0] == '0' && (s[1] == 'x' || s[1] == 'X') && forall i :: 2 <= i < 6 ==> Value(s[i]).Some?
  }

  function ShortValue(s: string): u16
    requires ShortOk(s)
  {
    Zip4(Value(s[2]).value, Value(s[3]).value, Value(s[4]).value, Value(s[5]).value)
  }

  predicate LongOk(s: string) {
    |s| == 36 && '-' in s && StringToBuffer(s).Some?
  }

  /** The 128-bit value that a spelling denotes; None when getUUID returns null or throws. */
  function Denotes(sp: Spelling): Option<Long> {
    match sp
    case Str(s) =>
      if LongOk(s) then Some(StringToBuffer(s).value)
      else if ShortOk(s) then Some(Expand(ShortValue(s)))
      else None
    case Num(n) => if 0 < n <= 0xFFFF then Some(Expand(n)) else None
    case Buf(b) => Some(if |b| == 2 then Expand(Get16(b, 0)) else b)
  }

  /** The characters of a long string where a dash may stand are not looked at; one dash must be somewhere. */
  predicate LongSpelling(s: string) {
    && |s| == 36 && (exists i :: 0 <= i < 36 && s[i] == '-')
    && forall i :: 0 <= i < 36 && i != 8 && i != 13 && i != 18 && i != 23 ==> IsHex(s[i])
  }

  predicate ShortSpelling(s: string) {
    |s| == 6 && (s[..2] == "0x" || s[..2] == "0X") && forall i :: 2 <= i < 6 ==> IsHex(s[i])
  }

  lemma LongSpellingIff(s: string)
    requires |s| == 36
    ensures LongOk(s) <==> LongSpelling(s)
  {
    hide IsHex, Unhex;
    var h := Undashed(s);
    UnhexIff(h);
    assert forall i :: 0 <= i < 8 ==> h[i] == s[i];
    assert forall i :: 9 <= i < 13 ==> s[i] == h[i - 1];
    assert forall i :: 14 <= i < 18 ==> s[i] == h[i - 2];
    assert forall i :: 19 <= i < 23 ==> s[i] == h[i - 3];
    assert forall i :: 24 <= i < 36 ==> s[i] == h[i - 4];
    assert forall i :: 8 <= i < 12 ==> h[i] == s[i + 1];
    assert forall i :: 12 <= i < 16 ==> h[i] == s[i + 2];
    assert forall i :: 16 <= i < 20 ==> h[i] == s[i + 3];
    assert forall i :: 20 <= i < 32 ==> h[i] == s[i + 4];
  }

  lemma ShortSpellingIff(s: string)
    ensures ShortOk(s) <==> ShortSpelling(s)
  {
    hide IsHex, Value;
    forall i | 0 <= i < |s|
      ensures Value(s[i]).Some? <==> IsHex(s[i])
    {
      HexValue(s[i]);
    }
  }

  /** What getUUID knows a UUID for: the two forms of a string, the numbers of 16 bits other than 0, any buffer. */
  lemma AcceptedIff(sp: Spelling)
    ensures Denotes(sp).Some? <==>
            match sp
            case Str(s) => LongSpelling(s) || ShortSpelling(s)
            case Num(n) => 0 < n <= 0xFFFF
            case Buf(_) => true
  {
    hide ShortSpelling, ShortOk, Expand, IsHex;
    if sp.Str? {
      ShortSpellingIff(sp.s);
      if |sp.s| == 36 {
        LongSpellingIff(sp.s);
      }
    }
  }

  /** Keys as written: a long string as it comes, otherwise the long form with the case and digits of the spelling. */
  datatype KeyRule = AsWritten | Canonical

  function WrittenKey(sp: Spelling): Option<string> {
    match sp
    case Str(s) => if LongOk(s) then Some(s) else if ShortOk(s) then Some(ShortToLong(UpperAll(s))) else None
    case Num(n) => if 0 < n <= 0xFFFF then Some(ShortToLong("0x" + UpperAll(NumberHex(n)))) else None
    case Buf(b) => Some(BufferToString(b))
  }

  /** One key per value, as test/testUUID.js:4-11 expects: the lower-case long string. */
  function KeyOf(rule: KeyRule, sp: Spelling): Option<string> {
    if rule == AsWritten then WrittenKey(sp)
    else if Denotes(sp).Some? then Some(BufferToString(Denotes(sp).value))
    else None
  }

  /** A spelling has a key exactly when it denotes a value. */
  lemma KeysAreForValues(rule: KeyRule, sp: Spelling)
    ensures KeyOf(rule, sp).Some? <==> Denotes(sp).Some?
  {
  }

  /** With one key per value, two spellings share a key exactly when they denote the same value. */
  lemma CanonicalKeysMeetIff(a: Spelling, b: Spelling)
    requires Denotes(a).Some? && Denotes(b).Some?
    ensures KeyOf(Canonical, a) == KeyOf(Canonical, b) <==> Denotes(a) == Denotes(b)
  {
    hide Denotes, BufferToString, StringToBuffer;
    StringBufferRoundTrip(Denotes(a).value);
    StringBufferRoundTrip(Denotes(b).value);
  }

  lemma Zip4Splits(v: u16)
    ensures Zip4(v / 0x1000, v / 0x100 % 0x10, v / 0x10 % 0x10, v % 0x10) == v
  {
    assert v == 0x10 * (v / 0x10) + v % 0x10;
    assert v / 0x10 == 0x10 * (v / 0x10 / 0x10) + v / 0x10 % 0x10 && v / 0x10 / 0x10 == v / 0x100;
    assert v / 0x100 == 0x10 * (v / 0x100 / 0x10) + v / 0x100 % 0x10 && v / 0x100 / 0x10 == v / 0x1000;
  }

  lemma Hex4Reads(v: u16, s: string)
    requires s == Hex4(v) || s == UpperAll(Hex4(v))
    ensures Value(s[0]) == Some(v / 0x1000) && Value(s[1]) == Some(v / 0x100 % 0x10)
    ensures Value(s[2]) == Some(v / 0x10 % 0x10) && Value(s[3]) == Some(v % 0x10)
  {
    hide Digit, Value, Upper;
    var h := Hex4(v);
    ValueOfCase(h[0]);
    ValueOfCase(h[1]);
    ValueOfCase(h[2]);
    ValueOfCase(h[3]);
  }

  predicate NoLetters(v: u16) {
    v / 0x1000 < 10 && v / 0x100 % 0x10 < 10 && v / 0x10 % 0x10 < 10 && v % 0x10 < 10
  }

  lemma UpperHexIff(v: u16, w: u16)
    ensures UpperAll(Hex4(v)) == Hex4(w) <==> v == w && NoLetters(v)
    ensures Hex4(v) == Hex4(w) <==> v == w
    ensures UpperAll(Hex4(v)) == UpperAll(Hex4(w)) <==> v == w
  {
    hide Digit, Value, Upper;
    var a, b := UpperAll(Hex4(v)), Hex4(w);
    Hex4Reads(v, a);
    Hex4Reads(v, Hex4(v));
    Hex4Reads(w, b);
    Hex4Reads(w, UpperAll(b));
    Zip4Splits(v);
    Zip4Splits(w);
  }

  /** The long form around the digits of a 16-bit UUID. */
  function Framed(digits: string): string {
    "0000" + digits + BASE_UUID
  }

  lemma FramedIff(x: string, y: string)
    ensures Framed(x) == Framed(y) <==> x == y
    ensures |Framed(x)| == |x| + 32
  {
    assert Framed(x)[4..4 + |x|] == x && Framed(y)[4..4 + |y|] == y;
  }

  lemma SplitOff(q: nat, r: Nibble)
    ensures (0x10 * q + r) / 0x10 == q && (0x10 * q + r) % 0x10 == r
  {
  }

  lemma NestedDivision(v: nat)
    ensures v / 0x100 == v / 0x10 / 0x10 && v / 0x1000 == v / 0x10 / 0x10 / 0x10
  {
  }

  lemma Zip4Joins(a: Nibble, b: Nibble, c: Nibble, d: Nibble)
    ensures Hex4(Zip4(a, b, c, d)) == [Digit(a), Digit(b), Digit(c), Digit(d)]
  {
    hide Digit;
    SplitOff(0x100 * a + 0x10 * b + c, d);
    SplitOff(0x10 * a + b, c);
    SplitOff(a, b);
    NestedDivision(Zip4(a, b, c, d));
  }

  lemma ShortKey(s: string)
    requires ShortOk(s)
    ensures WrittenKey(Str(s)) == Some(Framed(UpperAll(Hex4(ShortValue(s)))))
  {
    hide Digit, Value, Upper, Zip4;
    ValueOfCase(s[2]);
    ValueOfCase(s[3]);
    ValueOfCase(s[4]);
    ValueOfCase(s[5]);
    Zip4Joins(Value(s[2]).value, Value(s[3]).value, Value(s[4]).value, Value(s[5]).value);
    assert UpperAll(s)[2..] == UpperAll(Hex4(ShortValue(s)));
  }

  lemma NumberKey(n: u16)
    requires n > 0
    ensures WrittenKey(Num(n)) == Some(Framed(UpperAll(NumberHex(n))))
  {
    var short := "0x" + UpperAll(NumberHex(n));
    assert short[2..] == UpperAll(NumberHex(n));
  }

  lemma HexOfPair(x: byte, y: byte)
    ensures HexOf([x, y]) == [Digit(x / 16), Digit(x % 16), Digit(y / 16), Digit(y % 16)]
  {
    hide Digit;
    assert [x, y][1..] == [y] && [y][1..] == [];
    assert HexOf([y]) == [Digit(y / 16), Digit(y % 16)] + HexOf([]);
  }

  lemma {:induction false} HexOfConcat(a: seq<byte>, b: seq<byte>)
    ensures HexOf(a + b) == HexOf(a) + HexOf(b)
  {
    hide Digit;
    if a == [] {
      assert a + b == b;
    } else {
      assert (a + b)[1..] == a[1..] + b;
      HexOfConcat(a[1..], b);
    }
  }

  lemma Hex4OfBytes(lo: byte, hi: byte)
    ensures Hex4(lo + 0x100 * hi) == [Digit(hi / 16), Digit(hi % 16), Digit(lo / 16), Digit(lo % 16)]
  {
    Zip4Joins(hi / 16, hi % 16, lo / 16, lo % 16);
  }

  lemma BufferKey(b: UuidBuffer)
    requires |b| == 2
    ensures WrittenKey(Buf(b)) == Some(Framed(Hex4(Get16(b, 0))))
  {
    hide HexOf, Hex4;
    HexOfConcat([0, 0], [b[1], b[0]]);
    HexOfPair(0, 0);
    HexOfPair(b[1], b[0]);
    Hex4OfBytes(b[0], b[1]);
    assert [0, 0] + [b[1], b[0]] == [0, 0, b[1], b[0]];
  }

  /** Two more bytes in front. */
  lemma UnhexPair(s: string, rest: string, bytes: seq<byte>)
    requires |s| == 4 && (forall i :: 0 <= i < 4 ==> Value(s[i]).Some?) && Unhex(rest) == Some(bytes)
    ensures Unhex(s + rest) == Some([16 * Value(s[0]).value + Value(s[1]).value,
                                     16 * Value(s[2]).value + Value(s[3]).value] + bytes)
  {
    hide Value;
    var t := s + rest;
    assert t[2..][0] == s[2] && t[2..][1] == s[3] && t[2..][2..] == rest;
    var x, y: byte := 16 * Value(s[0]).value + Value(s[1]).value, 16 * Value(s[2]).value + Value(s[3]).value;
    assert Unhex(t[2..]) == Some([y] + bytes);
    assert [x] + ([y] + bytes) == [x, y] + bytes;
  }

  /** The digits of the base UUID behind the 16-bit slot. */
  function BaseTail(): string {
    "0000" + ("1000" + ("8000" + ("0080" + ("5f9b" + ("34fb" + "")))))
  }

  lemma NoDigits()
    ensures Unhex("") == Some([])
  {
  }

  lemma BaseReversed()
    ensures [0, 0] + ([0x10, 0] + ([0x80, 0] + ([0, 0x80] + ([0x5F, 0x9B] + ([0x34, 0xFB] + []))))) ==
            Reversed(BASE_LOW)
  {
  }

  lemma BaseDigits()
    ensures Unhex(BaseTail()) == Some(Reversed(BASE_LOW))
  {
    hide Unhex;
    assert Unhex("") == Some([]) by { NoDigits(); }
    UnhexPair("34fb", "", []);
    var d1 := "34fb" + "";
    UnhexPair("5f9b", d1, [0x34, 0xFB] + []);
    var d2 := "5f9b" + d1;
    UnhexPair("0080", d2, [0x5F, 0x9B] + ([0x34, 0xFB] + []));
    var d3 := "0080" + d2;
    UnhexPair("8000", d3, [0, 0x80] + ([0x5F, 0x9B] + ([0x34, 0xFB] + [])));
    var d4 := "8000" + d3;
    UnhexPair("1000", d4, [0x80, 0] + ([0, 0x80] + ([0x5F, 0x9B] + ([0x34, 0xFB] + []))));
    var d5 := "1000" + d4;
    UnhexPair("0000", d5, [0x10, 0] + ([0x80, 0] + ([0, 0x80] + ([0x5F, 0x9B] + ([0x34, 0xFB] + [])))));
    BaseReversed();
  }

  lemma TailSlices(front: string, tail: string)
    requires |front| == 8 && |tail| == 28
    ensures var s := front + tail;
            s[..8] == front && s[8] == tail[0] && s[9..13] == tail[1..5] && s[14..18] == tail[6..10] &&
            s[19..23] == tail[11..15] && s[24..] == tail[16..]
  {
  }

  lemma Quad(s: string, i: nat, q: string)
    requires i + 4 <= |s| && |q| == 4
    requires s[i] == q[0] && s[i + 1] == q[1] && s[i + 2] == q[2] && s[i + 3] == q[3]
    ensures s[i..i + 4] == q
  {
  }

  lemma TailJoined(s: string, a: string, b: string, c: string)
    requires |s| == 28 && s[16..20] == a && s[20..24] == b && s[24..28] == c
    ensures s[16..] == a + (b + (c + ""))
  {
    assert s[24..28] + "" == s[24..];
    assert s[20..24] + s[24..] == s[20..];
    assert s[16..20] + s[20..] == s[16..];
  }

  lemma BaseFront()
    ensures |BASE_UUID| == 28 && BASE_UUID[1..5] == "0000" && BASE_UUID[6..10] == "1000"
  {
    Quad(BASE_UUID, 1, "0000");
    Quad(BASE_UUID, 6, "1000");
  }

  lemma BaseMiddle()
    ensures |BASE_UUID| == 28 && BASE_UUID[0] == '-' && BASE_UUID[11..15] == "8000"
  {
    Quad(BASE_UUID, 11, "8000");
  }

  lemma BaseBack()
    ensures |BASE_UUID| == 28 && BASE_UUID[16..] == "0080" + ("5f9b" + ("34fb" + ""))
  {
    Quad(BASE_UUID, 16, "0080");
    Quad(BASE_UUID, 20, "5f9b");
    Quad(BASE_UUID, 24, "34fb");
    TailJoined(BASE_UUID, "0080", "5f9b", "34fb");
  }

  lemma FramedDigits(h: string)
    requires |h| == 4
    ensures |Framed(h)| == 36 && '-' in Framed(h) && Undashed(Framed(h)) == "0000" + (h + BaseTail())
  {
    var s, front := Framed(h), "0000" + h;
    assert s == front + BASE_UUID;
    BaseFront();
    BaseMiddle();
    BaseBack();
    TailSlices(front, BASE_UUID);
    assert s[8] == '-';
    Joined(front, "0000", h, "0000", "1000", "8000", "0080" + ("5f9b" + ("34fb" + "")));
  }

  lemma Joined(ab: string, a: string, b: string, c: string, d: string, e: string, f: string)
    requires ab == a + b
    ensures ab + c + d + e + f == a + (b + (c + (d + (e + f))))
  {
  }

  lemma HighLow(v: u16)
    ensures 16 * (v / 0x1000) + v / 0x100 % 0x10 == v / 0x100 && 16 * (v / 0x10 % 0x10) + v % 0x10 == v % 0x100
  {
    NestedDivision(v);
  }

  /** The long form of a short UUID denotes its expansion. */
  lemma FramedDenotes(h: string, v: u16)
    requires h == Hex4(v) || h == UpperAll(Hex4(v))
    ensures LongOk(Framed(h)) && StringToBuffer(Framed(h)) == Some(Expand(v))
  {
    hide Unhex, Digit, Framed, Undashed, BaseTail, Hex4;
    Hex4Reads(v, h);
    BaseDigits();
    UnhexPair(h, BaseTail(), Reversed(BASE_LOW));
    HighLow(v);
    var low := [v / 0x100, v % 0x100] + Reversed(BASE_LOW);
    UnhexPair("0000", h + BaseTail(), low);
    FramedDigits(h);
    assert Reversed([0, 0] + low) == Expand(v);
  }

  lemma DigitOf(v: u16, i: nat)
    requires i < 4
    ensures Value(UpperAll(Hex4(v))[i]).Some?
    ensures i < 4 - |NumberHex(v)| ==> Value(UpperAll(Hex4(v))[i]) == Some(0)
    ensures i >= 4 - |NumberHex(v)| ==> UpperAll(NumberHex(v))[i - (4 - |NumberHex(v)|)] == UpperAll(Hex4(v))[i]
  {
    hide Digit, Upper, Value;
    Hex4Reads(v, UpperAll(Hex4(v)));
    NestedDivision(v);
  }

  lemma SameDigitsSameNumber(n: u16, m: u16)
    requires UpperAll(NumberHex(n)) == UpperAll(NumberHex(m))
    ensures n == m
  {
    hide Digit, Upper, Value, Hex4, NumberHex;
    var a, b := UpperAll(Hex4(n)), UpperAll(Hex4(m));
    forall i | 0 <= i < 4
      ensures Value(a[i]) == Value(b[i])
    {
      DigitOf(n, i);
      DigitOf(m, i);
    }
    Hex4Reads(n, a);
    Hex4Reads(m, b);
    Zip4Splits(n);
    Zip4Splits(m);
  }

  /** What a key of 36 characters denotes is what its spelling denotes; only small numbers have shorter keys. */
  lemma WrittenKeyDenotes(sp: Spelling)
    requires WrittenKey(sp).Some?
    ensures var k := WrittenKey(sp).value;
            if |k| == 36 then StringToBuffer(k) == Denotes(sp)
            else sp.Num? && 0 < sp.n < 0x1000 && k == Framed(UpperAll(NumberHex(sp.n)))
  {
    hide ShortOk, ShortValue, NumberHex, Expand;
    match sp
    case Str(s) =>
      if !LongOk(s) {
        ShortKey(s);
        FramedDenotes(UpperAll(Hex4(ShortValue(s))), ShortValue(s));
      }
    case Num(n) =>
      NumberKey(n);
      FramedIff(UpperAll(NumberHex(n)), "");
      if n >= 0x1000 {
        FramedDenotes(UpperAll(Hex4(n)), n);
      }
    case Buf(b) =>
      if |b| == 2 {
        BufferKey(b);
        FramedDenotes(Hex4(Get16(b, 0)), Get16(b, 0));
      } else {
        StringBufferRoundTrip(b);
      }
  }

  /** As written, too, one key never serves two values: a key that is shared is shared by spellings of one UUID. */
  lemma WrittenKeysAreSound(a: Spelling, b: Spelling)
    requires WrittenKey(a).Some? && WrittenKey(a) == WrittenKey(b)
    ensures Denotes(a) == Denotes(b)
  {
    hide WrittenKey, Denotes, Framed, NumberHex;
    WrittenKeyDenotes(a);
    WrittenKeyDenotes(b);
    if |WrittenKey(a).value| != 36 {
      FramedIff(UpperAll(NumberHex(a.n)), UpperAll(NumberHex(b.n)));
      SameDigitsSameNumber(a.n, b.n);
    }
  }

  /** The value that a buffer stands for. */
  function Meaning(b: UuidBuffer): Long {
    if |b| == 2 then Expand(Get16(b, 0)) else b
  }

  lemma LongMeansItself(b: Long)
    ensures Meaning(b) == b
  {
  }

  lemma TwoBytesMean(b: UuidBuffer)
    requires |b| == 2
    ensures Meaning(b) == Expand(Get16(b, 0))
  {
  }

  /** The long form of a short string, with its digits in upper case. */
  function LongForm(s: string): string
    requires ShortOk(s)
  {
    Framed(UpperAll(Hex4(ShortValue(s))))
  }

  lemma LowerConcat(a: string, b: string)
    ensures LowerAll(a + b) == LowerAll(a) + LowerAll(b)
  {
    hide Lower;
  }

  lemma BaseIsLower()
    ensures LowerAll("0000") == "0000" && LowerAll(BASE_UUID) == BASE_UUID
  {
  }

  /** The string of a long buffer is well dashed and in lower case. */
  lemma BufferStringIsLower(l: Long)
    ensures |BufferToString(l)| == 36 && WellDashed(BufferToString(l))
    ensures LowerAll(BufferToString(l)) == BufferToString(l)
  {
    hide HexOf, Unhex, Lower;
    StringBufferRoundTrip(l);
    BufferStringRoundTrip(BufferToString(l));
  }

  /** A long string is the string of a buffer exactly when it stands for it, in form and in lower case. */
  lemma LongIsBufferStringIff(s: string, l: Long)
    requires |s| == 36
    ensures s == BufferToString(l) <==> StringToBuffer(s) == Some(l) && WellDashed(s) && s == LowerAll(s)
  {
    hide BufferToString, StringToBuffer, LowerAll;
    StringBufferRoundTrip(l);
    BufferStringIsLower(l);
    if StringToBuffer(s) == Some(l) && WellDashed(s) {
      BufferStringRoundTrip(s);
    }
  }

  lemma FramedIsLower(v: u16)
    ensures WellDashed(Framed(Hex4(v))) && LowerAll(Framed(Hex4(v))) == Framed(Hex4(v))
  {
    hide Lower, Digit;
    var h := Hex4(v);
    assert Lower(h[0]) == h[0] && Lower(h[1]) == h[1] && Lower(h[2]) == h[2] && Lower(h[3]) == h[3];
    assert LowerAll(h) == h;
    BaseIsLower();
    LowerConcat("0000" + h, BASE_UUID);
    LowerConcat("0000", h);
    BaseDashes(h);
  }

  lemma BaseDashes(h: string)
    requires |h| == 4
    ensures |Framed(h)| == 36 && WellDashed(Framed(h))
  {
    var s := Framed(h);
    assert s[8] == BASE_UUID[0] && s[13] == BASE_UUID[5] && s[18] == BASE_UUID[10] && s[23] == BASE_UUID[15];
  }

  /** Two bytes and the sixteen they stand for have one string. */
  lemma BufferStringOfMeaning(b: UuidBuffer)
    ensures BufferToString(b) == BufferToString(Meaning(b))
  {
    hide StringToBuffer, Framed, Hex4, Expand;
    if |b| == 2 {
      var v := Get16(b, 0);
      BufferKey(b);
      FramedDenotes(Hex4(v), v);
      FramedIsLower(v);
      LongIsBufferStringIff(Framed(Hex4(v)), Expand(v));
    }
  }

  lemma ShortIsBufferStringIff(v: u16, b: UuidBuffer)
    ensures Framed(UpperAll(Hex4(v))) == BufferToString(b) <==> Meaning(b) == Expand(v) && NoLetters(v)
  {
    hide StringToBuffer, Framed, Hex4, Expand, BufferToString, Meaning, NoLetters;
    BufferStringOfMeaning(b);
    StringBufferRoundTrip(Meaning(b));
    FramedDenotes(UpperAll(Hex4(v)), v);
    FramedDenotes(Hex4(v), v);
    FramedIsLower(v);
    LongIsBufferStringIff(Framed(Hex4(v)), Expand(v));
    FramedIff(UpperAll(Hex4(v)), Hex4(v));
    UpperHexIff(v, v);
  }

  lemma NumberIsShortIff(n: u16, v: u16)
    ensures Framed(UpperAll(NumberHex(n))) == Framed(UpperAll(Hex4(v))) <==> n == v && n >= 0x1000
  {
    hide Framed, Hex4;
    FramedIff(UpperAll(NumberHex(n)), UpperAll(Hex4(v)));
    UpperHexIff(n, v);
  }

  /** Strings before numbers before buffers, and long strings before short ones. */
  function Rank(sp: Spelling): nat {
    match sp
    case Str(s) => if LongOk(s) then 0 else 1
    case Num(_) => 2
    case Buf(_) => 3
  }

  /** When two spellings meet in one key, the lower rank first; read off the spellings alone. */
  predicate MeetsInOrder(a: Spelling, b: Spelling)
    requires Denotes(a).Some? && Denotes(b).Some? && Rank(a) <= Rank(b)
  {
    match (a, b)
    case (Str(s), Str(s')) =>
      if LongOk(s) then s == if LongOk(s') then s' else LongForm(s') else ShortValue(s) == ShortValue(s')
    case (Str(s), Num(n)) =>
      n >= 0x1000 && if LongOk(s) then s == Framed(UpperAll(Hex4(n))) else ShortValue(s) == n
    case (Str(s), Buf(b)) =>
      if LongOk(s) then StringToBuffer(s) == Some(Meaning(b)) && WellDashed(s) && s == LowerAll(s)
      else Meaning(b) == Expand(ShortValue(s)) && NoLetters(ShortValue(s))
    case (Num(n), Num(m)) => n == m
    case (Num(n), Buf(b)) => Meaning(b) == Expand(n) && n >= 0x1000 && NoLetters(n)
    case (Buf(b), Buf(b')) => Meaning(b) == Meaning(b')
    case _ => false
  }

  predicate Meets(a: Spelling, b: Spelling)
    requires Denotes(a).Some? && Denotes(b).Some?
  {
    if Rank(a) <= Rank(b) then MeetsInOrder(a, b) else MeetsInOrder(b, a)
  }

  lemma OrderedKeysMeetIff(a: Spelling, b: Spelling)
    requires Denotes(a).Some? && Denotes(b).Some? && Rank(a) <= Rank(b)
    ensures WrittenKey(a) == WrittenKey(b) <==> MeetsInOrder(a, b)
  {
    hide StringToBuffer, Framed, Hex4, NumberHex, Expand, BufferToString, ShortOk, ShortValue, NoLetters, Meaning,
         WellDashed, LowerAll, UpperAll, ShortToLong;
    KeyForms(a);
    KeyForms(b);
    match (a, b)
    case (Str(s), Str(s')) =>
      if !LongOk(s) {
        FramedIff(UpperAll(Hex4(ShortValue(s))), UpperAll(Hex4(ShortValue(s'))));
        UpperHexIff(ShortValue(s), ShortValue(s'));
      }
    case (Str(s), Num(n)) =>
      if LongOk(s) {
        NumberIsShortIff(n, n);
        FramedIff(UpperAll(NumberHex(n)), "");
        SmallNumberKey(n);
      } else {
        NumberIsShortIff(n, ShortValue(s));
      }
    case (Str(s), Buf(b)) =>
      if LongOk(s) {
        BufferStringOfMeaning(b);
        LongIsBufferStringIff(s, Meaning(b));
      } else {
        ShortIsBufferStringIff(ShortValue(s), b);
      }
    case (Num(n), Num(m)) =>
      FramedIff(UpperAll(NumberHex(n)), UpperAll(NumberHex(m)));
      if UpperAll(NumberHex(n)) == UpperAll(NumberHex(m)) {
        SameDigitsSameNumber(n, m);
      }
    case (Num(n), Buf(b)) =>
      SmallNumberKey(n);
      NumberIsShortIff(n, n);
      ShortIsBufferStringIff(n, b);
      BufferStringOfMeaning(b);
      BufferStringIsLower(Meaning(b));
    case (Buf(b), Buf(b')) =>
      BufferStringOfMeaning(b);
      BufferStringOfMeaning(b');
      StringBufferRoundTrip(Meaning(b));
      StringBufferRoundTrip(Meaning(b'));
    case _ =>
  }

  lemma SmallNumberKey(n: u16)
    requires n > 0
    ensures |Framed(UpperAll(NumberHex(n)))| == 36 <==> n >= 0x1000
  {
    FramedIff(UpperAll(NumberHex(n)), "");
  }

  /** The keys as written, by kind of spelling. */
  lemma KeyForms(sp: Spelling)
    requires Denotes(sp).Some?
    ensures match sp
            case Str(s) => WrittenKey(sp) == Some(if LongOk(s) then s else LongForm(s)) && (LongOk(s) ==> |s| == 36)
            case Num(n) => 0 < n <= 0xFFFF && WrittenKey(sp) == Some(Framed(UpperAll(NumberHex(n))))
            case Buf(b) => WrittenKey(sp) == Some(BufferToString(b))
  {
    hide StringToBuffer, Framed, Hex4, NumberHex, BufferToString, ShortValue;
    match sp
    case Str(s) =>
      if !LongOk(s) {
        ShortKey(s);
      }
    case Num(n) => NumberKey(n);
    case Buf(_) =>
  }

  /** As written, over all pairs of spellings: two share a key if and only if they meet. */
  lemma WrittenKeysMeetIff(a: Spelling, b: Spelling)
    requires Denotes(a).Some? && Denotes(b).Some?
    ensures WrittenKey(a) == WrittenKey(b) <==> Meets(a, b)
  {
    hide MeetsInOrder, WrittenKey, Denotes;
    if Rank(a) <= Rank(b) {
      OrderedKeysMeetIff(a, b);
    } else {
      OrderedKeysMeetIff(b, a);
    }
  }
}
