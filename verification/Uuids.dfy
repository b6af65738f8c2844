/** UUID spellings and their codecs: the string and buffer conversions of lib/uuid.js. */
module Uuids {
  import opened Bytes
  import opened AttTypes

  type Nibble = d: int | 0 <= d < 16

  /** The lower-case hex digit, as Buffer.toString('hex') writes it. */
  function Digit(d: Nibble): (c: char)
    ensures Value(c) == Some(d) && Lower(c) == c && (Upper(c) == c <==> d < 10)
  {
    if d < 10 then '0' + d as char else 'a' + (d - 10) as char
  }

  function Value(c: char): Option<Nibble> {
    if '0' <= c <= '9' then Some((c - '0') as int)
    else if 'a' <= c <= 'f' then Some((c - 'a') as int + 10)
    else if 'A' <= c <= 'F' then Some((c - 'A') as int + 10)
    else None
  }

  /** toUpperCase on the letters that matter. */
  function Upper(c: char): char {
    if 'a' <= c <= 'z' then c - 'a' + 'A' else c
  }

  function Lower(c: char): char {
    if 'A' <= c <= 'Z' then c - 'A' + 'a' else c
  }

  function UpperAll(s: string): (u: string)
    ensures |u| == |s| && forall i :: 0 <= i < |s| ==> u[i] == Upper(s[i])
  {
    seq(|s|, i requires 0 <= i < |s| => Upper(s[i]))
  }

  function LowerAll(s: string): (l: string)
    ensures |l| == |s| && forall i :: 0 <= i < |s| ==> l[i] == Lower(s[i])
  {
    seq(|s|, i requires 0 <= i < |s| => Lower(s[i]))
  }

  lemma ValueOfCase(c: char)
    ensures Value(Upper(c)) == Value(c) == Value(Lower(c))
    ensures Value(c).Some? ==> Lower(c) == Digit(Value(c).value) && Upper(c) == Upper(Digit(Value(c).value))
  {
  }

  /** The sixteen digits in their order, and the value of each in both cases. */
  lemma DigitsInOrder(d: Nibble)
    ensures Digit(d) == "0123456789abcdef"[d]
    ensures Value("0123456789abcdef"[d]) == Value("0123456789ABCDEF"[d]) == Some(d)
  {
  }

  /** Buffer.toString('hex'). */
  function HexOf(b: seq<byte>): (s: string)
    ensures |s| == 2 * |b|
  {
    if b == [] then "" else [Digit(b[0] / 16), Digit(b[0] % 16)] + HexOf(b[1..])
  }

  /** new Buffer(s, 'hex'); None when that throws. */
  function Unhex(s: string): (b: Option<seq<byte>>)
    ensures b.Some? ==> |s| == 2 * |b.value|
  {
    if s == "" then Some([])
    else if |s| < 2 || Value(s[0]).None? || Value(s[1]).None? then None
    else
      match Unhex(s[2..])
      case None => None
      case Some(rest) => Some([(16 * Value(s[0]).value + Value(s[1]).value) as byte] + rest)
  }

  lemma HexOfFirst(x: byte, rest: seq<byte>)
    ensures var s := HexOf([x] + rest); s[0] == Digit(x / 16) && s[1] == Digit(x % 16) && s[2..] == HexOf(rest)
  {
    hide Value, Digit;
    assert ([x] + rest)[1..] == rest;
  }

  lemma {:induction false} UnhexInvertsHex(b: seq<byte>)
    ensures Unhex(HexOf(b)) == Some(b)
  {
    hide Value, Digit, HexOf;
    if b == [] {
      NoHex();
    } else {
      UnhexInvertsHex(b[1..]);
      HexOfFirst(b[0], b[1..]);
      assert b == [b[0]] + b[1..];
    }
  }

  lemma NoHex()
    ensures HexOf([]) == ""
  {
  }

  lemma {:induction false} HexInvertsUnhex(s: string)
    ensures Unhex(s).Some? ==> HexOf(Unhex(s).value) == LowerAll(s)
  {
    hide Value, Digit, Lower;
    if s != "" && Unhex(s).Some? {
      HexInvertsUnhex(s[2..]);
      ValueOfCase(s[0]);
      ValueOfCase(s[1]);
      var b := Unhex(s).value;
      assert b[0] / 16 == Value(s[0]).value && b[0] % 16 == Value(s[1]).value && b[1..] == Unhex(s[2..]).value;
      assert LowerAll(s) == [Lower(s[0]), Lower(s[1])] + LowerAll(s[2..]);
    }
  }

  predicate IsHex(c: char) {
    '0' <= c <= '9' || 'a' <= c <= 'f' || 'A' <= c <= 'F'
  }

  lemma HexValue(c: char)
    ensures Value(c).Some? <==> IsHex(c)
  {
  }

  /** Which strings are bytes in hex: an even number of digits. */
  lemma {:induction false} UnhexIff(s: string)
    ensures Unhex(s).Some? <==> |s| % 2 == 0 && forall i :: 0 <= i < |s| ==> IsHex(s[i])
  {
    hide Value, IsHex;
    if |s| >= 2 {
      var rest := s[2..];
      UnhexIff(rest);
      HexValue(s[0]);
      HexValue(s[1]);
      assert s == [s[0], s[1]] + rest;
    }
  }

  /** Byte k is written by the digits 2 * k and 2 * k + 1. */
  lemma {:induction false} UnhexAt(s: string, k: nat)
    requires Unhex(s).Some? && k < |Unhex(s).value|
    ensures Value(s[2 * k]).Some? && Value(s[2 * k + 1]).Some?
    ensures Unhex(s).value[k] == 0x10 * Value(s[2 * k]).value + Value(s[2 * k + 1]).value
  {
    hide Value;
    if k > 0 {
      var rest := s[2..];
      UnhexAt(rest, k - 1);
      assert rest[2 * (k - 1)] == s[2 * k] && rest[2 * (k - 1) + 1] == s[2 * k + 1];
    }
  }

  lemma {:induction false} UnhexUpper(s: string)
    ensures Unhex(UpperAll(s)) == Unhex(s)
  {
    hide Value, Upper;
    if |s| >= 2 {
      ValueOfCase(s[0]);
      ValueOfCase(s[1]);
      assert UpperAll(s)[2..] == UpperAll(s[2..]);
      UnhexUpper(s[2..]);
    }
  }

  /** 32 digits with the four dashes of a UUID, and the digits of such a string. */
  function Dashed(h: string): (s: string)
    requires |h| == 32
    ensures |s| == 36
  {
    h[..8] + "-" + h[8..12] + "-" + h[12..16] + "-" + h[16..20] + "-" + h[20..]
  }

  function Undashed(s: string): (h: string)
    requires |s| == 36
    ensures |h| == 32
  {
    s[..8] + s[9..13] + s[14..18] + s[19..23] + s[24..]
  }

  lemma DashesComeOff(h: string)
    requires |h| == 32
    ensures Undashed(Dashed(h)) == h
  {
    var s := Dashed(h);
    assert s[..8] == h[..8] && s[9..13] == h[8..12] && s[14..18] == h[12..16];
    assert s[19..23] == h[16..20] && s[24..] == h[20..];
    assert h == h[..8] + h[8..12] + h[12..16] + h[16..20] + h[20..];
  }

  predicate WellDashed(s: string)
    requires |s| == 36
  {
    s[8] == s[13] == s[18] == s[23] == '-'
  }

  lemma DashesGoBack(s: string)
    requires |s| == 36 && WellDashed(s)
    ensures Dashed(Undashed(s)) == s
  {
    var h := Undashed(s);
    assert h[..8] == s[..8] && h[8..12] == s[9..13] && h[12..16] == s[14..18];
    assert h[16..20] == s[19..23] && h[20..] == s[24..];
    assert s[..8] + "-" == s[..9];
    assert s[..9] + s[9..13] == s[..13];
    assert s[..13] + "-" == s[..14];
    assert s[..14] + s[14..18] == s[..18];
    assert s[..18] + "-" == s[..19];
    assert s[..19] + s[19..23] == s[..23];
    assert s[..23] + "-" == s[..24];
    assert s[..24] + s[24..] == s;
  }

  function Reversed(b: seq<byte>): (r: seq<byte>)
    ensures |r| == |b| && forall i :: 0 <= i < |b| ==> r[i] == b[|b| - 1 - i]
  {
    seq(|b|, i requires 0 <= i < |b| => b[|b| - 1 - i])
  }

  lemma ReversedTwice(b: seq<byte>)
    ensures Reversed(Reversed(b)) == b
  {
  }

  /** reverseBuffer: into a fresh buffer, byte by byte. */
  method ReverseBuffer(buffer: array<byte>) returns (tmp: array<byte>)
    ensures fresh(tmp) && tmp[..] == Reversed(buffer[..])
  {
    tmp := new byte[buffer.Length];
    for j := 0 to buffer.Length
      invariant forall k :: 0 <= k < j ==> tmp[k] == buffer[buffer.Length - k - 1]
    {
      tmp[j] := buffer[buffer.Length - j - 1];
    }
  }

  const BASE_UUID: string := "-0000-1000-8000-00805f9b34fb"

  /** The buffers a UUID can come in. */
  type UuidBuffer = b: seq<byte> | |b| == 2 || |b| == 16 witness [0, 0]

  function BufferToString(b: UuidBuffer): string {
    if |b| == 2 then HexOf([0, 0, b[1], b[0]]) + BASE_UUID else Dashed(HexOf(Reversed(b)))
  }

  /** A string of 36 characters; None when its digits are not hex and the conversion throws. */
  function StringToBuffer(s: string): (b: Option<seq<byte>>)
    requires |s| == 36
    ensures b.Some? ==> |b.value| == 16
  {
    match Unhex(Undashed(s))
    case None => None
    case Some(b) => Some(Reversed(b))
  }

  /** stringToBuffer inverts bufferToString on 16 bytes. */
  lemma StringBufferRoundTrip(b: Long)
    ensures StringToBuffer(BufferToString(b)) == Some(b)
  {
    DashesComeOff(HexOf(Reversed(b)));
    UnhexInvertsHex(Reversed(b));
    ReversedTwice(b);
  }

  /** And bufferToString gives back every well-formed string, in lower case. */
  lemma BufferStringRoundTrip(s: string)
    requires |s| == 36 && WellDashed(s) && StringToBuffer(s).Some?
    ensures BufferToString(StringToBuffer(s).value) == LowerAll(s)
  {
    hide HexOf, Unhex;
    var b := Unhex(Undashed(s)).value;
    HexInvertsUnhex(Undashed(s));
    ReversedTwice(b);
    assert LowerAll(Undashed(s)) == Undashed(LowerAll(s));
    DashesGoBack(LowerAll(s));
  }

  /** '0x' and four digits to the long form: the first two characters are dropped unseen. */
  function ShortToLong(s: string): string
    requires |s| >= 2
  {
    "0000" + s[2..] + BASE_UUID
  }

  function LongToShort(s: string): Option<string> {
    if |s| >= 8 && s[..4] == "0000" && s[8..] == BASE_UUID then Some("0x" + s[4..8]) else None
  }

  /**
   * longToShort inverts shortToLong on '0x' and four characters, and on nothing else; shortToLong inverts
   * longToShort.
   */
  lemma ShortLongRoundTripIff(s: string, l: string)
    requires |s| >= 2
    ensures LongToShort(ShortToLong(s)) == Some(s) <==> |s| == 6 && s[..2] == "0x"
    ensures LongToShort(l).Some? ==> |LongToShort(l).value| == 6 && ShortToLong(LongToShort(l).value) == l
  {
    var long := ShortToLong(s);
    if |s| == 6 {
      assert long[..4] == "0000" && long[8..] == BASE_UUID && long[4..8] == s[2..];
      assert s == s[..2] + s[2..];
    }
    if LongToShort(l).Some? {
      assert l == l[..4] + l[4..8] + l[8..];
    }
  }
}
