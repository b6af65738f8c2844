/** getUUID over whole call histories: the cache of lib/uuid.js as a value, and the cache itself. */
module UuidCache {
  import opened Bytes
  import opened AttTypes
  import opened Uuids
  import opened Interning

  /** A UUID object; its buffer has two bytes exactly when it was made with a short string. */
  datatype Made = Made(longString: string, shortString: Option<string>, buffer: UuidBuffer)

  /** The objects in the order they were made, and the uuids map. */
  datatype Cache = Cache(objects: seq<Made>, index: map<string, nat>)

  const EMPTY := Cache([], map[])

  /** What the parse functions make of a spelling that is not in the cache. */
  function NewObject(sp: Spelling): Made
    requires Denotes(sp).Some?
  {
    match sp
    case Str(s) =>
      if LongOk(s) then Made(UpperAll(s), None, StringToBuffer(s).value)
      else Made(ShortToLong(UpperAll(s)), Some(s), Put16(ShortValue(s)))
    case Num(n) =>
      var short := "0x" + UpperAll(NumberHex(n));
      Made(ShortToLong(short), Some(short), Put16(n))
    case Buf(b) =>
      var long := BufferToString(b);
      if LongToShort(long).None? then Made(long, None, b)
      else Made(long, LongToShort(long), Put16(Get16(b, |b| - if |b| == 2 then 2 else 4)))
  }

  function Get(rule: KeyRule, c: Cache, sp: Spelling): (Cache, Option<nat>) {
    var k := KeyOf(rule, sp);
    if k.None? then (c, None)
    else if k.value in c.index then (c, Some(c.index[k.value]))
    else
      KeysAreForValues(rule, sp);
      (Cache(c.objects + [NewObject(sp)], c.index[k.value := |c.objects|]), Some(|c.objects|))
  }

  function Run(rule: KeyRule, c: Cache, sps: seq<Spelling>): (r: (Cache, seq<Option<nat>>))
    ensures |r.1| == |sps|
    decreases |sps|
  {
    if sps == [] then (c, [])
    else
      var (c1, o) := Get(rule, c, sps[0]);
      var (c2, os) := Run(rule, c1, sps[1..]);
      (c2, [o] + os)
  }

  /** Keys lead to objects of their own, and each object means what the spellings with its key denote. */
  ghost predicate Valid(rule: KeyRule, c: Cache) {
    && (forall k :: k in c.index ==> c.index[k] < |c.objects|)
    && (forall k, l :: k in c.index && l in c.index && k != l ==> c.index[k] != c.index[l])
    && (forall k, sp :: k in c.index && KeyOf(rule, sp) == Some(k) ==>
          Denotes(sp) == Some(Meaning(c.objects[c.index[k]].buffer)))
  }

  /** The digits of the short form, in the string of sixteen bytes. */
  lemma ShortDigits(b: Long)
    ensures BufferToString(b)[4..8] == Hex4(Get16(b, 12))
  {
    hide HexOf, Digit, Hex4;
    var long, r := BufferToString(b), Reversed(b);
    var front, mid, back := [b[15], b[14]], [b[13], b[12]], r[4..];
    assert r[..2] == front && r[2..4] == mid;
    assert r[..4] == front + mid;
    assert r == (front + mid) + back;
    HexOfConcat(front + mid, back);
    HexOfConcat(front, mid);
    HexOfPair(b[13], b[12]);
    Hex4OfBytes(b[12], b[13]);
    assert HexOf(r)[4..8] == HexOf(mid);
    assert long[..8] == HexOf(r)[..8];
  }

  /** Sixteen bytes with a short form are the expansion of the two bytes the short form takes. */
  lemma ShortFormOfBuffer(b: Long)
    requires LongToShort(BufferToString(b)).Some?
    ensures b == Expand(Get16(b, 12))
  {
    hide HexOf, Digit, Framed, StringToBuffer, Expand, Hex4;
    var long := BufferToString(b);
    ShortDigits(b);
    ShortLongRoundTripIff("0x", long);
    FramedParts(long);
    FramedDenotes(Hex4(Get16(b, 12)), Get16(b, 12));
    StringBufferRoundTrip(b);
  }

  lemma FramedParts(long: string)
    requires LongToShort(long).Some?
    ensures long == Framed(long[4..8])
  {
    assert long[..4] + long[4..8] == long[..8];
    assert long[..8] + long[8..] == long;
  }

  lemma Put16Reads(v: u16)
    ensures Meaning(Put16(v)) == Expand(v)
  {
  }

  /** A new object means what its spelling denotes. */
  lemma NewObjectMeans(sp: Spelling)
    requires Denotes(sp).Some?
    ensures Denotes(sp) == Some(Meaning(NewObject(sp).buffer))
  {
    hide BufferToString, Expand, NumberHex, ShortOk, ShortValue, StringToBuffer, Meaning, Put16;
    match sp
    case Str(s) =>
      if LongOk(s) {
        LongMeansItself(StringToBuffer(s).value);
      } else {
        Put16Reads(ShortValue(s));
      }
    case Num(n) => Put16Reads(n);
    case Buf(b) =>
      if |b| == 2 {
        Put16Reads(Get16(b, 0));
        TwoBytesMean(b);
      } else {
        LongMeansItself(b);
        if LongToShort(BufferToString(b)).Some? {
          ShortFormOfBuffer(b);
          Put16Reads(Get16(b, 12));
        }
      }
  }

  /** A buffer of sixteen bytes has a short form exactly when it is the expansion of a 16-bit number. */
  lemma HasShortFormIff(b: Long)
    ensures LongToShort(BufferToString(b)).Some? <==> b == Expand(Get16(b, 12))
  {
    hide Hex4, Expand, LongToShort, BufferToString;
    if LongToShort(BufferToString(b)).Some? {
      ShortFormOfBuffer(b);
    }
    if b == Expand(Get16(b, 12)) {
      var v := Get16(b, 12);
      Put16Reads(v);
      BufferStringOfMeaning(Put16(v));
      TwoByteString(v);
      FramedIsShort(Hex4(v));
    }
  }

  lemma TwoByteString(v: u16)
    ensures BufferToString(Put16(v)) == Framed(Hex4(v))
  {
    hide Digit;
    Field16RoundTrip([], v, [], [0, 0], 0);
    BufferKey(Put16(v));
  }

  lemma FramedIsShort(h: string)
    requires |h| == 4
    ensures LongToShort(Framed(h)).Some?
  {
    assert Framed(h)[..4] == "0000";
    assert Framed(h)[8..] == BASE_UUID;
  }

  lemma UpperReads(s: string)
    requires |s| == 36
    ensures StringToBuffer(UpperAll(s)) == StringToBuffer(s)
  {
    hide Unhex, Upper;
    assert Undashed(UpperAll(s)) == UpperAll(Undashed(s));
    UnhexUpper(Undashed(s));
  }

  /**
   * The object that getUUID makes: of a number, a short string or two bytes it has a two-byte buffer with the number,
   * low byte first; of a long string it has the sixteen bytes, and the string in upper case; of sixteen bytes it has
   * those, or, when they are the expansion of a number, the two bytes of that. A short string goes with a two-byte
   * buffer and nothing else.
   */
  lemma NewObjectForm(sp: Spelling)
    requires Denotes(sp).Some?
    ensures var o := NewObject(sp);
            && (o.shortString.Some? <==> |o.buffer| == 2)
            && (|o.longString| == 36 ==> StringToBuffer(o.longString) == Denotes(sp))
            && (sp.Str? && LongOk(sp.s) ==> o.longString == UpperAll(sp.s))
            && match sp
               case Str(s) =>
                 if LongOk(s) then Some(o.buffer) == StringToBuffer(s)
                 else o.buffer == [ShortValue(s) % 0x100, ShortValue(s) / 0x100] && o.shortString == Some(s)
               case Num(n) => o.buffer == [n % 0x100, n / 0x100]
               case Buf(b) =>
                 o.buffer == if |b| == 16 && b == Expand(Get16(b, 12)) then b[12..14] else b
  {
    hide BufferToString, Expand, StringToBuffer, LongToShort, ShortToLong, NumberHex, UpperAll, ShortValue, ShortOk;
    WrittenKeyDenotes(sp);
    match sp
    case Str(s) =>
      if LongOk(s) {
        UpperReads(s);
      }
    case Num(_) =>
    case Buf(b) =>
      if |b| == 16 {
        HasShortFormIff(b);
        Field16RoundTrip([], 0, [], b, 12);
      } else {
        Field16RoundTrip([], 0, [], b, 0);
        TwoByteShort(b);
        assert b[0..2] == b;
      }
  }

  lemma TwoByteShort(b: UuidBuffer)
    requires |b| == 2
    ensures LongToShort(BufferToString(b)).Some?
  {
    hide Hex4;
    Field16RoundTrip([], 0, [], b, 0);
    assert b[0..2] == b;
    TwoByteString(Get16(b, 0));
    FramedIsShort(Hex4(Get16(b, 0)));
  }

  lemma SharedKeySharedValue(rule: KeyRule, a: Spelling, b: Spelling)
    requires KeyOf(rule, a).Some? && KeyOf(rule, a) == KeyOf(rule, b)
    ensures Denotes(a) == Denotes(b) && Denotes(a).Some?
  {
    KeysAreForValues(rule, a);
    KeysAreForValues(rule, b);
    if rule == AsWritten {
      WrittenKeysAreSound(a, b);
    } else {
      CanonicalKeysMeetIff(a, b);
    }
  }

  /** A call keeps the cache valid, never moves a key, and returns the object under the spelling's key. */
  lemma GetKeeps(rule: KeyRule, c: Cache, sp: Spelling)
    requires Valid(rule, c)
    ensures var (c', o) := Get(rule, c, sp); var k := KeyOf(rule, sp);
            && Valid(rule, c')
            && (forall l :: l in c.index ==> l in c'.index && c'.index[l] == c.index[l])
            && c.objects <= c'.objects
            && (if k.None? then o == None else k.value in c'.index && o == Some(c'.index[k.value]))
  {
    hide KeyOf, Denotes, NewObject, Meaning;
    var k := KeyOf(rule, sp);
    if k.Some? && k.value !in c.index {
      KeysAreForValues(rule, sp);
      var c' := Get(rule, c, sp).0;
      NewObjectMeans(sp);
      forall l, x | l in c'.index && KeyOf(rule, x) == Some(l)
        ensures Denotes(x) == Some(Meaning(c'.objects[c'.index[l]].buffer))
      {
        if l == k.value {
          SharedKeySharedValue(rule, sp, x);
        }
      }
    }
  }

  lemma {:induction false} RunKeeps(rule: KeyRule, c: Cache, sps: seq<Spelling>)
    requires Valid(rule, c)
    ensures var (c', os) := Run(rule, c, sps);
            && Valid(rule, c')
            && (forall l :: l in c.index ==> l in c'.index && c'.index[l] == c.index[l])
            && (forall i :: 0 <= i < |sps| ==> var k := KeyOf(rule, sps[i]);
                  if k.None? then os[i] == None else k.value in c'.index && os[i] == Some(c'.index[k.value]))
    decreases |sps|
  {
    hide KeyOf, Get, Valid;
    if sps != [] {
      GetKeeps(rule, c, sps[0]);
      var c1 := Get(rule, c, sps[0]).0;
      RunKeeps(rule, c1, sps[1..]);
      var (c', os) := Run(rule, c, sps);
      forall i | 0 <= i < |sps|
        ensures var k := KeyOf(rule, sps[i]);
                if k.None? then os[i] == None else k.value in c'.index && os[i] == Some(c'.index[k.value])
      {
        assert i > 0 ==> sps[i] == sps[1..][i - 1];
      }
    }
  }

  /**
   * Interning, across any call history: two calls return the same object if and only if their spellings have
   * the same key; they return null or throw exactly when the spelling denotes nothing; and the object's buffer
   * means what the spelling denotes.
   */
  lemma SameObjectIff(rule: KeyRule, sps: seq<Spelling>, i: nat, j: nat)
    requires i < |sps| && j < |sps|
    ensures var (c, os) := Run(rule, EMPTY, sps); var a, b := sps[i], sps[j];
            && (os[i].Some? <==> Denotes(a).Some?)
            && (os[i].Some? && os[j].Some? ==> (os[i] == os[j] <==> KeyOf(rule, a) == KeyOf(rule, b)))
            && (os[i].Some? ==> os[i].value < |c.objects| && Denotes(a) == Some(Meaning(c.objects[os[i].value].buffer)))
  {
    hide KeyOf, Denotes, Meaning, Run;
    RunKeeps(rule, EMPTY, sps);
    KeysAreForValues(rule, sps[i]);
    KeysAreForValues(rule, sps[j]);
  }

  /** As written: the same object if and only if the two spellings meet. */
  lemma WrittenInterning(sps: seq<Spelling>, i: nat, j: nat)
    requires i < |sps| && j < |sps| && Denotes(sps[i]).Some? && Denotes(sps[j]).Some?
    ensures var os := Run(AsWritten, EMPTY, sps).1; os[i] == os[j] <==> Meets(sps[i], sps[j])
  {
    hide KeyOf, Denotes, Run, Meets, WrittenKey;
    SameObjectIff(AsWritten, sps, i, j);
    SameObjectIff(AsWritten, sps, j, i);
    WrittenIsWritten(sps[i]);
    WrittenIsWritten(sps[j]);
    WrittenKeysMeetIff(sps[i], sps[j]);
  }

  lemma WrittenIsWritten(sp: Spelling)
    ensures KeyOf(AsWritten, sp) == WrittenKey(sp)
  {
  }

  /** With one key per value: the same object if and only if the same 128-bit value. */
  lemma CanonicalInterning(sps: seq<Spelling>, i: nat, j: nat)
    requires i < |sps| && j < |sps| && Denotes(sps[i]).Some? && Denotes(sps[j]).Some?
    ensures var os := Run(Canonical, EMPTY, sps).1; os[i] == os[j] <==> Denotes(sps[i]) == Denotes(sps[j])
  {
    hide KeyOf, Denotes, Run;
    SameObjectIff(Canonical, sps, i, j);
    SameObjectIff(Canonical, sps, j, i);
    CanonicalKeysMeetIff(sps[i], sps[j]);
  }

  lemma RunOfTwo(a: Spelling, b: Spelling)
    requires Denotes(a).Some? && KeyOf(AsWritten, a).Some? && KeyOf(AsWritten, a) == KeyOf(AsWritten, b)
    ensures var (c, os) := Run(AsWritten, EMPTY, [a, b]); os == [Some(0), Some(0)] && c.objects == [NewObject(a)]
  {
    hide KeyOf, Denotes, NewObject;
    var c := Get(AsWritten, EMPTY, a).0;
    assert [a, b][1..] == [b] && [b][1..] == [];
    assert Run(AsWritten, c, [b]) == (c, [Some(0)] + []);
  }

  lemma LongFormMeets(s: string)
    requires ShortOk(s)
    ensures LongOk(LongForm(s)) && KeyOf(AsWritten, Str(LongForm(s))) == KeyOf(AsWritten, Str(s)) == Some(LongForm(s))
    ensures !LongOk(s)
  {
    hide ShortValue, Framed, Hex4;
    ShortKey(s);
    FramedDenotes(UpperAll(Hex4(ShortValue(s))), ShortValue(s));
  }

  /** A short string and its long form meet as written, and the one that comes first decides the buffer's length. */
  lemma FirstSpellingDecidesLength(s: string)
    requires ShortOk(s)
    ensures var long, short := Str(LongForm(s)), Str(s);
            && Denotes(long).Some? && Denotes(short).Some?
            && Run(AsWritten, EMPTY, [long, short]).1 == [Some(0), Some(0)]
            && Run(AsWritten, EMPTY, [long, short]).0.objects == [NewObject(long)] && |NewObject(long).buffer| == 16
            && Run(AsWritten, EMPTY, [short, long]).1 == [Some(0), Some(0)]
            && Run(AsWritten, EMPTY, [short, long]).0.objects == [NewObject(short)] && |NewObject(short).buffer| == 2
  {
    hide ShortOk, ShortValue, LongForm, LongOk, Run, StringToBuffer, KeyOf;
    LongFormMeets(s);
    RunOfTwo(Str(LongForm(s)), Str(s));
    RunOfTwo(Str(s), Str(LongForm(s)));
  }

  /** A UUID object. */
  class Uuid {
    const longString: string
    const shortString: Option<string>
    const buffer: UuidBuffer

    constructor (m: Made)
      ensures Content() == m
    {
      longString, shortString, buffer := m.longString, m.shortString, m.buffer;
    }

    function Content(): Made {
      Made(longString, shortString, buffer)
    }
  }

  /** The module state of lib/uuid.js. */
  class UuidModule {
    const rule: KeyRule
    var uuids: map<string, Uuid>
    ghost var cache: Cache
    ghost var made: seq<Uuid>

    /** The map leads to the objects that the cache as a value numbers, and no two of them are the same. */
    ghost predicate Valid()
      reads this
    {
      && uuids.Keys == cache.index.Keys && |made| == |cache.objects|
      && (forall k :: k in uuids ==> cache.index[k] < |made| && uuids[k] == made[cache.index[k]])
      && (forall i :: 0 <= i < |made| ==> made[i].Content() == cache.objects[i])
      && (forall i, j :: 0 <= i < j < |made| ==> made[i] != made[j])
    }

    constructor (rule: KeyRule)
      ensures Valid() && this.rule == rule && cache == EMPTY
    {
      this.rule, uuids, cache, made := rule, map[], EMPTY, [];
    }

    /** u is the object that the cache as a value returns for sp, null when it returns none. */
    twostate predicate Did(sp: Spelling, new u: Uuid?)
      reads this
    {
      var (c, o) := Get(rule, old(cache), sp);
      && Valid() && cache == c && old(made) <= made
      && (if o.None? then u == null else o.value < |made| && u == made[o.value])
    }

    /** Look a key up, and make an object for it when it is new. */
    method Intern(key: string, m: Made, ghost sp: Spelling) returns (u: Uuid)
      requires Valid() && KeyOf(rule, sp) == Some(key) && Denotes(sp).Some? && m == NewObject(sp)
      modifies this
      ensures Did(sp, u)
    {
      hide KeyOf, Denotes, NewObject;
      if key in uuids {
        u := uuids[key];
      } else {
        u := new Uuid(m);
        uuids := uuids[key := u];
        made := made + [u];
        cache := Get(rule, cache, sp).0;
      }
    }

    /** The key of a new spelling: as written the given one, otherwise the lower-case long string of its value. */
    function Key(written: string, value: Long): string {
      if rule == AsWritten then written else BufferToString(value)
    }

    method ParseLongUuid(text: string) returns (u: Uuid?)
      requires Valid() && |text| == 36
      modifies this
      ensures Did(Str(text), u)
    {
      if '-' !in text || StringToBuffer(text).None? {
        assert !ShortOk(text);
        return null;
      }
      var buffer := StringToBuffer(text).value;
      u := Intern(Key(text, buffer), Made(UpperAll(text), None, buffer), Str(text));
    }

    method ParseShortUuid(text: string) returns (u: Uuid?)
      requires Valid() && |text| <= 6
      modifies this
      ensures Did(Str(text), u)
    {
      if !ShortOk(text) {
        return null;
      }
      var longString, v := ShortToLong(UpperAll(text)), ShortValue(text);
      u := Intern(Key(longString, Expand(v)), Made(longString, Some(text), Put16(v)), Str(text));
    }

    method ParseString(text: string) returns (u: Uuid?)
      requires Valid()
      modifies this
      ensures Did(Str(text), u)
    {
      if |text| == 36 {
        u := ParseLongUuid(text);
      } else if |text| <= 6 {
        u := ParseShortUuid(text);
      } else {
        u := null;
      }
    }

    method ParseNumber(num: int) returns (u: Uuid?)
      requires Valid()
      modifies this
      ensures Did(Num(num), u)
    {
      if !(0 < num <= 0xFFFF) {
        return null;
      }
      var shortString := "0x" + UpperAll(NumberHex(num));
      var longString := ShortToLong(shortString);
      u := Intern(Key(longString, Expand(num)), Made(longString, Some(shortString), Put16(num)), Num(num));
    }

    method ParseBuffer(buf: UuidBuffer) returns (u: Uuid?)
      requires Valid()
      modifies this
      ensures Did(Buf(buf), u)
    {
      var longString := BufferToString(buf);
      u := Intern(Key(longString, Denotes(Buf(buf)).value), NewObject(Buf(buf)), Buf(buf));
    }

    /** getUUID. */
    method GetUuid(value: Spelling) returns (u: Uuid?)
      requires Valid()
      modifies this
      ensures Did(value, u)
    {
      match value
      case Str(s) => u := ParseString(s);
      case Num(n) => u := ParseNumber(n);
      case Buf(b) => u := ParseBuffer(b);
    }
  }
}
