/** Characteristic discovery on the client's side: getChars, processAttributes and createChars of lib/service.js. */
module Discovery {
  import opened Bytes
  import opened AttTypes
  import opened Interning

  /** What Read By Type finds: a handle and a value. */
  type Found = e: Entry | e.Data? witness Data(0, [])

  /** What readByType calls back with. */
  datatype Answer = Listed(items: seq<Found>) | NoneFound | Failed(code: byte)

  /** A characteristic as discovered: created locally under the handle of its declaration. */
  datatype Char = Char(handle: u16, uuid: u16)

  datatype Outcome = Success(chars: seq<Char>) | Failure(code: byte)

  /** The number read from a declaration's value at offset 3; None when there are too few bytes and the read throws. */
  function ShortUuid(e: Found): Option<u16>
  {
    if |e.value| < 5 then None else Some(Get16(e.value, 3))
  }

  /** The UUID object to look for: how it was spelled to getUUID, and how getUUID makes its keys. */
  datatype Sought = Sought(spelling: Spelling, rule: KeyRule)

  type Filter = f: Sought | Denotes(f.spelling).Some? witness Sought(Num(1), Canonical)

  /** getUUID makes the same object of the number; of 0 it makes none. */
  predicate SameUuid(f: Filter, v: u16) {
    KeyOf(f.rule, Num(v)).Some? && KeyOf(f.rule, Num(v)) == KeyOf(f.rule, f.spelling)
  }

  /** As written the unpadded key of a small number (lib/uuid.js:105) is met by nothing but the number itself. */
  lemma SmallNumberMissed(a: Spelling, v: u16)
    requires Denotes(a).Some? && 0 < v < 0x1000
    ensures WrittenKey(a) == WrittenKey(Num(v)) <==> a == Num(v)
  {
    hide WrittenKey, Meets;
    WrittenKeysMeetIff(a, Num(v));
    SmallNumberMeets(a, v);
  }

  lemma SmallNumberMeets(a: Spelling, v: u16)
    requires Denotes(a).Some? && 0 < v < 0x1000
    ensures Denotes(Num(v)).Some? && (Meets(a, Num(v)) <==> a == Num(v))
  {
    hide Framed, Hex4, Expand, ShortValue, NoLetters, Meaning;
  }

  /** Without a filter, or with one that getUUID knows no UUID for, everything passes. */
  predicate Passes(filter: Option<Filter>, e: Found)
  {
    filter.None? || (ShortUuid(e).Some? && SameUuid(filter.value, ShortUuid(e).value))
  }

  /**
   * Which declarations a filter passes. With one key per value: those with the filter's own value. As written: those
   * whose number the filter's spelling meets (Interning.Meets).
   */
  lemma PassesIff(f: Filter, e: Found)
    requires ShortUuid(e).Some?
    ensures var v := ShortUuid(e).value;
            Passes(Some(f), e) <==>
            v != 0 && if f.rule == Canonical then Denotes(f.spelling) == Some(Expand(v)) else Meets(f.spelling, Num(v))
  {
    hide Expand, Meets, WrittenKey;
    var v := ShortUuid(e).value;
    KeysAreForValues(f.rule, Num(v));
    if v != 0 {
      if f.rule == Canonical {
        CanonicalKeysMeetIff(f.spelling, Num(v));
      } else {
        WrittenKeysMeetIff(f.spelling, Num(v));
      }
    }
  }

  /** The constructor throws without a UUID, past the last handle, or when a handle is in use locally. */
  predicate Creatable(e: Found, taken: set<nat>)
  {
    && ShortUuid(e).Some? && ShortUuid(e).value != 0
    && (e.handle == 0 || (e.handle < 0xFFFF && e.handle !in taken && e.handle + 1 !in taken))
  }

  function Taking(e: Found, taken: set<nat>): set<nat> {
    if e.handle == 0 then taken else taken + {e.handle, e.handle + 1}
  }

  /** The characteristics that a list of declarations yields; None when something throws on the way. */
  function Select(items: seq<Found>, filter: Option<Filter>, taken: set<nat>): Option<seq<Char>>
  {
    if items == [] then Some([])
    else
      var e := items[0];
      if ShortUuid(e).None? then None
      else if !Passes(filter, e) then Select(items[1..], filter, taken)
      else if !Creatable(e, taken) then None
      else
        match Select(items[1..], filter, Taking(e, taken))
        case None => None
        case Some(rest) => Some([Char(e.handle, ShortUuid(e).value)] + rest)
  }

  /**
   * The end handles that processAttributes computes: up to the next declaration, the last one up to the group's
   * end.
   */
  function Ends(items: seq<Found>, end: u16): (r: seq<int>)
    ensures |r| == |items|
  {
    if items == [] then []
    else [if |items| > 1 then items[1].handle - 1 else end] + Ends(items[1..], end)
  }

  /** The declarations that the filter lets through. */
  function Passing(items: seq<Found>, filter: Option<Filter>): (r: seq<Found>)
  {
    if items == [] then []
    else (if Passes(filter, items[0]) then [items[0]] else []) + Passing(items[1..], filter)
  }

  /** The two handles of one characteristic meet those of another. */
  predicate Clash(a: Found, b: Found) {
    a.handle != 0 && b.handle != 0 && a.handle <= b.handle + 1 && b.handle <= a.handle + 1
  }

  predicate AllReadable(items: seq<Found>)
  {
    forall i :: 0 <= i < |items| ==> ShortUuid(items[i]).Some?
  }

  /** All of them can be created, one after the other. */
  predicate Room(passing: seq<Found>, taken: set<nat>)
  {
    && (forall i :: 0 <= i < |passing| ==> Creatable(passing[i], taken))
    && (forall i, j :: 0 <= i < j < |passing| ==> !Clash(passing[i], passing[j]))
  }

  /** Every declaration can be read, and those that pass can all be created. */
  predicate Discoverable(items: seq<Found>, filter: Option<Filter>, taken: set<nat>)
  {
    AllReadable(items) && Room(Passing(items, filter), taken)
  }

  lemma TakingMeansNoClash(a: Found, b: Found, taken: set<nat>)
    requires Creatable(a, taken)
    ensures Creatable(b, Taking(a, taken)) <==> Creatable(b, taken) && !Clash(a, b)
  {
  }

  lemma RoomStep(passing: seq<Found>, taken: set<nat>)
    requires passing != []
    ensures Room(passing, taken) <==>
            Creatable(passing[0], taken) && Room(passing[1..], Taking(passing[0], taken))
  {
    hide Creatable, Clash, Taking;
    var tail := passing[1..];
    if Creatable(passing[0], taken) {
      forall i | 0 <= i < |tail|
        ensures tail[i] == passing[i + 1]
        ensures Creatable(tail[i], Taking(passing[0], taken)) <==>
                Creatable(passing[i + 1], taken) && !Clash(passing[0], passing[i + 1])
      {
        TakingMeansNoClash(passing[0], tail[i], taken);
      }
      if Room(tail, Taking(passing[0], taken)) {
        forall i, j | 0 <= i < j < |passing|
          ensures !Clash(passing[i], passing[j]) && Creatable(passing[j], taken)
        {
          assert passing[j] == tail[j - 1];
          assert i > 0 ==> !Clash(tail[i - 1], tail[j - 1]);
        }
      }
    }
  }

  lemma ReadableStep(items: seq<Found>)
    requires items != []
    ensures AllReadable(items) <==> ShortUuid(items[0]).Some? && AllReadable(items[1..])
  {
    assert forall i :: 0 < i < |items| ==> items[i] == items[1..][i - 1];
  }

  lemma DiscoverableStep(items: seq<Found>, filter: Option<Filter>, taken: set<nat>)
    requires items != [] && ShortUuid(items[0]).Some?
    ensures Discoverable(items, filter, taken) <==>
            if Passes(filter, items[0]) then
              Creatable(items[0], taken) && Discoverable(items[1..], filter, Taking(items[0], taken))
            else Discoverable(items[1..], filter, taken)
  {
    hide ShortUuid, Creatable, Passes, AllReadable, Room, Taking;
    ReadableStep(items);
    var tail := Passing(items[1..], filter);
    if Passes(filter, items[0]) {
      assert Passing(items, filter) == [items[0]] + tail && ([items[0]] + tail)[1..] == tail;
      RoomStep(Passing(items, filter), taken);
    } else {
      assert [] + tail == tail;
    }
  }

  lemma UnreadableIsNot(items: seq<Found>, filter: Option<Filter>, taken: set<nat>)
    requires items != [] && ShortUuid(items[0]).None?
    ensures !Discoverable(items, filter, taken)
  {
  }

  function CharOf(e: Found): Char {
    Char(e.handle, if ShortUuid(e).Some? then ShortUuid(e).value else 0)
  }

  function CharsOf(es: seq<Found>): (cs: seq<Char>)
    ensures |cs| == |es| && forall i :: 0 <= i < |es| ==> cs[i] == CharOf(es[i])
  {
    if es == [] then [] else [CharOf(es[0])] + CharsOf(es[1..])
  }

  /** The recursion yields exactly the declarations that pass the filter, in order. */
  lemma {:induction false} SelectYields(items: seq<Found>, filter: Option<Filter>, taken: set<nat>)
    ensures var found := Select(items, filter, taken);
            found.Some? ==> found.value == CharsOf(Passing(items, filter))
  {
    hide Creatable, Passes, ShortUuid;
    if items != [] {
      var e, tail := items[0], Passing(items[1..], filter);
      SelectYields(items[1..], filter, if Passes(filter, e) then Taking(e, taken) else taken);
      assert ([e] + tail)[1..] == tail && [] + tail == tail;
    }
  }

  /**
   * The recursion ends with a callback if and only if every declaration has its five bytes and those that
   * pass the filter have a UUID and handles that are still free.
   */
  lemma {:induction false} SelectIff(items: seq<Found>, filter: Option<Filter>, taken: set<nat>)
    ensures Select(items, filter, taken).Some? <==> Discoverable(items, filter, taken)
  {
    hide Creatable, Passes, Discoverable, ShortUuid;
    if items == [] {
      NothingIsDiscoverable(filter, taken);
    } else if ShortUuid(items[0]).None? {
      UnreadableIsNot(items, filter, taken);
    } else {
      DiscoverableStep(items, filter, taken);
      if !Passes(filter, items[0]) {
        SelectIff(items[1..], filter, taken);
      } else if Creatable(items[0], taken) {
        SelectIff(items[1..], filter, Taking(items[0], taken));
      }
    }
  }

  lemma NothingIsDiscoverable(filter: Option<Filter>, taken: set<nat>)
    ensures Discoverable([], filter, taken)
  {
  }

  lemma {:induction false} EndsAt(items: seq<Found>, end: u16, i: nat)
    requires i < |items|
    ensures Ends(items, end)[i] == if i + 1 < |items| then items[i + 1].handle - 1 else end
  {
    if i > 0 {
      EndsAt(items[1..], end, i - 1);
    }
  }

  predicate Covers(items: seq<Found>, end: u16, i: nat, x: int)
    requires i < |items|
  {
    items[i].handle <= x <= Ends(items, end)[i]
  }

  /** The computed ranges [handle, end] partition the handles from the first declaration to the group's end. */
  lemma EndsPartition(items: seq<Found>, end: u16, x: int) returns (i: nat)
    requires Ascending(items) && items != [] && items[|items| - 1].handle <= end && items[0].handle <= x <= end
    ensures i < |items| && Covers(items, end, i, x)
    ensures forall j :: 0 <= j < |items| && j != i ==> !Covers(items, end, j, x)
  {
    hide Ends;
    i := |items| - 1;
    while items[i].handle > x
      invariant i < |items| && (i + 1 < |items| ==> x < items[i + 1].handle)
    {
      i := i - 1;
    }
    EndsAt(items, end, i);
    forall j | 0 <= j < |items| && j != i
      ensures !Covers(items, end, j, x)
    {
      EndsAt(items, end, j);
    }
  }

  /** What getChars has collected when the answers are used up. */
  datatype Collected = Waiting(items: seq<Found>) | Finished(items: seq<Found>) | Aborted(code: byte) | Broken

  /** An empty list has no last element, and asking it for its handle throws. */
  function Collect(start: u16, end: u16, answers: seq<Answer>, had: seq<Found>): (c: Collected)
    decreases |answers|
  {
    if answers == [] then Waiting(had)
    else
      match answers[0]
      case NoneFound => Finished(had)
      case Failed(code) => Aborted(code)
      case Listed(list) =>
        if list == [] then Broken
        else if list[|list| - 1].handle < end then Collect(list[|list| - 1].handle + 1, end, answers[1..], had + list)
        else Finished(had + list)
  }

  /** A list behind which getChars asks on. */
  predicate Onward(a: Answer, end: u16) {
    a.Listed? && a.items != [] && a.items[|a.items| - 1].handle < end
  }

  /** The first k answers are such lists. */
  predicate OnwardFor(answers: seq<Answer>, end: u16, k: nat) {
    k <= |answers| && forall i :: 0 <= i < k ==> Onward(answers[i], end)
  }

  /** Answer k is the first that is not such a list; with k behind the last there is none. */
  predicate Decides(answers: seq<Answer>, end: u16, k: nat) {
    OnwardFor(answers, end, k) && (k < |answers| ==> !Onward(answers[k], end))
  }

  /** What the lists among the answers bring, joined. */
  function Gathered(answers: seq<Answer>): seq<Found> {
    if answers == [] then []
    else (if answers[0].Listed? then answers[0].items else []) + Gathered(answers[1..])
  }

  lemma DecidesLater(answers: seq<Answer>, end: u16, k: nat)
    requires answers != [] && Onward(answers[0], end) && Decides(answers[1..], end, k)
    ensures Decides(answers, end, k + 1)
  {
    forall i | 0 <= i < k + 1
      ensures Onward(answers[i], end)
    {
      assert i > 0 ==> answers[i] == answers[1..][i - 1];
    }
  }

  predicate FirstOther(start: u16, end: u16, answers: seq<Answer>, had: seq<Found>, k: nat) {
    var c := Collect(start, end, answers, had);
    if k >= |answers| then c == Waiting(had + Gathered(answers))
    else
      match answers[k]
      case Failed(code) => c == Aborted(code)
      case NoneFound => c == Finished(had + Gathered(answers[..k]))
      case Listed(items) => c == if items == [] then Broken else Finished(had + Gathered(answers[..k + 1]))
  }

  /** The first answer that is not such a list decides. */
  lemma {:induction false} FirstOtherDecides(start: u16, end: u16, answers: seq<Answer>, had: seq<Found>, k: nat)
    requires Decides(answers, end, k)
    ensures FirstOther(start, end, answers, had, k)
    decreases k
  {
    if k == 0 {
      if answers == [] {
        assert had + [] == had;
      } else {
        assert answers[..1][0] == answers[0] && answers[..1][1..] == [] && Gathered([]) == [];
        assert Gathered(answers[..1]) == Gathered([answers[0]]);
        assert answers[0].Listed? ==> answers[0].items + [] == answers[0].items;
        assert had + [] == had;
      }
    } else {
      var list := answers[0].items;
      assert Onward(answers[0], end);
      FirstOtherDecides(list[|list| - 1].handle + 1, end, answers[1..], had + list, k - 1);
      FirstOtherLater(start, end, answers, had, k);
    }
  }

  lemma FirstOtherLater(start: u16, end: u16, answers: seq<Answer>, had: seq<Found>, k: nat)
    requires answers != [] && Onward(answers[0], end) && 0 < k <= |answers|
    requires var list := answers[0].items;
             FirstOther(list[|list| - 1].handle + 1, end, answers[1..], had + list, k - 1)
    ensures FirstOther(start, end, answers, had, k)
  {
    hide Gathered;
    var list := answers[0].items;
    GatheredFirst(answers, k, had);
    if k < |answers| {
      GatheredFirst(answers, k + 1, had);
    } else {
      assert answers[..k] == answers && answers[1..][..k - 1] == answers[1..];
    }
  }

  lemma GatheredFirst(answers: seq<Answer>, k: nat, had: seq<Found>)
    requires answers != [] && answers[0].Listed? && 0 < k <= |answers|
    ensures had + Gathered(answers[..k]) == had + answers[0].items + Gathered(answers[1..][..k - 1])
  {
    assert answers[..k][1..] == answers[1..][..k - 1];
  }

  class Discoverer {
    const groupEndHandle: u16
    const filter: Option<Filter>
    var attributes: seq<Found>
    var chars: seq<Char>
    var taken: set<nat>
    /** The callbacks made. */
    var outcomes: seq<Outcome>
    /** The end handles computed so far; the code does nothing with them. */
    var ends: seq<int>

    constructor (groupEndHandle: u16, filter: Option<Filter>, taken: set<nat>)
      ensures this.groupEndHandle == groupEndHandle && this.filter == filter && this.taken == taken
      ensures attributes == [] && chars == [] && outcomes == [] && ends == []
    {
      this.groupEndHandle, this.filter, this.taken := groupEndHandle, filter, taken;
      attributes, chars, outcomes, ends := [], [], [], [];
    }

    /** Take the next declaration and hand it on with its end handle, or nothing when the list is empty. */
    method ProcessAttributes() returns (threw: bool)
      modifies this
      ensures var found := Select(old(attributes), filter, old(taken));
              threw == found.None? &&
              if threw then outcomes == old(outcomes)
              else chars == old(chars) + found.value && outcomes == old(outcomes) + [Success(chars)]
      ensures !threw ==> attributes == [] && ends == old(ends) + Ends(old(attributes), groupEndHandle)
      decreases 2 * |attributes| + 1
    {
      hide Select;
      if attributes == [] {
        threw := CreateChars(None);
        assert [] + old(attributes) == old(attributes);
      } else {
        var next := attributes[0];
        attributes := attributes[1..];
        assert [next] + attributes == old(attributes);
        var h: int := if |attributes| > 0 then attributes[0].handle - 1 else groupEndHandle;
        ends := ends + [h];
        threw := CreateChars(Some(next));
      }
    }

    /** Create the characteristic if it passes the filter, and go on; call back at the end of the list. */
    method CreateChars(item: Option<Found>) returns (threw: bool)
      requires item.None? ==> attributes == []
      modifies this
      ensures var found := Select((if item.Some? then [item.value] else []) + old(attributes), filter, old(taken));
              threw == found.None? &&
              if threw then outcomes == old(outcomes)
              else chars == old(chars) + found.value && outcomes == old(outcomes) + [Success(chars)]
      ensures !threw ==> attributes == [] && ends == old(ends) + Ends(old(attributes), groupEndHandle)
      decreases if item.Some? then 2 * |attributes| + 2 else 0
    {
      hide SameUuid, Creatable;
      if item.None? {
        outcomes := outcomes + [Success(chars)];
        return false;
      }
      var e := item.value;
      ghost var items := [e] + attributes;
      assert items[1..] == attributes;
      if |e.value| < 5 {
        return true;
      }
      var uuidVal := Get16(e.value, 3);
      if filter.Some? && !SameUuid(filter.value, uuidVal) {
        threw := ProcessAttributes();
      } else {
        if !Creatable(e, taken) {
          return true;
        }
        taken := Taking(e, taken);
        chars := chars + [Char(e.handle, uuidVal)];
        threw := ProcessAttributes();
      }
    }

    /** One callback with the characteristics that the items yield, behind those there were, or a throw without one. */
    predicate Reported(chars0: seq<Char>, outcomes0: seq<Outcome>, taken0: set<nat>, items: seq<Found>, threw: bool)
      reads this
    {
      var found := Select(items, filter, taken0);
      threw == found.None? &&
      if threw then outcomes == outcomes0
      else chars == chars0 + found.value && outcomes == outcomes0 + [Success(chars)]
    }

    /**
     * getChars: ask from startHandle, take what comes, ask on behind its last handle until the group is
     * covered. The answers are those that the peripheral gives in turn; with none left the call back is still to
     * come. The first answer that is not a list ending below the group's end decides: an error is called back as it
     * is and creates nothing; not-found, or a list that reaches the end, reports what was gathered, and no error.
     */
    method GetChars(startHandle: u16, answers: seq<Answer>) returns (threw: bool, ghost k: nat)
      modifies this
      ensures match Collect(startHandle, groupEndHandle, answers, old(attributes))
              case Waiting(items) => !threw && attributes == items && chars == old(chars) && outcomes == old(outcomes)
              case Aborted(code) => !threw && chars == old(chars) && outcomes == old(outcomes) + [Failure(code)]
              case Broken => threw && chars == old(chars) && outcomes == old(outcomes)
              case Finished(items) =>
                Reported(old(chars), old(outcomes), old(taken), items, threw) &&
                (!threw ==> ends == old(ends) + Ends(items, groupEndHandle))
      ensures Decides(answers, groupEndHandle, k)
      ensures if k == |answers| then !threw && chars == old(chars) && outcomes == old(outcomes)
              else
                match answers[k]
                case Failed(code) => !threw && chars == old(chars) && outcomes == old(outcomes) + [Failure(code)]
                case NoneFound =>
                  Reported(old(chars), old(outcomes), old(taken), old(attributes) + Gathered(answers[..k]), threw)
                case Listed(items) =>
                  if items == [] then threw && chars == old(chars) && outcomes == old(outcomes)
                  else
                    Reported(old(chars), old(outcomes), old(taken), old(attributes) + Gathered(answers[..k + 1]), threw)
      decreases |answers|
    {
      ghost var had := attributes;
      k := 0;
      threw := false;
      if |answers| > 0 {
        match answers[0]
        case NoneFound => threw := ProcessAttributes();
        case Failed(code) => outcomes := outcomes + [Failure(code)];
        case Listed(list) =>
          attributes := attributes + list;
          if |list| == 0 {
            threw := true;
          } else {
            var last := list[|list| - 1].handle;
            if last < groupEndHandle {
              threw, k := GetChars(last + 1, answers[1..]);
              DecidesLater(answers, groupEndHandle, k);
              k := k + 1;
            } else {
              threw := ProcessAttributes();
            }
          }
      }
      hide Select, Gathered;
      FirstOtherDecides(startHandle, groupEndHandle, answers, had, k);
    }

    /** findCharacteristics: nothing is gathered yet, and the characteristics of the service are added to. */
    method FindCharacteristics(startHandle: u16, answers: seq<Answer>) returns (threw: bool, ghost k: nat)
      modifies this
      ensures Decides(answers, groupEndHandle, k)
      ensures if k == |answers| then !threw && chars == old(chars) && outcomes == old(outcomes)
              else
                match answers[k]
                case Failed(code) => !threw && chars == old(chars) && outcomes == old(outcomes) + [Failure(code)]
                case NoneFound => Reported(old(chars), old(outcomes), old(taken), Gathered(answers[..k]), threw)
                case Listed(items) =>
                  if items == [] then threw && chars == old(chars) && outcomes == old(outcomes)
                  else Reported(old(chars), old(outcomes), old(taken), Gathered(answers[..k + 1]), threw)
    {
      attributes := [];
      threw, k := GetChars(startHandle, answers);
      hide Select, Gathered, Collect;
      assert [] + Gathered(answers[..k]) == Gathered(answers[..k]);
      assert k < |answers| ==> [] + Gathered(answers[..k + 1]) == Gathered(answers[..k + 1]);
    }
  }
}
