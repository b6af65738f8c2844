/** The attribute table of lib/att.js as a value, and findAttributes over it. */
module Search {
  import opened Bytes
  import opened AttTypes

  datatype Attr = Attr(kind: Uuid, value: seq<byte>, end: u16, props: byte)

  /** Handle 0 is never registered: the handle setter and createAttribute test the handle for truth. */
  type Table = t: map<u16, Attr> | 0 !in t witness map[]

  /** The type a handler searches for: no type given, one UUID, or a key that no attribute carries. */
  datatype TypeArg = AnyType | OneType(uuid: Uuid) | NoType

  datatype Query = Query(proc: Procedure, kind: TypeArg, value: Option<seq<byte>>)

  predicate Matches(a: Attr, q: Query) {
    && (q.kind.AnyType? || (q.kind.OneType? && a.kind == q.kind.uuid))
    && (q.value.Some? ==> a.value == q.value.value)
  }

  function EntryOf(p: Procedure, h: u16, a: Attr): (e: Entry)
    ensures e.handle == h && EntryFor(p, e)
  {
    match p
    case FindInfo => Info(h, a.kind)
    case FindByType => Range(h, a.end)
    case ReadByType => Data(h, a.value)
    case ReadByGroup => Group(h, a.end, a.value)
  }

  /** The entries of the matching attributes with lo <= handle < hi, found by counting handles upward. */
  function Hits(t: Table, q: Query, lo: nat, hi: nat): (es: seq<Entry>)
    requires hi <= 0x1_0000
    ensures forall i :: 0 <= i < |es| ==> EntryFor(q.proc, es[i])
    decreases hi - lo
  {
    if lo >= hi then []
    else (if lo in t && Matches(t[lo], q) then [EntryOf(q.proc, lo, t[lo])] else []) + Hits(t, q, lo + 1, hi)
  }

  /** An entry is a hit exactly when it stands for a matching attribute in the range. */
  ghost predicate IsHit(t: Table, q: Query, lo: nat, hi: nat, e: Entry) {
    lo <= e.handle < hi && e.handle in t && Matches(t[e.handle], q) && e == EntryOf(q.proc, e.handle, t[e.handle])
  }

  /** The scan is the handle-sorted filter of the table: complete, sound, strictly ascending. */
  lemma {:induction false} HitsAreTheFilter(t: Table, q: Query, lo: nat, hi: nat)
    requires hi <= 0x1_0000
    ensures forall e :: e in Hits(t, q, lo, hi) <==> IsHit(t, q, lo, hi, e)
    ensures Ascending(Hits(t, q, lo, hi))
    decreases hi - lo
  {
    if lo < hi {
      HitsAreTheFilter(t, q, lo + 1, hi);
      var tail := Hits(t, q, lo + 1, hi);
      forall i | 0 <= i < |tail|
        ensures tail[i].handle > lo
      {
        assert tail[i] in tail;
      }
      forall e
        ensures e in Hits(t, q, lo, hi) <==> IsHit(t, q, lo, hi, e)
      {
        assert e in tail <==> IsHit(t, q, lo + 1, hi, e);
      }
    }
  }

  lemma {:induction false} HitsSplit(t: Table, q: Query, lo: nat, mid: nat, hi: nat)
    requires lo <= mid <= hi <= 0x1_0000
    ensures Hits(t, q, lo, hi) == Hits(t, q, lo, mid) + Hits(t, q, mid, hi)
    decreases mid - lo
  {
    if lo < mid {
      HitsSplit(t, q, lo + 1, mid, hi);
    }
  }

  lemma HitsNext(t: Table, q: Query, lo: nat, i: nat)
    requires lo <= i < 0x1_0000
    ensures Hits(t, q, lo, i + 1) ==
            Hits(t, q, lo, i) + if i in t && Matches(t[i], q) then [EntryOf(q.proc, i, t[i])] else []
  {
    HitsSplit(t, q, lo, i, i + 1);
    assert Hits(t, q, i + 1, i + 1) == [];
  }

  /**
   * Cutting the scan after any of its entries: what was taken is the scan up to that entry's handle,
   * what is left is the scan from the next handle on.
   */
  lemma HitsResume(t: Table, q: Query, lo: nat, hi: nat, k: nat)
    requires hi <= 0x1_0000 && 0 < k <= |Hits(t, q, lo, hi)|
    ensures var all := Hits(t, q, lo, hi); var next := all[k - 1].handle + 1;
            lo < next <= hi && all[..k] == Hits(t, q, lo, next) && all[k..] == Hits(t, q, next, hi)
  {
    hide EntryOf, Matches;
    var all := Hits(t, q, lo, hi);
    HitsAreTheFilter(t, q, lo, hi);
    var last := all[k - 1];
    assert last in all;
    var next := last.handle + 1;
    HitsSplit(t, q, lo, next, hi);
    var head, tail := Hits(t, q, lo, next), Hits(t, q, next, hi);
    HitsAreTheFilter(t, q, lo, next);
    HitsAreTheFilter(t, q, next, hi);
    forall i | 0 <= i < |all|
      ensures i < |head| <==> all[i].handle < next
    {
      if i < |head| {
        assert all[i] == head[i] && head[i] in head;
      } else {
        assert all[i] == tail[i - |head|] && tail[i - |head|] in tail;
      }
    }
    assert all[k - 1].handle < next && (k < |all| ==> all[k].handle > last.handle);
    assert |head| == k;
    assert all[..k] == head && all[k..] == tail;
  }

  lemma HeadIsFirst(t: Table, q: Query, lo: nat, mid: nat, hi: nat)
    requires lo <= mid <= hi <= 0x1_0000
    ensures Hits(t, q, lo, mid) != [] ==> Hits(t, q, lo, hi) != [] && Hits(t, q, lo, hi)[0].handle < mid
  {
    HitsSplit(t, q, lo, mid, hi);
    HitsAreTheFilter(t, q, lo, mid);
    var head := Hits(t, q, lo, mid);
    if head != [] {
      assert head[0] in head && Hits(t, q, lo, hi)[0] == head[0];
    }
  }

  /** A scan may as well start at any handle up to its first entry. */
  lemma NothingBefore(t: Table, q: Query, lo: nat, mid: nat, hi: nat)
    requires lo <= mid <= hi <= 0x1_0000
    requires var all := Hits(t, q, lo, hi); all != [] ==> mid <= all[0].handle
    ensures Hits(t, q, lo, mid) == [] && Hits(t, q, mid, hi) == Hits(t, q, lo, hi)
  {
    hide EntryOf, Matches;
    HeadIsFirst(t, q, lo, mid, hi);
    HitsSplit(t, q, lo, mid, hi);
  }

  /** Cutting a scan anywhere between two of its entries, or behind its last. */
  lemma HitsCut(t: Table, q: Query, lo: nat, hi: nat, k: nat, mid: nat)
    requires hi <= 0x1_0000 && 0 < k <= |Hits(t, q, lo, hi)|
    requires var all := Hits(t, q, lo, hi); all[k - 1].handle < mid && (k < |all| ==> mid <= all[k].handle)
    ensures var all := Hits(t, q, lo, hi);
            lo < mid &&
            if mid <= hi then all[..k] == Hits(t, q, lo, mid) && all[k..] == Hits(t, q, mid, hi) else k == |all|
  {
    hide EntryOf, Matches, Hits;
    var all := Hits(t, q, lo, hi);
    HitsResume(t, q, lo, hi, k);
    HitsAreTheFilter(t, q, lo, hi);
    var next := all[k - 1].handle + 1;
    assert k < |all| ==> all[k] in all && all[k..][0] == all[k];
    if mid <= hi {
      NothingBefore(t, q, next, mid, hi);
      HitsSplit(t, q, lo, next, mid);
    }
  }

  /** Two tables that agree on the matching attributes of a range are scanned alike. */
  lemma {:induction false} HitsFrame(t: Table, t': Table, q: Query, lo: nat, hi: nat)
    requires hi <= 0x1_0000
    requires forall h: u16 :: lo <= h < hi && (h in t || h in t') ==>
      h in t && h in t' && Matches(t[h], q) == Matches(t'[h], q) &&
      (Matches(t[h], q) ==> EntryOf(q.proc, h, t[h]) == EntryOf(q.proc, h, t'[h]))
    ensures Hits(t, q, lo, hi) == Hits(t', q, lo, hi)
    decreases hi - lo
  {
    if lo < hi {
      HitsFrame(t, t', q, lo + 1, hi);
    }
  }

  /** An empty stretch can be skipped, and only an empty one. */
  lemma SkipEmptyStretch(t: Table, q: Query, lo: nat, mid: nat, hi: nat)
    requires lo <= mid <= hi <= 0x1_0000
    ensures Hits(t, q, lo, hi) == Hits(t, q, mid, hi) <==>
            forall h: u16 :: lo <= h < mid && h in t ==> !Matches(t[h], q)
  {
    HitsSplit(t, q, lo, mid, hi);
    HitsAreTheFilter(t, q, lo, mid);
    var head := Hits(t, q, lo, mid);
    if head == [] {
      forall h: u16 | lo <= h < mid && h in t
        ensures !Matches(t[h], q)
      {
        assert EntryOf(q.proc, h, t[h]) !in head;
      }
    } else {
      assert head[0] in head;
      assert |Hits(t, q, lo, hi)| == |head| + |Hits(t, q, mid, hi)|;
    }
  }
}
