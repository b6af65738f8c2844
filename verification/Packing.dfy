/** The packing loop shared by the four list handlers of lib/att.js, as a function, and what it packs. */
module Packing {
  import opened Bytes
  import opened AttTypes

  function TotalSize(es: seq<Entry>): nat {
    if es == [] then 0 else Size(es[0]) + TotalSize(es[1..])
  }

  function Concat(es: seq<Entry>): (s: seq<byte>)
    ensures |s| == TotalSize(es)
  {
    if es == [] then [] else EntryBytes(es[0]) + Concat(es[1..])
  }

  lemma {:induction false} ConcatSnoc(es: seq<Entry>, e: Entry)
    ensures Concat(es + [e]) == Concat(es) + EntryBytes(e)
    ensures TotalSize(es + [e]) == TotalSize(es) + Size(e)
  {
    if es == [] {
      assert es + [e] == [e];
      assert Concat([e]) == EntryBytes(e) + Concat([]);
    } else {
      assert (es + [e])[1..] == es[1..] + [e];
      ConcatSnoc(es[1..], e);
    }
  }

  /**
   * What the loop takes: it stops at the first entry whose size differs from `same` (when there is
   * such a stop) or for which offset + size + slack exceeds the MTU.
   */
  function Packed(es: seq<Entry>, offset: nat, slack: nat, mtu: nat, same: Option<nat>): seq<Entry> {
    if es == [] || (same.Some? && Size(es[0]) != same.value) || offset + Size(es[0]) + slack > mtu then
      []
    else
      [es[0]] + Packed(es[1..], offset + Size(es[0]), slack, mtu, same)
  }

  /** A prefix is admissible when it shares the required size and fits together with the slack. */
  predicate Admissible(es: seq<Entry>, offset: nat, slack: nat, mtu: nat, same: Option<nat>) {
    es == [] ||
    ((forall i :: 0 <= i < |es| ==> same.Some? ==> Size(es[i]) == same.value) &&
     offset + TotalSize(es) + slack <= mtu)
  }

  lemma AdmissibleStep(es: seq<Entry>, k: nat, offset: nat, slack: nat, mtu: nat, same: Option<nat>)
    requires 0 < k <= |es| && offset + Size(es[0]) + slack <= mtu && (same.Some? ==> Size(es[0]) == same.value)
    ensures Admissible(es[..k], offset, slack, mtu, same) <==>
            Admissible(es[1..][..k - 1], offset + Size(es[0]), slack, mtu, same)
  {
    var p, q := es[..k], es[1..][..k - 1];
    assert p[1..] == q && p[0] == es[0];
    forall i | 0 <= i < |q|
      ensures q[i] == p[i + 1]
    {
    }
  }

  /** When the loop takes nothing, no non-empty prefix is admissible. */
  lemma NothingPacked(es: seq<Entry>, k: nat, offset: nat, slack: nat, mtu: nat, same: Option<nat>)
    requires 0 < k <= |es| && Packed(es, offset, slack, mtu, same) == []
    ensures !Admissible(es[..k], offset, slack, mtu, same)
  {
    assert es[..k][0] == es[0];
    assert TotalSize(es[..k]) >= Size(es[0]);
  }

  lemma EmptyAdmissible(offset: nat, slack: nat, mtu: nat, same: Option<nat>)
    ensures Admissible([], offset, slack, mtu, same)
  {
  }

  /** The loop takes exactly the longest admissible prefix. */
  lemma {:induction false} PackedIsLongestPrefix(es: seq<Entry>, offset: nat, slack: nat, mtu: nat, same: Option<nat>)
    ensures var p := Packed(es, offset, slack, mtu, same);
            |p| <= |es| && p == es[..|p|] &&
            forall k :: 0 <= k <= |es| ==> (Admissible(es[..k], offset, slack, mtu, same) <==> k <= |p|)
  {
    hide EntryBytes;
    var p := Packed(es, offset, slack, mtu, same);
    assert es[..0] == [];
    if p == [] {
      forall k | 0 < k <= |es|
        ensures !Admissible(es[..k], offset, slack, mtu, same)
      {
        NothingPacked(es, k, offset, slack, mtu, same);
      }
    } else {
      hide Admissible, TotalSize;
      var tail := es[1..];
      PackedIsLongestPrefix(tail, offset + Size(es[0]), slack, mtu, same);
      forall k | 0 < k <= |es|
        ensures Admissible(es[..k], offset, slack, mtu, same) <==> k <= |p|
      {
        AdmissibleStep(es, k, offset, slack, mtu, same);
        assert 0 <= k - 1 <= |tail|;
      }
      EmptyAdmissible(offset, slack, mtu, same);
      assert p == [es[0]] + tail[..|p| - 1];
    }
  }

  /** The loop invariant of the packing loops: i entries are in, and the rest packs as before. */
  ghost predicate PackRest(es: seq<Entry>, start: nat, slack: nat, mtu: nat, same: Option<nat>, i: nat, offset: nat) {
    && i <= |es| && offset == start + TotalSize(es[..i])
    && Packed(es, start, slack, mtu, same) == es[..i] + Packed(es[i..], offset, slack, mtu, same)
  }

  lemma PackStart(es: seq<Entry>, start: nat, slack: nat, mtu: nat, same: Option<nat>)
    ensures PackRest(es, start, slack, mtu, same, 0, start)
  {
    assert es[0..] == es && es[..0] == [];
  }

  lemma PackStep(es: seq<Entry>, start: nat, slack: nat, mtu: nat, same: Option<nat>, i: nat, offset: nat)
    requires PackRest(es, start, slack, mtu, same, i, offset) && i < |es|
    requires (same.Some? ==> Size(es[i]) == same.value) && offset + Size(es[i]) + slack <= mtu
    ensures PackRest(es, start, slack, mtu, same, i + 1, offset + Size(es[i]))
  {
    hide EntryBytes;
    var rest := es[i..];
    assert rest[0] == es[i] && rest[1..] == es[i + 1..];
    assert es[..i + 1] == es[..i] + [es[i]];
    ConcatSnoc(es[..i], es[i]);
    var tail := Packed(es[i + 1..], offset + Size(es[i]), slack, mtu, same);
    assert es[..i] + ([es[i]] + tail) == es[..i + 1] + tail;
  }

  /** When the loop stops, what is in is what packs. */
  lemma PackStop(es: seq<Entry>, start: nat, slack: nat, mtu: nat, same: Option<nat>, i: nat, offset: nat)
    requires PackRest(es, start, slack, mtu, same, i, offset)
    requires i == |es| || (same.Some? && Size(es[i]) != same.value) || offset + Size(es[i]) + slack > mtu
    ensures Packed(es, start, slack, mtu, same) == es[..i]
  {
    assert i < |es| ==> es[i..][0] == es[i];
    assert es[..i] + [] == es[..i];
  }
}
