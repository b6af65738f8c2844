/**
 * The handle index of lib/att.js over any sequence of attribute creations and handle assignments, with the
 * old slot cleared as meant or spliced out as written (lib/att.js:95).
 */
module Registry {
  import opened Bytes

  datatype Mode = Clearing | Splicing

  /** A JavaScript array with holes. */
  type Index = seq<Option<nat>>

  predicate Has(index: Index, h: nat) {
    h < |index| && index[h].Some?
  }

  function At(index: Index, h: nat): nat
    requires Has(index, h)
  {
    index[h].value
  }

  /** Assignment to an element, which may lie beyond the end. */
  function Put(index: Index, h: nat, a: nat): (r: Index)
    ensures forall g: nat :: Has(r, g) <==> g == h || Has(index, g)
    ensures forall g: nat :: Has(r, g) ==> At(r, g) == if g == h then a else At(index, g)
  {
    if h < |index| then index[h := Some(a)] else index + seq(h - |index|, _ => None) + [Some(a)]
  }

  /** Array.prototype.splice(k, 1): every later element moves down by one. */
  function Splice(index: Index, k: nat): (r: Index)
    ensures forall g: nat :: Has(r, g) <==> Has(index, if g < k then g else g + 1)
    ensures forall g: nat :: Has(r, g) ==> At(r, g) == At(index, if g < k then g else g + 1)
  {
    if k < |index| then index[..k] + index[k + 1..] else index
  }

  function Clear(index: Index, k: nat): (r: Index)
    ensures forall g: nat :: Has(r, g) <==> g != k && Has(index, g)
    ensures forall g: nat :: Has(r, g) ==> At(r, g) == At(index, g)
  {
    if k < |index| then index[k := None] else index
  }

  function Freed(index: Index, was: Option<nat>, mode: Mode): Index {
    if was.None? then index
    else if mode == Clearing then Clear(index, was.value)
    else Splice(index, was.value)
  }

  /** Attributes are numbered in the order of the attributes list; a handle may be undefined, or 0, or real. */
  datatype Registry = Registry(index: Index, held: seq<Option<nat>>)

  /** a is the number of an attribute of the list. */
  datatype Op = Create(handle: Option<nat>) | Assign(a: nat, handle: Option<nat>)

  predicate Real(handle: Option<nat>) {
    handle.Some? && handle.value != 0
  }

  /** A handle in use makes both operations throw, and nothing changes. */
  function Apply(r: Registry, op: Op, mode: Mode): Registry {
    if Real(op.handle) && Has(r.index, op.handle.value) then r
    else
      match op
      case Create(handle) =>
        Registry(if Real(handle) then Put(r.index, handle.value, |r.held|) else r.index, r.held + [handle])
      case Assign(a, handle) =>
        if a >= |r.held| then r
        else
          Registry(if Real(handle) then Put(Freed(r.index, r.held[a], mode), handle.value, a) else r.index,
                   r.held[a := handle])
  }

  /** The index holds a under h exactly when a holds h; so no two attributes share a handle. */
  ghost predicate Agrees(r: Registry) {
    && (forall h: nat :: Has(r.index, h) ==>
          h != 0 && At(r.index, h) < |r.held| && r.held[At(r.index, h)] == Some(h))
    && (forall a :: 0 <= a < |r.held| && Real(r.held[a]) ==>
          Has(r.index, r.held[a].value) && At(r.index, r.held[a].value) == a)
  }

  ghost predicate Highest(index: Index, k: nat) {
    forall g: nat :: Has(index, g) ==> g <= k
  }

  /** The operation throws, leaves no old handle behind, or, as written, has no entry above the old handle to move. */
  ghost predicate Keeps(r: Registry, op: Op, mode: Mode) {
    match op
    case Create(_) => true
    case Assign(a, handle) =>
      if a >= |r.held| then true
      else if !Real(handle) then !Real(r.held[a])
      else Has(r.index, handle.value) || mode == Clearing || r.held[a].None? || Highest(r.index, r.held[a].value)
  }

  lemma CreateAgrees(r: Registry, handle: Option<nat>, mode: Mode)
    requires Agrees(r)
    ensures Agrees(Apply(r, Create(handle), mode))
  {
    hide Put;
  }

  lemma UnsetAgreesIff(r: Registry, a: nat, handle: Option<nat>, mode: Mode)
    requires Agrees(r) && a < |r.held| && !Real(handle)
    ensures Agrees(Apply(r, Assign(a, handle), mode)) <==> !Real(r.held[a])
  {
    hide Put;
    var r' := Apply(r, Assign(a, handle), mode);
    if Real(r.held[a]) {
      assert Has(r'.index, r.held[a].value) && r'.held[a] == handle;
    }
  }

  lemma MovedAgrees(r: Registry, a: nat, h: nat, mode: Mode)
    requires Agrees(r) && a < |r.held| && h != 0 && !Has(r.index, h)
    requires mode == Clearing || r.held[a].None? || Highest(r.index, r.held[a].value)
    ensures Agrees(Apply(r, Assign(a, Some(h)), mode))
  {
    hide Put, Splice, Clear;
    var r' := Apply(r, Assign(a, Some(h)), mode);
    var freed := Freed(r.index, r.held[a], mode);
    forall g: nat
      ensures Has(freed, g) <==> Has(r.index, g) && Some(g) != r.held[a]
      ensures Has(freed, g) ==> At(freed, g) == At(r.index, g)
    {
      assert mode == Splicing && r.held[a].Some? && g >= r.held[a].value ==> !Has(r.index, g + 1);
    }
  }

  /** Splicing moves every entry above the old handle away from the attribute's own handle. */
  lemma SplicedDisagrees(r: Registry, a: nat, h: nat, g: nat)
    requires Agrees(r) && a < |r.held| && h != 0 && !Has(r.index, h)
    requires r.held[a].Some? && Has(r.index, g) && g > r.held[a].value
    ensures !Agrees(Apply(r, Assign(a, Some(h)), Splicing))
  {
    hide Put, Splice;
    var r', b := Apply(r, Assign(a, Some(h)), Splicing), At(r.index, g);
    assert b != a && r'.held[b] == Some(g);
    if Has(r'.index, g) {
      assert At(r'.index, g) == At(r.index, g + 1);
    }
  }

  lemma StepAgreesIff(r: Registry, op: Op, mode: Mode)
    requires Agrees(r)
    ensures Agrees(Apply(r, op, mode)) <==> Keeps(r, op, mode)
  {
    hide Agrees, Put, Freed, Has;
    match op
    case Create(handle) => CreateAgrees(r, handle, mode);
    case Assign(a, handle) =>
      if a < |r.held| {
        if !Real(handle) {
          UnsetAgreesIff(r, a, handle, mode);
        } else if !Has(r.index, handle.value) {
          if Keeps(r, op, mode) {
            MovedAgrees(r, a, handle.value, mode);
          } else {
            var g: nat :| Has(r.index, g) && g > r.held[a].value;
            SplicedDisagrees(r, a, handle.value, g);
          }
        }
      }
  }

  /** The index agrees with the attributes after each operation of a run. */
  ghost predicate AlwaysAgrees(r: Registry, ops: seq<Op>, mode: Mode)
    decreases |ops|
  {
    Agrees(r) && (ops != [] ==> AlwaysAgrees(Apply(r, ops[0], mode), ops[1..], mode))
  }

  ghost predicate AllKeep(r: Registry, ops: seq<Op>, mode: Mode)
    decreases |ops|
  {
    ops != [] ==> Keeps(r, ops[0], mode) && AllKeep(Apply(r, ops[0], mode), ops[1..], mode)
  }

  /**
   * Registry agreement over any run: with the slot cleared it holds throughout if and only if no attribute
   * gives up its handle for none; with the splice, moreover, only the highest entry may move.
   */
  lemma {:induction false} AlwaysAgreesIff(r: Registry, ops: seq<Op>, mode: Mode)
    requires Agrees(r)
    ensures AlwaysAgrees(r, ops, mode) <==> AllKeep(r, ops, mode)
    decreases |ops|
  {
    hide Agrees, Keeps, Apply;
    if ops != [] {
      StepAgreesIff(r, ops[0], mode);
      if Keeps(r, ops[0], mode) {
        AlwaysAgreesIff(Apply(r, ops[0], mode), ops[1..], mode);
      }
    }
  }

  /** findAttributes without a filter: the attributes under the handles lo..hi-1, by counting. */
  function Found(index: Index, lo: nat, hi: nat): seq<nat>
    decreases hi - lo
  {
    if lo >= hi then [] else (if Has(index, lo) then [At(index, lo)] else []) + Found(index, lo + 1, hi)
  }

  /** Under agreement the scan of the index is the attribute list filtered by handle and sorted by it. */
  lemma {:induction false} FoundAreTheHolders(r: Registry, lo: nat, hi: nat)
    requires Agrees(r) && 0 < lo
    ensures var found := Found(r.index, lo, hi);
            && (forall i :: 0 <= i < |found| ==> found[i] < |r.held| && Real(r.held[found[i]]))
            && (forall i, j :: 0 <= i < j < |found| ==> r.held[found[i]].value < r.held[found[j]].value)
            && (forall a: nat :: a in found <==> a < |r.held| && Real(r.held[a]) && lo <= r.held[a].value < hi)
    decreases hi - lo
  {
    if lo < hi {
      FoundAreTheHolders(r, lo + 1, hi);
      var tail := Found(r.index, lo + 1, hi);
      assert forall i :: 0 <= i < |tail| ==> tail[i] in tail;
    }
  }

  /** As written, giving a new handle to an attribute below another one in the index displaces that other one. */
  lemma SpliceDisplaces()
    ensures var r := Registry([None, Some(0), Some(1)], [Some(1), Some(2)]);
            var r' := Apply(r, Assign(0, Some(9)), Splicing);
            Agrees(r) && r'.held[1] == Some(2) && !Has(r'.index, 2) && At(r'.index, 1) == 1
  {
  }
}
