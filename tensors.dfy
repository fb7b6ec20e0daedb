/**
 * The named-axis tensor runtime the core relies on, reduced to what the core
 * observes: which axes a tensor carries, how many positional (unnamed) dimensions
 * it has, and a symbolic term standing for its values. Floating-point values are
 * not modelled; every arithmetic operation of the runtime becomes a term node.
 */
module Tensors {
  import opened Results

  /** An axis is an identity with a size. Equality of the datatype stands for `is`. */
  datatype Axis = Axis(id: nat, size: nat)

  /** Symbolic value of a log-probability tensor. */
  datatype Term =
    | Input(tag: nat)                              // a realized log-probability tensor
    | Diff(lp: Term, lq: Term)                     // lp - lq
    | MinusLog(arg: Term, count: nat)              // arg - log(count)
    | LogSumExp(ks: set<Axis>, summands: seq<Term>) // logsumexp over ks of the sum of summands
    | PlateSum(arg: Term, plate: Axis)             // plain sum over a plate axis

  datatype Tensor = Tensor(dims: seq<Axis>, positional: nat, term: Term)

  /** The errors raised by the core (assertion failures and runtime exceptions). */
  datatype Fault =
    | KdimWithoutLp(name: string)        // LP_Plate construction
    | PlateDimsMismatch                  // minus_logQ
    | KdimNamesMismatch
    | KdimMismatch(name: string)
    | MissingInP(name: string)
    | KindMismatch(name: string)
    | NoDifferenceMethod(name: string)   // AttributeError of lp.difference, as written
    | MissingKdim(name: string)          // minus_logK
    | NotATensor(name: string)
    | ForeignKdim(name: string, dim: Axis)
    | LogOfZero(name: string)
    | DuplicateKs                        // reduce_Ks
    | PositionalDims                     // einsum_args
    | NotFullyReduced(remaining: nat)
    | PlateAxisAbsent(plate: Axis)       // sum over the innermost plate

  predicate Distinct<T(==)>(s: seq<T>) {
    forall i, j :: 0 <= i < j < |s| ==> s[i] != s[j]
  }

  /** Every axis carried by some tensor of `ts`. */
  ghost function AxesOf(ts: seq<Tensor>): set<Axis> {
    set t, a | t in ts && a in t.dims :: a
  }

  lemma AxesOfAppend(a: seq<Tensor>, b: seq<Tensor>)
    ensures AxesOf(a + b) == AxesOf(a) + AxesOf(b)
  {
    forall x | x in AxesOf(a + b) ensures x in AxesOf(a) + AxesOf(b) {
      var t :| t in a + b && x in t.dims;
      if t in a { assert x in AxesOf(a); } else { assert x in AxesOf(b); }
    }
    forall x | x in AxesOf(a) + AxesOf(b) ensures x in AxesOf(a + b) {
      if x in AxesOf(a) {
        var t :| t in a && x in t.dims;
        assert t in a + b;
      } else {
        var t :| t in b && x in t.dims;
        assert t in a + b;
      }
    }
  }

  /** `acc` followed by the axes of `xs` not yet present, in first-occurrence order. */
  function Extend(acc: seq<Axis>, xs: seq<Axis>): (r: seq<Axis>)
    ensures |acc| <= |r| && r[..|acc|] == acc
    ensures forall a :: a in r <==> a in acc || a in xs
    ensures Distinct(acc) ==> Distinct(r)
    decreases |xs|
  {
    if xs == [] then acc
    else
      var acc' := if xs[0] in acc then acc else acc + [xs[0]];
      var r := Extend(acc', xs[1..]);
      assert forall a :: a in xs <==> a == xs[0] || a in xs[1..];
      assert r[..|acc|] == r[..|acc'|][..|acc|];
      r
  }

  function UnifyFrom(acc: seq<Axis>, ts: seq<Tensor>): (r: seq<Axis>)
    ensures forall a :: a in r <==> a in acc || a in AxesOf(ts)
    ensures Distinct(acc) ==> Distinct(r)
    decreases |ts|
  {
    if ts == [] then acc
    else
      assert ts == [ts[0]] + ts[1..];
      AxesOfAppend([ts[0]], ts[1..]);
      assert forall a :: a in AxesOf([ts[0]]) <==> a in ts[0].dims;
      UnifyFrom(Extend(acc, ts[0].dims), ts[1..])
  }

  /** `unify_dims`: the ordered, duplicate-free union of the tensors' axes. */
  function UnifyDims(ts: seq<Tensor>): (r: seq<Axis>)
    ensures Distinct(r)
    ensures forall a :: a in r <==> a in AxesOf(ts)
  {
    UnifyFrom([], ts)
  }

  /** The axes of `s` that are not in `ks`, in order. */
  function Without(s: seq<Axis>, ks: set<Axis>): (r: seq<Axis>)
    ensures forall a :: a in r <==> a in s && a !in ks
    ensures Distinct(s) ==> Distinct(r)
  {
    if s == [] then []
    else
      var r := (if s[0] in ks then [] else [s[0]]) + Without(s[1..], ks);
      assert forall a :: a in s <==> a == s[0] || a in s[1..];
      r
  }

  function Max(a: nat, b: nat): nat {
    if a < b then b else a
  }

  function MaxPositional(ts: seq<Tensor>): (r: nat)
    ensures forall i :: 0 <= i < |ts| ==> ts[i].positional <= r
    ensures r == 0 <==> forall i :: 0 <= i < |ts| ==> ts[i].positional == 0
  {
    if ts == [] then 0 else Max(ts[0].positional, MaxPositional(ts[1..]))
  }

  function Terms(ts: seq<Tensor>): (r: seq<Term>)
    ensures |r| == |ts| && forall i :: 0 <= i < |ts| ==> r[i] == ts[i].term
  {
    seq(|ts|, i requires 0 <= i < |ts| => ts[i].term)
  }

  /** `lp - lq`: elementwise, broadcast over the union of the operands' axes. */
  function Subtract(lp: Tensor, lq: Tensor): (r: Tensor)
    ensures forall a :: a in r.dims <==> a in lp.dims || a in lq.dims
    ensures Distinct(lp.dims) ==> Distinct(r.dims)
  {
    Tensor(Extend(lp.dims, lq.dims), Max(lp.positional, lq.positional), Diff(lp.term, lq.term))
  }

  /** `lp - math.log(count)`: a uniform shift, the axes are unchanged. */
  function SubtractLog(lp: Tensor, count: nat): Tensor {
    Tensor(lp.dims, lp.positional, MinusLog(lp.term, count))
  }

  /**
   * `logsumexp_sum`: the sum of the group, then a stabilized log-sum-exp over `ks`;
   * Ks the group does not carry are ignored (`ignore_extra_dims=True`).
   */
  function LogSumExpSum(ks: set<Axis>, group: seq<Tensor>): (r: Tensor)
    ensures forall a :: a in r.dims <==> a in AxesOf(group) && a !in ks
    ensures Distinct(r.dims)
    ensures r.positional == MaxPositional(group)
  {
    Tensor(Without(UnifyDims(group), ks), MaxPositional(group), LogSumExp(ks, Terms(group)))
  }

  /** `lp.sum(plate)`; the runtime refuses an axis the tensor does not carry. */
  function SumOver(lp: Tensor, plate: Axis): (r: Option<Tensor>)
    ensures r.Some? <==> plate in lp.dims
    ensures r.Some? ==> forall a :: a in r.value.dims <==> a in lp.dims && a != plate
  {
    if plate in lp.dims then Some(Tensor(Without(lp.dims, {plate}), lp.positional, PlateSum(lp.term, plate)))
    else None
  }
}
