/**
 * `einsum_args` and `reduce_Ks`: eliminating the K (importance-sample) axes of a
 * list of log-probability tensors along a contraction path. The path comes from an
 * external cost-optimising search (opt_einsum); here it is the `planner` parameter,
 * which is trusted to return a path that fits the list it is given.
 */
module Reduction {
  import opened Results
  import opened Tensors

  /** One element of the argument list handed to the path search. */
  datatype Arg =
    | Array(term: Term, shape: seq<nat>)  // a tensor with its named axes made positional
    | Indices(idxs: seq<nat>)             // the integer labels of those positions

  type Path = seq<seq<nat>>

  /** The contraction-path search, applied to the output of `EinsumArgs`. */
  type Planner = seq<Arg> -> Path

  /************************************************************************
   * einsum_args
   ************************************************************************/

  /** `dim_to_idx[x]`: the position of `x` in the unified axis list. */
  function IndexIn(all: seq<Axis>, x: Axis): (i: nat)
    requires x in all
    ensures i < |all| && all[i] == x
    ensures forall j :: 0 <= j < i ==> all[j] != x
  {
    if all[0] == x then 0 else 1 + IndexIn(all[1..], x)
  }

  function IndexList(all: seq<Axis>, dims: seq<Axis>): (r: seq<nat>)
    requires forall a :: a in dims ==> a in all
    ensures |r| == |dims|
    ensures forall j :: 0 <= j < |dims| ==> r[j] < |all| && all[r[j]] == dims[j]
  {
    seq(|dims|, j requires 0 <= j < |dims| => IndexIn(all, dims[j]))
  }

  function Shape(dims: seq<Axis>): (r: seq<nat>)
    ensures |r| == |dims| && forall j :: 0 <= j < |dims| ==> r[j] == dims[j].size
  {
    seq(|dims|, j requires 0 <= j < |dims| => dims[j].size)
  }

  function SetOf(s: seq<Axis>): set<Axis> {
    set a | a in s
  }

  /** `[val for pair in zip(xs, ys) for val in pair]` */
  function Interleave<T>(xs: seq<T>, ys: seq<T>): (r: seq<T>)
    requires |xs| == |ys|
    ensures |r| == 2 * |xs|
  {
    if xs == [] then [] else [xs[0], ys[0]] + Interleave(xs[1..], ys[1..])
  }

  lemma {:induction false} InterleaveAt<T>(xs: seq<T>, ys: seq<T>, i: nat)
    requires |xs| == |ys| && i < |xs|
    ensures Interleave(xs, ys)[2 * i] == xs[i] && Interleave(xs, ys)[2 * i + 1] == ys[i]
  {
    if i > 0 {
      InterleaveAt(xs[1..], ys[1..], i - 1);
    }
  }

  /** Every axis of every tensor occurs in `all`. */
  ghost predicate Covers(all: seq<Axis>, lps: seq<Tensor>) {
    forall i, a :: 0 <= i < |lps| && a in lps[i].dims ==> a in all
  }

  lemma UnifyDimsCovers(lps: seq<Tensor>)
    ensures Covers(UnifyDims(lps), lps)
  {
    forall i, a | 0 <= i < |lps| && a in lps[i].dims ensures a in AxesOf(lps) {
      assert lps[i] in lps;
    }
  }

  /** `generic_order(lp, dims)` for every operand: named axes become positional ones. */
  function Undimmed(lps: seq<Tensor>): (r: seq<Arg>)
    ensures |r| == |lps| && forall i :: 0 <= i < |lps| ==> r[i] == Array(lps[i].term, Shape(lps[i].dims))
  {
    seq(|lps|, i requires 0 <= i < |lps| => Array(lps[i].term, Shape(lps[i].dims)))
  }

  /** `[dim_to_idx[dim] for dim in generic_dims(lp)]` for every operand. */
  function ArgIndices(all: seq<Axis>, lps: seq<Tensor>): (r: seq<Arg>)
    requires Covers(all, lps)
    ensures |r| == |lps| && forall i :: 0 <= i < |lps| ==> r[i] == Indices(IndexList(all, lps[i].dims))
  {
    seq(|lps|, i requires 0 <= i < |lps| => Indices(IndexList(all, lps[i].dims)))
  }

  /**
   * What `einsum_args(lps, sum_dims)` returns: the operands interleaved with their
   * index lists, then the output index list; and the output axes.
   */
  function EinsumOperands(lps: seq<Tensor>, sumDims: seq<Axis>): (r: Result<(seq<Arg>, seq<Axis>), Fault>)
    ensures r.Ok? <==> forall i :: 0 <= i < |lps| ==> lps[i].positional == 0
    ensures r.Err? ==> r.error == PositionalDims
    ensures r.Ok? ==> |r.value.0| == 2 * |lps| + 1
    ensures r.Ok? ==> forall a :: a in r.value.1 <==> a in AxesOf(lps) && a !in sumDims
  {
    if exists i :: 0 <= i < |lps| && lps[i].positional != 0 then Err(PositionalDims)
    else
      var all := UnifyDims(lps);
      UnifyDimsCovers(lps);
      var outDims := Without(all, SetOf(sumDims));
      Ok((Interleave(Undimmed(lps), ArgIndices(all, lps)) + [Indices(IndexList(all, outDims))], outDims))
  }

  /** The unified axes are numbered 0..n-1 without repetition. */
  lemma {:induction false} IndexInBijective(all: seq<Axis>)
    requires Distinct(all)
    ensures forall j :: 0 <= j < |all| ==> IndexIn(all, all[j]) == j
  {
  }

  /** The properties `einsum_args` promises its caller. */
  lemma {:induction false} EinsumOperandsMeaning(lps: seq<Tensor>, sumDims: seq<Axis>)
    requires EinsumOperands(lps, sumDims).Ok?
    ensures var args := EinsumOperands(lps, sumDims).value.0;
      var all := UnifyDims(lps);
      && (forall i :: 0 <= i < |lps| ==>
            args[2 * i] == Array(lps[i].term, Shape(lps[i].dims))
            && args[2 * i + 1].Indices?
            && |args[2 * i + 1].idxs| == |lps[i].dims|
            && forall j :: 0 <= j < |lps[i].dims| ==>
                 args[2 * i + 1].idxs[j] < |all| && all[args[2 * i + 1].idxs[j]] == lps[i].dims[j])
      && args[2 * |lps|].Indices?
      && (forall x :: x in args[2 * |lps|].idxs <==> 0 <= x < |all| && all[x] !in sumDims)
  {
    var args := EinsumOperands(lps, sumDims).value.0;
    var all := UnifyDims(lps);
    UnifyDimsCovers(lps);
    var outDims := Without(all, SetOf(sumDims));
    var pairs := Interleave(Undimmed(lps), ArgIndices(all, lps));
    assert args == pairs + [Indices(IndexList(all, outDims))];
    forall i | 0 <= i < |lps|
      ensures args[2 * i] == Array(lps[i].term, Shape(lps[i].dims))
      ensures args[2 * i + 1] == Indices(IndexList(all, lps[i].dims))
    {
      InterleaveAt(Undimmed(lps), ArgIndices(all, lps), i);
    }
    var out := IndexList(all, outDims);
    IndexInBijective(all);
    forall x ensures x in out <==> 0 <= x < |all| && all[x] !in sumDims {
      if x in out {
        var j :| 0 <= j < |out| && out[j] == x;
        assert all[x] == outDims[j];
      }
      if 0 <= x < |all| && all[x] !in sumDims {
        assert all[x] in outDims;
        var j :| 0 <= j < |outDims| && outDims[j] == all[x];
        assert out[j] == IndexIn(all, all[x]) == x;
      }
    }
  }

  /** `einsum_args`, building the two lists by appending in a loop as the source does. */
  method EinsumArgs(lps: seq<Tensor>, sumDims: seq<Axis>) returns (r: Result<(seq<Arg>, seq<Axis>), Fault>)
    ensures r == EinsumOperands(lps, sumDims)
  {
    for i := 0 to |lps|
      invariant forall j :: 0 <= j < i ==> lps[j].positional == 0
    {
      if lps[i].positional != 0 {
        return Err(PositionalDims);
      }
    }
    var setSumDims := SetOf(sumDims);
    var all := UnifyDims(lps);
    UnifyDimsCovers(lps);
    var outDims := Without(all, setSumDims);
    var outIdxs := IndexList(all, outDims);
    var undimLps: seq<Arg> := [];
    var argIdxs: seq<Arg> := [];
    for i := 0 to |lps|
      invariant undimLps == Undimmed(lps[..i])
      invariant Covers(all, lps[..i]) && argIdxs == ArgIndices(all, lps[..i])
    {
      var dims := lps[i].dims;
      assert lps[..i + 1] == lps[..i] + [lps[i]];
      argIdxs := argIdxs + [Indices(IndexList(all, dims))];
      undimLps := undimLps + [Array(lps[i].term, Shape(dims))];
    }
    assert lps[..|lps|] == lps;
    assert !exists i :: 0 <= i < |lps| && lps[i].positional != 0;
    r := Ok((Interleave(undimLps, argIdxs) + [Indices(outIdxs)], outDims));
  }

  /************************************************************************
   * reduce_Ks
   ************************************************************************/

  /** A path step: a non-empty choice of distinct positions of the working list. */
  predicate ValidStep(n: int, step: seq<nat>) {
    |step| > 0 && Distinct(step) && forall j :: 0 <= j < |step| ==> step[j] < n
  }

  /** Every step of `path` is valid for the working list it is applied to. */
  predicate Fits(n: int, path: Path)
    decreases |path|
  {
    path == [] || (ValidStep(n, path[0]) && Fits(n - |path[0]| + 1, path[1..]))
  }

  /** The search returns, for `n` operands (2n+1 arguments), a path over `n` tensors. */
  ghost predicate PlannerFits(planner: Planner) {
    forall args: seq<Arg>, n: nat :: |args| == 2 * n + 1 ==> Fits(n, planner(args))
  }

  /** `tuple(lps[i] for i in lp_idxs)` */
  function Selected<T>(s: seq<T>, step: seq<nat>): (r: seq<T>)
    requires forall j :: 0 <= j < |step| ==> step[j] < |s|
    ensures |r| == |step| && forall j :: 0 <= j < |step| ==> r[j] == s[step[j]]
  {
    seq(|step|, j requires 0 <= j < |step| => s[step[j]])
  }

  function RestFrom<T>(s: seq<T>, step: seq<nat>, i: nat): seq<T>
    requires i <= |s|
    decreases |s| - i
  {
    if i == |s| then [] else (if i in step then [] else [s[i]]) + RestFrom(s, step, i + 1)
  }

  /** `[lps[i] for i in range(len(lps)) if i not in lp_idxs]` */
  function Rest<T>(s: seq<T>, step: seq<nat>): seq<T> {
    RestFrom(s, step, 0)
  }

  /** The selected elements whose positions are at least `lo`, as a multiset. */
  function PickedFrom<T>(s: seq<T>, step: seq<nat>, lo: nat): multiset<T>
    requires forall j :: 0 <= j < |step| ==> step[j] < |s|
  {
    if step == [] then multiset{}
    else (if step[0] >= lo then multiset{s[step[0]]} else multiset{}) + PickedFrom(s, step[1..], lo)
  }

  lemma {:induction false} PickedFromAll<T>(s: seq<T>, step: seq<nat>)
    requires forall j :: 0 <= j < |step| ==> step[j] < |s|
    ensures PickedFrom(s, step, 0) == multiset(Selected(s, step))
    ensures PickedFrom(s, step, |s|) == multiset{}
  {
    if step != [] {
      PickedFromAll(s, step[1..]);
      assert Selected(s, step) == [s[step[0]]] + Selected(s, step[1..]);
    }
  }

  lemma {:induction false} PickedFromNext<T>(s: seq<T>, step: seq<nat>, i: nat)
    requires forall j :: 0 <= j < |step| ==> step[j] < |s|
    requires Distinct(step) && i < |s|
    ensures PickedFrom(s, step, i) == PickedFrom(s, step, i + 1) + (if i in step then multiset{s[i]} else multiset{})
  {
    if step != [] {
      PickedFromNext(s, step[1..], i);
      assert i in step <==> step[0] == i || i in step[1..];
      if step[0] == i {
        assert i !in step[1..];
      }
    }
  }

  /** The elements of `s` from position `i` on. */
  function BagFrom<T>(s: seq<T>, i: nat): multiset<T>
    requires i <= |s|
    decreases |s| - i
  {
    if i == |s| then multiset{} else multiset{s[i]} + BagFrom(s, i + 1)
  }

  lemma {:induction false} BagFromAll<T>(s: seq<T>, i: nat)
    requires i <= |s|
    ensures BagFrom(s, i) == multiset(s[i..])
    decreases |s| - i
  {
    if i < |s| {
      BagFromAll(s, i + 1);
      assert s[i..] == [s[i]] + s[i + 1..];
    }
  }

  /** The kept elements from position `i` on, as a multiset. */
  function RestBag<T>(s: seq<T>, step: seq<nat>, i: nat): multiset<T>
    requires i <= |s|
    decreases |s| - i
  {
    if i == |s| then multiset{} else (if i in step then multiset{} else multiset{s[i]}) + RestBag(s, step, i + 1)
  }

  lemma {:induction false} RestBagAll<T>(s: seq<T>, step: seq<nat>, i: nat)
    requires i <= |s|
    ensures RestBag(s, step, i) == multiset(RestFrom(s, step, i))
    decreases |s| - i
  {
    if i < |s| {
      RestBagAll(s, step, i + 1);
    }
  }

  lemma Rebalance<T>(r0: multiset<T>, r1: multiset<T>, p0: multiset<T>, p1: multiset<T>, x: multiset<T>,
                    m0: multiset<T>, m1: multiset<T>, e: T)
    requires r1 + p1 == m1 && p0 == p1 + x && m0 == multiset{e} + m1 && r0 + x == multiset{e} + r1
    ensures r0 + p0 == m0
  {
    calc {
      r0 + p0;
      r0 + (p1 + x);
      (r0 + x) + p1;
      multiset{e} + r1 + p1;
      multiset{e} + (r1 + p1);
      m0;
    }
  }

  lemma {:induction false} RestFromPartition<T>(s: seq<T>, step: seq<nat>, i: nat)
    requires ValidStep(|s|, step) && i <= |s|
    ensures RestBag(s, step, i) + PickedFrom(s, step, i) == BagFrom(s, i)
    decreases |s| - i
  {
    if i == |s| {
      PickedFromAll(s, step);
    } else {
      RestFromPartition(s, step, i + 1);
      PickedFromNext(s, step, i);
      var x := if i in step then multiset{s[i]} else multiset{};
      Rebalance(RestBag(s, step, i), RestBag(s, step, i + 1), PickedFrom(s, step, i), PickedFrom(s, step, i + 1), x,
                BagFrom(s, i), BagFrom(s, i + 1), s[i]);
    }
  }

  /** A path step splits the working list: every element is selected or kept, once. */
  lemma Partition<T>(s: seq<T>, step: seq<nat>)
    requires ValidStep(|s|, step)
    ensures multiset(Selected(s, step)) + multiset(Rest(s, step)) == multiset(s)
    ensures multiset(Selected(s, step) + Rest(s, step)) == multiset(s)
    ensures |Rest(s, step)| == |s| - |step|
  {
    RestFromPartition(s, step, 0);
    PickedFromAll(s, step);
    BagFromAll(s, 0);
    RestBagAll(s, step, 0);
    assert s[0..] == s;
    assert |multiset(Selected(s, step))| + |multiset(Rest(s, step))| == |multiset(s)|;
  }

  lemma {:induction false} RestFromMembers<T>(s: seq<T>, step: seq<nat>, i: nat)
    requires i <= |s|
    ensures forall x :: x in RestFrom(s, step, i) <==> exists k :: i <= k < |s| && k !in step && s[k] == x
    decreases |s| - i
  {
    if i < |s| {
      RestFromMembers(s, step, i + 1);
    }
  }

  /** An element of the list is either selected or kept. */
  lemma RestMembers<T>(s: seq<T>, step: seq<nat>)
    ensures forall x :: x in Rest(s, step) <==> exists k :: 0 <= k < |s| && k !in step && s[k] == x
  {
    RestFromMembers(s, step, 0);
  }

  /** `_Ks_to_sum`: the requested Ks that no untouched tensor carries. */
  function Dropped(ks: seq<Axis>, rest: seq<Tensor>): (r: set<Axis>)
    ensures forall k :: k in r <==> k in ks && k !in AxesOf(rest)
  {
    SetOf(ks) - SetOf(UnifyDims(rest))
  }

  /** One iteration of the loop in `reduce_Ks`. */
  function Step(lps: seq<Tensor>, ks: seq<Axis>, step: seq<nat>): (r: seq<Tensor>)
    requires ValidStep(|lps|, step)
    ensures |r| == |lps| - |step| + 1
  {
    Partition(lps, step);
    var rest := Rest(lps, step);
    rest + [LogSumExpSum(Dropped(ks, rest), Selected(lps, step))]
  }

  /** The working list after running the whole path. */
  function RunPath(lps: seq<Tensor>, ks: seq<Axis>, path: Path): seq<Tensor>
    requires Fits(|lps|, path)
    decreases |path|
  {
    if path == [] then lps else RunPath(Step(lps, ks, path[0]), ks, path[1..])
  }

  /**
   * `reduce_Ks(lps, Ks_to_sum)`: fails on repeated Ks, on positional dimensions and
   * when the path does not leave exactly one tensor.
   */
  function Reduced(lps: seq<Tensor>, ks: seq<Axis>, planner: Planner): (r: Result<Tensor, Fault>)
    requires PlannerFits(planner)
  {
    if !Distinct(ks) then Err(DuplicateKs)
    else match EinsumOperands(lps, ks)
      case Err(e) => Err(e)
      case Ok(res) =>
        assert Fits(|lps|, planner(res.0));
        var final := RunPath(lps, ks, planner(res.0));
        if |final| == 1 then Ok(final[0]) else Err(NotFullyReduced(|final|))
  }

  /** The path the search chooses for `lps` (empty when einsum_args fails). */
  function PathFor(lps: seq<Tensor>, ks: seq<Axis>, planner: Planner): Path {
    match EinsumOperands(lps, ks)
    case Err(_) => []
    case Ok(res) => planner(res.0)
  }

  /** `reduce_Ks`: the working list is reassigned once per path step. */
  method ReduceKs(lps: seq<Tensor>, ks: seq<Axis>, planner: Planner) returns (r: Result<Tensor, Fault>)
    requires PlannerFits(planner)
    ensures r == Reduced(lps, ks, planner)
  {
    if !Distinct(ks) {
      return Err(DuplicateKs);
    }
    var einsum := EinsumArgs(lps, ks);
    if einsum.Err? {
      return Err(einsum.error);
    }
    var path := planner(einsum.value.0);
    assert Fits(|lps|, path);
    var work := lps;
    var i := 0;
    while i < |path|
      invariant 0 <= i <= |path|
      invariant Fits(|work|, path[i..])
      invariant RunPath(work, ks, path[i..]) == RunPath(lps, ks, path)
    {
      var lpIdxs := path[i];
      assert path[i..][0] == lpIdxs && path[i..][1..] == path[i + 1..];
      var toReduce := Selected(work, lpIdxs);
      var rest := Rest(work, lpIdxs);
      var ksToSum := Dropped(ks, rest);
      // checkpoint(logsumexp_sum, ...) only affects autodiff memory: a plain call here
      work := rest + [LogSumExpSum(ksToSum, toReduce)];
      i := i + 1;
    }
    assert path[i..] == [];
    assert work == RunPath(lps, ks, path);
    assert einsum == EinsumOperands(lps, ks) && path == planner(einsum.value.0);
    if |work| != 1 {
      return Err(NotFullyReduced(|work|));
    }
    r := Ok(work[0]);
  }

  /************************************************************************
   * What the reduction computes
   ************************************************************************/

  /** The summands under nested log-sum-exps: the normal form of a reduction term. */
  function Summands(t: Term): multiset<Term>
    decreases t, 1
  {
    match t
    case LogSumExp(_, ts) => SummandsOf(ts)
    case _ => multiset{t}
  }

  function SummandsOf(ts: seq<Term>): multiset<Term>
    decreases ts, 0
  {
    if ts == [] then multiset{} else Summands(ts[0]) + SummandsOf(ts[1..])
  }

  /** The summands contributed by a working list of tensors. */
  function SummandsIn(lps: seq<Tensor>): multiset<Term> {
    if lps == [] then multiset{} else Summands(lps[0].term) + SummandsIn(lps[1..])
  }

  lemma {:induction false} SummandsInAppend(a: seq<Tensor>, b: seq<Tensor>)
    ensures SummandsIn(a + b) == SummandsIn(a) + SummandsIn(b)
  {
    if a != [] {
      assert (a + b)[0] == a[0] && (a + b)[1..] == a[1..] + b;
      SummandsInAppend(a[1..], b);
    } else {
      assert a + b == b;
    }
  }

  lemma {:induction false} SummandsInTerms(lps: seq<Tensor>)
    ensures SummandsOf(Terms(lps)) == SummandsIn(lps)
  {
    if lps != [] {
      assert Terms(lps)[1..] == Terms(lps[1..]);
      SummandsInTerms(lps[1..]);
    }
  }

  lemma SplitAt<T>(b: seq<T>, j: nat)
    requires j < |b|
    ensures b == b[..j] + [b[j]] + b[j + 1..]
  {
  }

  lemma SummandsInRemove(b: seq<Tensor>, j: nat)
    requires j < |b|
    ensures SummandsIn(b) == Summands(b[j].term) + SummandsIn(b[..j] + b[j + 1..])
  {
    SplitAt(b, j);
    SummandsInAppend(b[..j] + [b[j]], b[j + 1..]);
    SummandsInAppend(b[..j], [b[j]]);
    SummandsInAppend(b[..j], b[j + 1..]);
    assert SummandsIn([b[j]]) == Summands(b[j].term) + SummandsIn([]);
  }

  lemma MultisetRemove<T>(b: seq<T>, j: nat)
    requires j < |b|
    ensures multiset(b[..j] + b[j + 1..]) == multiset(b) - multiset{b[j]}
  {
    SplitAt(b, j);
  }

  /** A position of `b` holding the first element of its permutation `a`. */
  lemma IndexOfHead<T>(a: seq<T>, b: seq<T>) returns (j: nat)
    requires a != [] && multiset(a) == multiset(b)
    ensures j < |b| && b[j] == a[0]
  {
    assert a[0] in multiset(b);
    j :| 0 <= j < |b| && b[j] == a[0];
  }

  /** The summands of a list depend only on which tensors it holds, not on their order. */
  lemma {:induction false} SummandsInPermutation(a: seq<Tensor>, b: seq<Tensor>)
    requires multiset(a) == multiset(b)
    ensures SummandsIn(a) == SummandsIn(b)
    decreases |a|
  {
    if a != [] {
      var j := IndexOfHead(a, b);
      MultisetRemove(b, j);
      MultisetRemove(a, 0);
      SplitAt(a, 0);
      SummandsInPermutation(a[1..], b[..j] + b[j + 1..]);
      SummandsInRemove(b, j);
    } else {
      assert b == [];
    }
  }

  lemma AxesOfPartition(a: seq<Tensor>, b: seq<Tensor>, c: seq<Tensor>)
    requires multiset(a) + multiset(b) == multiset(c)
    ensures AxesOf(c) == AxesOf(a) + AxesOf(b)
  {
    forall t ensures t in c <==> t in a || t in b {
      assert t in c <==> t in multiset(c);
      assert t in a <==> t in multiset(a);
      assert t in b <==> t in multiset(b);
    }
  }

  /**
   * One step: the kept tensors stay in order, followed by one new tensor whose axes
   * are the union of the selected tensors' axes minus the Ks no kept tensor carries;
   * a K that a kept tensor still carries is not eliminated.
   */
  lemma StepNewTensor(lps: seq<Tensor>, ks: seq<Axis>, step: seq<nat>)
    requires ValidStep(|lps|, step)
    ensures var rest := Rest(lps, step);
      var sel := Selected(lps, step);
      var r := Step(lps, ks, step);
      && |rest| < |r| && r[..|rest|] == rest
      && r[|rest|].term == LogSumExp(Dropped(ks, rest), Terms(sel))
      && (forall a :: a in r[|rest|].dims <==> a in AxesOf(sel) && (a !in ks || a in AxesOf(rest)))
      && (forall k :: k in ks && k in AxesOf(rest) && k in AxesOf(sel) ==> k in r[|rest|].dims)
  {
    Partition(lps, step);
  }

  /** A step only removes Ks, and exactly those carried by no kept tensor. */
  lemma StepAxes(lps: seq<Tensor>, ks: seq<Axis>, step: seq<nat>)
    requires ValidStep(|lps|, step)
    ensures AxesOf(Step(lps, ks, step)) == AxesOf(lps) - Dropped(ks, Rest(lps, step))
  {
    var rest := Rest(lps, step);
    var sel := Selected(lps, step);
    Partition(lps, step);
    var t := LogSumExpSum(Dropped(ks, rest), sel);
    AxesOfPartition(sel, rest, lps);
    AxesOfAppend(rest, [t]);
    assert forall a :: a in AxesOf([t]) <==> a in t.dims;
  }

  /** A combined tensor carries exactly the summands of the tensors it combines. */
  lemma SummandsInGroup(ks: set<Axis>, group: seq<Tensor>)
    ensures SummandsIn([LogSumExpSum(ks, group)]) == SummandsIn(group)
  {
    var t := LogSumExpSum(ks, group);
    assert [t][1..] == [];
    assert Summands(t.term) == SummandsOf(Terms(group));
    SummandsInTerms(group);
  }

  /** A step neither loses nor duplicates a summand. */
  lemma StepSummands(lps: seq<Tensor>, ks: seq<Axis>, step: seq<nat>)
    requires ValidStep(|lps|, step)
    ensures SummandsIn(Step(lps, ks, step)) == SummandsIn(lps)
  {
    var rest := Rest(lps, step);
    var sel := Selected(lps, step);
    Partition(lps, step);
    var t := LogSumExpSum(Dropped(ks, rest), sel);
    SummandsInAppend(rest, [t]);
    SummandsInGroup(Dropped(ks, rest), sel);
    SummandsInAppend(sel, rest);
    SummandsInPermutation(sel + rest, lps);
  }

  /** Along a path, only requested Ks ever disappear from the working list. */
  lemma {:induction false} RunPathAxes(lps: seq<Tensor>, ks: seq<Axis>, path: Path)
    requires Fits(|lps|, path)
    ensures AxesOf(RunPath(lps, ks, path)) <= AxesOf(lps)
    ensures forall a :: a in AxesOf(lps) && a !in ks ==> a in AxesOf(RunPath(lps, ks, path))
    decreases |path|
  {
    if path != [] {
      StepAxes(lps, ks, path[0]);
      RunPathAxes(Step(lps, ks, path[0]), ks, path[1..]);
    }
  }

  /** Along a path, every input summand is reduced exactly once. */
  lemma {:induction false} RunPathSummands(lps: seq<Tensor>, ks: seq<Axis>, path: Path)
    requires Fits(|lps|, path)
    ensures SummandsIn(RunPath(lps, ks, path)) == SummandsIn(lps)
    decreases |path|
  {
    if path != [] {
      StepSummands(lps, ks, path[0]);
      RunPathSummands(Step(lps, ks, path[0]), ks, path[1..]);
    }
  }

  /** When a non-empty path ends with one tensor, its last step saw no other tensor: no K survives. */
  lemma {:induction false} RunPathClears(lps: seq<Tensor>, ks: seq<Axis>, path: Path)
    requires Fits(|lps|, path) && path != [] && |RunPath(lps, ks, path)| == 1
    ensures forall k :: k in ks ==> k !in RunPath(lps, ks, path)[0].dims
    decreases |path|
  {
    var next := Step(lps, ks, path[0]);
    if path[1..] == [] {
      var rest := Rest(lps, path[0]);
      assert RunPath(lps, ks, path) == next;
      assert rest == [];
      assert AxesOf(rest) == {};
    } else {
      RunPathClears(next, ks, path[1..]);
    }
  }

  /**
   * The result of `reduce_Ks`, up to flattening nested log-sum-exps, is one
   * log-sum-exp of the sum of all inputs: every input is reduced exactly once.
   */
  lemma ReductionSummands(lps: seq<Tensor>, ks: seq<Axis>, planner: Planner, t: Tensor)
    requires PlannerFits(planner) && Reduced(lps, ks, planner) == Ok(t)
    ensures Summands(t.term) == SummandsIn(lps)
  {
    var path := PathFor(lps, ks, planner);
    assert Fits(|lps|, path);
    assert RunPath(lps, ks, path) == [t];
    RunPathSummands(lps, ks, path);
  }

  /** With an empty path `reduce_Ks` returns its single input unreduced. */
  lemma ReductionEmptyPath(lps: seq<Tensor>, ks: seq<Axis>, planner: Planner, t: Tensor)
    requires PlannerFits(planner) && Reduced(lps, ks, planner) == Ok(t)
    requires PathFor(lps, ks, planner) == []
    ensures lps == [t]
  {
    assert RunPath(lps, ks, []) == lps;
  }

  /** After a non-empty path the result carries exactly the input axes that are not requested Ks. */
  lemma ReductionEliminatesKs(lps: seq<Tensor>, ks: seq<Axis>, planner: Planner, t: Tensor)
    requires PlannerFits(planner) && Reduced(lps, ks, planner) == Ok(t)
    requires PathFor(lps, ks, planner) != []
    ensures forall a :: a in t.dims <==> a in AxesOf(lps) && a !in ks
  {
    var path := PathFor(lps, ks, planner);
    assert Fits(|lps|, path);
    var final := RunPath(lps, ks, path);
    assert final == [t];
    RunPathAxes(lps, ks, path);
    RunPathClears(lps, ks, path);
    assert forall a :: a in AxesOf(final) <==> a in t.dims;
  }

  /** `reduce_Ks` fails exactly on repeated Ks, positional dimensions, or a path that leaves other than one tensor. */
  lemma ReductionFails(lps: seq<Tensor>, ks: seq<Axis>, planner: Planner)
    requires PlannerFits(planner)
    ensures !Distinct(ks) ==> Reduced(lps, ks, planner) == Err(DuplicateKs)
    ensures Distinct(ks) && (exists i :: 0 <= i < |lps| && lps[i].positional != 0) ==>
              Reduced(lps, ks, planner) == Err(PositionalDims)
    ensures Distinct(ks) && (forall i :: 0 <= i < |lps| ==> lps[i].positional == 0) ==>
              (Fits(|lps|, PathFor(lps, ks, planner)) &&
               (Reduced(lps, ks, planner).Ok? <==> |RunPath(lps, ks, PathFor(lps, ks, planner))| == 1))
  {
  }
}
