/**
 * The log-probability tree `LP_Plate` of `alan_simplified/LP.py`: every node maps
 * names to tensors or to nested plates, lists the active plate axes, and maps each
 * latent variable's name to its own K axis. The methods of `LP_Plate` build fresh
 * dictionaries and never mutate the receiver, so the tree is a value here and the
 * methods are functions over it.
 */
module LogProb {
  import opened Results
  import opened Dicts
  import opened Tensors
  import opened Reduction

  datatype Entry = Leaf(t: Tensor) | Node(p: LPPlate)

  datatype LPPlate = LPPlate(lps: seq<Item<Entry>>, platedims: seq<Axis>, kdims: seq<Item<Axis>>)

  /** Plates are associated with plates, tensors with tensors (`type(a) == type(b)`). */
  predicate SameKind(a: Entry, b: Entry) {
    a.Leaf? == b.Leaf?
  }

  /**
   * A tree every node of which the constructor accepted: dictionary keys are unique
   * and every K axis belongs to a log-probability of the same node.
   */
  predicate Valid(p: LPPlate)
    decreases p
  {
    DistinctKeys(p.lps) && DistinctKeys(p.kdims) && Keys(p.kdims) <= Keys(p.lps) &&
    forall i :: 0 <= i < |p.lps| ==> p.lps[i].val.Node? ==> Valid(p.lps[i].val.p)
  }

  /** The position of the first K name without a log-probability, if any. */
  function FirstOrphan(kdims: seq<Item<Axis>>, lps: seq<Item<Entry>>, i: nat): (r: Option<nat>)
    requires i <= |kdims|
    ensures r.None? <==> forall j :: i <= j < |kdims| ==> kdims[j].key in Keys(lps)
    ensures r.Some? ==> i <= r.value < |kdims| && kdims[r.value].key !in Keys(lps)
    decreases |kdims| - i
  {
    if i == |kdims| then None
    else if kdims[i].key !in Keys(lps) then Some(i)
    else FirstOrphan(kdims, lps, i + 1)
  }

  /**
   * `LP_Plate(lps, active_platedims, Kdims)`: every K name must name a log-probability;
   * the converse is not required (data has a log-probability but no K axis).
   */
  function NewLPPlate(lps: seq<Item<Entry>>, platedims: seq<Axis>, kdims: seq<Item<Axis>>): (r: Result<LPPlate, Fault>)
    ensures r.Ok? <==> Keys(kdims) <= Keys(lps)
    ensures r.Ok? ==> r.value == LPPlate(lps, platedims, kdims)
    ensures r.Err? ==> exists j :: 0 <= j < |kdims| && kdims[j].key !in Keys(lps) && r.error == KdimWithoutLp(kdims[j].key)
  {
    match FirstOrphan(kdims, lps, 0)
    case Some(j) => Err(KdimWithoutLp(kdims[j].key))
    case None => Ok(LPPlate(lps, platedims, kdims))
  }

  /************************************************************************
   * minus_logQ
   ************************************************************************/

  /** The first K name of `pk` whose axis is not the very axis `qk` holds under that name. */
  function FirstKdimClash(pk: seq<Item<Axis>>, qk: seq<Item<Axis>>, i: nat): (r: Option<string>)
    requires i <= |pk|
    ensures r.None? <==> forall j :: i <= j < |pk| ==> Get(qk, pk[j].key) == Some(pk[j].val)
    ensures r.Some? ==> exists j :: i <= j < |pk| && r.value == pk[j].key && Get(qk, pk[j].key) != Some(pk[j].val)
    decreases |pk| - i
  {
    if i == |pk| then None
    else if Get(qk, pk[i].key) != Some(pk[i].val) then Some(pk[i].key)
    else FirstKdimClash(pk, qk, i + 1)
  }

  /** The first entry of `qlps` that is missing from `plps` or is of another kind there. */
  function FirstStranger(plps: seq<Item<Entry>>, qlps: seq<Item<Entry>>, i: nat): (r: Option<Fault>)
    requires i <= |qlps|
    ensures r.None? <==> forall j :: i <= j < |qlps| ==>
              Get(plps, qlps[j].key).Some? && SameKind(Get(plps, qlps[j].key).value, qlps[j].val)
    ensures r.Some? ==>
      exists j :: i <= j < |qlps| &&
        ((qlps[j].key !in Keys(plps) && r.value == MissingInP(qlps[j].key)) ||
         (qlps[j].key in Keys(plps) && r.value == KindMismatch(qlps[j].key)))
    decreases |qlps| - i
  {
    if i == |qlps| then None
    else
      var name := qlps[i].key;
      match Get(plps, name)
      case None => Some(MissingInP(name))
      case Some(lp) =>
        if !SameKind(lp, qlps[i].val) then Some(KindMismatch(name))
        else FirstStranger(plps, qlps, i + 1)
  }

  /** The assertions of `minus_logQ` before any subtraction, in source order. */
  function QMismatch(p: LPPlate, q: LPPlate): Option<Fault> {
    if p.platedims != q.platedims then Some(PlateDimsMismatch)
    else if Keys(p.kdims) != Keys(q.kdims) then Some(KdimNamesMismatch)
    else match FirstKdimClash(p.kdims, q.kdims, 0)
      case Some(name) => Some(KdimMismatch(name))
      case None => FirstStranger(p.lps, q.lps, 0)
  }

  /** Entry `j` of `p` is a sub-plate, and `q` holds a sub-plate under the same name. */
  predicate SharesPlate(p: LPPlate, q: LPPlate, j: nat) {
    j < |p.lps| && p.lps[j].val.Node? && Get(q.lps, p.lps[j].key).Some? && Get(q.lps, p.lps[j].key).value.Node?
  }

  /** What a node of the difference checks before its entries, and how it is built after them. */
  type HeadCheck = (LPPlate, LPPlate) -> Option<Fault>
  type NodeBuild = (LPPlate, seq<Item<Entry>>) -> Result<LPPlate, Fault>

  /**
   * Entries `i..` of `p` after subtracting `q`'s entries of the same name: tensors are
   * subtracted, shared sub-plates are differenced recursively, and any other entry of P
   * is passed through.
   */
  function DiffEntries(p: LPPlate, q: LPPlate, check: HeadCheck, build: NodeBuild, i: nat): (r: Result<seq<Item<Entry>>, Fault>)
    requires i <= |p.lps|
    ensures r.Ok? ==> |r.value| == |p.lps| - i
    ensures r.Ok? ==> forall j :: i <= j < |p.lps| ==> r.value[j - i].key == p.lps[j].key
    decreases p, 0, |p.lps| - i
  {
    if i == |p.lps| then Ok([])
    else
      var name := p.lps[i].key;
      var head :- match (p.lps[i].val, Get(q.lps, name))
        case (Leaf(lp), Some(Leaf(lq))) => Ok(Leaf(Subtract(lp, lq)))
        // LP.py:57 calls `lp.difference(lq)`, which `LP_Plate` does not define; the
        // recursion intended there is `minus_logQ` (MinusLogQAsWritten keeps the call as written).
        case (Node(sp), Some(Node(sq))) =>
          var s :- DiffWith(sp, sq, check, build);
          Ok(Node(s))
        case (lp, _) => Ok(lp);
      var tail :- DiffEntries(p, q, check, build, i + 1);
      Ok([Item(name, head)] + tail)
  }

  /** One node of the difference: its head check, its entries, then its construction. */
  function DiffWith(p: LPPlate, q: LPPlate, check: HeadCheck, build: NodeBuild): Result<LPPlate, Fault>
    decreases p, 1, 0
  {
    match check(p, q)
    case Some(e) => Err(e)
    case None =>
      var lps :- DiffEntries(p, q, check, build, 0);
      build(p, lps)
  }

  /** The construction that ends `minus_logQ`: the new entries with P's plate axes and P's K axes. */
  function Rebuild(p: LPPlate, lps: seq<Item<Entry>>): Result<LPPlate, Fault> {
    NewLPPlate(lps, p.platedims, p.kdims)
  }

  /**
   * `minus_logQ`: the importance weight `log P - log Q`, entry by entry and recursively
   * through shared sub-plates, with the head assertions at every node.
   */
  function MinusLogQ(p: LPPlate, q: LPPlate): Result<LPPlate, Fault> {
    DiffWith(p, q, QMismatch, Rebuild)
  }

  /** One entry of a node's difference, for any head check and construction. */
  ghost predicate DiffedWith(lp: Entry, lq: Option<Entry>, r: Entry, check: HeadCheck, build: NodeBuild) {
    match (lp, lq)
    case (Leaf(a), Some(Leaf(b))) => r == Leaf(Subtract(a, b))
    case (Node(a), Some(Node(b))) => r.Node? && DiffWith(a, b, check, build) == Ok(r.p)
    case _ => r == lp
  }

  lemma {:induction false} DiffEntriesValues(p: LPPlate, q: LPPlate, check: HeadCheck, build: NodeBuild, i: nat)
    requires i <= |p.lps| && DiffEntries(p, q, check, build, i).Ok?
    ensures forall j :: i <= j < |p.lps| ==>
      DiffedWith(p.lps[j].val, Get(q.lps, p.lps[j].key), DiffEntries(p, q, check, build, i).value[j - i].val, check, build)
    decreases |p.lps| - i
  {
    if i < |p.lps| {
      DiffEntriesValues(p, q, check, build, i + 1);
    }
  }

  /** A node's entries are differenced exactly when every shared sub-plate's difference succeeds. */
  lemma {:induction false} DiffEntriesAccepts(p: LPPlate, q: LPPlate, check: HeadCheck, build: NodeBuild, i: nat)
    requires i <= |p.lps|
    ensures DiffEntries(p, q, check, build, i).Ok? <==>
      forall j :: i <= j < |p.lps| && SharesPlate(p, q, j) ==>
        DiffWith(p.lps[j].val.p, Get(q.lps, p.lps[j].key).value.p, check, build).Ok?
    decreases |p.lps| - i
  {
    if i < |p.lps| {
      DiffEntriesAccepts(p, q, check, build, i + 1);
    }
  }

  /**
   * Trees `p` and `q` that `minus_logQ` accepts, stated on dictionaries: the same plate
   * axes, the same K axis under every name, every name of `q` in `p` with the same kind,
   * and the same recursively for every sub-plate the two share.
   */
  ghost predicate Congruent(p: LPPlate, q: LPPlate)
    decreases p
  {
    Matched(p, q) &&
    forall i :: 0 <= i < |p.lps| && SharesPlate(p, q, i) ==>
      Congruent(p.lps[i].val.p, Get(q.lps, p.lps[i].key).value.p)
  }

  /** The top-level part of Congruent: what the assertions at the head of `minus_logQ` demand. */
  ghost predicate Matched(p: LPPlate, q: LPPlate) {
    p.platedims == q.platedims &&
    (forall k :: Get(p.kdims, k) == Get(q.kdims, k)) &&
    (forall k :: k in Keys(q.lps) ==> k in Keys(p.lps) && SameKind(Get(p.lps, k).value, Get(q.lps, k).value))
  }

  /** No entry of `qlps` is missing from `plps` or of another kind there. */
  lemma NoStranger(plps: seq<Item<Entry>>, qlps: seq<Item<Entry>>)
    requires DistinctKeys(qlps)
    ensures FirstStranger(plps, qlps, 0).None? <==>
      forall k :: k in Keys(qlps) ==> k in Keys(plps) && SameKind(Get(plps, k).value, Get(qlps, k).value)
  {
    if FirstStranger(plps, qlps, 0).None? {
      forall k | k in Keys(qlps)
        ensures k in Keys(plps) && SameKind(Get(plps, k).value, Get(qlps, k).value)
      {
        var j :| 0 <= j < |qlps| && qlps[j].key == k;
        GetAt(qlps, j);
      }
    } else {
      var j :| 0 <= j < |qlps| && !(Get(plps, qlps[j].key).Some? && SameKind(Get(plps, qlps[j].key).value, qlps[j].val));
      GetAt(qlps, j);
    }
  }

  /** The head assertions of `minus_logQ` pass exactly on matched nodes. */
  lemma QMismatchMatched(p: LPPlate, q: LPPlate)
    requires Valid(p) && Valid(q)
    ensures QMismatch(p, q).None? <==> Matched(p, q)
  {
    GetEverywhere(p.kdims, q.kdims);
    NoStranger(p.lps, q.lps);
  }

  /** A sub-plate of `p` and the entry of `q` under the same name are both valid plates. */
  lemma SharedPlateValid(p: LPPlate, q: LPPlate, j: nat)
    requires Valid(p) && Valid(q) && SharesPlate(p, q, j)
    ensures Valid(p.lps[j].val.p) && Valid(Get(q.lps, p.lps[j].key).value.p)
  {
    var m :| 0 <= m < |q.lps| && q.lps[m] == Item(p.lps[j].key, Get(q.lps, p.lps[j].key).value);
  }

  /** On a valid tree the construction at the end of `minus_logQ` never raises. */
  lemma MinusLogQUnfold(p: LPPlate, q: LPPlate)
    requires Valid(p)
    ensures MinusLogQ(p, q).Ok? <==> QMismatch(p, q).None? && DiffEntries(p, q, QMismatch, Rebuild, 0).Ok?
    ensures MinusLogQ(p, q).Ok? ==>
      MinusLogQ(p, q).value == LPPlate(DiffEntries(p, q, QMismatch, Rebuild, 0).value, p.platedims, p.kdims)
  {
    var lps := DiffEntries(p, q, QMismatch, Rebuild, 0);
    if lps.Ok? {
      SameKeyList(p.lps, lps.value);
    }
  }

  /** The result of `minus_logQ` has P's names in P's order, P's plate axes and P's K axes. */
  lemma MinusLogQShape(p: LPPlate, q: LPPlate)
    requires Valid(p) && MinusLogQ(p, q).Ok?
    ensures var r := MinusLogQ(p, q).value;
      r.platedims == p.platedims && r.kdims == p.kdims &&
      |r.lps| == |p.lps| && forall j :: 0 <= j < |p.lps| ==> r.lps[j].key == p.lps[j].key
  {
    MinusLogQUnfold(p, q);
  }

  /** The differenced entries hold valid sub-plates wherever the shared sub-plates' differences are valid. */
  lemma {:induction false} DiffEntriesValid(p: LPPlate, q: LPPlate, check: HeadCheck, build: NodeBuild, i: nat)
    requires i <= |p.lps| && DiffEntries(p, q, check, build, i).Ok?
    requires forall j :: i <= j < |p.lps| && p.lps[j].val.Node? ==> Valid(p.lps[j].val.p)
    requires forall j ::
      i <= j < |p.lps| && SharesPlate(p, q, j) && DiffWith(p.lps[j].val.p, Get(q.lps, p.lps[j].key).value.p, check, build).Ok?
      ==> Valid(DiffWith(p.lps[j].val.p, Get(q.lps, p.lps[j].key).value.p, check, build).value)
    ensures forall j :: 0 <= j < |p.lps| - i && DiffEntries(p, q, check, build, i).value[j].val.Node? ==>
              Valid(DiffEntries(p, q, check, build, i).value[j].val.p)
    decreases |p.lps| - i
  {
    if i < |p.lps| {
      DiffEntriesValid(p, q, check, build, i + 1);
    }
  }

  /** The result of `minus_logQ` on valid trees is a tree the constructor accepts. */
  lemma {:induction false} MinusLogQValid(p: LPPlate, q: LPPlate)
    requires Valid(p) && Valid(q) && MinusLogQ(p, q).Ok?
    ensures Valid(MinusLogQ(p, q).value)
    decreases p
  {
    forall j | 0 <= j < |p.lps| && SharesPlate(p, q, j) &&
               MinusLogQ(p.lps[j].val.p, Get(q.lps, p.lps[j].key).value.p).Ok?
      ensures Valid(MinusLogQ(p.lps[j].val.p, Get(q.lps, p.lps[j].key).value.p).value)
    {
      SharedPlateValid(p, q, j);
      MinusLogQValid(p.lps[j].val.p, Get(q.lps, p.lps[j].key).value.p);
    }
    MinusLogQUnfold(p, q);
    DiffEntriesValid(p, q, QMismatch, Rebuild, 0);
    SameKeyList(p.lps, DiffEntries(p, q, QMismatch, Rebuild, 0).value);
  }

  /** `minus_logQ` succeeds exactly on congruent trees. */
  lemma {:induction false} MinusLogQAccepts(p: LPPlate, q: LPPlate)
    requires Valid(p) && Valid(q)
    ensures MinusLogQ(p, q).Ok? <==> Congruent(p, q)
    decreases p
  {
    QMismatchMatched(p, q);
    MinusLogQUnfold(p, q);
    DiffEntriesAccepts(p, q, QMismatch, Rebuild, 0);
    forall j | 0 <= j < |p.lps| && SharesPlate(p, q, j)
      ensures MinusLogQ(p.lps[j].val.p, Get(q.lps, p.lps[j].key).value.p).Ok? <==>
              Congruent(p.lps[j].val.p, Get(q.lps, p.lps[j].key).value.p)
    {
      SharedPlateValid(p, q, j);
      MinusLogQAccepts(p.lps[j].val.p, Get(q.lps, p.lps[j].key).value.p);
    }
  }

  /**
   * One entry of the result of `minus_logQ`: P's tensor minus Q's tensor, P's sub-plate
   * minus Q's sub-plate, or P's entry unchanged when Q has no entry of that name.
   */
  ghost predicate Subtracted(lp: Entry, lq: Option<Entry>, r: Entry) {
    match (lp, lq)
    case (Leaf(a), Some(Leaf(b))) => r == Leaf(Subtract(a, b))
    case (Node(a), Some(Node(b))) => r.Node? && MinusLogQ(a, b) == Ok(r.p)
    case (_, None) => r == lp
    case _ => false
  }

  /** Every entry of the result of `minus_logQ` is P's entry minus Q's entry of the same name. */
  lemma MinusLogQValues(p: LPPlate, q: LPPlate, r: LPPlate)
    requires Valid(p) && MinusLogQ(p, q) == Ok(r)
    ensures |r.lps| == |p.lps|
    ensures forall j :: 0 <= j < |p.lps| ==> Subtracted(p.lps[j].val, Get(q.lps, p.lps[j].key), r.lps[j].val)
  {
    MinusLogQUnfold(p, q);
    var lps := DiffEntries(p, q, QMismatch, Rebuild, 0).value;
    assert r.lps == lps;
    DiffEntriesValues(p, q, QMismatch, Rebuild, 0);
    assert FirstStranger(p.lps, q.lps, 0).None?;
    forall j | 0 <= j < |p.lps|
      ensures Subtracted(p.lps[j].val, Get(q.lps, p.lps[j].key), r.lps[j].val)
    {
      var e := Get(q.lps, p.lps[j].key);
      assert DiffedWith(p.lps[j].val, e, lps[j - 0].val, QMismatch, Rebuild);
      if e.Some? {
        var m :| 0 <= m < |q.lps| && q.lps[m] == Item(p.lps[j].key, e.value);
        GetAt(p.lps, j);
        assert SameKind(p.lps[j].val, e.value);
      }
    }
  }

  /** Entries `i..` as LP.py:50-59 computes them: a shared sub-plate raises at `lp.difference`. */
  function DiffEntriesAsWritten(p: LPPlate, q: LPPlate, i: nat): (r: Result<seq<Item<Entry>>, Fault>)
    requires i <= |p.lps|
    ensures r.Err? ==> exists j :: i <= j < |p.lps| && p.lps[j].val.Node? && p.lps[j].key in Keys(q.lps)
    decreases |p.lps| - i
  {
    if i == |p.lps| then Ok([])
    else
      var name := p.lps[i].key;
      var head :- match (p.lps[i].val, Get(q.lps, name))
        case (Leaf(lp), Some(Leaf(lq))) => Ok(Leaf(Subtract(lp, lq)))
        case (Node(_), Some(_)) => Err(NoDifferenceMethod(name))
        case (lp, _) => Ok(lp);
      var tail :- DiffEntriesAsWritten(p, q, i + 1);
      Ok([Item(name, head)] + tail)
  }

  /** `minus_logQ` as written: LP.py:57 calls `difference`, a method `LP_Plate` does not have. */
  function MinusLogQAsWritten(p: LPPlate, q: LPPlate): Result<LPPlate, Fault> {
    match QMismatch(p, q)
    case Some(e) => Err(e)
    case None =>
      var lps :- DiffEntriesAsWritten(p, q, 0);
      NewLPPlate(lps, p.platedims, p.kdims)
  }

  lemma {:induction false} DiffEntriesAsWrittenAgrees(p: LPPlate, q: LPPlate, i: nat)
    requires i <= |p.lps|
    ensures DiffEntriesAsWritten(p, q, i).Ok? <==>
              forall j :: i <= j < |p.lps| && p.lps[j].val.Node? ==> p.lps[j].key !in Keys(q.lps)
    ensures DiffEntriesAsWritten(p, q, i).Ok? ==> DiffEntriesAsWritten(p, q, i) == DiffEntries(p, q, QMismatch, Rebuild, i)
    decreases |p.lps| - i
  {
    if i < |p.lps| {
      DiffEntriesAsWrittenAgrees(p, q, i + 1);
    }
  }

  /**
   * As written, `minus_logQ` fails on every pair of trees that share a sub-plate name,
   * and agrees with the recursive difference wherever it succeeds.
   */
  lemma MinusLogQAsWrittenFails(p: LPPlate, q: LPPlate)
    requires Valid(p)
    ensures MinusLogQAsWritten(p, q).Ok? <==>
              QMismatch(p, q).None? && forall j :: 0 <= j < |p.lps| && p.lps[j].val.Node? ==> p.lps[j].key !in Keys(q.lps)
    ensures MinusLogQAsWritten(p, q).Ok? ==> MinusLogQAsWritten(p, q) == MinusLogQ(p, q)
  {
    DiffEntriesAsWrittenAgrees(p, q, 0);
    MinusLogQUnfold(p, q);
    var lps := DiffEntriesAsWritten(p, q, 0);
    if lps.Ok? {
      SameKeyList(p.lps, lps.value);
    }
  }

  /** A tree with one empty sub-plate `x`, weighted against itself. */
  function NestedExample(): LPPlate {
    LPPlate([Item("x", Node(LPPlate([], [], [])))], [], [])
  }

  /** The recursion succeeds on this input where the code as written raises. */
  lemma MinusLogQAsWrittenCounterexample()
    ensures Valid(NestedExample())
    ensures MinusLogQAsWritten(NestedExample(), NestedExample()) == Err(NoDifferenceMethod("x"))
    ensures MinusLogQ(NestedExample(), NestedExample()) == Ok(NestedExample())
  {
    var p := NestedExample();
    var sub := LPPlate([], [], []);
    assert Keys(p.lps) == {"x"};
    assert Get(p.lps, "x") == Some(Node(sub));
    assert QMismatch(sub, sub).None?;
    assert DiffEntries(sub, sub, QMismatch, Rebuild, 0) == Ok([]);
    assert MinusLogQ(sub, sub) == Ok(sub);
    assert QMismatch(p, p).None?;
    assert p.lps[0].key == "x";
    assert DiffEntriesAsWritten(p, p, 0) == Err(NoDifferenceMethod("x"));
    assert DiffEntries(p, p, QMismatch, Rebuild, 1) == Ok([]);
    assert p.lps[0].val == Node(sub);
    assert [Item("x", Node(sub))] + [] == p.lps;
    assert DiffEntries(p, p, QMismatch, Rebuild, 0) == Ok(p.lps);
    assert FirstOrphan(p.kdims, p.lps, 0).None?;
  }

  /************************************************************************
   * minus_logK
   ************************************************************************/

  /**
   * An entry `minus_logK` can normalise: a tensor whose name has a K axis of positive
   * size, and which carries no K axis of the node other than that one.
   */
  predicate Normalizable(kdims: seq<Item<Axis>>, e: Item<Entry>) {
    e.key in Keys(kdims) && e.val.Leaf? && Get(kdims, e.key).value.size > 0 &&
    forall a :: a in e.val.t.dims && a in ValueSet(kdims) ==> a == Get(kdims, e.key).value
  }

  /** The first axis of `dims` that belongs to `others`, if any. */
  function FirstForeign(dims: seq<Axis>, others: set<Axis>): (r: Option<Axis>)
    ensures r.None? <==> forall a :: a in dims ==> a !in others
    ensures r.Some? ==> r.value in dims && r.value in others
  {
    if dims == [] then None
    else if dims[0] in others then Some(dims[0])
    else FirstForeign(dims[1..], others)
  }

  /** One entry of `minus_logK`: `lp - math.log(Kdim.size)`, after the lookups and the assertion. */
  function NormEntry(kdims: seq<Item<Axis>>, e: Item<Entry>): (r: Result<Entry, Fault>)
    ensures r.Ok? <==> Normalizable(kdims, e)
    ensures r.Ok? ==> r.value == Leaf(SubtractLog(e.val.t, Get(kdims, e.key).value.size))
    ensures r.Err? ==> (r.error.MissingKdim? || r.error.NotATensor? || r.error.ForeignKdim? || r.error.LogOfZero?) &&
                       r.error.name == e.key
  {
    match Get(kdims, e.key)
    case None => Err(MissingKdim(e.key))                       // `self.Kdims[name]` raises KeyError
    case Some(k) =>
      if e.val.Node? then Err(NotATensor(e.key))               // `generic_dims` needs a tensor
      else match FirstForeign(e.val.t.dims, ValueSet(kdims) - {k})
        case Some(a) => Err(ForeignKdim(e.key, a))
        case None =>
          if k.size == 0 then Err(LogOfZero(e.key))            // `math.log(0)` raises ValueError
          else Ok(Leaf(SubtractLog(e.val.t, k.size)))
  }

  /** What the loop of `minus_logK` does with one entry. */
  type EntryStep = Item<Entry> -> Result<Entry, Fault>

  /** Entries `i..` after `norm`, in order; the first entry that fails stops the loop. */
  function NormEntries(p: LPPlate, norm: EntryStep, i: nat): (r: Result<seq<Item<Entry>>, Fault>)
    requires i <= |p.lps|
    ensures r.Ok? ==> |r.value| == |p.lps| - i
    decreases |p.lps| - i
  {
    if i == |p.lps| then Ok([])
    else
      var head :- norm(p.lps[i]);
      var tail :- NormEntries(p, norm, i + 1);
      Ok([Item(p.lps[i].key, head)] + tail)
  }

  /** Entry `j` of the loop's result keeps entry `j`'s name. */
  lemma {:induction false} NormEntriesKeys(p: LPPlate, norm: EntryStep, i: nat)
    requires i <= |p.lps| && NormEntries(p, norm, i).Ok?
    ensures forall j :: i <= j < |p.lps| ==> NormEntries(p, norm, i).value[j - i].key == p.lps[j].key
    decreases |p.lps| - i
  {
    if i < |p.lps| {
      NormEntriesKeys(p, norm, i + 1);
    }
  }

  /** Entry `j` of the loop's result holds what `norm` made of entry `j`. */
  lemma {:induction false} NormEntriesValues(p: LPPlate, norm: EntryStep, i: nat)
    requires i <= |p.lps| && NormEntries(p, norm, i).Ok?
    ensures forall j :: i <= j < |p.lps| ==> norm(p.lps[j]) == Ok(NormEntries(p, norm, i).value[j - i].val)
    decreases |p.lps| - i
  {
    if i < |p.lps| {
      NormEntriesValues(p, norm, i + 1);
    }
  }

  /** The loop succeeds exactly when every entry's step does. */
  lemma {:induction false} NormEntriesAccepts(p: LPPlate, norm: EntryStep, i: nat)
    requires i <= |p.lps|
    ensures NormEntries(p, norm, i).Ok? <==> forall j :: i <= j < |p.lps| ==> norm(p.lps[j]).Ok?
    decreases |p.lps| - i
  {
    if i < |p.lps| {
      NormEntriesAccepts(p, norm, i + 1);
    }
  }

  /** The loop stops at the first entry whose step fails and raises that step's error. */
  lemma {:induction false} NormEntriesFails(p: LPPlate, norm: EntryStep, i: nat)
    requires i <= |p.lps| && NormEntries(p, norm, i).Err?
    ensures exists j :: i <= j < |p.lps| && norm(p.lps[j]) == Err(NormEntries(p, norm, i).error) &&
              forall m :: i <= m < j ==> norm(p.lps[m]).Ok?
    decreases |p.lps| - i
  {
    if norm(p.lps[i]).Err? {
      assert norm(p.lps[i]) == Err(NormEntries(p, norm, i).error);
    } else {
      NormEntriesFails(p, norm, i + 1);
      var j :| i + 1 <= j < |p.lps| && norm(p.lps[j]) == Err(NormEntries(p, norm, i + 1).error) &&
                forall m :: i + 1 <= m < j ==> norm(p.lps[m]).Ok?;
      assert NormEntries(p, norm, i).error == NormEntries(p, norm, i + 1).error;
      assert forall m :: i <= m < j ==> norm(p.lps[m]).Ok?;
    }
  }

  /** The step of `minus_logK` for the K axes `kdims` of a node. */
  function NormStep(kdims: seq<Item<Axis>>): EntryStep {
    e => NormEntry(kdims, e)
  }

  /** `minus_logK`: subtracts from every log-probability the log of its own K axis's size. */
  function MinusLogK(p: LPPlate): Result<LPPlate, Fault> {
    var lps :- NormEntries(p, NormStep(p.kdims), 0);
    NewLPPlate(lps, p.platedims, p.kdims)
  }

  /** The step of `minus_logK` accepts exactly the entries that can be normalised. */
  lemma NormStepAccepts(p: LPPlate)
    ensures (forall j :: 0 <= j < |p.lps| ==> NormStep(p.kdims)(p.lps[j]).Ok?) <==>
            (forall j :: 0 <= j < |p.lps| ==> Normalizable(p.kdims, p.lps[j]))
  {
    forall j | 0 <= j < |p.lps|
      ensures NormStep(p.kdims)(p.lps[j]).Ok? <==> Normalizable(p.kdims, p.lps[j])
    {
      assert NormStep(p.kdims)(p.lps[j]) == NormEntry(p.kdims, p.lps[j]);
    }
  }

  /** An entry the step of `minus_logK` accepts becomes its tensor minus the log of its K size. */
  lemma NormItemOk(kdims: seq<Item<Axis>>, e: Item<Entry>, x: Item<Entry>)
    requires x.key == e.key && NormStep(kdims)(e) == Ok(x.val)
    ensures e.val.Leaf? && e.key in Keys(kdims) && x == Item(e.key, Leaf(SubtractLog(e.val.t, Get(kdims, e.key).value.size)))
  {
    assert NormStep(kdims)(e) == NormEntry(kdims, e);
  }

  /** On a valid tree, `minus_logK` succeeds exactly when every entry can be normalised. */
  lemma MinusLogKAccepts(p: LPPlate)
    requires Valid(p)
    ensures MinusLogK(p).Ok? <==> forall j :: 0 <= j < |p.lps| ==> Normalizable(p.kdims, p.lps[j])
  {
    MinusLogKUnfold(p);
    NormEntriesAccepts(p, NormStep(p.kdims), 0);
    NormStepAccepts(p);
  }

  /** On a valid tree the construction at the end of `minus_logK` never raises. */
  lemma MinusLogKUnfold(p: LPPlate)
    requires Valid(p)
    ensures MinusLogK(p).Ok? <==> NormEntries(p, NormStep(p.kdims), 0).Ok?
  {
    var lps := NormEntries(p, NormStep(p.kdims), 0);
    if lps.Ok? {
      NormEntriesKeys(p, NormStep(p.kdims), 0);
      SameKeyList(p.lps, lps.value);
    }
  }

  /**
   * Every entry of the result of `minus_logK` is P's tensor minus the log of its K axis's
   * size; names, plate axes and K axes are kept.
   */
  lemma MinusLogKValues(p: LPPlate, r: LPPlate)
    requires MinusLogK(p) == Ok(r)
    ensures r.platedims == p.platedims && r.kdims == p.kdims && |r.lps| == |p.lps|
    ensures forall j :: 0 <= j < |p.lps| ==>
      p.lps[j].val.Leaf? && p.lps[j].key in Keys(p.kdims) &&
      r.lps[j] == Item(p.lps[j].key, Leaf(SubtractLog(p.lps[j].val.t, Get(p.kdims, p.lps[j].key).value.size)))
  {
    assert r.lps == NormEntries(p, NormStep(p.kdims), 0).value;
    NormEntriesKeys(p, NormStep(p.kdims), 0);
    NormEntriesValues(p, NormStep(p.kdims), 0);
    forall j | 0 <= j < |p.lps|
      ensures p.lps[j].val.Leaf? && p.lps[j].key in Keys(p.kdims) &&
              r.lps[j] == Item(p.lps[j].key, Leaf(SubtractLog(p.lps[j].val.t, Get(p.kdims, p.lps[j].key).value.size)))
    {
      NormItemOk(p.kdims, p.lps[j], r.lps[j - 0]);
    }
  }

  /** After `minus_logK` every name has a K axis, and a valid tree stays valid. */
  lemma MinusLogKValid(p: LPPlate, r: LPPlate)
    requires MinusLogK(p) == Ok(r)
    ensures Keys(r.kdims) == Keys(r.lps)
    ensures Valid(p) ==> Valid(r)
  {
    MinusLogKValues(p, r);
    SameKeyList(p.lps, r.lps);
    assert Keys(p.lps) <= Keys(p.kdims) by {
      forall k | k in Keys(p.lps) ensures k in Keys(p.kdims) {
        var j :| 0 <= j < |p.lps| && p.lps[j].key == k;
        assert p.lps[j].key in Keys(p.kdims);
      }
    }
    assert forall j :: 0 <= j < |r.lps| ==> r.lps[j].val.Leaf?;
  }

  /**
   * On a valid tree, a failing `minus_logK` raises the error of the first entry that
   * cannot be normalised.
   */
  lemma MinusLogKFails(p: LPPlate)
    requires Valid(p) && MinusLogK(p).Err?
    ensures exists j :: 0 <= j < |p.lps| && NormEntry(p.kdims, p.lps[j]) == Err(MinusLogK(p).error) &&
              forall m :: 0 <= m < j ==> Normalizable(p.kdims, p.lps[m])
  {
    MinusLogKAccepts(p);
    NormEntriesAccepts(p, NormStep(p.kdims), 0);
    NormEntriesFails(p, NormStep(p.kdims), 0);
    var j :| 0 <= j < |p.lps| && NormStep(p.kdims)(p.lps[j]) == Err(NormEntries(p, NormStep(p.kdims), 0).error) &&
              forall m :: 0 <= m < j ==> NormStep(p.kdims)(p.lps[m]).Ok?;
    assert forall m :: 0 <= m < j ==> Normalizable(p.kdims, p.lps[m]);
  }

  /************************************************************************
   * sum
   ************************************************************************/

  /** The last step of `sum`: the innermost plate axis is summed out, if there is a plate. */
  function SumInnermost(lp: Tensor, platedims: seq<Axis>): (r: Result<Tensor, Fault>)
    ensures r.Ok? <==> platedims == [] || platedims[|platedims| - 1] in lp.dims
    ensures r.Ok? && platedims == [] ==> r.value == lp
    ensures r.Ok? && platedims != [] ==> r.value.term == PlateSum(lp.term, platedims[|platedims| - 1])
    ensures r.Ok? && platedims != [] ==>
      forall a :: a in r.value.dims <==> a in lp.dims && a != platedims[|platedims| - 1]
    ensures r.Err? ==> r.error == PlateAxisAbsent(platedims[|platedims| - 1])
  {
    if 0 < |platedims| then
      var plate := platedims[|platedims| - 1];
      match SumOver(lp, plate)
      case None => Err(PlateAxisAbsent(plate))
      case Some(s) => Ok(s)
    else Ok(lp)
  }

  /** What a node does with the summed entries of its own children. */
  type NodeStep = (LPPlate, seq<Tensor>) -> Result<Tensor, Fault>

  /**
   * The summed entries `i..` of `p`, in the order of `lps`: tensors are kept and every
   * sub-plate is summed first (post-order), through its own entries and `step`.
   */
  function SumEntries(p: LPPlate, step: NodeStep, i: nat): (r: Result<seq<Tensor>, Fault>)
    requires i <= |p.lps|
    ensures r.Ok? ==> |r.value| == |p.lps| - i
    decreases p, 0, |p.lps| - i
  {
    if i == |p.lps| then Ok([])
    else
      var e := p.lps[i].val;
      var head :- if e.Leaf? then Ok(e.t) else SumWith(e.p, step);
      var tail :- SumEntries(p, step, i + 1);
      Ok([head] + tail)
  }

  /** The sum of a node: its summed entries, then its own step. */
  function SumWith(p: LPPlate, step: NodeStep): Result<Tensor, Fault>
    decreases p, 1, 0
  {
    var ts :- SumEntries(p, step, 0);
    step(p, ts)
  }

  /** The node step of `sum`: reduce all Ks of the node jointly, then sum its innermost plate. */
  function Combine(p: LPPlate, ts: seq<Tensor>, planner: Planner): Result<Tensor, Fault>
    requires PlannerFits(planner)
  {
    var lp :- Reduced(ts, Values(p.kdims), planner);
    SumInnermost(lp, p.platedims)
  }

  function SumStep(planner: Planner): NodeStep
    requires PlannerFits(planner)
  {
    (q, ts) => Combine(q, ts, planner)
  }

  /** `sum`: post-order over the tree of plates, with `Combine` at every node. */
  function Sum(p: LPPlate, planner: Planner): Result<Tensor, Fault>
    requires PlannerFits(planner)
  {
    SumWith(p, SumStep(planner))
  }

  /** A tensor entry is kept as it is; a sub-plate entry is replaced by the sub-plate's sum. */
  lemma {:induction false} SumEntriesValues(p: LPPlate, step: NodeStep, i: nat)
    requires i <= |p.lps| && SumEntries(p, step, i).Ok?
    ensures forall j :: i <= j < |p.lps| && p.lps[j].val.Leaf? ==>
              SumEntries(p, step, i).value[j - i] == p.lps[j].val.t
    ensures forall j :: i <= j < |p.lps| && p.lps[j].val.Node? ==>
              SumWith(p.lps[j].val.p, step) == Ok(SumEntries(p, step, i).value[j - i])
    decreases |p.lps| - i
  {
    if i < |p.lps| {
      SumEntriesValues(p, step, i + 1);
    }
  }

  /** The entries are summed exactly when every sub-plate's sum succeeds. */
  lemma {:induction false} SumEntriesAccepts(p: LPPlate, step: NodeStep, i: nat)
    requires i <= |p.lps|
    ensures SumEntries(p, step, i).Ok? <==>
      forall j :: i <= j < |p.lps| && p.lps[j].val.Node? ==> SumWith(p.lps[j].val.p, step).Ok?
    decreases |p.lps| - i
  {
    if i < |p.lps| {
      SumEntriesAccepts(p, step, i + 1);
    }
  }

  /**
   * Every summand of the node's entries is reduced exactly once: below the plate sum,
   * the result is one log-sum-exp of all the summed entries.
   */
  lemma SumSummands(p: LPPlate, planner: Planner, ts: seq<Tensor>, r: Tensor)
    requires PlannerFits(planner) && SumEntries(p, SumStep(planner), 0) == Ok(ts) && Sum(p, planner) == Ok(r)
    ensures p.platedims == [] ==> Summands(r.term) == SummandsIn(ts)
    ensures p.platedims != [] ==> r.term.PlateSum? && r.term.plate == p.platedims[|p.platedims| - 1] &&
                                  Summands(r.term.arg) == SummandsIn(ts)
  {
    var lp := Reduced(ts, Values(p.kdims), planner).value;
    ReductionSummands(ts, Values(p.kdims), planner, lp);
  }

  /**
   * After a non-empty contraction path, the sum of a node carries exactly the axes of
   * its summed entries that are neither a K axis of the node nor its innermost plate.
   */
  lemma SumAxes(p: LPPlate, planner: Planner, ts: seq<Tensor>, r: Tensor)
    requires PlannerFits(planner) && SumEntries(p, SumStep(planner), 0) == Ok(ts) && Sum(p, planner) == Ok(r)
    requires PathFor(ts, Values(p.kdims), planner) != []
    ensures forall a :: a in r.dims <==>
      a in AxesOf(ts) && a !in ValueSet(p.kdims) && (p.platedims != [] ==> a != p.platedims[|p.platedims| - 1])
  {
    var lp := Reduced(ts, Values(p.kdims), planner).value;
    ReductionEliminatesKs(ts, Values(p.kdims), planner, lp);
    assert forall a :: a in Values(p.kdims) <==> a in ValueSet(p.kdims);
  }
}
