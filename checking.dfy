/**
 * The structure checker of `alan_simplified/checking.py`: before any log-probability
 * is computed, the target model P, the proposal Q and the data must agree on names,
 * on the kind of every entry (a single distribution, a group of jointly modelled
 * variables, or a plate) and on the support of every distribution.
 */
module Checking {
  import opened Results
  import opened Dicts

  /** The support of a distribution, compared only with `==`. */
  datatype Support = Support(id: nat)

  /** The program of a plate: its entries in order. */
  datatype Plate = Plate(prog: seq<Item<Spec>>)

  datatype Spec =
    | Dist(support: Support)
    | Group(members: seq<Item<Support>>)   // every member is a distribution
    | Sub(plate: Plate)

  /** Data for one plate: tensors, and a nested dictionary for every sub-plate that has data. */
  datatype Data = Value(tag: nat) | Branch(dict: seq<Item<Data>>)

  /** Where a name mismatch was found: in a plate (the top level has no name), or in a group. */
  datatype Where = InPlate(plate: Option<string>) | InGroup(group: string)

  /** The exceptions the checker raises. */
  datatype CheckError =
    | OnlyInP(where: Where, names: set<string>)
    | OnlyInQ(where: Where, names: set<string>)
    | DataNotDist(plate: Option<string>, name: string)
    | KindMismatch(name: string)
    | SupportMismatch(name: string, supportP: Support, supportQ: Support)
    | UndefinedName(name: string)        // NameError
    | MissingKey(name: string)           // KeyError

  /** A check that returns nothing or raises; `:-` stops at the first failure. */
  datatype Outcome<+E> = Pass | Fail(error: E) {
    predicate IsFailure() {
      Fail?
    }

    function PropagateFailure(): Outcome<E>
      requires Fail?
    {
      this
    }
  }

  function ToSet(s: seq<string>): set<string> {
    set x | x in s
  }

  lemma KeyListSet<V>(d: seq<Item<V>>)
    ensures ToSet(KeyList(d)) == Keys(d)
  {
    forall k | k in Keys(d) ensures k in ToSet(KeyList(d)) {
      var i :| 0 <= i < |d| && d[i].key == k;
      assert KeyList(d)[i] == k;
    }
  }

  lemma ToSetAppend(a: seq<string>, b: seq<string>)
    ensures ToSet(a + b) == ToSet(a) + ToSet(b)
  {
    forall x | x in a + b ensures x in a || x in b {
    }
  }

  /**
   * `mismatch_names`: fails exactly when the two name sets differ; the names only in P
   * are reported first, the names only in Q and data only when there are none of those.
   */
  function MismatchNames(where: Where, namesP: seq<string>, namesQdata: seq<string>): (r: Outcome<CheckError>)
    ensures r.Pass? <==> ToSet(namesP) == ToSet(namesQdata)
    ensures ToSet(namesP) - ToSet(namesQdata) != {} ==>
              r == Fail(OnlyInP(where, ToSet(namesP) - ToSet(namesQdata)))
    ensures ToSet(namesP) <= ToSet(namesQdata) && r.Fail? ==>
              r == Fail(OnlyInQ(where, ToSet(namesQdata) - ToSet(namesP))) && ToSet(namesQdata) - ToSet(namesP) != {}
  {
    var inPnotQ := ToSet(namesP) - ToSet(namesQdata);
    var inQnotP := ToSet(namesQdata) - ToSet(namesP);
    if inPnotQ != {} then Fail(OnlyInP(where, inPnotQ))
    else if inQnotP != {} then Fail(OnlyInQ(where, inQnotP))
    else Pass
  }

  /** `check_support` with the message it evidently means: names the variable and both supports. */
  function CheckSupport(name: string, supportP: Support, supportQ: Support): (r: Outcome<CheckError>)
    ensures r.Pass? <==> supportP == supportQ
    ensures r.Fail? ==> r.error == SupportMismatch(name, supportP, supportQ)
  {
    if supportQ != supportP then Fail(SupportMismatch(name, supportP, supportQ)) else Pass
  }

  /** `check_support` as written: building the message reads the undefined `nameP`. */
  function CheckSupportAsWritten(name: string, supportP: Support, supportQ: Support): (r: Outcome<CheckError>)
    ensures r.Pass? <==> supportP == supportQ
  {
    if supportQ != supportP then Fail(UndefinedName("nameP")) else Pass
  }

  /** On differing supports the check as written raises a NameError instead of its own message. */
  lemma CheckSupportAsWrittenCounterexample()
    ensures CheckSupportAsWritten("x", Support(1), Support(2)) == Fail(UndefinedName("nameP"))
    ensures CheckSupport("x", Support(1), Support(2)) == Fail(SupportMismatch("x", Support(1), Support(2)))
  {
  }

  /** The members `i..` of group P, each compared with the member of group Q of the same name. */
  function CheckMembers(groupP: seq<Item<Support>>, groupQ: seq<Item<Support>>, i: nat): (r: Outcome<CheckError>)
    requires i <= |groupP|
    ensures r.Pass? <==> forall j :: i <= j < |groupP| ==> Get(groupQ, groupP[j].key) == Some(groupP[j].val)
    decreases |groupP| - i
  {
    if i == |groupP| then Pass
    else
      var name := groupP[i].key;
      match Get(groupQ, name)
      case None => Fail(MissingKey(name))
      case Some(supportQ) =>
        :- CheckSupport(name, groupP[i].val, supportQ);
        CheckMembers(groupP, groupQ, i + 1)
  }

  /** `check_PQ_group`: first the member names, then every member's support. */
  function CheckPQGroup(groupname: string, groupP: seq<Item<Support>>, groupQ: seq<Item<Support>>): (r: Outcome<CheckError>)
    requires DistinctKeys(groupP)
    ensures r.Pass? <==> forall k :: Get(groupP, k) == Get(groupQ, k)
  {
    KeyListSet(groupP);
    KeyListSet(groupQ);
    GetEverywhere(groupP, groupQ);
    :- MismatchNames(InGroup(groupname), KeyList(groupP), KeyList(groupQ));
    CheckMembers(groupP, groupQ, 0)
  }

  /** `tree_values(data)`: the tensors directly in this plate's data. */
  function Leaves(data: seq<Item<Data>>): (r: seq<Item<Data>>)
    ensures forall k :: k in Keys(r) <==> exists i :: 0 <= i < |data| && data[i].key == k && data[i].val.Value?
  {
    if data == [] then []
    else
      KeysCons(data);
      var r := (if data[0].val.Value? then [data[0]] else []) + Leaves(data[1..]);
      assert Keys(r) == (if data[0].val.Value? then {data[0].key} else {}) + Keys(Leaves(data[1..])) by {
        if data[0].val.Value? { KeysCons(r); } else { assert r == Leaves(data[1..]); }
      }
      assert forall i :: 1 <= i < |data| ==> data[i] == data[1..][i - 1];
      r
  }

  /** The data of sub-plate `name`; a plate without data has none. */
  function SubData(data: seq<Item<Data>>, name: string): seq<Item<Data>> {
    var e := Get(data, name);
    if e.Some? && e.value.Branch? then e.value.dict else []
  }

  /** Every data name `i..` must be a single distribution in P. */
  function CheckDataIsDist(platename: Option<string>, progP: seq<Item<Spec>>, leaves: seq<Item<Data>>, i: nat): (r: Outcome<CheckError>)
    requires i <= |leaves|
    ensures r.Pass? <==> forall j :: i <= j < |leaves| ==>
              Get(progP, leaves[j].key).Some? && Get(progP, leaves[j].key).value.Dist?
    ensures r.Fail? ==> (r.error.DataNotDist? && r.error.plate == platename) || r.error.MissingKey?
    decreases |leaves| - i
  {
    if i == |leaves| then Pass
    else
      var name := leaves[i].key;
      match Get(progP, name)
      case None => Fail(MissingKey(name))
      case Some(distP) =>
        if !distP.Dist? then Fail(DataNotDist(platename, name))
        else CheckDataIsDist(platename, progP, leaves, i + 1)
  }

  /** All dictionaries of P's tree have distinct keys, as Python dictionaries do. */
  ghost predicate DistinctDicts(p: Plate)
    decreases p
  {
    DistinctKeys(p.prog) &&
    forall j :: 0 <= j < |p.prog| ==>
      (p.prog[j].val.Group? ==> DistinctKeys(p.prog[j].val.members)) &&
      (p.prog[j].val.Sub? ==> DistinctDicts(p.prog[j].val.plate))
  }

  /** The entry of P filed under `name` (`P.prog[name]`): the first one, as a dictionary holds one. */
  function LookupP(progP: seq<Item<Spec>>, name: string): (r: Option<nat>)
    ensures r.Some? ==> r.value < |progP| && progP[r.value].key == name
    ensures r.Some? && DistinctKeys(progP) ==> Get(progP, name) == Some(progP[r.value].val)
    ensures r.None? <==> Get(progP, name).None?
  {
    var f := Find(progP, name);
    assert f.Some? && DistinctKeys(progP) ==> Get(progP, name) == Some(progP[f.value].val) by {
      if f.Some? && DistinctKeys(progP) {
        GetAt(progP, f.value);
      }
    }
    f
  }

  /**
   * The entries `i..` of Q, each against P's entry of the same name: the kinds must
   * agree, distributions must have equal supports, groups must pass `check_PQ_group`
   * and plates are checked recursively with their own data.
   */
  function CheckQEntries(p: Plate, q: Plate, data: seq<Item<Data>>, i: nat): (r: Outcome<CheckError>)
    requires DistinctDicts(p) && i <= |q.prog|
    decreases q, 0, |q.prog| - i
  {
    if i == |q.prog| then Pass
    else
      var name := q.prog[i].key;
      match LookupP(p.prog, name)
      case None => Fail(MissingKey(name))
      case Some(j) =>
        var entryP := p.prog[j].val;
        :- match q.prog[i].val
          case Dist(supportQ) =>
            if !entryP.Dist? then Fail(KindMismatch(name)) else CheckSupport(name, entryP.support, supportQ)
          case Group(groupQ) =>
            if !entryP.Group? then Fail(KindMismatch(name)) else CheckPQGroup(name, entryP.members, groupQ)
          case Sub(plateQ) =>
            if !entryP.Sub? then Fail(KindMismatch(name))
            else CheckPQPlate(Some(name), entryP.plate, plateQ, SubData(data, name));
        CheckQEntries(p, q, data, i + 1)
  }

  /**
   * `check_PQ_plate` as its comments and messages describe it: the names of P must be
   * the names of Q and the data together, data must be single distributions in P, and
   * then every entry of Q is checked against P.
   */
  function CheckPQPlate(platename: Option<string>, p: Plate, q: Plate, data: seq<Item<Data>>): (r: Outcome<CheckError>)
    requires DistinctDicts(p)
    decreases q, 1, 0
  {
    var leaves := Leaves(data);
    :- MismatchNames(InPlate(platename), KeyList(p.prog), KeyList(q.prog) + KeyList(leaves));
    :- CheckDataIsDist(platename, p.prog, leaves, 0);
    CheckQEntries(p, q, data, 0)
  }

  /** Entry `i` of Q agrees with P's entry of the same name. */
  ghost predicate Corresponds(p: Plate, q: Plate, data: seq<Item<Data>>, i: nat)
    requires i < |q.prog|
    decreases q, 0
  {
    var e := Get(p.prog, q.prog[i].key);
    e.Some? &&
    match q.prog[i].val
    case Dist(s) => e.value == Dist(s)
    case Group(g) => e.value.Group? && forall k :: Get(e.value.members, k) == Get(g, k)
    case Sub(sq) => e.value.Sub? && Matches(e.value.plate, sq, SubData(data, q.prog[i].key))
  }

  /**
   * P, Q and the data agree: at every level the names of P are those of Q and the data,
   * every data name is a single distribution in P, and every entry of Q has a
   * counterpart of the same kind in P (same support, same group, matching sub-plate).
   */
  ghost predicate Matches(p: Plate, q: Plate, data: seq<Item<Data>>)
    decreases q, 1
  {
    Keys(p.prog) == Keys(q.prog) + Keys(Leaves(data)) &&
    (forall k :: k in Keys(Leaves(data)) ==> Get(p.prog, k).Some? && Get(p.prog, k).value.Dist?) &&
    forall i :: 0 <= i < |q.prog| ==> Corresponds(p, q, data, i)
  }

  /** A sub-plate of P found by name inherits distinct keys. */
  lemma LookupDistinct(p: Plate, name: string)
    requires DistinctDicts(p) && Get(p.prog, name).Some?
    ensures Get(p.prog, name).value.Group? ==> DistinctKeys(Get(p.prog, name).value.members)
    ensures Get(p.prog, name).value.Sub? ==> DistinctDicts(Get(p.prog, name).value.plate)
  {
    var m :| 0 <= m < |p.prog| && p.prog[m] == Item(name, Get(p.prog, name).value);
  }

  /** One entry of Q passes its check exactly when it corresponds to P's entry. */
  lemma {:induction false} QEntryMatches(p: Plate, q: Plate, data: seq<Item<Data>>, i: nat)
    requires DistinctDicts(p) && i < |q.prog|
    ensures (CheckQEntries(p, q, data, i).Pass? <==>
              Corresponds(p, q, data, i) && CheckQEntries(p, q, data, i + 1).Pass?)
    decreases q, 0, 0
  {
    var name := q.prog[i].key;
    var e := Get(p.prog, name);
    if e.Some? {
      LookupDistinct(p, name);
      if q.prog[i].val.Sub? && e.value.Sub? {
        PlateMatches(Some(name), e.value.plate, q.prog[i].val.plate, SubData(data, name));
      }
    }
  }

  lemma {:induction false} QEntriesMatch(p: Plate, q: Plate, data: seq<Item<Data>>, i: nat)
    requires DistinctDicts(p) && i <= |q.prog|
    ensures CheckQEntries(p, q, data, i).Pass? <==> forall j :: i <= j < |q.prog| ==> Corresponds(p, q, data, j)
    decreases q, 0, |q.prog| - i
  {
    if i < |q.prog| {
      QEntryMatches(p, q, data, i);
      QEntriesMatch(p, q, data, i + 1);
    }
  }

  /** The data check passes exactly when every data name is a single distribution in P. */
  lemma DataAreDists(platename: Option<string>, progP: seq<Item<Spec>>, leaves: seq<Item<Data>>)
    ensures CheckDataIsDist(platename, progP, leaves, 0).Pass? <==>
              forall k :: k in Keys(leaves) ==> Get(progP, k).Some? && Get(progP, k).value.Dist?
  {
    if CheckDataIsDist(platename, progP, leaves, 0).Pass? {
      forall k | k in Keys(leaves) ensures Get(progP, k).Some? && Get(progP, k).value.Dist? {
        var j :| 0 <= j < |leaves| && leaves[j].key == k;
      }
    } else {
      var j :| 0 <= j < |leaves| && !(Get(progP, leaves[j].key).Some? && Get(progP, leaves[j].key).value.Dist?);
      assert leaves[j].key in Keys(leaves);
    }
  }

  /** The name check of `check_PQ_plate` passes exactly when P's names are Q's and the data's. */
  lemma PlateNames(platename: Option<string>, p: Plate, q: Plate, leaves: seq<Item<Data>>)
    ensures MismatchNames(InPlate(platename), KeyList(p.prog), KeyList(q.prog) + KeyList(leaves)).Pass? <==>
              Keys(p.prog) == Keys(q.prog) + Keys(leaves)
  {
    KeyListSet(p.prog);
    KeyListSet(q.prog);
    KeyListSet(leaves);
    ToSetAppend(KeyList(q.prog), KeyList(leaves));
  }

  /** `check_PQ_plate` passes exactly when P, Q and the data match. */
  lemma {:induction false} PlateMatches(platename: Option<string>, p: Plate, q: Plate, data: seq<Item<Data>>)
    requires DistinctDicts(p)
    ensures CheckPQPlate(platename, p, q, data).Pass? <==> Matches(p, q, data)
    decreases q, 1, 0
  {
    var leaves := Leaves(data);
    var names := MismatchNames(InPlate(platename), KeyList(p.prog), KeyList(q.prog) + KeyList(leaves));
    var dists := CheckDataIsDist(platename, p.prog, leaves, 0);
    PlateNames(platename, p, q, leaves);
    DataAreDists(platename, p.prog, leaves);
    QEntriesMatch(p, q, data, 0);
    if CheckPQPlate(platename, p, q, data).Pass? {
      assert names.Pass? && dists.Pass? && CheckQEntries(p, q, data, 0).Pass?;
      assert Matches(p, q, data);
    }
    if Matches(p, q, data) {
      assert names.Pass? && dists.Pass? && CheckQEntries(p, q, data, 0).Pass?;
      assert CheckPQPlate(platename, p, q, data) == CheckQEntries(p, q, data, 0);
    }
  }

  /** The name sets agree at every level of the plate tree. */
  ghost predicate NamesMatchEverywhere(p: Plate, q: Plate, data: seq<Item<Data>>)
    decreases q
  {
    Keys(p.prog) == Keys(q.prog) + Keys(Leaves(data)) &&
    forall i :: 0 <= i < |q.prog| && q.prog[i].val.Sub? && Get(p.prog, q.prog[i].key).Some? &&
                Get(p.prog, q.prog[i].key).value.Sub? ==>
      NamesMatchEverywhere(Get(p.prog, q.prog[i].key).value.plate, q.prog[i].val.plate, SubData(data, q.prog[i].key))
  }

  lemma {:induction false} MatchesNames(p: Plate, q: Plate, data: seq<Item<Data>>)
    requires Matches(p, q, data)
    ensures NamesMatchEverywhere(p, q, data)
    decreases q
  {
    forall i | 0 <= i < |q.prog| && q.prog[i].val.Sub? && Get(p.prog, q.prog[i].key).Some? &&
               Get(p.prog, q.prog[i].key).value.Sub?
      ensures NamesMatchEverywhere(Get(p.prog, q.prog[i].key).value.plate, q.prog[i].val.plate, SubData(data, q.prog[i].key))
    {
      assert Corresponds(p, q, data, i);
      MatchesNames(Get(p.prog, q.prog[i].key).value.plate, q.prog[i].val.plate, SubData(data, q.prog[i].key));
    }
  }

  /** When `check_PQ_plate` passes, the names match at every nesting level. */
  lemma PlateNamesEverywhere(platename: Option<string>, p: Plate, q: Plate, data: seq<Item<Data>>)
    requires DistinctDicts(p) && CheckPQPlate(platename, p, q, data).Pass?
    ensures NamesMatchEverywhere(p, q, data)
  {
    PlateMatches(platename, p, q, data);
    MatchesNames(p, q, data);
  }

  /** Names {a, b, c} in P against {a, c, d} in Q and data: only the P-only set {b} is reported. */
  lemma MismatchNamesExample()
    ensures MismatchNames(InPlate(None), ["a", "b", "c"], ["a", "c", "d"]) == Fail(OnlyInP(InPlate(None), {"b"}))
  {
    var sp := ToSet(["a", "b", "c"]);
    var sq := ToSet(["a", "c", "d"]);
    assert sp == {"a", "b", "c"};
    assert sq == {"a", "c", "d"};
    assert "b" != "a" && "b" != "c" && "b" != "d";
    assert sp - sq == {"b"};
  }

  /************************************************************************
   * check_PQ_plate as written
   ************************************************************************/

  /**
   * The entry loop as written: it iterates P's entries, so each entry is compared with
   * itself, and `data[name]` raises when the data has no dictionary for a sub-plate.
   */
  function CheckPEntriesAsWritten(p: Plate, data: seq<Item<Data>>, i: nat): (r: Outcome<CheckError>)
    requires DistinctDicts(p) && i <= |p.prog|
    decreases p, 0, |p.prog| - i
  {
    if i == |p.prog| then Pass
    else
      var name := p.prog[i].key;
      var entryQ := p.prog[i].val;
      match LookupP(p.prog, name)
      case None => Fail(MissingKey(name))
      case Some(j) =>
        var entryP := p.prog[j].val;
        :- match entryQ
          case Dist(supportQ) =>
            if !entryP.Dist? then Fail(KindMismatch(name)) else CheckSupport(name, entryP.support, supportQ)
          case Group(groupQ) =>
            if !entryP.Group? then Fail(KindMismatch(name)) else CheckPQGroup(name, entryP.members, groupQ)
          case Sub(plateQ) =>
            if !entryP.Sub? then Fail(KindMismatch(name))
            else
              var d := Get(data, name);
              if d.Some? && d.value.Branch? then CheckPQPlateAsWritten(Some(name), entryP.plate, plateQ, d.value.dict)
              else Fail(MissingKey(name));
        CheckPEntriesAsWritten(p, data, i + 1)
  }

  /** `check_PQ_plate` as written. */
  function CheckPQPlateAsWritten(platename: Option<string>, p: Plate, q: Plate, data: seq<Item<Data>>): (r: Outcome<CheckError>)
    requires DistinctDicts(p)
    decreases p, 1, 0
  {
    var leaves := Leaves(data);
    :- MismatchNames(InPlate(platename), KeyList(p.prog), KeyList(q.prog) + KeyList(leaves));
    :- CheckDataIsDist(platename, p.prog, leaves, 0);
    CheckPEntriesAsWritten(p, data, 0)
  }

  /** As written, the entry loop compares P with itself, so it never reports a kind or support mismatch. */
  lemma {:induction false} PEntriesAsWrittenBlind(p: Plate, data: seq<Item<Data>>, i: nat)
    requires DistinctDicts(p) && i <= |p.prog|
    ensures CheckPEntriesAsWritten(p, data, i).Fail? ==>
              !CheckPEntriesAsWritten(p, data, i).error.KindMismatch? &&
              !CheckPEntriesAsWritten(p, data, i).error.SupportMismatch?
    decreases p, 0, |p.prog| - i
  {
    if i < |p.prog| {
      var name := p.prog[i].key;
      GetAt(p.prog, i);
      var j := LookupP(p.prog, name).value;
      assert p.prog[j].val == p.prog[i].val;
      var entry := p.prog[i].val;
      var rest := CheckPEntriesAsWritten(p, data, i + 1);
      PEntriesAsWrittenBlind(p, data, i + 1);
      match entry
      case Dist(support) =>
        assert CheckSupport(name, support, support) == Pass;
        assert CheckPEntriesAsWritten(p, data, i) == rest;
      case Group(members) =>
        assert DistinctKeys(members);
        assert CheckPQGroup(name, members, members) == Pass;
        assert CheckPEntriesAsWritten(p, data, i) == rest;
      case Sub(plate) =>
        var d := Get(data, name);
        if d.Some? && d.value.Branch? {
          var sub := CheckPQPlateAsWritten(Some(name), plate, plate, d.value.dict);
          PlateAsWrittenBlind(Some(name), plate, plate, d.value.dict);
          assert CheckPEntriesAsWritten(p, data, i) == if sub.Fail? then sub else rest;
        } else {
          assert CheckPEntriesAsWritten(p, data, i) == Fail(MissingKey(name));
        }
    }
  }

  lemma {:induction false} PlateAsWrittenBlind(platename: Option<string>, p: Plate, q: Plate, data: seq<Item<Data>>)
    requires DistinctDicts(p)
    ensures CheckPQPlateAsWritten(platename, p, q, data).Fail? ==>
              !CheckPQPlateAsWritten(platename, p, q, data).error.KindMismatch? &&
              !CheckPQPlateAsWritten(platename, p, q, data).error.SupportMismatch?
    decreases p, 1, 0
  {
    PEntriesAsWrittenBlind(p, data, 0);
  }

  /** P and Q disagree on the support of `a`: the check as written passes, the intended one does not. */
  lemma PlateAsWrittenMissesSupport()
    ensures CheckPQPlateAsWritten(None, Plate([Item("a", Dist(Support(1)))]),
                                  Plate([Item("a", Dist(Support(2)))]), []) == Pass
    ensures CheckPQPlate(None, Plate([Item("a", Dist(Support(1)))]),
                         Plate([Item("a", Dist(Support(2)))]), []) == Fail(SupportMismatch("a", Support(1), Support(2)))
  {
    var p := Plate([Item("a", Dist(Support(1)))]);
    var q := Plate([Item("a", Dist(Support(2)))]);
    assert KeyList(p.prog) == ["a"] && KeyList(q.prog) == ["a"];
    assert ToSet(["a"]) == {"a"};
    assert Leaves([]) == [];
    assert Get(p.prog, "a") == Some(Dist(Support(1)));
  }

  /** A sub-plate without data: the check as written raises KeyError, the intended one passes. */
  lemma PlateAsWrittenNeedsData()
    ensures CheckPQPlateAsWritten(None, Plate([Item("p", Sub(Plate([])))]),
                                  Plate([Item("p", Sub(Plate([])))]), []) == Fail(MissingKey("p"))
    ensures CheckPQPlate(None, Plate([Item("p", Sub(Plate([])))]), Plate([Item("p", Sub(Plate([])))]), []) == Pass
  {
    var p := Plate([Item("p", Sub(Plate([])))]);
    assert KeyList(p.prog) == ["p"];
    assert ToSet(["p"]) == {"p"};
    assert Leaves([]) == [];
    assert KeyList<Data>([]) == [];
    assert Get(p.prog, "p") == Some(Sub(Plate([])));
    assert SubData([], "p") == [];
    assert KeyList<Spec>([]) == [];
    assert CheckPQPlate(Some("p"), Plate([]), Plate([]), []) == Pass;
  }
}
