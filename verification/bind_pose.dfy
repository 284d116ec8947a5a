/**
 * A bind pose: an ordered list of (target, matrix) bindings. Parsing yields
 * placeholders that carry only the target's file id; a one-shot resolution
 * against the scene's id map turns them into real bindings or drops them.
 */
module BindPoses {
  import opened Wrappers
  import opened Values
  import opened Tree
  import opened Scene
  import opened Seqs

  /** A 4x4 matrix as its sixteen entries; the model never computes with it. */
  type Matrix = seq<real>

  const Identity: Matrix := [1.0, 0.0, 0.0, 0.0,
                             0.0, 1.0, 0.0, 0.0,
                             0.0, 0.0, 1.0, 0.0,
                             0.0, 0.0, 0.0, 1.0]

  /**
   * A list entry: `Placeholder` is the parser's `TempBind`, whose target is
   * still null; `Bound` is a `Binding` with a live target.
   */
  datatype Entry = Placeholder(nodeId: int, matrix: Matrix) | Bound(target: Obj, matrix: Matrix)

  /** The entry's `Target`: null for a placeholder. */
  function TargetOf(e: Entry): Option<Obj> {
    if e.Bound? then Some(e.target) else None
  }

  datatype Pose = Pose(self: Obj, bindings: seq<Entry>)

  // ---------------------------------------------------------------------
  // Parsing
  // ---------------------------------------------------------------------

  /** `Convert.ToInt32` on an attribute value: integer kinds in range, booleans as 0 or 1. */
  function ToInt32(a: Attr): (r: Result<int>)
    ensures a.AInt32? ==> r == Ok(a.i as int)
    ensures r.Ok? ==> Int32Min <= r.value <= Int32Max
  {
    match a
    case AInt32(i) => Ok(i as int)
    case AByte(u) => Ok(u as int)
    case ABool(b) => Ok(if b then 1 else 0)
    case AInt64(l) => if Int32Min <= l <= Int32Max then Ok(l) else Err(Conversion)
    case _ => Err(Conversion)
  }

  /** A `PoseNode` child whose `Node` child carries an `Int64` first attribute. */
  predicate IsPoseEntry(n: Node) {
    n.name == "PoseNode" && FirstAttr(FindChild(n, "Node")).Some? && FirstAttr(FindChild(n, "Node")).value.AInt64?
  }

  /**
   * The matrix of a pose node: the decoded `Matrix` array when there is one
   * and it decodes, the identity otherwise. `toMatrix` stands for the
   * library's array-to-matrix conversion.
   */
  function PoseMatrix(n: Node, toMatrix: seq<real> -> Option<Matrix>): (r: Matrix)
    ensures FirstAttr(FindChild(n, "Matrix")).None? ==> r == Identity
    ensures (match FirstAttr(FindChild(n, "Matrix"))
             case Some(ADoubleArray(ds)) => toMatrix(ds).Some? ==> r == toMatrix(ds).value
             case _ => r == Identity)
  {
    match FirstAttr(FindChild(n, "Matrix"))
    case Some(ADoubleArray(ds)) => toMatrix(ds).GetOr(Identity)
    case _ => Identity
  }

  function EntryOf(n: Node, toMatrix: seq<real> -> Option<Matrix>): (r: Entry)
    requires IsPoseEntry(n)
    ensures r.Placeholder? && r.nodeId == FirstAttr(FindChild(n, "Node")).value.l
  {
    Placeholder(FirstAttr(FindChild(n, "Node")).value.l, PoseMatrix(n, toMatrix))
  }

  /** The placeholders for `children`, in document order; other children are skipped. */
  function PoseNodes(children: seq<Node>, toMatrix: seq<real> -> Option<Matrix>): (r: seq<Entry>)
    ensures |r| <= |children|
    ensures forall i :: 0 <= i < |r| ==> r[i].Placeholder?
  {
    if |children| == 0 then []
    else
      var init, last := children[..|children| - 1], children[|children| - 1];
      PoseNodes(init, toMatrix) + (if IsPoseEntry(last) then [EntryOf(last, toMatrix)] else [])
  }

  /** Placeholders follow document order: parsing a concatenation concatenates the results. */
  lemma {:induction false} PoseNodesAppend(a: seq<Node>, b: seq<Node>, toMatrix: seq<real> -> Option<Matrix>)
    ensures PoseNodes(a + b, toMatrix) == PoseNodes(a, toMatrix) + PoseNodes(b, toMatrix)
  {
    if |b| > 0 {
      var init := b[..|b| - 1];
      assert (a + b)[..|a + b| - 1] == a + init;
      PoseNodesAppend(a, init, toMatrix);
    } else {
      assert a + b == a;
    }
  }

  /** One node parses to one placeholder exactly when it is a pose entry. */
  lemma PoseNodesSingle(n: Node, toMatrix: seq<real> -> Option<Matrix>)
    ensures PoseNodes([n], toMatrix) == if IsPoseEntry(n) then [EntryOf(n, toMatrix)] else []
  {
    assert [n][..0] == [];
  }

  /** The constructor's child loop, as written. */
  method ParsePoseNodes(children: seq<Node>, toMatrix: seq<real> -> Option<Matrix>) returns (r: seq<Entry>)
    ensures r == PoseNodes(children, toMatrix)
  {
    r := [];
    var i := 0;
    while i < |children|
      invariant 0 <= i <= |children|
      invariant r == PoseNodes(children[..i], toMatrix)
    {
      var child := children[i];
      assert children[..i + 1][..i] == children[..i];
      if IsPoseEntry(child) {
        r := r + [EntryOf(child, toMatrix)];
      }
      i := i + 1;
    }
    assert children[..i] == children;
  }

  /**
   * The constructor: nothing without an element, without a `NbPoseNodes`
   * attribute, or when it reads 0; a failing conversion of that count throws.
   */
  function ParsePose(element: Option<Node>, toMatrix: seq<real> -> Option<Matrix>): (r: Result<seq<Entry>>)
    ensures element.None? ==> r == Ok([])
    ensures element.Some? && FirstAttr(FindChild(element.value, "NbPoseNodes")).None? ==> r == Ok([])
    ensures element.Some? && FirstAttr(FindChild(element.value, "NbPoseNodes")).Some? ==>
              var count := ToInt32(FirstAttr(FindChild(element.value, "NbPoseNodes")).value);
              && (count.Err? ==> r == Err(Conversion))
              && (count == Ok(0) ==> r == Ok([]))
              && (count.Ok? && count.value != 0 ==> r == Ok(PoseNodes(element.value.children, toMatrix)))
  {
    if element.None? then Ok([])
    else
      match FirstAttr(FindChild(element.value, "NbPoseNodes"))
      case None => Ok([])
      case Some(v) =>
        match ToInt32(v)
        case Err(e) => Err(e)
        case Ok(count) => if count == 0 then Ok([]) else Ok(PoseNodes(element.value.children, toMatrix))
  }

  // ---------------------------------------------------------------------
  // Resolution
  // ---------------------------------------------------------------------

  /** What resolution makes of one entry: a placeholder binds or vanishes, a binding stays. */
  function ResolveOne(e: Entry, objects: map<int, Obj>): (r: seq<Entry>)
    ensures |r| <= 1 && forall x :: x in r ==> x.Bound?
  {
    match e
    case Placeholder(id, m) => if id in objects then [Bound(objects[id], m)] else []
    case Bound(_, _) => [e]
  }

  /** The entries after resolution, entry by entry in list order. */
  function Resolved(bs: seq<Entry>, objects: map<int, Obj>): (r: seq<Entry>)
    ensures |r| <= |bs|
    ensures forall i :: 0 <= i < |r| ==> r[i].Bound?
  {
    if |bs| == 0 then []
    else Resolved(bs[..|bs| - 1], objects) + ResolveOne(bs[|bs| - 1], objects)
  }

  lemma {:induction false} ResolvedAppend(a: seq<Entry>, b: seq<Entry>, objects: map<int, Obj>)
    ensures Resolved(a + b, objects) == Resolved(a, objects) + Resolved(b, objects)
  {
    if |b| > 0 {
      var init := b[..|b| - 1];
      assert (a + b)[..|a + b| - 1] == a + init;
      ResolvedAppend(a, init, objects);
    } else {
      assert a + b == a;
    }
  }

  lemma ResolvedSingle(e: Entry, objects: map<int, Obj>)
    ensures Resolved([e], objects) == ResolveOne(e, objects)
  {
    assert [e][..0] == [];
  }

  /** Entries that survive resolution: bindings and placeholders whose id is known. */
  predicate Kept(e: Entry, objects: map<int, Obj>) {
    e.Bound? || e.nodeId in objects
  }

  function CountKept(bs: seq<Entry>, objects: map<int, Obj>): nat {
    if |bs| == 0 then 0
    else CountKept(bs[..|bs| - 1], objects) + (if Kept(bs[|bs| - 1], objects) then 1 else 0)
  }

  /** The count after resolution is the bound entries plus the resolvable placeholders. */
  lemma {:induction false} ResolvedCount(bs: seq<Entry>, objects: map<int, Obj>)
    ensures |Resolved(bs, objects)| == CountKept(bs, objects)
  {
    if |bs| > 0 {
      ResolvedCount(bs[..|bs| - 1], objects);
    }
  }

  /** A list without placeholders is left as it is: resolving twice changes nothing more. */
  lemma {:induction false} ResolvedIdempotent(bs: seq<Entry>, objects: map<int, Obj>)
    ensures Resolved(Resolved(bs, objects), objects) == Resolved(bs, objects)
  {
    NoPlaceholdersStay(Resolved(bs, objects), objects);
  }

  lemma {:induction false} NoPlaceholdersStay(bs: seq<Entry>, objects: map<int, Obj>)
    requires forall i :: 0 <= i < |bs| ==> bs[i].Bound?
    ensures Resolved(bs, objects) == bs
  {
    if |bs| > 0 {
      NoPlaceholdersStay(bs[..|bs| - 1], objects);
      assert bs == bs[..|bs| - 1] + [bs[|bs| - 1]];
    }
  }

  /**
   * `InternalResolveAllBinds`, as written: a known placeholder is replaced
   * in place, an unknown one removed with the index stepped back.
   */
  method ResolveAllBinds(bs: seq<Entry>, objects: map<int, Obj>) returns (r: seq<Entry>)
    ensures r == Resolved(bs, objects)
  {
    r := bs;
    var i := 0;
    ghost var k := 0;
    while i < |r|
      invariant 0 <= i <= |r| && 0 <= k <= |bs|
      invariant r[..i] == Resolved(bs[..k], objects)
      invariant r[i..] == bs[k..]
      decreases |r| - i
    {
      ResolveLoopStep(bs, k, r, i, objects);
      var e := r[i];
      if e.Placeholder? && e.nodeId in objects {
        r := r[i := Bound(objects[e.nodeId], e.matrix)];
        i := i + 1;
      } else if e.Placeholder? {
        r := RemoveAt(r, i);
      } else {
        i := i + 1;
      }
      k := k + 1;
    }
    assert bs[..k] == bs;
  }

  /** The loop body of `ResolveAllBinds` keeps its invariant, branch by branch. */
  lemma ResolveLoopStep(bs: seq<Entry>, k: nat, r: seq<Entry>, i: nat, objects: map<int, Obj>)
    requires i < |r| && k <= |bs|
    requires r[..i] == Resolved(bs[..k], objects) && r[i..] == bs[k..]
    ensures k < |bs| && r[i] == bs[k]
    ensures r[i].Placeholder? && r[i].nodeId in objects ==>
              var r' := r[i := Bound(objects[r[i].nodeId], r[i].matrix)];
              r'[..i + 1] == Resolved(bs[..k + 1], objects) && r'[i + 1..] == bs[k + 1..]
    ensures r[i].Placeholder? && r[i].nodeId !in objects ==>
              RemoveAt(r, i)[..i] == Resolved(bs[..k + 1], objects) && RemoveAt(r, i)[i..] == bs[k + 1..]
    ensures r[i].Bound? ==> r[..i + 1] == Resolved(bs[..k + 1], objects) && r[i + 1..] == bs[k + 1..]
  {
    assert r[i..][0] == bs[k..][0];
    assert r[i + 1..] == r[i..][1..] == bs[k..][1..] == bs[k + 1..];
    ResolveStep(bs, k, objects);
    var e := r[i];
    if e.Placeholder? && e.nodeId in objects {
      var r' := r[i := Bound(objects[e.nodeId], e.matrix)];
      assert r'[..i + 1] == r[..i] + [r'[i]];
      assert r'[i + 1..] == r[i + 1..];
    } else if e.Bound? {
      assert r[..i + 1] == r[..i] + [r[i]];
    }
  }

  /** Resolution advances one entry at a time. */
  lemma ResolveStep(bs: seq<Entry>, k: nat, objects: map<int, Obj>)
    requires k < |bs|
    ensures Resolved(bs[..k + 1], objects) == Resolved(bs[..k], objects) + ResolveOne(bs[k], objects)
  {
    assert bs[..k + 1][..k] == bs[..k];
  }

  // ---------------------------------------------------------------------
  // Editing
  // ---------------------------------------------------------------------

  /** The first position whose target is `t`. */
  function FindTarget(bs: seq<Entry>, t: Obj): (r: Option<nat>)
    ensures r.Some? ==> r.value < |bs| && TargetOf(bs[r.value]) == Some(t)
    ensures r.Some? ==> forall j :: 0 <= j < r.value ==> TargetOf(bs[j]) != Some(t)
    ensures r.None? <==> forall j :: 0 <= j < |bs| ==> TargetOf(bs[j]) != Some(t)
  {
    if |bs| == 0 then None
    else if TargetOf(bs[0]) == Some(t) then Some(0)
    else match FindTarget(bs[1..], t)
      case None => None
      case Some(j) => Some(j + 1)
  }

  /**
   * `AddBindingAt`: a null target is ignored; a target of another scene
   * throws; an index outside `0..Count` throws, even when the target is
   * already bound; an existing binding for the target is replaced in place,
   * otherwise the binding is inserted at the index.
   */
  function AddBindingAt(p: Pose, target: Option<Obj>, m: Matrix, index: int): (r: Result<Pose>)
    ensures target.None? ==> r == Ok(p)
    ensures target.Some? ==>
              (r.Err? <==> target.value.scene != p.self.scene || index < 0 || index > |p.bindings|)
    ensures target.Some? && target.value.scene != p.self.scene ==> r == Err(CrossScene)
    ensures target.Some? && target.value.scene == p.self.scene && r.Err? ==> r.error == OutOfRange
    ensures r.Ok? ==> r.value.self == p.self
    ensures r.Ok? && target.Some? && FindTarget(p.bindings, target.value).Some? ==>
              var at := FindTarget(p.bindings, target.value).value;
              r.value.bindings == p.bindings[at := Bound(target.value, m)]
    ensures r.Ok? && target.Some? && FindTarget(p.bindings, target.value).None? ==>
              r.value.bindings == InsertAt(p.bindings, index, Bound(target.value, m))
  {
    if target.None? then Ok(p)
    else if target.value.scene != p.self.scene then Err(CrossScene)
    else if index < 0 || index > |p.bindings| then Err(OutOfRange)
    else match FindTarget(p.bindings, target.value)
      case Some(at) => Ok(p.(bindings := p.bindings[at := Bound(target.value, m)]))
      case None => Ok(p.(bindings := InsertAt(p.bindings, index, Bound(target.value, m))))
  }

  /** `AddBinding`: `AddBindingAt` at the end of the list. */
  function AddBinding(p: Pose, target: Option<Obj>, m: Matrix): (r: Result<Pose>)
    ensures r == AddBindingAt(p, target, m, |p.bindings|)
    ensures target.Some? && target.value.scene == p.self.scene ==> r.Ok?
  {
    AddBindingAt(p, target, m, |p.bindings|)
  }

  /** No target is bound twice: the invariant `AddBindingAt`'s replace-in-place keeps. */
  predicate UniqueTargets(bs: seq<Entry>) {
    forall i, j :: 0 <= i < j < |bs| && bs[i].Bound? && bs[j].Bound? ==> bs[i].target != bs[j].target
  }

  /** Adding never binds a target twice. */
  lemma AddKeepsUniqueTargets(p: Pose, target: Option<Obj>, m: Matrix, index: int)
    requires UniqueTargets(p.bindings)
    ensures AddBindingAt(p, target, m, index).Ok? ==> UniqueTargets(AddBindingAt(p, target, m, index).value.bindings)
  {
    var r := AddBindingAt(p, target, m, index);
    if r.Ok? && target.Some? {
      var t, bs := target.value, p.bindings;
      match FindTarget(bs, t)
      case Some(at) =>
        ReplaceKeepsUnique(bs, at, Bound(t, m));
      case None =>
        InsertKeepsUnique(bs, index, Bound(t, m));
    }
  }

  lemma ReplaceKeepsUnique(bs: seq<Entry>, at: nat, e: Entry)
    requires UniqueTargets(bs) && at < |bs| && e.Bound? && TargetOf(bs[at]) == Some(e.target)
    ensures UniqueTargets(bs[at := e])
  {
    var r := bs[at := e];
    forall i, j | 0 <= i < j < |r| && r[i].Bound? && r[j].Bound?
      ensures r[i].target != r[j].target
    {
      if i == at {
        assert bs[j].Bound? && bs[at].Bound? && bs[at].target != bs[j].target;
      } else if j == at {
        assert bs[i].Bound? && bs[at].Bound? && bs[i].target != bs[at].target;
      }
    }
  }

  lemma InsertKeepsUnique(bs: seq<Entry>, index: int, e: Entry)
    requires UniqueTargets(bs) && 0 <= index <= |bs| && e.Bound?
    requires forall j :: 0 <= j < |bs| ==> TargetOf(bs[j]) != Some(e.target)
    ensures UniqueTargets(InsertAt(bs, index, e))
  {
    var r := InsertAt(bs, index, e);
    assert forall k :: 0 <= k < |r| && k != index ==> r[k] == bs[if k < index then k else k - 1] by {
      forall k | 0 <= k < |r| && k != index
        ensures r[k] == bs[if k < index then k else k - 1]
      {
        if k < index {
          assert r[k] == r[..index][k] == bs[..index][k];
        } else {
          assert r[k] == r[index + 1..][k - index - 1] == bs[index..][k - index - 1];
        }
      }
    }
  }

  /** How many entries have target `t`. */
  function Occurrences(bs: seq<Entry>, t: Obj): nat {
    if |bs| == 0 then 0
    else (if TargetOf(bs[0]) == Some(t) then 1 else 0) + Occurrences(bs[1..], t)
  }

  lemma {:induction false} OccurrencesNone(bs: seq<Entry>, t: Obj)
    requires forall j :: 0 <= j < |bs| ==> TargetOf(bs[j]) != Some(t)
    ensures Occurrences(bs, t) == 0
  {
    if |bs| > 0 {
      OccurrencesNone(bs[1..], t);
    }
  }

  lemma {:induction false} OccurrencesAppend(a: seq<Entry>, b: seq<Entry>, t: Obj)
    ensures Occurrences(a + b, t) == Occurrences(a, t) + Occurrences(b, t)
  {
    if |a| > 0 {
      assert (a + b)[1..] == a[1..] + b;
      OccurrencesAppend(a[1..], b, t);
    } else {
      assert a + b == b;
    }
  }

  /** Writing an entry over position `i` trades its occurrence for the new entry's. */
  lemma OccurrencesUpdate(bs: seq<Entry>, i: nat, e: Entry, t: Obj)
    requires i < |bs|
    ensures Occurrences(bs[i := e], t) + (if TargetOf(bs[i]) == Some(t) then 1 else 0)
            == Occurrences(bs, t) + (if TargetOf(e) == Some(t) then 1 else 0)
  {
    assert bs == bs[..i] + [bs[i]] + bs[i + 1..];
    assert bs[i := e] == bs[..i] + [e] + bs[i + 1..];
    OccurrencesAppend(bs[..i] + [bs[i]], bs[i + 1..], t);
    OccurrencesAppend(bs[..i], [bs[i]], t);
    OccurrencesAppend(bs[..i] + [e], bs[i + 1..], t);
    OccurrencesAppend(bs[..i], [e], t);
    assert [bs[i]][1..] == [] && [e][1..] == [];
  }

  /**
   * Two adds for one target that had no binding leave exactly one binding
   * for it, carrying the second matrix, at the place of the first add.
   */
  lemma AddTwice(p: Pose, t: Obj, m1: Matrix, m2: Matrix)
    requires t.scene == p.self.scene && FindTarget(p.bindings, t).None?
    ensures AddBinding(p, Some(t), m1).Ok?
    ensures var q := AddBinding(p, Some(t), m1).value;
            && AddBinding(q, Some(t), m2).Ok?
            && var bs := AddBinding(q, Some(t), m2).value.bindings;
            && |bs| == |p.bindings| + 1
            && bs[|p.bindings|] == Bound(t, m2)
            && Occurrences(bs, t) == 1
  {
    var q := AddBinding(p, Some(t), m1).value;
    assert q.bindings == p.bindings + [Bound(t, m1)];
    OccurrencesNone(p.bindings, t);
    OccurrencesAppend(p.bindings, [Bound(t, m1)], t);
    assert [Bound(t, m1)][1..] == [];
    assert FindTarget(q.bindings, t) == Some(|p.bindings|);
    OccurrencesUpdate(q.bindings, |p.bindings|, Bound(t, m2), t);
  }

  /**
   * `RemoveBinding`: drops the first entry equal to the argument in both
   * target and matrix; nothing happens when none matches. A null target
   * matches placeholders, whose target is null too.
   */
  function RemoveBinding(p: Pose, target: Option<Obj>, m: Matrix): (r: Pose)
    ensures r.self == p.self
    ensures (forall j :: 0 <= j < |p.bindings| ==> !Matches(p.bindings[j], target, m)) ==> r == p
    ensures FirstMatch(p.bindings, target, m).Some? ==>
              r.bindings == RemoveAt(p.bindings, FirstMatch(p.bindings, target, m).value)
  {
    match FirstMatch(p.bindings, target, m)
    case None => p
    case Some(i) => p.(bindings := RemoveAt(p.bindings, i))
  }

  predicate Matches(e: Entry, target: Option<Obj>, m: Matrix) {
    TargetOf(e) == target && e.matrix == m
  }

  function FirstMatch(bs: seq<Entry>, target: Option<Obj>, m: Matrix): (r: Option<nat>)
    ensures r.Some? ==> r.value < |bs| && Matches(bs[r.value], target, m)
    ensures r.Some? ==> forall j :: 0 <= j < r.value ==> !Matches(bs[j], target, m)
    ensures r.None? <==> forall j :: 0 <= j < |bs| ==> !Matches(bs[j], target, m)
  {
    if |bs| == 0 then None
    else if Matches(bs[0], target, m) then Some(0)
    else match FirstMatch(bs[1..], target, m)
      case None => None
      case Some(j) => Some(j + 1)
  }

  /** Adding a binding for an unbound target and removing that same binding restores the pose. */
  lemma AddThenRemoveBinding(p: Pose, t: Obj, m: Matrix)
    requires t.scene == p.self.scene && FindTarget(p.bindings, t).None?
    ensures AddBinding(p, Some(t), m).Ok?
    ensures RemoveBinding(AddBinding(p, Some(t), m).value, Some(t), m) == p
  {
    var q := AddBinding(p, Some(t), m).value;
    assert q.bindings == p.bindings + [Bound(t, m)];
    assert FirstMatch(q.bindings, Some(t), m) == Some(|p.bindings|) by {
      assert forall j :: 0 <= j < |p.bindings| ==> q.bindings[j] == p.bindings[j];
    }
    assert q.bindings[..|p.bindings|] == p.bindings;
  }

  /** `RemoveBindingAt`: an index outside `0..Count-1` throws. */
  function RemoveBindingAt(p: Pose, index: int): (r: Result<Pose>)
    ensures r.Err? <==> index < 0 || index >= |p.bindings|
    ensures r.Err? ==> r.error == OutOfRange
    ensures r.Ok? ==> r.value.self == p.self && r.value.bindings == RemoveAt(p.bindings, index)
  {
    if index < 0 || index >= |p.bindings| then Err(OutOfRange)
    else Ok(p.(bindings := RemoveAt(p.bindings, index)))
  }

  /** Binding a fresh target at an index and removing that index gives the pose back. */
  lemma RemoveAtUndoesAdd(p: Pose, t: Obj, m: Matrix, index: int)
    requires t.scene == p.self.scene && 0 <= index <= |p.bindings|
    requires FindTarget(p.bindings, t).None?
    ensures AddBindingAt(p, Some(t), m, index).Ok?
    ensures RemoveBindingAt(AddBindingAt(p, Some(t), m, index).value, index) == Ok(p)
  {
    var added := AddBindingAt(p, Some(t), m, index).value;
    var bs := RemoveAt(added.bindings, index);
    assert bs == p.bindings by {
      assert bs[..index] == p.bindings[..index];
      assert bs[index..] == p.bindings[index..];
      assert p.bindings == p.bindings[..index] + p.bindings[index..];
      assert bs == bs[..index] + bs[index..];
    }
  }

  /** Removing an entry never binds a target twice. */
  lemma RemoveAtKeepsUniqueTargets(p: Pose, index: int)
    requires UniqueTargets(p.bindings)
    ensures RemoveBindingAt(p, index).Ok? ==> UniqueTargets(RemoveBindingAt(p, index).value.bindings)
  {
  }

  /** `RemoveBinding` drops at most one entry, so it keeps targets unique too. */
  lemma RemoveKeepsUniqueTargets(p: Pose, target: Option<Obj>, m: Matrix)
    requires UniqueTargets(p.bindings)
    ensures UniqueTargets(RemoveBinding(p, target, m).bindings)
  {
  }

  // ---------------------------------------------------------------------
  // Writing
  // ---------------------------------------------------------------------

  /** The matrix attribute: its sixteen entries as a double array. */
  function MatrixAttr(m: Matrix): Attr {
    ADoubleArray(m)
  }

  function PoseNodeOf(e: Entry): (r: Node)
    requires e.Bound?
    ensures r.name == "PoseNode" && |r.children| == 2
  {
    Node("PoseNode", [], [Leaf("Node", AInt64(e.target.id as int)), Leaf("Matrix", MatrixAttr(e.matrix))])
  }

  /** A pose's header leaves: type, version and the binding count. */
  function Header(count: Int32): seq<Node> {
    [Leaf("Type", AString("BindPose")), Leaf("Version", AInt32(100)), Leaf("NbPoseNodes", AInt32(count))]
  }

  /** One `PoseNode` per binding, in list order. */
  function PoseNodeList(bs: seq<Entry>): (r: seq<Node>)
    requires forall i :: 0 <= i < |bs| ==> bs[i].Bound?
    ensures |r| == |bs| && forall i :: 0 <= i < |bs| ==> r[i] == PoseNodeOf(bs[i])
  {
    if |bs| == 0 then []
    else
      var init := bs[..|bs| - 1];
      assert forall i :: 0 <= i < |init| ==> init[i] == bs[i];
      PoseNodeList(init) + [PoseNodeOf(bs[|bs| - 1])]
  }

  /**
   * `AsElement`: type, version and count, then one `PoseNode` per binding in
   * list order. An unresolved placeholder has a null target, and reading its
   * id throws.
   */
  function AsElement(p: Pose): (r: Result<Node>)
    requires |p.bindings| <= Int32Max
    ensures r.Err? <==> exists i :: 0 <= i < |p.bindings| && p.bindings[i].Placeholder?
    ensures r.Err? ==> r.error == NullReference
    ensures r.Ok? ==>
              && r.value.name == "Pose"
              && |r.value.children| == 3 + |p.bindings|
              && r.value.children[2] == Leaf("NbPoseNodes", AInt32(|p.bindings| as Int32))
              && (forall i :: 0 <= i < |p.bindings| ==> r.value.children[3 + i] == PoseNodeOf(p.bindings[i]))
              && r.value.children == Header(|p.bindings| as Int32) + PoseNodeList(p.bindings)
  {
    if exists i :: 0 <= i < |p.bindings| && p.bindings[i].Placeholder? then Err(NullReference)
    else Ok(Node("Pose", [AOpaque], Header(|p.bindings| as Int32) + PoseNodeList(p.bindings)))
  }

  /** The placeholder a written binding reads back as. */
  function Unresolve(e: Entry): Entry {
    if e.Bound? then Placeholder(e.target.id as int, e.matrix) else e
  }

  /** The placeholders a written binding list reads back as, in order. */
  function Unresolved(bs: seq<Entry>): (r: seq<Entry>)
    ensures |r| == |bs| && forall i :: 0 <= i < |bs| ==> r[i] == Unresolve(bs[i])
  {
    if |bs| == 0 then []
    else
      var init := bs[..|bs| - 1];
      assert forall i :: 0 <= i < |init| ==> init[i] == bs[i];
      Unresolved(init) + [Unresolve(bs[|bs| - 1])]
  }

  /** Nodes not named `PoseNode` yield no placeholder. */
  lemma {:induction false} PoseNodesSkip(ns: seq<Node>, toMatrix: seq<real> -> Option<Matrix>)
    requires forall i :: 0 <= i < |ns| ==> ns[i].name != "PoseNode"
    ensures PoseNodes(ns, toMatrix) == []
  {
    if |ns| > 0 {
      PoseNodesSkip(ns[..|ns| - 1], toMatrix);
    }
  }

  /** The matrix conversion reads back every matrix of `bs`. */
  predicate ReadsBack(bs: seq<Entry>, toMatrix: seq<real> -> Option<Matrix>) {
    forall i :: 0 <= i < |bs| ==> toMatrix(bs[i].matrix) == Some(bs[i].matrix)
  }

  /**
   * Reading a written pose gives one placeholder per binding, in order, with
   * the target's id and the same matrix, provided the matrix conversion
   * reads back what was written.
   */
  lemma ParseAsElement(p: Pose, toMatrix: seq<real> -> Option<Matrix>)
    requires |p.bindings| <= Int32Max && AsElement(p).Ok?
    requires ReadsBack(p.bindings, toMatrix)
    ensures ParsePose(Some(AsElement(p).value), toMatrix) == Ok(Unresolved(p.bindings))
  {
    var n := AsElement(p).value;
    var c := |p.bindings| as Int32;
    WrittenCount(n, c);
    assert ToInt32(AInt32(c)) == Ok(|p.bindings|);
    if |p.bindings| > 0 {
      HeaderSkipped(c, toMatrix);
      PoseNodesAppend(Header(c), PoseNodeList(p.bindings), toMatrix);
      WrittenPoseNodes(p.bindings, toMatrix);
      assert PoseNodes(n.children, toMatrix) == Unresolved(p.bindings);
    } else {
      assert Unresolved(p.bindings) == [];
    }
  }

  /** The written `NbPoseNodes` is the first of that name and reads back as the count. */
  lemma WrittenCount(n: Node, c: Int32)
    requires |n.children| >= 3 && n.children[..3] == Header(c)
    ensures FirstAttr(FindChild(n, "NbPoseNodes")) == Some(AInt32(c))
  {
    assert n.children[0] == Header(c)[0] && n.children[1] == Header(c)[1] && n.children[2] == Header(c)[2];
    assert FirstNamed(n.children, "NbPoseNodes") == Some(2);
  }

  /** The header leaves yield no placeholder. */
  lemma HeaderSkipped(c: Int32, toMatrix: seq<real> -> Option<Matrix>)
    ensures PoseNodes(Header(c), toMatrix) == []
  {
    var head := Header(c);
    assert |head[0].name| == 4 && |head[1].name| == 7 && |head[2].name| == 11;
    PoseNodesSkip(head, toMatrix);
  }

  /** Written pose nodes read back as the placeholders of their bindings. */
  lemma {:induction false} WrittenPoseNodes(bs: seq<Entry>, toMatrix: seq<real> -> Option<Matrix>)
    requires forall i :: 0 <= i < |bs| ==> bs[i].Bound?
    requires ReadsBack(bs, toMatrix)
    ensures PoseNodes(PoseNodeList(bs), toMatrix) == Unresolved(bs)
  {
    if |bs| > 0 {
      var n := |bs| - 1;
      var init := bs[..n];
      assert forall i :: 0 <= i < |init| ==> init[i] == bs[i];
      WrittenPoseNodes(init, toMatrix);
      WrittenPoseNodeReads(bs[n], toMatrix);
      var nodes := PoseNodeList(bs);
      assert nodes[..n] == PoseNodeList(init);
    }
  }

  lemma WrittenPoseNodeReads(e: Entry, toMatrix: seq<real> -> Option<Matrix>)
    requires e.Bound? && toMatrix(e.matrix) == Some(e.matrix)
    ensures IsPoseEntry(PoseNodeOf(e)) && EntryOf(PoseNodeOf(e), toMatrix) == Unresolve(e)
  {
    var n := PoseNodeOf(e);
    assert FirstNamed(n.children, "Node") == Some(0);
    assert FirstNamed(n.children, "Matrix") == Some(1);
  }

  /**
   * Write, read and resolve against a map that knows every target gives the
   * bindings back: the full save-and-load cycle of a bind pose.
   */
  lemma SaveLoadCycle(p: Pose, toMatrix: seq<real> -> Option<Matrix>, objects: map<int, Obj>)
    requires |p.bindings| <= Int32Max && AsElement(p).Ok?
    requires ReadsBack(p.bindings, toMatrix)
    requires forall i :: 0 <= i < |p.bindings| && p.bindings[i].Bound? ==>
               p.bindings[i].target.id as int in objects && objects[p.bindings[i].target.id as int] == p.bindings[i].target
    ensures ParsePose(Some(AsElement(p).value), toMatrix).Ok?
    ensures Resolved(ParsePose(Some(AsElement(p).value), toMatrix).value, objects) == p.bindings
  {
    ParseAsElement(p, toMatrix);
    ResolveUnresolved(p.bindings, objects);
  }

  /** Resolving the placeholders of bound entries against a map that knows their targets restores them. */
  lemma {:induction false} ResolveUnresolved(bs: seq<Entry>, objects: map<int, Obj>)
    requires forall i :: 0 <= i < |bs| ==> bs[i].Bound?
    requires forall i :: 0 <= i < |bs| ==> bs[i].target.id as int in objects && objects[bs[i].target.id as int] == bs[i].target
    ensures Resolved(Unresolved(bs), objects) == bs
  {
    if |bs| > 0 {
      var n := |bs| - 1;
      ResolveUnresolved(bs[..n], objects);
      assert Unresolved(bs)[..n] == Unresolved(bs[..n]);
      assert bs == bs[..n] + [bs[n]];
    }
  }
}
