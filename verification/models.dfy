/**
 * The Model hierarchy as an arena: every model of a scene graph keyed by its
 * identifier, each record holding its parent link, its ordered child list
 * and its node attribute. The parent/child edits keep the two directions in
 * step: a model names `p` as its parent exactly when it occurs, once, among
 * `p`'s children.
 */
module Models {
  import opened Wrappers
  import opened Values
  import opened Tree
  import opened Scene
  import opened Seqs

  datatype ShadingType = HardShading | WireFrame | FlatShading | LightShading | TextureShading | FullShading

  datatype CullingType = CullingOff | CullingOnCCW | CullingOnCW

  /** One model: its identity, whether its kind takes a node attribute, and its mutable fields. */
  datatype ModelRec = ModelRec(
    obj: Obj,
    supportsAttribute: bool,
    parent: Option<ObjectId>,
    children: seq<ObjectId>,
    attribute: Option<Obj>,
    shading: ShadingType,
    culling: CullingType)

  type Arena = map<ObjectId, ModelRec>

  /**
   * The hierarchy is consistent: records are keyed by their own id, child
   * lists hold no duplicates, every child names its parent and shares its
   * scene, every parent lists its child, and no model is its own parent.
   */
  ghost predicate Valid(a: Arena) {
    Keyed(a) && NoRepeats(a) && ChildrenPointBack(a) && ParentsListChild(a)
  }

  ghost predicate Keyed(a: Arena) {
    forall id :: id in a ==> a[id].obj.id == id && a[id].parent != Some(id)
  }

  ghost predicate NoRepeats(a: Arena) {
    forall p :: p in a ==> Distinct(a[p].children)
  }

  ghost predicate ChildrenPointBack(a: Arena) {
    forall p, c :: p in a && c in a[p].children ==>
      c in a && a[c].parent == Some(p) && a[c].obj.scene == a[p].obj.scene
  }

  ghost predicate ParentsListChild(a: Arena) {
    forall c :: c in a && a[c].parent.Some? ==>
      a[c].parent.value in a && c in a[a[c].parent.value].children
  }


  /** In a consistent arena, `c.Parent == p` exactly when `c` occurs once in `p.Children`. */
  lemma ParentIffOnce(a: Arena, p: ObjectId, c: ObjectId)
    requires Valid(a) && p in a && c in a
    ensures a[c].parent == Some(p) <==> multiset(a[p].children)[c] == 1
  {
    DistinctCount(a[p].children, c);
  }

  /** `m` is in the arena, and so is its parent if it has one: what the edits below dereference. */
  predicate Present(a: Arena, m: ObjectId) {
    m in a && (a[m].parent.Some? ==> a[m].parent.value in a)
  }

  // ---------------------------------------------------------------------
  // The two primitive edits, in the order the source performs them
  // ---------------------------------------------------------------------

  /** `m_children.Insert(i, c)` on `p`, then `c.m_parent = p`. */
  function Link(a: Arena, p: ObjectId, c: ObjectId, i: nat): (r: Arena)
    requires p in a && c in a && i <= |a[p].children|
    ensures r.Keys == a.Keys && r[c].parent == Some(p)
    ensures c != p ==> r[p] == a[p].(children := InsertAt(a[p].children, i, c))
                       && r[c] == a[c].(parent := Some(p))
    ensures forall id :: id in a && id != p && id != c ==> r[id] == a[id]
  {
    var a1 := a[p := a[p].(children := InsertAt(a[p].children, i, c))];
    a1[c := a1[c].(parent := Some(p))]
  }

  /** `m_children.RemoveAt(i)` on `p`, then the removed child's `m_parent = null`. */
  function Unlink(a: Arena, p: ObjectId, i: nat): (r: Arena)
    requires p in a && i < |a[p].children| && a[p].children[i] in a
    ensures r.Keys == a.Keys && r[a[p].children[i]].parent == None
    ensures a[p].children[i] != p ==>
              && r[p] == a[p].(children := RemoveAt(a[p].children, i))
              && r[a[p].children[i]] == a[a[p].children[i]].(parent := None)
    ensures forall id :: id in a && id != p && id != a[p].children[i] ==> r[id] == a[id]
  {
    var c := a[p].children[i];
    var a1 := a[p := a[p].(children := RemoveAt(a[p].children, i))];
    a1[c := a1[c].(parent := None)]
  }

  /** Linking a parentless model to another model keeps the arena consistent. */
  lemma LinkKeepsValid(a: Arena, p: ObjectId, c: ObjectId, i: nat)
    requires Valid(a) && p in a && c in a && c != p && a[c].parent == None
    requires a[c].obj.scene == a[p].obj.scene && i <= |a[p].children|
    ensures Valid(Link(a, p, c, i))
  {
    assert c !in a[p].children;
    LinkKeyed(a, p, c, i);
    LinkNoRepeats(a, p, c, i);
    LinkPointsBack(a, p, c, i);
    LinkListsChild(a, p, c, i);
  }

  lemma LinkKeyed(a: Arena, p: ObjectId, c: ObjectId, i: nat)
    requires Keyed(a) && p in a && c in a && c != p && i <= |a[p].children|
    ensures Keyed(Link(a, p, c, i))
  {
  }

  lemma LinkNoRepeats(a: Arena, p: ObjectId, c: ObjectId, i: nat)
    requires NoRepeats(a) && p in a && c in a && c != p && c !in a[p].children
    requires i <= |a[p].children|
    ensures NoRepeats(Link(a, p, c, i))
  {
    DistinctInsert(a[p].children, i, c);
  }

  lemma LinkPointsBack(a: Arena, p: ObjectId, c: ObjectId, i: nat)
    requires ChildrenPointBack(a) && p in a && c in a && c != p && a[c].parent == None
    requires a[c].obj.scene == a[p].obj.scene && i <= |a[p].children|
    ensures ChildrenPointBack(Link(a, p, c, i))
  {
    InsertAtMembers(a[p].children, i, c);
    var r := Link(a, p, c, i);
    forall d | d in r[p].children
      ensures d in r && r[d].parent == Some(p) && r[d].obj.scene == r[p].obj.scene
    {
      assert d in a[p].children || d == c;
    }
    forall q, d | q in r && q != p && d in r[q].children
      ensures d in r && r[d].parent == Some(q) && r[d].obj.scene == r[q].obj.scene
    {
      assert d in a[q].children;
    }
  }

  lemma LinkListsChild(a: Arena, p: ObjectId, c: ObjectId, i: nat)
    requires ParentsListChild(a) && p in a && c in a && c != p
    requires i <= |a[p].children|
    ensures ParentsListChild(Link(a, p, c, i))
  {
    InsertAtMembers(a[p].children, i, c);
  }

  /** Unlinking a child keeps the arena consistent. */
  lemma UnlinkKeepsValid(a: Arena, p: ObjectId, i: nat)
    requires Valid(a) && p in a && i < |a[p].children|
    ensures a[p].children[i] in a
    ensures Valid(Unlink(a, p, i))
  {
    assert a[p].children[i] in a[p].children;
    DistinctRemove(a[p].children, i);
    UnlinkKeyed(a, p, i);
    UnlinkNoRepeats(a, p, i);
    UnlinkPointsBack(a, p, i);
    UnlinkListsChild(a, p, i);
  }

  lemma UnlinkKeyed(a: Arena, p: ObjectId, i: nat)
    requires Keyed(a) && p in a && i < |a[p].children| && a[p].children[i] in a
    ensures Keyed(Unlink(a, p, i))
  {
  }

  lemma UnlinkNoRepeats(a: Arena, p: ObjectId, i: nat)
    requires NoRepeats(a) && p in a && i < |a[p].children| && a[p].children[i] in a
    requires Distinct(RemoveAt(a[p].children, i))
    ensures NoRepeats(Unlink(a, p, i))
  {
  }

  lemma UnlinkPointsBack(a: Arena, p: ObjectId, i: nat)
    requires ChildrenPointBack(a) && p in a && i < |a[p].children| && a[p].children[i] in a
    requires a[p].children[i] != p
    requires forall y :: y in RemoveAt(a[p].children, i) ==> y in a[p].children && y != a[p].children[i]
    ensures ChildrenPointBack(Unlink(a, p, i))
  {
    var r := Unlink(a, p, i);
    forall d | d in r[p].children
      ensures d in r && r[d].parent == Some(p) && r[d].obj.scene == r[p].obj.scene
    {
      assert d in a[p].children;
    }
    forall q, d | q in r && q != p && d in r[q].children
      ensures d in r && r[d].parent == Some(q) && r[d].obj.scene == r[q].obj.scene
    {
      assert d in a[q].children;
    }
  }

  lemma UnlinkListsChild(a: Arena, p: ObjectId, i: nat)
    requires ParentsListChild(a) && p in a && i < |a[p].children|
    requires a[p].children[i] in a && a[p].children[i] != p
    requires forall y :: y in a[p].children && y != a[p].children[i] ==> y in RemoveAt(a[p].children, i)
    ensures ParentsListChild(Unlink(a, p, i))
  {
    var c := a[p].children[i];
    var r := Unlink(a, p, i);
    forall d | d in r && r[d].parent.Some? ensures r[d].parent.value in r && d in r[r[d].parent.value].children {
      assert d != c;
    }
  }

  // ---------------------------------------------------------------------
  // Detaching
  // ---------------------------------------------------------------------

  /**
   * `DetachFromParent`: a parentless model is left alone; otherwise it is
   * removed from its parent's list (first occurrence) and its parent cleared.
   */
  function DetachFromParent(a: Arena, m: ObjectId): (r: Arena)
    requires Present(a, m)
    ensures r.Keys == a.Keys && r[m].parent == None
    ensures a[m].parent.None? ==> r == a
    ensures forall id :: id in a && id != m && Some(id) != a[m].parent ==> r[id] == a[id]
  {
    match a[m].parent
    case None => a
    case Some(q) =>
      var a1 := a[q := a[q].(children := RemoveFirst(a[q].children, m))];
      a1[m := a1[m].(parent := None)]
  }

  /** What detaching does to the old parent: the model leaves its list, nothing else changes there. */
  lemma DetachFromParentEffect(a: Arena, m: ObjectId)
    requires Present(a, m)
    ensures a[m].parent.Some? && a[m].parent != Some(m) ==>
            var q := a[m].parent.value;
            && DetachFromParent(a, m)[q] == a[q].(children := RemoveFirst(a[q].children, m))
            && DetachFromParent(a, m)[m] == a[m].(parent := None)
  {
  }


  /** In a consistent arena, detaching is unlinking the model at its place in its parent's list. */
  lemma DetachIsUnlink(a: Arena, m: ObjectId)
    requires Valid(a) && m in a && a[m].parent.Some?
    ensures var q := a[m].parent.value;
            && q in a && m in a[q].children
            && DetachFromParent(a, m) == Unlink(a, q, IndexOf(a[q].children, m).value)
  {
  }

  lemma DetachKeepsValid(a: Arena, m: ObjectId)
    requires Valid(a) && m in a
    ensures Valid(DetachFromParent(a, m))
  {
    if a[m].parent.Some? {
      var q := a[m].parent.value;
      DetachIsUnlink(a, m);
      UnlinkKeepsValid(a, q, IndexOf(a[q].children, m).value);
    }
  }

  /**
   * `DetachAllChildren`: every child's parent is cleared, then the child list
   * is emptied. `Destroy` runs exactly this before the base object teardown.
   */
  function DetachAllChildren(a: Arena, p: ObjectId): (r: Arena)
    requires p in a
    ensures r.Keys == a.Keys && r[p].children == []
    ensures forall c :: c in a[p].children && c in a ==> r[c].parent == None
    ensures forall id :: id in a && id != p && id !in a[p].children ==> r[id] == a[id]
  {
    var kids := a[p].children;
    var a1 := map id | id in a :: if id in kids then a[id].(parent := None) else a[id];
    a1[p := a1[p].(children := [])]
  }

  lemma DetachAllKeepsValid(a: Arena, p: ObjectId)
    requires Valid(a) && p in a
    ensures Valid(DetachAllChildren(a, p))
  {
    assert p !in a[p].children;
    DetachAllKeyed(a, p);
    DetachAllNoRepeats(a, p);
    DetachAllPointsBack(a, p);
    DetachAllListsChild(a, p);
  }

  lemma DetachAllKeyed(a: Arena, p: ObjectId)
    requires Keyed(a) && p in a
    ensures Keyed(DetachAllChildren(a, p))
  {
  }

  lemma DetachAllNoRepeats(a: Arena, p: ObjectId)
    requires NoRepeats(a) && p in a
    ensures NoRepeats(DetachAllChildren(a, p))
  {
  }

  lemma DetachAllListsChild(a: Arena, p: ObjectId)
    requires ParentsListChild(a) && p in a
    ensures ParentsListChild(DetachAllChildren(a, p))
  {
    var r := DetachAllChildren(a, p);
    forall d | d in r && r[d].parent.Some? ensures r[d].parent.value in r && d in r[r[d].parent.value].children {
      assert d !in a[p].children && r[d].parent == a[d].parent;
    }
  }

  lemma DetachAllPointsBack(a: Arena, p: ObjectId)
    requires Valid(a) && p in a
    ensures ChildrenPointBack(DetachAllChildren(a, p))
  {
    var r := DetachAllChildren(a, p);
    forall q, d | q in r && d in r[q].children
      ensures d in r && r[d].parent == Some(q) && r[d].obj.scene == r[q].obj.scene
    {
      assert q != p && d in a[q].children && d !in a[p].children;
    }
  }


  /**
   * `Destroy` on a model: its child list is cleared, every former child
   * becomes a root, and every other model keeps its record.
   */
  function Destroy(a: Arena, p: ObjectId): (r: Arena)
    requires p in a
    ensures r == DetachAllChildren(a, p)
    ensures r.Keys == a.Keys && r[p].children == []
    ensures forall c :: c in a[p].children && c in a ==> r[c].parent == None
    ensures forall c :: c in a[p].children && c in a && c != p ==> r[c] == a[c].(parent := None)
    ensures p !in a[p].children ==> r[p] == a[p].(children := [])
    ensures forall id :: id in a && id != p && id !in a[p].children ==> r[id] == a[id]
  {
    DetachAllChildren(a, p)
  }

  /**
   * After `Destroy` in a consistent arena the model has no children, no model
   * names it as parent, the former children survive as roots, and the arena
   * stays consistent.
   */
  lemma DestroyOrphansChildren(a: Arena, p: ObjectId)
    requires Valid(a) && p in a
    ensures Valid(Destroy(a, p)) && Destroy(a, p).Keys == a.Keys
    ensures Destroy(a, p)[p].children == []
    ensures forall c :: c in a[p].children ==> c in Destroy(a, p) && Destroy(a, p)[c].parent == None
    ensures forall c :: c in Destroy(a, p) ==> Destroy(a, p)[c].parent != Some(p)
  {
    DetachAllKeepsValid(a, p);
  }

  // ---------------------------------------------------------------------
  // Adding and removing children
  // ---------------------------------------------------------------------

  /** The guards `AddChild` and `AddChildAt` share, in their order. */
  function AddGuard(a: Arena, p: ObjectId, m: ObjectId): (r: Option<Error>)
    requires p in a && m in a
    ensures r == None <==> a[m].obj.scene == a[p].obj.scene && m != p
    ensures a[m].obj.scene != a[p].obj.scene ==> r == Some(CrossScene)
    ensures a[m].obj.scene == a[p].obj.scene && m == p ==> r == Some(SelfChild)
  {
    if a[m].obj.scene != a[p].obj.scene then Some(CrossScene)
    else if m == p then Some(SelfChild)
    else None
  }

  /**
   * `AddChild`: null is ignored; a model of another scene or the model
   * itself throws before anything changes; a model already under this one
   * stays where it is; any other model is detached from its parent and
   * appended.
   */
  function AddChild(a: Arena, p: ObjectId, m: Option<ObjectId>): (r: Result<Arena>)
    requires p in a && (m.Some? ==> Present(a, m.value))
    ensures m.None? ==> r == Ok(a)
    ensures m.Some? ==> (r.Err? <==> AddGuard(a, p, m.value).Some?)
    ensures r.Err? ==> r.error == AddGuard(a, p, m.value).value
    ensures r.Ok? ==> r.value.Keys == a.Keys
    ensures r.Ok? && m.Some? ==> r.value[m.value].parent == Some(p)
    ensures m.Some? && AddGuard(a, p, m.value).None? && a[m.value].parent == Some(p) ==> r == Ok(a)
    ensures r.Ok? && m.Some? && a[m.value].parent != Some(p) ==>
              r.value[p] == a[p].(children := a[p].children + [m.value])
    ensures r.Ok? && m.Some? ==>
              forall id :: id in a && id != p && id != m.value && Some(id) != a[m.value].parent ==> r.value[id] == a[id]
    ensures r.Ok? && m.Some? && a[m.value].parent != Some(p) && a[m.value].parent != m ==>
              r.value[m.value] == a[m.value].(parent := Some(p))
    ensures r.Ok? && m.Some? && a[m.value].parent == m ==>
              r.value[m.value] == a[m.value].(parent := Some(p), children := RemoveFirst(a[m.value].children, m.value))
    ensures r.Ok? && m.Some? && a[m.value].parent.Some? && a[m.value].parent != Some(p)
            && a[m.value].parent != m ==>
              var q := a[m.value].parent.value;
              r.value[q] == a[q].(children := RemoveFirst(a[q].children, m.value))
  {
    if m.None? then Ok(a)
    else
      var c := m.value;
      var guard := AddGuard(a, p, c);
      if guard.Some? then Err(guard.value)
      else if a[c].parent == Some(p) then Ok(a)
      else
        var d := DetachFromParent(a, c);
        DetachFromParentEffect(a, c);
        assert d[p] == a[p];
        Ok(Link(d, p, c, |d[p].children|))
  }

  /**
   * In a consistent arena `AddChild` keeps it consistent, leaves the model
   * exactly once under this one, and removes it from a previous parent's list.
   */
  lemma AddChildKeepsValid(a: Arena, p: ObjectId, m: ObjectId)
    requires Valid(a) && p in a && m in a && AddChild(a, p, Some(m)).Ok?
    ensures Valid(AddChild(a, p, Some(m)).value)
    ensures multiset(AddChild(a, p, Some(m)).value[p].children)[m] == 1
    ensures a[m].parent.Some? && a[m].parent != Some(p) ==>
              var q := a[m].parent.value;
              AddChild(a, p, Some(m)).value[q].children == RemoveFirst(a[q].children, m)
  {
    var r := AddChild(a, p, Some(m)).value;
    if a[m].parent != Some(p) {
      DetachKeepsValid(a, m);
      var d := DetachFromParent(a, m);
      LinkKeepsValid(d, p, m, |d[p].children|);
    }
    ParentIffOnce(r, p, m);
  }

  /**
   * `AddChildAt`: the `AddChild` guards, then an index outside
   * `0..Count` throws; a model already under this one stays where it is
   * whatever the index; any other model is detached and inserted at the index.
   */
  function AddChildAt(a: Arena, p: ObjectId, m: Option<ObjectId>, index: int): (r: Result<Arena>)
    requires p in a && (m.Some? ==> Present(a, m.value))
    ensures m.None? ==> r == Ok(a)
    ensures m.Some? ==> (r.Err? <==> AddGuard(a, p, m.value).Some? || index < 0 || index > |a[p].children|)
    ensures r.Err? && AddGuard(a, p, m.value).Some? ==> r.error == AddGuard(a, p, m.value).value
    ensures r.Err? && AddGuard(a, p, m.value).None? ==> r.error == OutOfRange
    ensures r.Ok? ==> r.value.Keys == a.Keys
    ensures r.Ok? && m.Some? ==> r.value[m.value].parent == Some(p)
    ensures r.Ok? && m.Some? && a[m.value].parent == Some(p) ==> r.value == a
    ensures r.Ok? && m.Some? && a[m.value].parent != Some(p) ==>
              r.value[p] == a[p].(children := InsertAt(a[p].children, index, m.value))
    ensures r.Ok? && m.Some? ==>
              forall id :: id in a && id != p && id != m.value && Some(id) != a[m.value].parent ==> r.value[id] == a[id]
    ensures r.Ok? && m.Some? && a[m.value].parent != Some(p) && a[m.value].parent != m ==>
              r.value[m.value] == a[m.value].(parent := Some(p))
    ensures r.Ok? && m.Some? && a[m.value].parent == m ==>
              r.value[m.value] == a[m.value].(parent := Some(p), children := RemoveFirst(a[m.value].children, m.value))
    ensures r.Ok? && m.Some? && a[m.value].parent.Some? && a[m.value].parent != Some(p)
            && a[m.value].parent != m ==>
              var q := a[m.value].parent.value;
              r.value[q] == a[q].(children := RemoveFirst(a[q].children, m.value))
  {
    if m.None? then Ok(a)
    else
      var c := m.value;
      var guard := AddGuard(a, p, c);
      if guard.Some? then Err(guard.value)
      else if index < 0 || index > |a[p].children| then Err(OutOfRange)
      else if a[c].parent == Some(p) then Ok(a)
      else
        var d := DetachFromParent(a, c);
        DetachFromParentEffect(a, c);
        assert d[p] == a[p];
        Ok(Link(d, p, c, index))
  }

  lemma AddChildAtKeepsValid(a: Arena, p: ObjectId, m: ObjectId, index: int)
    requires Valid(a) && p in a && m in a && AddChildAt(a, p, Some(m), index).Ok?
    ensures Valid(AddChildAt(a, p, Some(m), index).value)
    ensures multiset(AddChildAt(a, p, Some(m), index).value[p].children)[m] == 1
  {
    var r := AddChildAt(a, p, Some(m), index).value;
    if a[m].parent != Some(p) {
      DetachKeepsValid(a, m);
      LinkKeepsValid(DetachFromParent(a, m), p, m, index);
    }
    ParentIffOnce(r, p, m);
  }

  /**
   * `RemoveChild`: acts only on a model of the same scene whose parent is
   * this one, otherwise does nothing; acting means dropping it from the list
   * and clearing its parent.
   */
  function RemoveChild(a: Arena, p: ObjectId, m: Option<ObjectId>): (r: Arena)
    requires p in a && (m.Some? ==> m.value in a)
    ensures r.Keys == a.Keys
    ensures m.None? || a[m.value].obj.scene != a[p].obj.scene || a[m.value].parent != Some(p) ==> r == a
    ensures m.Some? && a[m.value].obj.scene == a[p].obj.scene && a[m.value].parent == Some(p) ==>
              r[m.value].parent == None
              && (m.value != p ==> r[p] == a[p].(children := RemoveFirst(a[p].children, m.value)))
              && (m.value != p ==> r[m.value] == a[m.value].(parent := None))
    ensures m.Some? ==> forall id :: id in a && id != p && id != m.value ==> r[id] == a[id]
  {
    if m.None? || a[m.value].obj.scene != a[p].obj.scene || a[m.value].parent != Some(p) then a
    else
      DetachFromParentEffect(a, m.value);
      DetachFromParent(a, m.value)
  }

  lemma RemoveChildKeepsValid(a: Arena, p: ObjectId, m: ObjectId)
    requires Valid(a) && p in a && m in a
    ensures Valid(RemoveChild(a, p, Some(m)))
    ensures m !in RemoveChild(a, p, Some(m))[p].children
  {
    DetachKeepsValid(a, m);
  }

  /** `RemoveChildAt`: an index outside `0..Count-1` throws. */
  function RemoveChildAt(a: Arena, p: ObjectId, index: int): (r: Result<Arena>)
    requires p in a && forall c :: c in a[p].children ==> c in a
    ensures r.Err? <==> index < 0 || index >= |a[p].children|
    ensures r.Err? ==> r.error == OutOfRange
    ensures r.Ok? ==> r.value.Keys == a.Keys && r.value[a[p].children[index]].parent == None
    ensures r.Ok? && a[p].children[index] != p ==>
              && r.value[p] == a[p].(children := RemoveAt(a[p].children, index))
              && r.value[a[p].children[index]] == a[a[p].children[index]].(parent := None)
    ensures r.Ok? ==> forall id :: id in a && id != p && id != a[p].children[index] ==> r.value[id] == a[id]
  {
    if index < 0 || index >= |a[p].children| then Err(OutOfRange)
    else Ok(Unlink(a, p, index))
  }

  lemma RemoveChildAtKeepsValid(a: Arena, p: ObjectId, index: int)
    requires Valid(a) && p in a && 0 <= index < |a[p].children|
    ensures RemoveChildAt(a, p, index).Ok? && Valid(RemoveChildAt(a, p, index).value)
  {
    UnlinkKeepsValid(a, p, index);
  }

  /** Adding a parentless model and removing it again restores the arena. */
  lemma AddThenRemove(a: Arena, p: ObjectId, m: ObjectId)
    requires p in a && m in a && AddGuard(a, p, m).None?
    requires a[m].parent == None && m !in a[p].children
    ensures AddChild(a, p, Some(m)).Ok?
    ensures RemoveChild(AddChild(a, p, Some(m)).value, p, Some(m)) == a
  {
    DetachAfterLink(a, p, m);
  }

  lemma DetachAfterLink(a: Arena, p: ObjectId, c: ObjectId)
    requires p in a && c in a && c != p && a[c].parent == None && c !in a[p].children
    ensures var r := Link(a, p, c, |a[p].children|);
            && Present(r, c)
            && DetachFromParent(r, c) == a
  {
    var r := Link(a, p, c, |a[p].children|);
    assert r[p].children == a[p].children + [c];
    RemoveFirstAppended(a[p].children, c);
    DetachFromParentEffect(r, c);
    assert forall id :: id in a ==> DetachFromParent(r, c)[id] == a[id];
  }


  /** Unlinking at the position just linked undoes the link. */
  lemma UnlinkLink(a: Arena, p: ObjectId, c: ObjectId, i: nat)
    requires p in a && c in a && c != p && a[c].parent == None && i <= |a[p].children|
    ensures Link(a, p, c, i)[p].children[i] == c
    ensures Unlink(Link(a, p, c, i), p, i) == a
  {
    UnlinkLinkPointwise(a, p, c, i);
  }

  lemma UnlinkLinkPointwise(a: Arena, p: ObjectId, c: ObjectId, i: nat)
    requires p in a && c in a && c != p && a[c].parent == None && i <= |a[p].children|
    ensures Link(a, p, c, i)[p].children[i] == c
    ensures Unlink(Link(a, p, c, i), p, i).Keys == a.Keys
    ensures forall id :: id in a ==> Unlink(Link(a, p, c, i), p, i)[id] == a[id]
  {
    assert RemoveAt(InsertAt(a[p].children, i, c), i) == a[p].children;
  }

  /** Inserting a parentless model at an index and removing that index restores the arena. */
  lemma AddAtThenRemoveAt(a: Arena, p: ObjectId, m: ObjectId, index: nat)
    requires p in a && m in a && AddGuard(a, p, m).None? && a[m].parent == None
    requires index <= |a[p].children| && forall c :: c in a[p].children ==> c in a
    ensures AddChildAt(a, p, Some(m), index).Ok?
    ensures RemoveChildAt(AddChildAt(a, p, Some(m), index).value, p, index) == Ok(a)
  {
    UnlinkLink(a, p, m, index);
  }

  /**
   * Only self-parenting is refused: making a model the child of its own
   * child is accepted, and leaves a parent cycle.
   */
  lemma CycleAccepted(s: SceneId)
    ensures var a := TwoLevels(s);
            && Valid(a)
            && AddChild(a, 2, Some(1)).Ok?
            && AddChild(a, 2, Some(1)).value[1].parent == Some(2)
            && AddChild(a, 2, Some(1)).value[2].parent == Some(1)
  {
    var a := TwoLevels(s);
    assert Valid(a) by {
      forall p, c | p in a && c in a[p].children ensures c in a && a[c].parent == Some(p) {
        assert p == 1 && c == 2;
      }
    }
  }

  /** Root 1 with one child 2, both null nodes of scene `s`. */
  function TwoLevels(s: SceneId): Arena {
    map[1 := NullNode(1, s).(children := [2]),
        2 := NullNode(2, s).(parent := Some(1))]
  }

  // ---------------------------------------------------------------------
  // Node attribute
  // ---------------------------------------------------------------------

  /** The `Attribute` getter: models that take no attribute throw. */
  function GetAttribute(m: ModelRec): (r: Result<Option<Obj>>)
    ensures r.Err? <==> !m.supportsAttribute
    ensures r.Err? ==> r.error == NotSupported
    ensures r.Ok? ==> r.value == m.attribute
  {
    if !m.supportsAttribute then Err(NotSupported) else Ok(m.attribute)
  }

  /**
   * The `Attribute` setter: models that take no attribute throw, a null
   * attribute throws when its type is read, and an attribute of another
   * object type throws.
   */
  function SetAttribute(m: ModelRec, attr: Option<Obj>): (r: Result<ModelRec>)
    ensures r.Err? <==> !m.supportsAttribute || attr.None? || attr.value.typ != m.obj.typ
    ensures !m.supportsAttribute ==> r == Err(NotSupported)
    ensures m.supportsAttribute && attr.None? ==> r == Err(NullReference)
    ensures m.supportsAttribute && attr.Some? && attr.value.typ != m.obj.typ ==> r == Err(TypeMismatch)
    ensures r.Ok? ==> r.value == m.(attribute := attr)
  {
    if !m.supportsAttribute then Err(NotSupported)
    else if attr.None? then Err(NullReference)
    else if attr.value.typ != m.obj.typ then Err(TypeMismatch)
    else Ok(m.(attribute := attr))
  }

  /** Reading back an attribute that was accepted gives that attribute. */
  lemma SetThenGetAttribute(m: ModelRec, attr: Option<Obj>)
    requires SetAttribute(m, attr).Ok?
    ensures GetAttribute(SetAttribute(m, attr).value) == Ok(attr)
  {
  }

  /** `NullNode`: a model of type `Null` that takes node attributes. */
  function NullNode(id: ObjectId, s: SceneId): (r: ModelRec)
    ensures r.supportsAttribute && r.obj.typ == NullType && r.obj.cls == ModelClass
  {
    ModelRec(Obj(id, s, ModelClass, NullType), true, None, [], None, HardShading, CullingOff)
  }

  /** `NullAttribute`: a node attribute of type `Null`. */
  function NullAttribute(id: ObjectId, s: SceneId): Obj {
    Obj(id, s, NodeAttributeClass, NullType)
  }

  /** A null node accepts a null attribute: the type check passes for that pair. */
  lemma NullNodeTakesNullAttribute(id: ObjectId, aid: ObjectId, s: SceneId)
    ensures SetAttribute(NullNode(id, s), Some(NullAttribute(aid, s)))
            == Ok(NullNode(id, s).(attribute := Some(NullAttribute(aid, s))))
  {
  }

  // ---------------------------------------------------------------------
  // Connections
  // ---------------------------------------------------------------------

  /** Whether `GetConnections` emits the attribute link. */
  predicate AttributeOn(m: ModelRec) {
    m.supportsAttribute && m.attribute.Some?
  }

  /**
   * `GetConnections`: one object link per child to this model, in child
   * order, then one for the attribute when the model takes one and has one.
   */
  function GetConnections(m: ModelRec): (r: seq<Connection>)
    ensures |r| == |m.children| + (if AttributeOn(m) then 1 else 0)
    ensures forall i :: 0 <= i < |m.children| ==>
              r[i] == Connection(ObjectLink, m.children[i], m.obj.id, None)
    ensures AttributeOn(m) ==> r[|m.children|] == Connection(ObjectLink, m.attribute.value.id, m.obj.id, None)
  {
    var links := seq(|m.children|, i requires 0 <= i < |m.children| =>
                       Connection(ObjectLink, m.children[i], m.obj.id, None));
    if AttributeOn(m) then links + [Connection(ObjectLink, m.attribute.value.id, m.obj.id, None)]
    else links
  }

  function Sources(cs: seq<Connection>): (r: seq<ObjectId>)
    ensures |r| == |cs| && forall i :: 0 <= i < |cs| ==> r[i] == cs[i].source
  {
    seq(|cs|, i requires 0 <= i < |cs| => cs[i].source)
  }

  /** The child list, and the attribute when emitted, can be read back from the connections. */
  lemma ConnectionsRecoverChildren(m: ModelRec)
    ensures Sources(GetConnections(m))[..|m.children|] == m.children
    ensures AttributeOn(m) ==> Sources(GetConnections(m))[|m.children|] == m.attribute.value.id
    ensures forall c :: c in GetConnections(m) ==> c.target == m.obj.id && c.kind == ObjectLink
  {
  }

  // ---------------------------------------------------------------------
  // ResolveLink
  // ---------------------------------------------------------------------

  /**
   * `ResolveLink`: a model linker goes through `AddChild`, a node attribute
   * through the attribute setter; any other linker is ignored.
   */
  function ResolveLink(a: Arena, p: ObjectId, linker: Obj): (r: Result<Arena>)
    requires p in a
    requires linker.cls == ModelClass ==> Present(a, linker.id)
    ensures linker.cls == ModelClass ==> r == AddChild(a, p, Some(linker.id))
    ensures linker.cls == NodeAttributeClass ==>
              && (r.Err? <==> SetAttribute(a[p], Some(linker)).Err?)
              && (r.Err? ==> r.error == SetAttribute(a[p], Some(linker)).error)
              && (r.Ok? ==> r.value == a[p := a[p].(attribute := Some(linker))])
    ensures linker.cls != ModelClass && linker.cls != NodeAttributeClass ==> r == Ok(a)
    ensures r.Ok? ==> r.value.Keys == a.Keys
  {
    if linker.cls == ModelClass then AddChild(a, p, Some(linker.id))
    else if linker.cls == NodeAttributeClass then
      match SetAttribute(a[p], Some(linker))
      case Ok(m) => Ok(a[p := m])
      case Err(e) => Err(e)
    else Ok(a)
  }

  /** Resolving any link keeps a consistent arena consistent. */
  lemma ResolveLinkKeepsValid(a: Arena, p: ObjectId, linker: Obj)
    requires Valid(a) && p in a && (linker.cls == ModelClass ==> linker.id in a)
    requires ResolveLink(a, p, linker).Ok?
    ensures Valid(ResolveLink(a, p, linker).value)
  {
    if linker.cls == ModelClass {
      AddChildKeepsValid(a, p, linker.id);
    } else if linker.cls == NodeAttributeClass {
      var r := ResolveLink(a, p, linker).value;
      assert forall id :: id in a ==> r[id].parent == a[id].parent && r[id].children == a[id].children
                                      && r[id].obj == a[id].obj;
    }
  }


  /** A model linked to itself throws, since the link goes through `AddChild`. */
  lemma SelfLinkThrows(a: Arena, p: ObjectId)
    requires Valid(a) && p in a && a[p].obj.cls == ModelClass
    ensures ResolveLink(a, p, a[p].obj) == Err(SelfChild)
  {
  }

  /** A model link that resolves is emitted back by the parent's connections. */
  lemma ResolvedLinkEmitted(a: Arena, p: ObjectId, linker: Obj)
    requires Valid(a) && p in a && linker.cls == ModelClass && linker.id in a
    requires ResolveLink(a, p, linker).Ok?
    ensures Connection(ObjectLink, linker.id, p, None) in GetConnections(ResolveLink(a, p, linker).value[p])
  {
    AddChildKeepsValid(a, p, linker.id);
    var r := ResolveLink(a, p, linker).value;
    var i :| 0 <= i < |r[p].children| && r[p].children[i] == linker.id;
    assert GetConnections(r[p])[i] == Connection(ObjectLink, linker.id, r[p].obj.id, None);
    assert r[p].obj.id == p;
  }

  // ---------------------------------------------------------------------
  // Shading and culling fields
  // ---------------------------------------------------------------------

  /** The letter codes the file format uses for shading. */
  const ShadingLetters: set<Byte> := {87, 70, 89, 84, 85}   // 'W', 'F', 'Y', 'T', 'U'

  /** The byte `MakeElement` writes for a shading mode: its letter, or 0 for hard shading. */
  function ShadingByte(s: ShadingType): (r: Byte)
    ensures s == HardShading <==> r == 0
    ensures s != HardShading ==> r in ShadingLetters
  {
    match s
    case HardShading => 0
    case WireFrame => 87        // 'W'
    case FlatShading => 70      // 'F'
    case LightShading => 89     // 'Y'
    case TextureShading => 84   // 'T'
    case FullShading => 85      // 'U'
  }

  /** Reading a shading byte: the five letters map back, anything else is hard shading. */
  function ParseShading(b: Byte): (r: ShadingType)
    ensures b in ShadingLetters ==> ShadingByte(r) == b
    ensures b !in ShadingLetters ==> r == HardShading
  {
    if b == 87 then WireFrame
    else if b == 70 then FlatShading
    else if b == 89 then LightShading
    else if b == 84 then TextureShading
    else if b == 85 then FullShading
    else HardShading
  }

  /** Writing then reading a shading mode gives it back. */
  lemma ShadingRoundTrip(s: ShadingType)
    ensures ParseShading(ShadingByte(s)) == s
  {
  }

  /** `Convert.ToByte` on an attribute value: integers in range, booleans as 0 or 1. */
  function ToByte(a: Attr): (r: Result<Byte>)
    ensures a.AByte? ==> r == Ok(a.u)
    ensures r.Ok? ==> a.AByte? || a.ABool? || a.AInt32? || a.AInt64?
  {
    match a
    case AByte(u) => Ok(u)
    case ABool(b) => Ok(if b then 1 else 0)
    case AInt32(i) => if 0 <= i < 0x100 then Ok(i as int as Byte) else Err(Conversion)
    case AInt64(l) => if 0 <= l < 0x100 then Ok(l as Byte) else Err(Conversion)
    case _ => Err(Conversion)
  }

  function CullingName(c: CullingType): string {
    match c
    case CullingOff => "CullingOff"
    case CullingOnCCW => "CullingOnCCW"
    case CullingOnCW => "CullingOnCW"
  }

  /** `Enum.TryParse` on an enumerator name. */
  function ParseCulling(s: string): (r: Option<CullingType>)
    ensures r.Some? ==> CullingName(r.value) == s
  {
    if s == "CullingOff" then Some(CullingOff)
    else if s == "CullingOnCCW" then Some(CullingOnCCW)
    else if s == "CullingOnCW" then Some(CullingOnCW)
    else None
  }

  lemma CullingRoundTrip(c: CullingType)
    ensures ParseCulling(CullingName(c)) == Some(c)
  {
  }

  /**
   * `MakeElement`: the model node with its version, the multi-layer and
   * multi-take flags, the shading byte and the culling name.
   */
  function MakeElement(m: ModelRec): (r: Node)
    ensures r.name == "Model" && |r.children| == 6
    ensures r.children[0] == Leaf("Version", AInt32(232))
    ensures r.children[1] == Node("Properties70", [AOpaque], [])
    ensures r.children[2] == Leaf("MultiLayer", ABool(false))
    ensures r.children[3] == Leaf("MultiTake", AInt32(0))
    ensures r.children[4] == Leaf("Shading", AByte(ShadingByte(m.shading)))
    ensures r.children[5] == Leaf("Culling", AString(CullingName(m.culling)))
  {
    Node("Model", [AOpaque], [
      Leaf("Version", AInt32(232)),
      Node("Properties70", [AOpaque], []),
      Leaf("MultiLayer", ABool(false)),
      Leaf("MultiTake", AInt32(0)),
      Leaf("Shading", AByte(ShadingByte(m.shading))),
      Leaf("Culling", AString(CullingName(m.culling)))
    ])
  }

  /**
   * `ParseDepthFields`: with no element nothing changes; otherwise reads
   * `Shading` when present with an attribute (a failing byte conversion
   * throws) and `Culling` when present and naming an enumerator; otherwise
   * the fields keep their values.
   */
  function ParseDepthFields(element: Option<Node>, m: ModelRec): (r: Result<ModelRec>)
    ensures element.None? ==> r == Ok(m)
    ensures r.Ok? ==> r.value.(shading := m.shading, culling := m.culling) == m
    ensures element.Some? ==>
              (r.Err? <==> FirstAttr(FindChild(element.value, "Shading")).Some?
                           && ToByte(FirstAttr(FindChild(element.value, "Shading")).value).Err?)
    ensures element.Some? && FirstAttr(FindChild(element.value, "Shading")).None? ==>
              r.Ok? && r.value.shading == m.shading
    ensures element.Some? && r.Ok? && FirstAttr(FindChild(element.value, "Shading")).Some? ==>
              r.value.shading == ParseShading(ToByte(FirstAttr(FindChild(element.value, "Shading")).value).value)
    ensures element.Some? && r.Ok? ==>
              match FirstAttr(FindChild(element.value, "Culling"))
              case Some(AString(s)) => r.value.culling == ParseCulling(s).GetOr(m.culling)
              case _ => r.value.culling == m.culling
  {
    match element
    case None => Ok(m)
    case Some(n) =>
      var withShading :=
        match FirstAttr(FindChild(n, "Shading"))
        case None => Ok(m)
        case Some(v) =>
          match ToByte(v)
          case Ok(b) => Ok(m.(shading := ParseShading(b)))
          case Err(e) => Err(e);
      match withShading
      case Err(e) => Err(e)
      case Ok(m1) =>
        match FirstAttr(FindChild(n, "Culling"))
        case Some(AString(s)) =>
          (match ParseCulling(s)
           case Some(c) => Ok(m1.(culling := c))
           case None => Ok(m1))
        case _ => Ok(m1)
  }

  /** Parsing a written model node restores its shading and culling. */
  lemma DepthFieldsRoundTrip(m: ModelRec, into: ModelRec)
    ensures ParseDepthFields(Some(MakeElement(m)), into) == Ok(into.(shading := m.shading, culling := m.culling))
  {
    WrittenDepthFields(m);
    ShadingRoundTrip(m.shading);
    CullingRoundTrip(m.culling);
  }

  lemma WrittenDepthFields(m: ModelRec)
    ensures FirstAttr(FindChild(MakeElement(m), "Shading")) == Some(AByte(ShadingByte(m.shading)))
    ensures FirstAttr(FindChild(MakeElement(m), "Culling")) == Some(AString(CullingName(m.culling)))
  {
    var n := MakeElement(m);
    assert FirstNamed(n.children, "Shading") == Some(4);
    assert FirstNamed(n.children, "Culling") == Some(5);
  }

}
