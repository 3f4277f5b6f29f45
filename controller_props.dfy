/** What the handlers of src/useTreeLink.tsx guarantee: the direction of the
    select-all control, the click handler's conduction, and select-all from
    an empty selection and back. */
module ControllerProps {
  import opened TreeTypes
  import opened Indexer
  import opened Levels
  import opened Conduct
  import opened ConductProps
  import opened ConductResults
  import opened Controller

  // ---------------------------------------------------------------------
  // The select-all control

  /** `isCheckAll && checkAllIsIndeterminate` never holds, so the handler
      always conducts in the checking direction. */
  lemma SelectAlwaysChecks(checked: set<Key>, half: set<Key>, canChecked: set<Key>)
    ensures SelectDirection(checked, half, canChecked)
    ensures CheckAllIsIndeterminate(checked, half, canChecked) ==> !IsCheckAll(checked, canChecked)
  {
  }

  /** For a selection made of checkable keys only, `isCheckAll` holds
      exactly when all of them are selected. */
  lemma CheckAllExact(checked: set<Key>, canChecked: set<Key>)
    requires checked <= canChecked
    ensures IsCheckAll(checked, canChecked) <==> checked == canChecked
  {
    if IsCheckAll(checked, canChecked) {
      assert canChecked == checked + (canChecked - checked);
      assert |canChecked - checked| == 0;
    }
  }

  /** Blocking leaves fewer keys checkable: a node no disabled flag reaches
      is itself enabled. Without blocking, the checkable keys are the enabled
      keys of the index. */
  lemma CheckableKeys(index: Index)
    requires IndexWF(index)
    ensures CanCheckedTreeKeys(index, true) <= CanCheckedTreeKeys(index, false)
    ensures CanCheckedTreeKeys(index, false) == EnabledIndexKeys(index)
  {
    forall k | k in index ensures !index[k].parentDisabled ==> !index[k].node.disabled {
      assert Placed(index, k);
    }
  }

  // ---------------------------------------------------------------------
  // A click

  /** Checking an enabled node checks it and its enabled children, keeps
      every checked key and keeps the two sets apart. */
  lemma CheckClick(index: Index, lt: LevelTree, checked: set<Key>, half: set<Key>, key: Key)
    requires WF(index, lt) && key in index && !IsCheckDisabled(index[key].node)
    ensures var r := LatestCheckedKeys(lt, checked, half, true, key);
      && checked + {key} <= r.checkedKeys
      && EnabledKeys(index[key].node.children) <= r.checkedKeys
      && r.checkedKeys !! r.halfCheckedKeys
  {
    CheckTrueBounds(index, lt, checked + {key});
    CheckTrueClosed(index, lt, checked + {key}, key);
  }

  /** Unchecking an enabled node that is not half-checked unchecks it and
      its enabled children and checks nothing new. */
  lemma UncheckClick(index: Index, lt: LevelTree, checked: set<Key>, half: set<Key>, key: Key)
    requires WF(index, lt) && key in index && !IsCheckDisabled(index[key].node) && key !in half
    ensures var r := LatestCheckedKeys(lt, checked, half, false, key);
      && key !in r.checkedKeys
      && r.checkedKeys <= checked
      && EnabledKeys(index[key].node.children) !! r.checkedKeys
      && r.checkedKeys !! r.halfCheckedKeys
  {
    CheckFalseBounds(index, lt, checked - {key}, half);
    CheckFalseClears(index, lt, checked - {key}, half, key);
  }

  /** A click leaves every other disabled node as it was, and never makes
      it half-checked. */
  lemma ClickKeepsDisabled(index: Index, lt: LevelTree, checked: set<Key>, half: set<Key>,
                           isChecked: bool, key: Key, k: Key)
    requires WF(index, lt) && k in index && IsCheckDisabled(index[k].node) && k != key
    ensures var r := LatestCheckedKeys(lt, checked, half, isChecked, key);
      (k in r.checkedKeys <==> k in checked) && k !in r.halfCheckedKeys
  {
    if isChecked {
      CheckTrueDisabled(index, lt, checked + {key}, k);
    } else {
      CheckFalseDisabled(index, lt, checked - {key}, half, k);
    }
  }

  // ---------------------------------------------------------------------
  // Select-all with blocking, from an empty selection

  /** An indexed node's parent is indexed one level up and lists it among
      its children. */
  lemma ParentLevel(index: Index, k: Key)
    requires IndexWF(index) && k in index && index[k].parentId.Some?
    ensures var q := index[k].parentId.value;
      q in index && index[q].level + 1 == index[k].level && index[k].node in index[q].node.children
  {
    assert Placed(index, k);
  }

  /** A root conducted alone yields its cascade and no half-checked node. */
  lemma RootAlone(index: Index, lt: LevelTree, e: Entry)
    requires WF(index, lt) && e in Bucket(lt, 0)
    ensures e.node.key in index && index[e.node.key].level == 0
    ensures CheckTrue(lt, {} + {e.node.key}) == Value(CascadeTo(lt, {e.node.key}, lt.maxLevel + 1), {})
  {
    BucketEntry(index, lt, 0, e);
    assert {} + {e.node.key} == {e.node.key};
    RootSeedExact(index, lt, {e.node.key});
  }

  /** The cascade from an enabled root reaches only nodes that no disabled
      flag reaches. */
  lemma {:induction false} CascadeUnblocked(index: Index, lt: LevelTree, root: Key, k: Key)
    requires WF(index, lt) && root in index && index[root].level == 0 && !IsCheckDisabled(index[root].node)
    requires k in CascadeTo(lt, {root}, lt.maxLevel + 1)
    ensures k in index && !index[k].parentDisabled
    decreases if k in index then index[k].level else 0
  {
    CascadeBounds(index, lt, {root}, lt.maxLevel + 1);
    if k == root {
      LevelsAndParents(index, root);
      ParentDisabledInherited(index, root);
    } else {
      CascadeOrigin(index, lt, {root}, lt.maxLevel + 1, k);
      ParentLevel(index, k);
      CascadeUnblocked(index, lt, root, index[k].parentId.value);
      ParentDisabledInherited(index, k);
    }
  }

  /** Every node no disabled flag reaches is checked by conducting the
      visible checked keys plus some enabled root. */
  lemma {:induction false} RootOf(index: Index, lt: LevelTree, checked: set<Key>, k: Key) returns (e: Entry)
    requires WF(index, lt) && k in index && !index[k].parentDisabled
    ensures e in Bucket(lt, 0) && !IsCheckDisabled(e.node)
    ensures k in CheckTrue(lt, checked + {e.node.key}).checkedKeys
    decreases index[k].level
  {
    LevelsAndParents(index, k);
    ParentDisabledInherited(index, k);
    if index[k].parentId.None? {
      EntryInBucket(index, lt, k);
      e := index[k];
      CheckTrueBounds(index, lt, checked + {k});
    } else {
      var q := index[k].parentId.value;
      ParentLevel(index, k);
      e := RootOf(index, lt, checked, q);
      ParentDisabledInherited(index, q);
      CheckTrueClosed(index, lt, checked + {e.node.key}, q);
      assert k in EnabledKeys(index[q].node.children);
    }
  }

  /** Conducting each enabled root alone checks exactly the nodes no
      disabled flag reaches, and half-checks none. */
  lemma RootsCheckable(index: Index, lt: LevelTree)
    requires WF(index, lt)
    ensures RootsUnion(lt, {}, {}, true) == Value(CanCheckedTreeKeys(index, true), {})
  {
    var u := RootsUnion(lt, {}, {}, true);
    var can := CanCheckedTreeKeys(index, true);
    forall e | e in Bucket(lt, 0) && !IsCheckDisabled(e.node)
      ensures LatestCheckedKeys(lt, {}, {}, true, e.node.key).halfCheckedKeys == {}
    {
      RootAlone(index, lt, e);
    }
    forall k | k in u.checkedKeys ensures k in can {
      var e :| e in Bucket(lt, 0) && !IsCheckDisabled(e.node)
               && k in LatestCheckedKeys(lt, {}, {}, true, e.node.key).checkedKeys;
      RootAlone(index, lt, e);
      CascadeUnblocked(index, lt, e.node.key, k);
    }
    forall k | k in can ensures k in u.checkedKeys {
      var e := RootOf(index, lt, {}, k);
    }
  }

  /** With blocking and nothing selected, select-all checks exactly the
      nodes no disabled flag reaches, with nothing half-checked, and the
      control then reads as all checked. */
  lemma SelectAllFromNothing(index: Index, lt: LevelTree)
    requires WF(index, lt) && 0 in lt.levelEntities
    ensures SelectAllBlocking(index, lt, {}, {}) == Some(Value(CanCheckedTreeKeys(index, true), {}))
    ensures IsCheckAll(SelectAllBlocking(index, lt, {}, {}).value.checkedKeys, CanCheckedTreeKeys(index, true))
  {
    RootsCheckable(index, lt);
    FromNothing(index, lt, CanCheckedTreeKeys(index, true));
  }

  /** The blocking handler from an empty selection returns what the roots
      conducted alone return. */
  lemma FromNothing(index: Index, lt: LevelTree, can: set<Key>)
    requires 0 in lt.levelEntities && can == CanCheckedTreeKeys(index, true)
    requires RootsUnion(lt, {}, {}, true) == Value(can, {})
    ensures SelectAllBlocking(index, lt, {}, {}) == Some(Value(can, {}))
  {
    assert SelectDirection({}, {}, can);
    assert !CheckAllIsIndeterminate({}, {}, can);
    var u := RootsUnion(lt, {}, {}, SelectDirection({}, {}, can));
    assert u == Value(can, {});
    assert u.checkedKeys - {} == can && u.halfCheckedKeys - {} == {};
    assert DisabledChecked(index, {}) == {};
    assert DisabledChecked(index, {}) + can == can;
  }

  /** With no disabled node anywhere, no disabled flag reaches any node. */
  lemma {:induction false} NoneDisabled(index: Index, k: Key)
    requires IndexWF(index) && k in index
    requires forall j | j in index :: !index[j].node.disabled
    ensures !index[k].parentDisabled
    decreases index[k].level
  {
    ParentDisabledInherited(index, k);
    if index[k].parentId.Some? {
      ParentLevel(index, k);
      NoneDisabled(index, index[k].parentId.value);
    }
  }

  /** With blocking, no disabled node and nothing selected, select-all
      checks every key of the tree and half-checks none. */
  lemma SelectAllEverything(index: Index, lt: LevelTree)
    requires WF(index, lt) && 0 in lt.levelEntities
    requires forall j | j in index :: !index[j].node.disabled
    ensures SelectAllBlocking(index, lt, {}, {}) == Some(Value(index.Keys, {}))
  {
    forall k | k in index ensures k in CanCheckedTreeKeys(index, true) {
      NoneDisabled(index, k);
    }
    assert CanCheckedTreeKeys(index, true) == index.Keys;
    SelectAllFromNothing(index, lt);
  }

  // ---------------------------------------------------------------------
  // Select-all with blocking, from a partial selection

  /** With blocking and an indeterminate selection, select-all keeps every
      checked key and checks every node no disabled flag reaches, as long as
      some root is enabled. */
  lemma SelectAllPartial(index: Index, lt: LevelTree, checked: set<Key>, half: set<Key>, e0: Entry)
    requires WF(index, lt) && e0 in Bucket(lt, 0) && !IsCheckDisabled(e0.node)
    requires CheckAllIsIndeterminate(checked, half, CanCheckedTreeKeys(index, true))
    ensures SelectAllBlocking(index, lt, checked, half).Some?
    ensures checked + CanCheckedTreeKeys(index, true) <= SelectAllBlocking(index, lt, checked, half).value.checkedKeys
  {
    var can := CanCheckedTreeKeys(index, true);
    SelectAlwaysChecks(checked, half, can);
    var u := RootsUnion(lt, checked, half, true);
    forall k | k in checked ensures k in u.checkedKeys {
      CheckTrueBounds(index, lt, checked + {e0.node.key});
      assert k in LatestCheckedKeys(lt, checked, half, true, e0.node.key).checkedKeys;
    }
    forall k | k in can ensures k in u.checkedKeys {
      var e := RootOf(index, lt, checked, k);
      assert k in LatestCheckedKeys(lt, checked, half, true, e.node.key).checkedKeys;
    }
  }

  // ---------------------------------------------------------------------
  // Select-all with blocking, from a full selection

  /** In a conducted state with every checkable key checked, conducting any
      enabled root again gives that state back. */
  lemma RootsSettled(index: Index, lt: LevelTree, keys: set<Key>, e: Entry)
    requires WF(index, lt) && e in Bucket(lt, 0) && !IsCheckDisabled(e.node)
    requires CanCheckedTreeKeys(index, true) <= CheckTrue(lt, keys).checkedKeys
    ensures var r := CheckTrue(lt, keys);
      LatestCheckedKeys(lt, r.checkedKeys, r.halfCheckedKeys, true, e.node.key) == r
  {
    var r := CheckTrue(lt, keys);
    BucketEntry(index, lt, 0, e);
    LevelsAndParents(index, e.node.key);
    ParentDisabledInherited(index, e.node.key);
    assert e.node.key in CanCheckedTreeKeys(index, true);
    assert r.checkedKeys + {e.node.key} == r.checkedKeys;
    CheckTrueStable(index, lt, keys);
  }

  /** Roots that each give back `(checked, half)` add nothing to it. */
  lemma UnionOfSettled(lt: LevelTree, roots: set<Entry>, checked: set<Key>, half: set<Key>)
    requires forall e | e in roots && !IsCheckDisabled(e.node) ::
      LatestCheckedKeys(lt, checked, half, true, e.node.key) == Value(checked, half)
    ensures UnionOver(lt, roots, checked, half, true).checkedKeys <= checked
    ensures UnionOver(lt, roots, checked, half, true).halfCheckedKeys <= half
  {
  }

  /** With blocking, select-all on a conducted state that has every
      checkable key checked unchecks everything except the checked disabled
      nodes, and half-checks nothing. */
  lemma BlockingDeselect(index: Index, lt: LevelTree, keys: set<Key>)
    requires WF(index, lt) && 0 in lt.levelEntities
    requires CanCheckedTreeKeys(index, true) <= CheckTrue(lt, keys).checkedKeys
    ensures var r := CheckTrue(lt, keys);
      SelectAllBlocking(index, lt, r.checkedKeys, r.halfCheckedKeys)
        == Some(Value(DisabledChecked(index, r.checkedKeys), {}))
  {
    var r := CheckTrue(lt, keys);
    forall e | e in Bucket(lt, 0) && !IsCheckDisabled(e.node)
      ensures LatestCheckedKeys(lt, r.checkedKeys, r.halfCheckedKeys, true, e.node.key) == r
    {
      RootsSettled(index, lt, keys, e);
    }
    UnionOfSettled(lt, Bucket(lt, 0), r.checkedKeys, r.halfCheckedKeys);
    DeselectValue(index, lt, r.checkedKeys, r.halfCheckedKeys);
  }

  /** The value the blocking handler assembles when the roots add nothing to
      a full selection. */
  lemma DeselectValue(index: Index, lt: LevelTree, checked: set<Key>, half: set<Key>)
    requires 0 in lt.levelEntities && CanCheckedTreeKeys(index, true) <= checked
    requires RootsUnion(lt, checked, half, true).checkedKeys <= checked
    requires RootsUnion(lt, checked, half, true).halfCheckedKeys <= half
    ensures SelectAllBlocking(index, lt, checked, half) == Some(Value(DisabledChecked(index, checked), {}))
  {
    var can := CanCheckedTreeKeys(index, true);
    assert !CheckAllIsIndeterminate(checked, half, can);
    var u := RootsUnion(lt, checked, half, true);
    assert u.checkedKeys - checked == {} && u.halfCheckedKeys - half == {};
    assert SelectDirection(checked, half, can);
    var d := DisabledChecked(index, checked);
    assert d + (u.checkedKeys - checked) == d;
  }

  // ---------------------------------------------------------------------
  // Select-all with blocking, twice

  /** The keys of the enabled roots. */
  ghost function EnabledRoots(index: Index): set<Key>
  {
    set k | k in index && index[k].level == 0 && !IsCheckDisabled(index[k].node)
  }

  /** The cascade from the enabled roots reaches only nodes no disabled flag
      reaches. */
  lemma {:induction false} RootCascadeUnblocked(index: Index, lt: LevelTree, k: Key)
    requires WF(index, lt) && k in CascadeTo(lt, EnabledRoots(index), lt.maxLevel + 1)
    ensures k in CanCheckedTreeKeys(index, true)
    decreases if k in index then index[k].level else 0
  {
    var roots := EnabledRoots(index);
    CascadeBounds(index, lt, roots, lt.maxLevel + 1);
    ParentDisabledInherited(index, k);
    if k in roots {
      LevelsAndParents(index, k);
    } else {
      CascadeOrigin(index, lt, roots, lt.maxLevel + 1, k);
      ParentLevel(index, k);
      RootCascadeUnblocked(index, lt, index[k].parentId.value);
    }
  }

  /** Every node no disabled flag reaches is reached by the cascade from the
      enabled roots. */
  lemma {:induction false} UnblockedInRootCascade(index: Index, lt: LevelTree, k: Key)
    requires WF(index, lt) && k in CanCheckedTreeKeys(index, true)
    ensures k in CascadeTo(lt, EnabledRoots(index), lt.maxLevel + 1)
    decreases index[k].level
  {
    var roots := EnabledRoots(index);
    LevelsAndParents(index, k);
    ParentDisabledInherited(index, k);
    if index[k].parentId.None? {
      CascadeBounds(index, lt, roots, lt.maxLevel + 1);
    } else {
      var q := index[k].parentId.value;
      ParentLevel(index, k);
      UnblockedInRootCascade(index, lt, q);
      ParentDisabledInherited(index, q);
      EntryInBucket(index, lt, k);
      CascadeClosed(index, lt, roots, q);
      assert k in EnabledKeys(index[q].node.children);
    }
  }

  /** Conducting the enabled roots checks exactly the nodes no disabled flag
      reaches, and half-checks none. */
  lemma RootsConducted(index: Index, lt: LevelTree)
    requires WF(index, lt)
    ensures CheckTrue(lt, EnabledRoots(index)) == Value(CanCheckedTreeKeys(index, true), {})
  {
    RootSeedExact(index, lt, EnabledRoots(index));
    forall k | k in CascadeTo(lt, EnabledRoots(index), lt.maxLevel + 1) ensures k in CanCheckedTreeKeys(index, true) {
      RootCascadeUnblocked(index, lt, k);
    }
    forall k | k in CanCheckedTreeKeys(index, true) ensures k in CascadeTo(lt, EnabledRoots(index), lt.maxLevel + 1) {
      UnblockedInRootCascade(index, lt, k);
    }
  }

  /** With blocking, a second select-all from an empty selection undoes the
      first. */
  lemma BlockingToggle(index: Index, lt: LevelTree)
    requires WF(index, lt) && 0 in lt.levelEntities
    ensures var once := SelectAllBlocking(index, lt, {}, {}).value;
      SelectAllBlocking(index, lt, once.checkedKeys, once.halfCheckedKeys) == Some(Value({}, {}))
  {
    var can := CanCheckedTreeKeys(index, true);
    SelectAllFromNothing(index, lt);
    RootsConducted(index, lt);
    BlockingDeselect(index, lt, EnabledRoots(index));
    CheckableKeys(index);
    forall k | k in index && IsCheckDisabled(index[k].node) ensures index[k].node.key !in can {
      EntryInBucket(index, lt, k);
    }
    assert DisabledChecked(index, can) == {};
  }

  // ---------------------------------------------------------------------
  // Select-all without blocking

  /** Without blocking and nothing selected, select-all checks every enabled
      node and commits their parent ids as the half set. */
  lemma FreeFromNothing(index: Index)
    requires IndexWF(index)
    ensures var can := CanCheckedTreeKeys(index, false);
      SelectAllFree(index, {}, {}) == Value(can, ParentIds(index, can))
  {
    var can := CanCheckedTreeKeys(index, false);
    CheckableKeys(index);
    assert !CheckAllIsIndeterminate({}, {}, can);
    assert DisabledChecked(index, {}) == {};
    assert DisabledChecked(index, {}) + (EnabledIndexKeys(index) - {}) == can;
  }

  /** Without blocking, once every enabled node is selected, select-all
      unchecks them all and keeps only the checked disabled nodes. */
  lemma FreeDeselect(index: Index, checked: set<Key>, half: set<Key>)
    requires IndexWF(index) && CanCheckedTreeKeys(index, false) <= checked
    ensures SelectAllFree(index, checked, half).checkedKeys == DisabledChecked(index, checked)
  {
    var can := CanCheckedTreeKeys(index, false);
    CheckableKeys(index);
    assert EnabledIndexKeys(index) - checked == {};
  }

  /** Without blocking, a second select-all from an empty selection undoes
      the first. */
  lemma FreeToggle(index: Index)
    requires IndexWF(index)
    ensures var once := SelectAllFree(index, {}, {});
      SelectAllFree(index, once.checkedKeys, {}).checkedKeys == {}
  {
    var can := CanCheckedTreeKeys(index, false);
    FreeFromNothing(index);
    FreeDeselect(index, can, {});
    assert DisabledChecked(index, can) == {};
  }

  /** Without blocking, select-all leaves every disabled node as it was. */
  lemma FreeKeepsDisabled(index: Index, checked: set<Key>, half: set<Key>, k: Key)
    requires IndexWF(index) && k in index && IsCheckDisabled(index[k].node)
    ensures k in SelectAllFree(index, checked, half).checkedKeys <==> k in checked
  {
    assert k !in EnabledIndexKeys(index);
  }

  /** With blocking, select-all leaves every disabled node as it was, and
      never half-checks it. */
  lemma BlockingKeepsDisabled(index: Index, lt: LevelTree, checked: set<Key>, half: set<Key>, k: Key)
    requires WF(index, lt) && k in index && IsCheckDisabled(index[k].node)
    requires SelectAllBlocking(index, lt, checked, half).Some?
    ensures var r := SelectAllBlocking(index, lt, checked, half).value;
      (k in r.checkedKeys <==> k in checked) && k !in r.halfCheckedKeys
  {
    var can := CanCheckedTreeKeys(index, true);
    SelectAlwaysChecks(checked, half, can);
    var u := RootsUnion(lt, checked, half, true);
    forall e | e in Bucket(lt, 0) && !IsCheckDisabled(e.node)
      ensures (k in LatestCheckedKeys(lt, checked, half, true, e.node.key).checkedKeys ==> k in checked)
      ensures k !in LatestCheckedKeys(lt, checked, half, true, e.node.key).halfCheckedKeys
    {
      BucketEntry(index, lt, 0, e);
      CheckTrueDisabled(index, lt, checked + {e.node.key}, k);
    }
    assert k in checked ==> k in DisabledChecked(index, checked);
  }

  // ---------------------------------------------------------------------
  // The correction of blocking select-all

  /** The corrected handler differs from the source's only by dropping from
      the half set the keys it also checks, so the two agree exactly when
      the source's result keeps its two sets apart. */
  lemma BlockingCorrection(index: Index, lt: LevelTree, checked: set<Key>, half: set<Key>)
    ensures var w := SelectAllBlocking(index, lt, checked, half);
      var r := SelectAllBlockingCorrected(index, lt, checked, half);
      && (r.None? <==> w.None?)
      && (w.Some? ==> r.value.checkedKeys == w.value.checkedKeys
                      && r.value.halfCheckedKeys == w.value.halfCheckedKeys - w.value.checkedKeys)
      && (r == w <==> w.None? || w.value.checkedKeys !! w.value.halfCheckedKeys)
  {
    var w := SelectAllBlocking(index, lt, checked, half);
    if w.Some? {
      var c, h := w.value.checkedKeys, w.value.halfCheckedKeys;
      if c !! h {
        assert h - c == h;
      } else {
        var x :| x in c && x in h;
        assert x !in h - c;
      }
    }
  }

  /** With blocking, select-all checks only keys of the tree or keys already
      checked, and half-checks only keys of the tree. */
  lemma SelectAllBlockingBounds(index: Index, lt: LevelTree, checked: set<Key>, half: set<Key>)
    requires WF(index, lt)
    ensures var r := SelectAllBlocking(index, lt, checked, half);
      r.Some? ==> r.value.checkedKeys <= checked + index.Keys && r.value.halfCheckedKeys <= index.Keys
  {
    var can := CanCheckedTreeKeys(index, true);
    SelectAlwaysChecks(checked, half, can);
    var u := RootsUnion(lt, checked, half, true);
    forall e | e in Bucket(lt, 0) && !IsCheckDisabled(e.node)
      ensures LatestCheckedKeys(lt, checked, half, true, e.node.key).checkedKeys <= checked + index.Keys
      ensures LatestCheckedKeys(lt, checked, half, true, e.node.key).halfCheckedKeys <= index.Keys
    {
      BucketEntry(index, lt, 0, e);
      CheckTrueBounds(index, lt, checked + {e.node.key});
    }
    assert u.checkedKeys <= checked + index.Keys && u.halfCheckedKeys <= index.Keys;
  }
}
