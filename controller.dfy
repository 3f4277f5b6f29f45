/** The hook of src/useTreeLink.tsx as an object: the index and level index
    it derives from the tree, the visible checked and half-checked keys, the
    last committed value (`trueCheckedData`) and the handlers that change
    them. Each `onChange` call is appended to `notified`. */
module Controller {
  import opened TreeTypes
  import opened Indexer
  import opened Levels
  import opened Conduct
  import opened ConductProps

  // ---------------------------------------------------------------------
  // Derived values

  /** `canCheckedTreeKeys`: with blocking, the keys no disabled flag reaches
      (own or an ancestor's); without, the keys whose own node is enabled. */
  function CanCheckedTreeKeys(index: Index, block: bool): (r: set<Key>)
    ensures r <= index.Keys
    ensures forall k | k in index && !index[k].parentDisabled && !IsCheckDisabled(index[k].node) :: k in r
  {
    set k | k in index && (if block then !index[k].parentDisabled else !index[k].node.disabled)
  }

  /** `isCheckAll`: at least as many keys checked as can be checked. A
      selection that covers the checkable keys reads as all checked. */
  predicate IsCheckAll(checked: set<Key>, canChecked: set<Key>)
    ensures canChecked <= checked ==> IsCheckAll(checked, canChecked)
  {
    assert canChecked <= checked ==> checked == canChecked + (checked - canChecked);
    |checked| >= |canChecked|
  }

  /** `checkAllIsIndeterminate`: something is checked or half-checked, but
      not everything. Neither an empty selection nor one that covers the
      checkable keys is indeterminate. */
  predicate CheckAllIsIndeterminate(checked: set<Key>, half: set<Key>, canChecked: set<Key>)
    ensures checked == {} && half == {} ==> !CheckAllIsIndeterminate(checked, half, canChecked)
    ensures canChecked <= checked ==> !CheckAllIsIndeterminate(checked, half, canChecked)
  {
    (|half| > 0 || |checked| > 0) && !IsCheckAll(checked, canChecked)
  }

  /** `getLatestCheckedKeys`: checking `key` conducts the visible checked
      keys plus `key`; unchecking conducts them without `key`, against the
      visible half-checked keys. */
  function LatestCheckedKeys(lt: LevelTree, checked: set<Key>, half: set<Key>, isChecked: bool, key: Key): Value
  {
    if isChecked then CheckTrue(lt, checked + {key}) else CheckFalse(lt, checked - {key}, half)
  }

  /** `checkedKeysAndDisabled`: the disabled nodes of the index whose key is
      checked. */
  function DisabledChecked(index: Index, checked: set<Key>): set<Key>
  {
    set k | k in index && IsCheckDisabled(index[k].node) && index[k].node.key in checked :: index[k].node.key
  }

  /** The keys the handler of one selection pass collects from the enabled
      roots: the union of the results of `getLatestCheckedKeys` for each. */
  function RootsUnion(lt: LevelTree, checked: set<Key>, half: set<Key>, isChecked: bool): Value
  {
    UnionOver(lt, Bucket(lt, 0), checked, half, isChecked)
  }

  /** The union of the results of `getLatestCheckedKeys` for the enabled
      entries among `roots`. */
  function UnionOver(lt: LevelTree, roots: set<Entry>, checked: set<Key>, half: set<Key>, isChecked: bool): Value
  {
    Value(
      set e, k | e in roots && !IsCheckDisabled(e.node)
                 && k in LatestCheckedKeys(lt, checked, half, isChecked, e.node.key).checkedKeys :: k,
      set e, k | e in roots && !IsCheckDisabled(e.node)
                 && k in LatestCheckedKeys(lt, checked, half, isChecked, e.node.key).halfCheckedKeys :: k)
  }

  /** Adding one entry to the roots adds its result when it is enabled. */
  lemma UnionStep(lt: LevelTree, roots: set<Entry>, e: Entry, checked: set<Key>, half: set<Key>, isChecked: bool)
    ensures var u := UnionOver(lt, roots, checked, half, isChecked);
      var r := LatestCheckedKeys(lt, checked, half, isChecked, e.node.key);
      UnionOver(lt, roots + {e}, checked, half, isChecked)
        == if IsCheckDisabled(e.node) then u else Value(u.checkedKeys + r.checkedKeys, u.halfCheckedKeys + r.halfCheckedKeys)
  {
    var u := UnionOver(lt, roots, checked, half, isChecked);
    var v := UnionOver(lt, roots + {e}, checked, half, isChecked);
    var r := LatestCheckedKeys(lt, checked, half, isChecked, e.node.key);
    var added := if IsCheckDisabled(e.node) then {} else r.checkedKeys;
    var addedHalf := if IsCheckDisabled(e.node) then {} else r.halfCheckedKeys;
    assert v.checkedKeys == u.checkedKeys + added;
    assert v.halfCheckedKeys == u.halfCheckedKeys + addedHalf;
  }

  /** The direction `onCheckAllChange` conducts in. */
  predicate SelectDirection(checked: set<Key>, half: set<Key>, canChecked: set<Key>)
  {
    !(IsCheckAll(checked, canChecked) && CheckAllIsIndeterminate(checked, half, canChecked))
  }

  /** `onCheckAllChange` with blocking: None when there is no root bucket;
      otherwise the disabled checked keys joined with the roots' results, less
      the visible sets unless the selection is indeterminate. The same value
      becomes `trueCheckedData` and the visible sets; its half set may share
      keys with its checked set. */
  function SelectAllBlocking(index: Index, lt: LevelTree, checked: set<Key>, half: set<Key>): (r: Option<Value>)
    ensures r.None? <==> 0 !in lt.levelEntities
  {
    if 0 !in lt.levelEntities then None
    else
      var can := CanCheckedTreeKeys(index, true);
      var indeterminate := CheckAllIsIndeterminate(checked, half, can);
      var u := RootsUnion(lt, checked, half, SelectDirection(checked, half, can));
      var diffed := if indeterminate then u.checkedKeys else u.checkedKeys - checked;
      var diffedHalf := if indeterminate then u.halfCheckedKeys else u.halfCheckedKeys - half;
      Some(Value(DisabledChecked(index, checked) + diffed, diffedHalf))
  }

  /** `onCheckAllChange` with blocking, corrected: as above, but a key that
      ends up checked is not also reported half-checked. */
  function SelectAllBlockingCorrected(index: Index, lt: LevelTree, checked: set<Key>, half: set<Key>): (r: Option<Value>)
    ensures r.None? <==> 0 !in lt.levelEntities
    ensures r.Some? ==> r.value.checkedKeys !! r.value.halfCheckedKeys
  {
    if 0 !in lt.levelEntities then None
    else
      var can := CanCheckedTreeKeys(index, true);
      var indeterminate := CheckAllIsIndeterminate(checked, half, can);
      var u := RootsUnion(lt, checked, half, SelectDirection(checked, half, can));
      var diffed := if indeterminate then u.checkedKeys else u.checkedKeys - checked;
      var diffedHalf := if indeterminate then u.halfCheckedKeys else u.halfCheckedKeys - half;
      var latest := DisabledChecked(index, checked) + diffed;
      Some(Value(latest, diffedHalf - latest))
  }

  /** The keys of the enabled nodes of the index (`changeKeys` without
      blocking). */
  function EnabledIndexKeys(index: Index): set<Key>
  {
    set k | k in index && !IsCheckDisabled(index[k].node) :: index[k].node.key
  }

  /** The parent ids of the indexed keys among `keys`. */
  function ParentIds(index: Index, keys: set<Key>): set<Key>
  {
    set k | k in keys && k in index && index[k].parentId.Some? :: index[k].parentId.value
  }

  /** `onCheckAllChange` without blocking: every enabled key, less the
      visible checked keys unless the selection is indeterminate, joined with
      the disabled checked keys; the half set committed to `trueCheckedData`
      is the set of their parent ids, the visible one is emptied. */
  function SelectAllFree(index: Index, checked: set<Key>, half: set<Key>): (r: Value)
    ensures EnabledIndexKeys(index) - checked <= r.checkedKeys <= DisabledChecked(index, checked) + EnabledIndexKeys(index)
    ensures CheckAllIsIndeterminate(checked, half, CanCheckedTreeKeys(index, false)) ==> EnabledIndexKeys(index) <= r.checkedKeys
    ensures r.halfCheckedKeys == ParentIds(index, r.checkedKeys)
  {
    var can := CanCheckedTreeKeys(index, false);
    var changeKeys := EnabledIndexKeys(index);
    var diffed := if CheckAllIsIndeterminate(checked, half, can) then changeKeys else changeKeys - checked;
    var latest := DisabledChecked(index, checked) + diffed;
    Value(latest, ParentIds(index, latest))
  }

  // ---------------------------------------------------------------------
  // The hook

  class TreeLink {
    var treeLink: Index
    var levelTree: LevelTree
    var checkedKeys: set<Key>
    var halfCheckedKeys: set<Key>
    var trueCheckedData: Value
    var isBlockConductionWhenDisabled: bool
    /** The values passed to `onChange`, oldest first. */
    var notified: seq<Value>

    /** The level index is the one `levelTree` derives from the index, with
      a bucket for exactly the levels some entry has. */
    ghost predicate Valid()
      reads this
    {
      && WF(treeLink, levelTree)
      && forall l: nat :: l in levelTree.levelEntities <==> LevelSet(treeLink, treeLink.Keys, l) != {}
    }

    /** The first render: an empty index, nothing checked. */
    constructor(isBlockConductionWhenDisabled: bool)
      ensures Valid()
      ensures treeLink == map[] && checkedKeys == {} && halfCheckedKeys == {}
      ensures 0 !in levelTree.levelEntities
      ensures trueCheckedData == Value({}, {}) && notified == []
      ensures this.isBlockConductionWhenDisabled == isBlockConductionWhenDisabled
    {
      var lt := BuildLevelTree(map[]);
      treeLink := map[];
      levelTree := lt;
      checkedKeys := {};
      halfCheckedKeys := {};
      trueCheckedData := Value({}, {});
      this.isBlockConductionWhenDisabled := isBlockConductionWhenDisabled;
      notified := [];
    }

    /** The effect on `tree`: an empty tree leaves everything as it is;
      otherwise the index is rebuilt and the level index derived from it.
      The checked state is not touched. */
    method TreeChanged(tree: seq<Tree>)
      requires Valid() && UniqueKeys(tree)
      modifies this
      ensures Valid()
      ensures tree == [] ==> treeLink == old(treeLink) && levelTree == old(levelTree)
      ensures tree != [] ==> treeLink == Flatten(tree) && treeLink.Keys == KeySet(tree)
      ensures checkedKeys == old(checkedKeys) && halfCheckedKeys == old(halfCheckedKeys)
      ensures trueCheckedData == old(trueCheckedData) && notified == old(notified)
      ensures isBlockConductionWhenDisabled == old(isBlockConductionWhenDisabled)
    {
      if tree == [] {
        return;
      }
      var index := Init(tree);
      var lt := BuildLevelTree(index);
      treeLink := index;
      levelTree := lt;
    }

    /** The effect on `value`: nothing without a value or an index; an
      empty value clears the visible sets only; a value whose checked keys
      are all in `trueCheckedData` is ignored; otherwise its checked keys are
      conducted and the result committed and reported. */
    method ValueChanged(value: Option<Value>)
      requires Valid()
      modifies this
      ensures Valid()
      ensures treeLink == old(treeLink) && levelTree == old(levelTree)
      ensures isBlockConductionWhenDisabled == old(isBlockConductionWhenDisabled)
      ensures value.None? || old(treeLink) == map[] ==>
        && checkedKeys == old(checkedKeys) && halfCheckedKeys == old(halfCheckedKeys)
        && trueCheckedData == old(trueCheckedData) && notified == old(notified)
      ensures value.Some? && old(treeLink) != map[]
              && value.value.checkedKeys == {} && value.value.halfCheckedKeys == {} ==>
        && checkedKeys == {} && halfCheckedKeys == {}
        && trueCheckedData == old(trueCheckedData) && notified == old(notified)
      ensures value.Some? && old(treeLink) != map[]
              && !(value.value.checkedKeys == {} && value.value.halfCheckedKeys == {})
              && value.value.checkedKeys <= old(trueCheckedData).checkedKeys ==>
        && checkedKeys == old(checkedKeys) && halfCheckedKeys == old(halfCheckedKeys)
        && trueCheckedData == old(trueCheckedData) && notified == old(notified)
      ensures value.Some? && old(treeLink) != map[]
              && !(value.value.checkedKeys == {} && value.value.halfCheckedKeys == {})
              && !(value.value.checkedKeys <= old(trueCheckedData).checkedKeys) ==>
        var r := CheckTrue(old(levelTree), value.value.checkedKeys);
        && checkedKeys == r.checkedKeys && halfCheckedKeys == r.halfCheckedKeys
        && trueCheckedData == r && notified == old(notified) + [r]
    {
      if value.None? || |treeLink| == 0 {
        return;
      }
      var v := value.value;
      if v.checkedKeys == {} && v.halfCheckedKeys == {} {
        checkedKeys := {};
        halfCheckedKeys := {};
        return;
      }
      if v.checkedKeys - trueCheckedData.checkedKeys == {} {
        forall x | x in v.checkedKeys ensures x in trueCheckedData.checkedKeys {
          assert x !in v.checkedKeys - trueCheckedData.checkedKeys;
        }
        return;
      }
      var result := ConductCheckTrue(treeLink, levelTree, v.checkedKeys);
      Commit(result, result);
    }

    /** `getLatestCheckedKeys` for a click on `node`. */
    method GetLatestCheckedKeys(checked: bool, node: Entry) returns (result: Value)
      requires Valid()
      ensures result == LatestCheckedKeys(levelTree, checkedKeys, halfCheckedKeys, checked, node.node.key)
    {
      var key := node.node.key;
      if checked {
        result := ConductCheckTrue(treeLink, levelTree, checkedKeys + {key});
      } else {
        var deletedCheckedKeys := checkedKeys - {key};
        result := ConductCheckFalse(treeLink, levelTree, deletedCheckedKeys, halfCheckedKeys);
      }
    }

    /** `onInnerCheckedChange`: commit the conducted state of a click and
      report it. */
    method OnInnerCheckedChange(checked: bool, node: Entry)
      requires Valid()
      modifies this
      ensures Valid()
      ensures treeLink == old(treeLink) && levelTree == old(levelTree)
      ensures isBlockConductionWhenDisabled == old(isBlockConductionWhenDisabled)
      ensures var r := LatestCheckedKeys(old(levelTree), old(checkedKeys), old(halfCheckedKeys), checked, node.node.key);
        && trueCheckedData == r && checkedKeys == r.checkedKeys && halfCheckedKeys == r.halfCheckedKeys
        && notified == old(notified) + [r]
    {
      var result := GetLatestCheckedKeys(checked, node);
      Commit(result, result);
    }

    /** The `forEach` over the index that collects `checkedKeysAndDisabled`. */
    method CollectDisabledChecked() returns (checkedKeysAndDisabled: set<Key>)
      ensures checkedKeysAndDisabled == DisabledChecked(treeLink, checkedKeys)
    {
      checkedKeysAndDisabled := {};
      var rest := treeLink.Keys;
      ghost var done: set<Key> := {};
      while rest != {}
        invariant rest !! done && rest + done == treeLink.Keys
        invariant checkedKeysAndDisabled ==
          set k | k in done && IsCheckDisabled(treeLink[k].node) && treeLink[k].node.key in checkedKeys :: treeLink[k].node.key
        decreases rest
      {
        var item :| item in rest;
        if IsCheckDisabled(treeLink[item].node) && treeLink[item].node.key in checkedKeys {
          checkedKeysAndDisabled := checkedKeysAndDisabled + {treeLink[item].node.key};
        }
        rest := rest - {item};
        done := done + {item};
      }
    }
  

    /** The `forEach` over the root bucket that collects the results of
      `getLatestCheckedKeys` for the enabled roots. */
    method RootsResults(checked: bool) returns (changeKeys: set<Key>, changeHalfKeys: set<Key>)
      requires Valid() && 0 in levelTree.levelEntities
      ensures Value(changeKeys, changeHalfKeys) == RootsUnion(levelTree, checkedKeys, halfCheckedKeys, checked)
    {
      changeKeys := {};
      changeHalfKeys := {};
      var firstFloor := levelTree.levelEntities[0];
      var rest := firstFloor;
      ghost var done: set<Entry> := {};
      while rest != {}
        invariant rest !! done && rest + done == firstFloor
        invariant Value(changeKeys, changeHalfKeys) == UnionOver(levelTree, done, checkedKeys, halfCheckedKeys, checked)
        decreases rest
      {
        var entity :| entity in rest;
        UnionStep(levelTree, done, entity, checkedKeys, halfCheckedKeys, checked);
        if !IsCheckDisabled(entity.node) {
          var result := GetLatestCheckedKeys(checked, entity);
          changeKeys := changeKeys + result.checkedKeys;
          changeHalfKeys := changeHalfKeys + result.halfCheckedKeys;
        }
        rest := rest - {entity};
        done := done + {entity};
      }
    }

    /** The `forEach` over the index of the non-blocking handler: the keys
      of the enabled nodes, and the disabled nodes whose key is checked. */
    method PartitionKeys() returns (changeKeys: set<Key>, checkedKeysAndDisabled: set<Key>)
      ensures changeKeys == EnabledIndexKeys(treeLink)
      ensures checkedKeysAndDisabled == DisabledChecked(treeLink, checkedKeys)
    {
      changeKeys := {};
      checkedKeysAndDisabled := {};
      var rest := treeLink.Keys;
      ghost var done: set<Key> := {};
      while rest != {}
        invariant rest !! done && rest + done == treeLink.Keys
        invariant changeKeys == set k | k in done && !IsCheckDisabled(treeLink[k].node) :: treeLink[k].node.key
        invariant checkedKeysAndDisabled ==
          set k | k in done && IsCheckDisabled(treeLink[k].node) && treeLink[k].node.key in checkedKeys :: treeLink[k].node.key
        decreases rest
      {
        var item :| item in rest;
        if IsCheckDisabled(treeLink[item].node) {
          if treeLink[item].node.key in checkedKeys {
            checkedKeysAndDisabled := checkedKeysAndDisabled + {treeLink[item].node.key};
          }
        } else {
          changeKeys := changeKeys + {treeLink[item].node.key};
        }
        rest := rest - {item};
        done := done + {item};
      }
    }

    /** The `forEach` that collects the parent ids of the selected keys. */
    method ParentIdsOf(latestCheckedKeys: set<Key>) returns (changeHalfKeys: set<Key>)
      requires latestCheckedKeys <= treeLink.Keys
      ensures changeHalfKeys == ParentIds(treeLink, latestCheckedKeys)
    {
      changeHalfKeys := {};
      var rest := latestCheckedKeys;
      ghost var done: set<Key> := {};
      while rest != {}
        invariant rest !! done && rest + done == latestCheckedKeys
        invariant changeHalfKeys == ParentIds(treeLink, done)
        decreases rest
      {
        var item :| item in rest;
        var node := treeLink[item];
        if node.parentId.Some? {
          changeHalfKeys := changeHalfKeys + {node.parentId.value};
        }
        rest := rest - {item};
        done := done + {item};
      }
    }

    /** `onCheckAllChange`: the first line computes the direction, then the
      handler of the configured mode runs. */
    method OnCheckAllChange()
      requires Valid()
      modifies this
      ensures Valid()
      ensures treeLink == old(treeLink) && levelTree == old(levelTree)
      ensures isBlockConductionWhenDisabled == old(isBlockConductionWhenDisabled)
      ensures old(isBlockConductionWhenDisabled) ==>
        var r := SelectAllBlocking(old(treeLink), old(levelTree), old(checkedKeys), old(halfCheckedKeys));
        && (r.None? ==>
              && checkedKeys == old(checkedKeys) && halfCheckedKeys == old(halfCheckedKeys)
              && trueCheckedData == old(trueCheckedData) && notified == old(notified))
        && (r.Some? ==>
              && trueCheckedData == r.value && checkedKeys == r.value.checkedKeys
              && halfCheckedKeys == r.value.halfCheckedKeys && notified == old(notified) + [r.value])
      ensures !old(isBlockConductionWhenDisabled) ==>
        var r := SelectAllFree(old(treeLink), old(checkedKeys), old(halfCheckedKeys));
        && trueCheckedData == r && checkedKeys == r.checkedKeys && halfCheckedKeys == {}
        && notified == old(notified) + [r]
    {
      var canChecked := CanCheckedTreeKeys(treeLink, isBlockConductionWhenDisabled);
      var isCheckAll := IsCheckAll(checkedKeys, canChecked);
      var indeterminate := CheckAllIsIndeterminate(checkedKeys, halfCheckedKeys, canChecked);
      var checked := if isCheckAll && indeterminate then false else true;
      if isBlockConductionWhenDisabled {
        CheckAllBlocking(checked, indeterminate);
      } else {
        CheckAllFree(indeterminate);
      }
    }

    /** The blocking branch of `onCheckAllChange`: nothing without a root
      bucket; otherwise the selection is committed and reported. */
    method CheckAllBlocking(checked: bool, indeterminate: bool)
      requires Valid()
      requires var canChecked := CanCheckedTreeKeys(treeLink, true);
        && checked == SelectDirection(checkedKeys, halfCheckedKeys, canChecked)
        && indeterminate == CheckAllIsIndeterminate(checkedKeys, halfCheckedKeys, canChecked)
      modifies this
      ensures treeLink == old(treeLink) && levelTree == old(levelTree)
      ensures isBlockConductionWhenDisabled == old(isBlockConductionWhenDisabled)
      ensures var r := SelectAllBlocking(old(treeLink), old(levelTree), old(checkedKeys), old(halfCheckedKeys));
        && (r.None? ==>
              && checkedKeys == old(checkedKeys) && halfCheckedKeys == old(halfCheckedKeys)
              && trueCheckedData == old(trueCheckedData) && notified == old(notified))
        && (r.Some? ==>
              && trueCheckedData == r.value && checkedKeys == r.value.checkedKeys
              && halfCheckedKeys == r.value.halfCheckedKeys && notified == old(notified) + [r.value])
    {
      if 0 !in levelTree.levelEntities {
        return;
      }
      var result := BlockingSelection(checked, indeterminate);
      Commit(result, result);
    }

    /** What the blocking branch selects: each enabled root conducted from
      the visible checked keys, the results joined, less the visible sets
      unless the selection is indeterminate, plus the disabled checked keys;
      the half set is the roots' half sets, less the visible one unless the
      selection is indeterminate. */
    method BlockingSelection(checked: bool, indeterminate: bool) returns (result: Value)
      requires Valid() && 0 in levelTree.levelEntities
      requires var canChecked := CanCheckedTreeKeys(treeLink, true);
        && checked == SelectDirection(checkedKeys, halfCheckedKeys, canChecked)
        && indeterminate == CheckAllIsIndeterminate(checkedKeys, halfCheckedKeys, canChecked)
      ensures SelectAllBlocking(treeLink, levelTree, checkedKeys, halfCheckedKeys) == Some(result)
    {
      var checkedKeysAndDisabled := CollectDisabledChecked();
      var changeKeys, changeHalfKeys := RootsResults(checked);
      var diffedKeys := if indeterminate then changeKeys else changeKeys - checkedKeys;
      var diffedHalfKeys := if indeterminate then changeHalfKeys else changeHalfKeys - halfCheckedKeys;
      var latestCheckedKeys := checkedKeysAndDisabled + diffedKeys;
      BlockingValue(treeLink, levelTree, checkedKeys, halfCheckedKeys, checked, indeterminate,
                    checkedKeysAndDisabled, changeKeys, changeHalfKeys);
      result := Value(latestCheckedKeys, diffedHalfKeys);
    }

    /** The non-blocking branch of `onCheckAllChange`: the selection is
      committed with an empty visible half set, and reported. */
    method CheckAllFree(indeterminate: bool)
      requires Valid()
      requires indeterminate == CheckAllIsIndeterminate(checkedKeys, halfCheckedKeys, CanCheckedTreeKeys(treeLink, false))
      modifies this
      ensures treeLink == old(treeLink) && levelTree == old(levelTree)
      ensures isBlockConductionWhenDisabled == old(isBlockConductionWhenDisabled)
      ensures var r := SelectAllFree(old(treeLink), old(checkedKeys), old(halfCheckedKeys));
        && trueCheckedData == r && checkedKeys == r.checkedKeys && halfCheckedKeys == {}
        && notified == old(notified) + [r]
    {
      var result := FreeSelection(indeterminate);
      Commit(Value(result.checkedKeys, {}), result);
    }

    /** What the non-blocking branch selects: every enabled key, less the
      visible checked keys unless the selection is indeterminate, plus the
      disabled checked keys, with their parent ids as the half set. */
    method FreeSelection(indeterminate: bool) returns (result: Value)
      requires Valid()
      requires indeterminate == CheckAllIsIndeterminate(checkedKeys, halfCheckedKeys, CanCheckedTreeKeys(treeLink, false))
      ensures result == SelectAllFree(treeLink, checkedKeys, halfCheckedKeys)
    {
      var changeKeys, checkedKeysAndDisabled := PartitionKeys();
      var diffedKeys := if indeterminate then changeKeys else changeKeys - checkedKeys;
      var latestCheckedKeys := checkedKeysAndDisabled + diffedKeys;
      SelectedIndexed(treeLink, checkedKeys);
      var changeHalfKeys := ParentIdsOf(latestCheckedKeys);
      result := Value(latestCheckedKeys, changeHalfKeys);
    }

    /** Commit a handler's result: `trueCheckedData` and the visible sets are
      set and `onChange` is called with the committed value. */
    method Commit(visible: Value, committed: Value)
      modifies this
      ensures checkedKeys == visible.checkedKeys && halfCheckedKeys == visible.halfCheckedKeys
      ensures trueCheckedData == committed && notified == old(notified) + [committed]
      ensures treeLink == old(treeLink) && levelTree == old(levelTree)
      ensures isBlockConductionWhenDisabled == old(isBlockConductionWhenDisabled)
    {
      trueCheckedData := committed;
      checkedKeys := visible.checkedKeys;
      halfCheckedKeys := visible.halfCheckedKeys;
      notified := notified + [committed];
    }
  }

  /** The value the blocking handler assembles from its parts. */
  lemma BlockingValue(index: Index, lt: LevelTree, checked: set<Key>, half: set<Key>, isChecked: bool,
                      indeterminate: bool, disabledChecked: set<Key>, changeKeys: set<Key>, changeHalfKeys: set<Key>)
    requires 0 in lt.levelEntities
    requires isChecked == SelectDirection(checked, half, CanCheckedTreeKeys(index, true))
    requires indeterminate == CheckAllIsIndeterminate(checked, half, CanCheckedTreeKeys(index, true))
    requires disabledChecked == DisabledChecked(index, checked)
    requires Value(changeKeys, changeHalfKeys) == RootsUnion(lt, checked, half, isChecked)
    ensures SelectAllBlocking(index, lt, checked, half)
         == Some(Value(disabledChecked + (if indeterminate then changeKeys else changeKeys - checked),
                       if indeterminate then changeHalfKeys else changeHalfKeys - half))
  {
  }

  /** The keys the non-blocking handler selects are keys of the index. */
  lemma SelectedIndexed(index: Index, checked: set<Key>)
    requires IndexWF(index)
    ensures DisabledChecked(index, checked) + EnabledIndexKeys(index) <= index.Keys
  {
  }
}
