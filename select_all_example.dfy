/** A two-root forest on which blocking select-all, as src/useTreeLink.tsx
    computes it, reports a key as both checked and half-checked:

      A (a1, a2)
      B

    with a1 checked and A half-checked. Each root is conducted on its own
    from the visible keys: from A, A's subtree is checked; from B, a1 is
    checked without a2, so A is half-checked. The union holds A in both. */
module SelectAllExample {
  import opened TreeTypes
  import opened Indexer
  import opened Levels
  import opened Conduct
  import opened ConductProps
  import opened ConductResults
  import opened Controller

  const a1 := Node("a1", false, [])
  const a2 := Node("a2", false, [])
  const A := Node("A", false, [a1, a2])
  const B := Node("B", false, [])
  const Forest := [A, B]

  /** A childless node indexes as one entry. */
  lemma Leaf(t: Tree, level: nat, p: Option<Tree>, inherited: bool)
    requires t.children == []
    ensures FlatForest([t], level, p, inherited) == map[t.key := EntryOf(t, level, p, inherited)]
  {
    assert [t][..0] == [];
  }

  /** The entries of A's children. */
  lemma ChildEntries()
    ensures FlatForest(A.children, 1, Some(A), false)
         == map["a1" := EntryOf(a1, 1, Some(A), false), "a2" := EntryOf(a2, 1, Some(A), false)]
  {
    assert A.children[..1] == [a1];
    Leaf(a1, 1, Some(A), false);
  }

  /** The entries of the first root's subtree. */
  lemma FirstShape()
    ensures FlatForest([A], 0, None, false)
         == map["A" := EntryOf(A, 0, None, false), "a1" := EntryOf(a1, 1, Some(A), false),
                "a2" := EntryOf(a2, 1, Some(A), false)]
  {
    assert [A][..0] == [];
    ChildEntries();
  }

  /** The index of the example forest. */
  lemma Shape()
    ensures Flatten(Forest)
         == map["A" := EntryOf(A, 0, None, false), "a1" := EntryOf(a1, 1, Some(A), false),
                "a2" := EntryOf(a2, 1, Some(A), false), "B" := EntryOf(B, 0, None, false)]
  {
    assert Forest[..1] == [A];
    FirstShape();
    assert FlatForest([A, B], 0, None, false)
        == FlatForest([A], 0, None, false) + map["B" := EntryOf(B, 0, None, false)];
  }

  /** The entries the argument below uses. */
  lemma Entries()
    ensures "A" in Flatten(Forest) && Flatten(Forest)["A"].node == A && Flatten(Forest)["A"].parentId == None
    ensures "a2" in Flatten(Forest) && Flatten(Forest)["a2"].node == a2 && Flatten(Forest)["a2"].parentId == Some("A")
    ensures "B" in Flatten(Forest) && Flatten(Forest)["B"].node == B
    ensures CanCheckedTreeKeys(Flatten(Forest), true) == {"A", "a1", "a2", "B"}
  {
    Shape();
  }

  /** The keys of a childless node. */
  lemma LeafKeys(t: Tree)
    requires t.children == []
    ensures KeySet([t]) == {t.key} && UniqueKeys([t])
  {
    assert [t][..0] == [];
  }

  /** The example forest has no repeated key. */
  lemma Unique()
    ensures UniqueKeys(Forest)
  {
    assert Forest[..1] == [A];
    assert [A][..0] == [];
    assert A.children[..1] == [a1];
    LeafKeys(a1);
    LeafKeys(a2);
    LeafKeys(B);
    assert KeySet(A.children) == {"a1", "a2"};
    assert KeySet([A]) == {"A", "a1", "a2"};
    assert UniqueKeys([A]);
  }

  /** Both roots sit in the root bucket of any matching level index. */
  lemma Roots(lt: LevelTree)
    requires LevelsMatch(Flatten(Forest), lt)
    ensures WF(Flatten(Forest), lt)
    ensures "A" in Flatten(Forest) && "B" in Flatten(Forest)
    ensures Flatten(Forest)["A"] in Bucket(lt, 0) && Flatten(Forest)["B"] in Bucket(lt, 0)
  {
    var index := Flatten(Forest);
    Unique();
    FlattenWF(Forest);
    Shape();
    assert index["A"] in LevelSet(index, index.Keys, 0) && index["B"] in LevelSet(index, index.Keys, 0);
  }

  /** The cascade from a1 and B reaches neither A nor a2. */
  lemma SiblingDown(index: Index, lt: LevelTree)
    requires WF(index, lt)
    requires "A" in index && index["A"].parentId == None
    requires "a2" in index && index["a2"].parentId == Some("A")
    ensures "A" !in CascadeTo(lt, {"a1", "B"}, lt.maxLevel + 1)
    ensures "a2" !in CascadeTo(lt, {"a1", "B"}, lt.maxLevel + 1)
  {
    var keys := {"a1", "B"};
    if "A" in CascadeTo(lt, keys, lt.maxLevel + 1) {
      CascadeOrigin(index, lt, keys, lt.maxLevel + 1, "A");
    }
    if "a2" in CascadeTo(lt, keys, lt.maxLevel + 1) {
      CascadeOrigin(index, lt, keys, lt.maxLevel + 1, "a2");
    }
  }

  /** Conducting a1 with the other root B leaves a2 unchecked. */
  lemma SiblingOpen(index: Index, lt: LevelTree)
    requires WF(index, lt)
    requires "A" in index && index["A"].parentId == None
    requires "a2" in index && index["a2"].node == a2 && index["a2"].parentId == Some("A")
    ensures "A" !in CascadeTo(lt, {"a1", "B"}, lt.maxLevel + 1)
    ensures "a2" !in CheckTrue(lt, {"a1", "B"}).checkedKeys
  {
    SiblingDown(index, lt);
    CheckTrueAt(index, lt, {"a1", "B"}, "a2");
  }

  /** Conducting a1 with the other root B leaves A half-checked. */
  lemma SiblingHalf(index: Index, lt: LevelTree)
    requires WF(index, lt)
    requires "A" in index && index["A"].node == A && index["A"].parentId == None
    requires "a2" in index && index["a2"].node == a2 && index["a2"].parentId == Some("A")
    ensures "A" in CheckTrue(lt, {"a1", "B"}).halfCheckedKeys
  {
    var keys := {"a1", "B"};
    SiblingOpen(index, lt);
    CheckTrueBounds(index, lt, keys);
    CheckTrueAt(index, lt, keys, "A");
    ChildKeys();
  }

  /** A's enabled children are a1 and a2. */
  lemma ChildKeys()
    ensures EnabledKeys(A.children) == {"a1", "a2"}
  {
    assert A.children[0] == a1 && A.children[1] == a2;
  }

  /** A key of one enabled root's result is in the union. */
  lemma InUnion(lt: LevelTree, roots: set<Entry>, e: Entry, checked: set<Key>, half: set<Key>, k: Key)
    requires e in roots && !IsCheckDisabled(e.node)
    ensures var r := LatestCheckedKeys(lt, checked, half, true, e.node.key);
      var u := UnionOver(lt, roots, checked, half, true);
      && (k in r.checkedKeys ==> k in u.checkedKeys)
      && (k in r.halfCheckedKeys ==> k in u.halfCheckedKeys)
  {
  }

  /** From the roots A and B, A is checked by one and half-checked by the other. */
  lemma RootResults(index: Index, lt: LevelTree, eA: Entry, eB: Entry)
    requires WF(index, lt)
    requires "A" in index && index["A"].node == A && index["A"].parentId == None
    requires "a2" in index && index["a2"].node == a2 && index["a2"].parentId == Some("A")
    requires eA.node == A && eB.node == B && eA in Bucket(lt, 0) && eB in Bucket(lt, 0)
    ensures var u := RootsUnion(lt, {"a1"}, {"A"}, true);
      "A" in u.checkedKeys && "A" in u.halfCheckedKeys
  {
    CheckTrueBounds(index, lt, {"a1", "A"});
    assert {"a1"} + {"A"} == {"a1", "A"};
    InUnion(lt, Bucket(lt, 0), eA, {"a1"}, {"A"}, "A");
    assert {"a1"} + {"B"} == {"a1", "B"};
    SiblingHalf(index, lt);
    InUnion(lt, Bucket(lt, 0), eB, {"a1"}, {"A"}, "A");
  }

  /** One checked and one half-checked key out of four checkable is an
      indeterminate selection. */
  lemma Indeterminate()
    ensures CheckAllIsIndeterminate({"a1"}, {"A"}, {"A", "a1", "a2", "B"})
  {
  }

  /** The roots' results on the example: A is checked by one and
      half-checked by the other, and the selection is indeterminate. */
  lemma Union(lt: LevelTree)
    requires LevelsMatch(Flatten(Forest), lt)
    ensures 0 in lt.levelEntities
    ensures CheckAllIsIndeterminate({"a1"}, {"A"}, CanCheckedTreeKeys(Flatten(Forest), true))
    ensures var u := RootsUnion(lt, {"a1"}, {"A"}, true);
      "A" in u.checkedKeys && "A" in u.halfCheckedKeys
  {
    Roots(lt);
    Entries();
    Indeterminate();
    RootResults(Flatten(Forest), lt, Flatten(Forest)["A"], Flatten(Forest)["B"]);
  }

  /** As written, select-all on the example reports A as both checked and
      half-checked. */
  lemma OverlapAsWritten(lt: LevelTree)
    requires LevelsMatch(Flatten(Forest), lt)
    ensures var r := SelectAllBlocking(Flatten(Forest), lt, {"a1"}, {"A"});
      r.Some? && "A" in r.value.checkedKeys && "A" in r.value.halfCheckedKeys
  {
    Union(lt);
  }

  /** Corrected, select-all on the example checks A and does not report it
      half-checked. */
  lemma OverlapCorrected(lt: LevelTree)
    requires LevelsMatch(Flatten(Forest), lt)
    ensures var r := SelectAllBlockingCorrected(Flatten(Forest), lt, {"a1"}, {"A"});
      r.Some? && "A" in r.value.checkedKeys && "A" !in r.value.halfCheckedKeys
  {
    Union(lt);
  }
}
