/** Values shared by the indexer, the level index, the conduction engine and
    the controller of the tree-checkbox hook (src/useTreeLink.tsx). */
module TreeTypes {

  /** A node identifier, here always a string; the only falsy string is "". */
  type Key = string

  datatype Option<T> = None | Some(value: T)

  /** An input tree node; an absent `disabled` is `false`. */
  datatype Tree = Node(key: Key, disabled: bool, children: seq<Tree>)

  /** The copy of a child stored in its parent's entry, tagged with the
      effective disabled flag the indexer computed for it. */
  datatype ChildLink = ChildLink(node: Tree, parentDisabled: bool)

  /** An indexed node (`TreeLinkType`). `parentNode` is the parent's node,
      or None for a root and for a child whose parent key is falsy. */
  datatype Entry = Entry(
    node: Tree,
    children: seq<ChildLink>,
    level: nat,
    parentId: Option<Key>,
    parentNode: Option<Tree>,
    parentDisabled: bool)

  type Index = map<Key, Entry>

  /** A `{checkedKeys, halfCheckedKeys}` pair. */
  datatype Value = Value(checkedKeys: set<Key>, halfCheckedKeys: set<Key>)

  /** `isCheckDisabled`: a node's own disabled flag. */
  function IsCheckDisabled(node: Tree): bool
  {
    node.disabled
  }

  /** JavaScript truthiness of a key. */
  predicate Truthy(k: Key)
  {
    k != ""
  }

  /** The `parentId ? result[parentId].node : null` of the indexer, given the
      parent's node. */
  function ParentNodeOf(parent: Option<Tree>): Option<Tree>
  {
    if parent.Some? && Truthy(parent.value.key) then parent else None
  }

  /** Keys of the enabled nodes among `ts`. */
  function EnabledKeys(ts: seq<Tree>): set<Key>
  {
    set t | t in ts && !IsCheckDisabled(t) :: t.key
  }

  /** Keys of the enabled nodes among the links `cs`. */
  function EnabledLinkKeys(cs: seq<ChildLink>): set<Key>
  {
    set c | c in cs && !IsCheckDisabled(c.node) :: c.node.key
  }
}
