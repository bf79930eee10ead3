/** The directory tree shown by the file browser: conversion of a directory
    listing into tree nodes, and the lazy expansion that grafts a listing
    under the node that was opened. */
module TreeData {
  import opened Optional
  import opened Strings

  /** One entry of the listing that the main process returns for a directory. */
  datatype Entry = Entry(name: string, path: string, isDirectory: bool)

  /** The `children` field of a node: absent (`undefined`) for files, a list,
      possibly still empty, for directories. */
  datatype Children = Absent | Present(nodes: seq<TreeNode>)

  /** A node of the tree view; `pyIcon` stands for the Python icon element. */
  datatype TreeNode = TreeNode(title: string, key: string, isLeaf: bool,
                               children: Children, pyIcon: bool)

  /** The node built for one listing entry. */
  function FormatEntry(file: Entry): (node: TreeNode)
    ensures EntryOf(node) == file
    ensures node.isLeaf <==> node.children.Absent?
    ensures node.pyIcon <==> IsPy(file.path)
  {
    TreeNode(file.name, file.path, !file.isDirectory,
             if file.isDirectory then Present([]) else Absent, IsPy(file.path))
  }

  /** `formatTreeData` once the listing has arrived: one node per entry, in order. */
  function FormatTreeData(files: seq<Entry>): (nodes: seq<TreeNode>)
    ensures |nodes| == |files|
    ensures forall i :: 0 <= i < |files| ==>
      nodes[i].title == files[i].name && nodes[i].key == files[i].path &&
      nodes[i].isLeaf == !files[i].isDirectory &&
      nodes[i].children == (if files[i].isDirectory then Present([]) else Absent) &&
      (nodes[i].pyIcon <==> EndsWith(files[i].path, ".py"))
  {
    if files == [] then [] else [FormatEntry(files[0])] + FormatTreeData(files[1..])
  }

  /** The listing entry a node was built from. */
  function EntryOf(node: TreeNode): Entry {
    Entry(node.title, node.key, !node.isLeaf)
  }

  function EntriesOf(nodes: seq<TreeNode>): (files: seq<Entry>)
    ensures |files| == |nodes|
  {
    if nodes == [] then [] else [EntryOf(nodes[0])] + EntriesOf(nodes[1..])
  }

  /** Formatting loses nothing of the listing: it can be read back from the nodes. */
  lemma {:induction false} FormatRoundTrip(files: seq<Entry>)
    ensures EntriesOf(FormatTreeData(files)) == files
  {
    if files != [] {
      FormatRoundTrip(files[1..]);
      assert FormatTreeData(files)[1..] == FormatTreeData(files[1..]);
    }
  }

  /** The invariant of the tree: at every level a node is a leaf exactly when
      it has no children list. */
  predicate WellFormed(list: seq<TreeNode>)
    decreases list
  {
    forall i :: 0 <= i < |list| ==> NodeWellFormed(list[i])
  }

  predicate NodeWellFormed(node: TreeNode)
    decreases node
  {
    (node.isLeaf <==> node.children.Absent?) &&
    (node.children.Present? ==> WellFormed(node.children.nodes))
  }

  /** A freshly formatted listing satisfies the invariant. */
  lemma FormatWellFormed(files: seq<Entry>)
    ensures WellFormed(FormatTreeData(files))
  {
  }

  /** Two nodes agree on everything but their children. */
  predicate SameLabel(a: TreeNode, b: TreeNode) {
    a.title == b.title && a.key == b.key && a.isLeaf == b.isLeaf && a.pyIcon == b.pyIcon
  }

  /** `updateTreeData(list, key, children)`: map over the siblings, replacing
      the children of a node with the key, descending into other nodes that
      have children, and leaving the rest alone. */
  function UpdateTreeData(list: seq<TreeNode>, key: string, children: seq<TreeNode>): (r: seq<TreeNode>)
    decreases list
    ensures |r| == |list|
    ensures forall i :: 0 <= i < |list| ==> SameLabel(r[i], list[i])
    ensures forall i :: 0 <= i < |list| && list[i].key == key ==> r[i].children == Present(children)
    ensures forall i :: 0 <= i < |list| && list[i].key != key && list[i].children.Absent? ==> r[i] == list[i]
  {
    seq(|list|, i requires 0 <= i < |list| => UpdateNode(list[i], key, children))
  }

  /** The callback of `list.map` in `updateTreeData`, for one node. */
  function UpdateNode(node: TreeNode, key: string, children: seq<TreeNode>): (r: TreeNode)
    decreases node
    ensures SameLabel(r, node)
    ensures node.key == key ==> r.children == Present(children)
    ensures node.key != key ==> r.children.Present? == node.children.Present?
    ensures node.key != key && node.children.Present? ==>
      |r.children.nodes| == |node.children.nodes|
  {
    if node.key == key then node.(children := Present(children))
    else match node.children
      case Present(cs) => node.(children := Present(UpdateTreeData(cs, key, children)))
      case Absent => node
  }

  /** The first node with the given key in a depth-first, pre-order walk. */
  function Find(list: seq<TreeNode>, key: string): Option<TreeNode>
    decreases list
  {
    if list == [] then None
    else match FindInNode(list[0], key)
      case Some(n) => Some(n)
      case None => Find(list[1..], key)
  }

  function FindInNode(node: TreeNode, key: string): Option<TreeNode>
    decreases node
  {
    if node.key == key then Some(node)
    else match node.children
      case Present(cs) => Find(cs, key)
      case Absent => None
  }

  /** The node found, with its children replaced. */
  function Grafted(found: Option<TreeNode>, children: seq<TreeNode>): Option<TreeNode> {
    match found
    case Some(n) => Some(n.(children := Present(children)))
    case None => None
  }

  /** Expanding a node and then looking it up finds it with exactly the new
      children; a key that was not in the tree is still not in it. */
  lemma {:induction false} FindAfterUpdate(list: seq<TreeNode>, key: string, children: seq<TreeNode>)
    decreases list
    ensures Find(UpdateTreeData(list, key, children), key) == Grafted(Find(list, key), children)
  {
    if list != [] {
      var r := UpdateTreeData(list, key, children);
      FindAfterUpdateNode(list[0], key, children);
      FindAfterUpdate(list[1..], key, children);
      assert r[1..] == UpdateTreeData(list[1..], key, children);
      assert r[0] == UpdateNode(list[0], key, children);
    }
  }

  lemma {:induction false} FindAfterUpdateNode(node: TreeNode, key: string, children: seq<TreeNode>)
    decreases node
    ensures FindInNode(UpdateNode(node, key, children), key) == Grafted(FindInNode(node, key), children)
  {
    if node.key != key && node.children.Present? {
      FindAfterUpdate(node.children.nodes, key, children);
    }
  }

  /** A key that occurs nowhere in the tree leaves it exactly as it was. */
  lemma {:induction false} UpdateAbsent(list: seq<TreeNode>, key: string, children: seq<TreeNode>)
    decreases list
    requires Find(list, key) == None
    ensures UpdateTreeData(list, key, children) == list
  {
    var r := UpdateTreeData(list, key, children);
    forall i | 0 <= i < |list| ensures r[i] == list[i] {
      FindAbsentAt(list, key, i);
      UpdateAbsentNode(list[i], key, children);
    }
  }

  lemma {:induction false} UpdateAbsentNode(node: TreeNode, key: string, children: seq<TreeNode>)
    decreases node
    requires FindInNode(node, key) == None
    ensures UpdateNode(node, key, children) == node
  {
    if node.children.Present? {
      UpdateAbsent(node.children.nodes, key, children);
    }
  }

  /** A key missing from a list is missing from each of its nodes. */
  lemma {:induction false} FindAbsentAt(list: seq<TreeNode>, key: string, i: nat)
    requires Find(list, key) == None && i < |list|
    ensures FindInNode(list[i], key) == None
  {
    if i > 0 {
      FindAbsentAt(list[1..], key, i - 1);
    }
  }

  /** Only the nodes on the way to a matching key change: every sibling whose
      subtree does not hold the key comes back as it was. */
  lemma UpdateLeavesOthers(list: seq<TreeNode>, key: string, children: seq<TreeNode>)
    ensures forall i :: 0 <= i < |list| && FindInNode(list[i], key) == None ==>
      UpdateTreeData(list, key, children)[i] == list[i]
  {
    forall i | 0 <= i < |list| && FindInNode(list[i], key) == None
      ensures UpdateTreeData(list, key, children)[i] == list[i]
    {
      UpdateAbsentNode(list[i], key, children);
    }
  }

  /** Expanding the same node twice with the same listing is the same as once. */
  lemma {:induction false} UpdateIdempotent(list: seq<TreeNode>, key: string, children: seq<TreeNode>)
    decreases list
    ensures UpdateTreeData(UpdateTreeData(list, key, children), key, children) == UpdateTreeData(list, key, children)
  {
    var once := UpdateTreeData(list, key, children);
    var twice := UpdateTreeData(once, key, children);
    forall i | 0 <= i < |list| ensures twice[i] == once[i] {
      UpdateIdempotentNode(list[i], key, children);
    }
  }

  lemma {:induction false} UpdateIdempotentNode(node: TreeNode, key: string, children: seq<TreeNode>)
    decreases node
    ensures UpdateNode(UpdateNode(node, key, children), key, children) == UpdateNode(node, key, children)
  {
    if node.key != key && node.children.Present? {
      UpdateIdempotent(node.children.nodes, key, children);
    }
  }

  /** True when the walk of `updateTreeData` would give children to a leaf. */
  predicate ExpandsLeaf(list: seq<TreeNode>, key: string)
    decreases list
  {
    exists i :: 0 <= i < |list| && NodeExpandsLeaf(list[i], key)
  }

  predicate NodeExpandsLeaf(node: TreeNode, key: string)
    decreases node
  {
    if node.key == key then node.isLeaf
    else node.children.Present? && ExpandsLeaf(node.children.nodes, key)
  }

  /** Expanding a directory node with a well-formed listing keeps the tree
      well-formed. */
  lemma {:induction false} UpdateWellFormed(list: seq<TreeNode>, key: string, children: seq<TreeNode>)
    decreases list
    requires WellFormed(list) && WellFormed(children) && !ExpandsLeaf(list, key)
    ensures WellFormed(UpdateTreeData(list, key, children))
  {
    var r := UpdateTreeData(list, key, children);
    forall i | 0 <= i < |list| ensures NodeWellFormed(r[i]) {
      assert !NodeExpandsLeaf(list[i], key);
      UpdateWellFormedNode(list[i], key, children);
    }
  }

  lemma {:induction false} UpdateWellFormedNode(node: TreeNode, key: string, children: seq<TreeNode>)
    decreases node
    requires NodeWellFormed(node) && WellFormed(children) && !NodeExpandsLeaf(node, key)
    ensures NodeWellFormed(UpdateNode(node, key, children))
  {
    if node.key != key && node.children.Present? {
      UpdateWellFormed(node.children.nodes, key, children);
    }
  }
}
