/** The task panel of the main window: the stored tasks projected into a
    two-level tree (task, then its files), refreshed from the store on mount
    and after every task the file browser creates. */
module App {
  import opened Optional
  import opened Strings
  import opened TaskBuilder
  import FileTree

  /** A file under a task; every one carries the Python icon, so the icon is
      not modelled. */
  datatype FileNode = FileNode(title: string, key: string)

  /** A task at the top level of the panel. */
  datatype TaskNode = TaskNode(title: string, key: string, children: seq<FileNode>)

  /** `Object.entries` of the task namespace: name and file list, in the
      order the store object yields them. */
  type TaskEntries = seq<(string, seq<string>)>

  /** The key of a file node: the task name, a dot, the file path. The path
      can be read back as what follows the name and the dot. */
  function ChildKey(taskName: string, filePath: string): (key: string)
    ensures |key| == |taskName| + 1 + |filePath|
    ensures key[..|taskName| + 1] == taskName + "."
    ensures key[|taskName| + 1..] == filePath
  {
    taskName + "." + filePath
  }

  function ConvertFiles(taskName: string, files: seq<string>): (nodes: seq<FileNode>)
    ensures |nodes| == |files|
    ensures forall j :: 0 <= j < |files| ==>
      nodes[j].key == ChildKey(taskName, files[j]) && nodes[j].title == Basename(files[j])
  {
    if files == [] then []
    else [FileNode(Basename(files[0]), ChildKey(taskName, files[0]))] + ConvertFiles(taskName, files[1..])
  }

  /** `convertToTreeData`: one top-level node per task, in entry order, titled
      and keyed by the task name, with one child per file in list order. */
  function ConvertToTreeData(tasks: TaskEntries): (nodes: seq<TaskNode>)
    ensures |nodes| == |tasks|
    ensures forall i :: 0 <= i < |tasks| ==>
      nodes[i].title == tasks[i].0 && nodes[i].key == tasks[i].0 &&
      |nodes[i].children| == |tasks[i].1|
    ensures forall i, j :: 0 <= i < |tasks| && 0 <= j < |tasks[i].1| ==>
      nodes[i].children[j].key == ChildKey(tasks[i].0, tasks[i].1[j]) &&
      nodes[i].children[j].title == Basename(tasks[i].1[j])
  {
    if tasks == [] then []
    else [TaskNode(tasks[0].0, tasks[0].0, ConvertFiles(tasks[0].0, tasks[0].1))] + ConvertToTreeData(tasks[1..])
  }

  /** Within one task, distinct file paths give distinct child keys. */
  lemma ChildKeysDistinct(tasks: TaskEntries, i: nat)
    requires i < |tasks|
    ensures var children := ConvertToTreeData(tasks)[i].children;
      forall j, k :: 0 <= j < k < |children| && tasks[i].1[j] != tasks[i].1[k] ==>
        children[j].key != children[k].key
  {
  }

  /** Across tasks the child keys are not guaranteed distinct: the text of
      one name can run on into the other's path. */
  lemma ChildKeysMayCollide()
    ensures ChildKey("a", "b.c.py") == ChildKey("a.b", "c.py")
  {
  }

  /** No file node's title contains '/', and a title is the whole path when the
      path has no '/'. */
  lemma TitlesAreLastSegments(tasks: TaskEntries)
    ensures var nodes := ConvertToTreeData(tasks);
      forall i, j :: 0 <= i < |tasks| && 0 <= j < |tasks[i].1| ==>
        '/' !in nodes[i].children[j].title &&
        ('/' !in tasks[i].1[j] ==> nodes[i].children[j].title == tasks[i].1[j])
  {
    forall i, j | 0 <= i < |tasks| && 0 <= j < |tasks[i].1|
      ensures '/' !in Basename(tasks[i].1[j])
      ensures '/' !in tasks[i].1[j] ==> Basename(tasks[i].1[j]) == tasks[i].1[j]
    {
      BasenameIsLastSegment(tasks[i].1[j]);
      BasenameWhole(tasks[i].1[j]);
    }
  }

  /** The entries list the store: one entry per stored name, none twice, each
      with the stored file list. Since a top-level node is keyed by its task
      name, the projection of such a listing has pairwise distinct top-level
      keys. */
  predicate ListsStore(tasks: TaskEntries, store: TaskStore) {
    (forall i :: 0 <= i < |tasks| ==> tasks[i].0 in store && store[tasks[i].0] == tasks[i].1) &&
    (forall i, j :: 0 <= i < j < |tasks| ==> tasks[i].0 != tasks[j].0) &&
    (forall name :: name in store ==> exists i :: 0 <= i < |tasks| && tasks[i].0 == name)
  }

  /** The round trip of creating a task and reading the store back: the
      projection holds a node keyed by the new name whose children are the
      stored files, each keyed by the name, a dot and the path, and titled by
      the path's last segment. */
  lemma CreatedTaskProjected(store: TaskStore, name: string, checked: seq<string>, listed: TaskEntries)
    requires CreateTask(store, Some(name), checked).1 == Created
    requires ListsStore(listed, CreateTask(store, Some(name), checked).0)
    ensures exists i :: 0 <= i < |listed| && ProjectsTask(ConvertToTreeData(listed)[i], name, checked)
  {
    var after := CreateTask(store, Some(name), checked).0;
    assert name in after;
    var i :| 0 <= i < |listed| && listed[i].0 == name;
    assert ProjectsTask(ConvertToTreeData(listed)[i], name, checked);
  }

  /** A panel node that shows the task `name` with the files `files`. */
  predicate ProjectsTask(node: TaskNode, name: string, files: seq<string>) {
    node.key == name && node.title == name && |node.children| == |files| &&
    forall j :: 0 <= j < |files| ==>
      node.children[j].key == ChildKey(name, files[j]) && node.children[j].title == Basename(files[j])
  }

  /** The panel's state: the task tree it displays. */
  class TaskPanel {
    var treeData: seq<TaskNode>

    constructor ()
      ensures treeData == []
    {
      treeData := [];
    }

    /** `fetchData`: a missing listing leaves the panel as it was; any listing,
        an empty one included, replaces it with its projection. */
    method FetchData(tasks: Option<TaskEntries>)
      modifies this
      ensures treeData == if tasks.Some? then ConvertToTreeData(tasks.value) else old(treeData)
    {
      if tasks.Some? {
        treeData := ConvertToTreeData(tasks.value);
      }
    }
  }

  /** Confirming the dialog and, on success, the `onCreate` callback that
      refreshes the panel from the store. */
  method ConfirmTask(view: FileTree.FileTreeView, panel: TaskPanel, taskName: Option<string>, listed: Option<TaskEntries>)
    returns (outcome: Outcome)
    requires view.Valid()
    modifies view, panel
    ensures view.Valid()
    ensures (view.tasks, outcome) == CreateTask(old(view.tasks), taskName, old(view.checkedKeys))
    ensures view.isModalOpen == (old(view.isModalOpen) && outcome != Created)
    ensures view.treeData == old(view.treeData) && view.currentDir == old(view.currentDir)
    ensures view.checkedKeys == old(view.checkedKeys) && view.cache == old(view.cache)
    ensures outcome != Created ==> panel.treeData == old(panel.treeData)
    ensures outcome == Created ==>
      panel.treeData == if listed.Some? then ConvertToTreeData(listed.value) else old(panel.treeData)
    ensures outcome == Created && listed.Some? && ListsStore(listed.value, view.tasks) ==>
      exists i :: 0 <= i < |panel.treeData| &&
        ProjectsTask(panel.treeData[i], taskName.value, old(view.checkedKeys))
  {
    outcome := view.OnOk(taskName);
    if outcome == Created {
      panel.FetchData(listed);
      if listed.Some? && ListsStore(listed.value, view.tasks) {
        CreatedTaskProjected(old(view.tasks), taskName.value, view.checkedKeys, listed.value);
      }
    }
  }
}
