/** The file-browser component: its state (the tree, the current directory,
    the checked keys, whether the create-task dialog is open) and the two
    store namespaces it writes, with one method per event handler. The
    directory listing and the chosen folder are parameters (a listing is
    `None` when reading the directory failed); the two single-key store
    reads are the `cache` field in `Mount` and the membership test on the
    `tasks` field in `CreateTask`; the dialog's form value is an optional
    parameter of `OnOk`. */
module FileTree {
  import opened Optional
  import opened Strings
  import opened TreeData
  import opened TaskBuilder

  /** The cache key under which the last opened directory is kept. */
  const ProjectPathKey: string := "projectPath"

  class FileTreeView {
    var treeData: seq<TreeNode>
    var currentDir: string
    var checkedKeys: seq<string>
    var isModalOpen: bool
    /** The task namespace of the persistent store. */
    var tasks: TaskStore
    /** The cache namespace of the persistent store. */
    var cache: map<string, string>

    /** Only ".py" keys are ever held as checked. */
    ghost predicate Valid()
      reads this
    {
      AllPy(checkedKeys)
    }

    /** The component's initial state over the stores as they are on disk. */
    constructor (tasks: TaskStore, cache: map<string, string>)
      ensures Valid()
      ensures treeData == [] && currentDir == "" && checkedKeys == [] && !isModalOpen
      ensures this.tasks == tasks && this.cache == cache
    {
      treeData := [];
      currentDir := "";
      checkedKeys := [];
      isModalOpen := false;
      this.tasks := tasks;
      this.cache := cache;
    }

    /** `loadPath`: the directory shown changes at once; the tree is replaced
        by the formatted listing only when the listing arrives. */
    method LoadPath(path: string, listing: Option<seq<Entry>>)
      requires Valid()
      modifies this
      ensures Valid()
      ensures currentDir == path
      ensures treeData == if listing.Some? then FormatTreeData(listing.value) else old(treeData)
      ensures listing.Some? ==> WellFormed(treeData)
      ensures checkedKeys == old(checkedKeys) && isModalOpen == old(isModalOpen)
      ensures tasks == old(tasks) && cache == old(cache)
    {
      currentDir := path;
      if listing.Some? {
        treeData := FormatTreeData(listing.value);
        FormatWellFormed(listing.value);
      }
    }

    /** The mount effect: reopen the directory remembered in the cache, if any
        non-empty one is there. */
    method Mount(listing: Option<seq<Entry>>)
      requires Valid()
      modifies this
      ensures Valid()
      ensures var remembered := ProjectPathKey in cache && cache[ProjectPathKey] != "";
        if remembered then
          currentDir == cache[ProjectPathKey] &&
          treeData == (if listing.Some? then FormatTreeData(listing.value) else old(treeData))
        else currentDir == old(currentDir) && treeData == old(treeData)
      ensures checkedKeys == old(checkedKeys) && isModalOpen == old(isModalOpen)
      ensures tasks == old(tasks) && cache == old(cache)
    {
      if ProjectPathKey in cache && cache[ProjectPathKey] != "" {
        LoadPath(cache[ProjectPathKey], listing);
      }
    }

    /** `handleSelectDir`: a chosen directory is remembered and loaded; a
        cancelled dialog changes nothing. */
    method HandleSelectDir(dir: Option<string>, listing: Option<seq<Entry>>)
      requires Valid()
      modifies this
      ensures Valid()
      ensures dir.None? || dir.value == "" ==> currentDir == old(currentDir) && treeData == old(treeData) && cache == old(cache)
      ensures dir.Some? && dir.value != "" ==>
        cache == old(cache)[ProjectPathKey := dir.value] && currentDir == dir.value &&
        treeData == (if listing.Some? then FormatTreeData(listing.value) else old(treeData))
      ensures checkedKeys == old(checkedKeys) && isModalOpen == old(isModalOpen)
      ensures tasks == old(tasks)
    {
      if dir.Some? && dir.value != "" {
        cache := cache[ProjectPathKey := dir.value];
        LoadPath(dir.value, listing);
      }
    }

    /** `onLoadData`: the listing of the opened directory becomes the children
        of the node with that key; a failed listing leaves the tree as it was. */
    method OnLoadData(key: string, listing: Option<seq<Entry>>)
      requires Valid()
      modifies this
      ensures Valid()
      ensures treeData == if listing.Some? then UpdateTreeData(old(treeData), key, FormatTreeData(listing.value)) else old(treeData)
      ensures listing.Some? ==> Find(treeData, key) == Grafted(Find(old(treeData), key), FormatTreeData(listing.value))
      ensures old(WellFormed(treeData)) && !ExpandsLeaf(old(treeData), key) ==> WellFormed(treeData)
      ensures currentDir == old(currentDir) && checkedKeys == old(checkedKeys) && isModalOpen == old(isModalOpen)
      ensures tasks == old(tasks) && cache == old(cache)
    {
      if listing.Some? {
        var children := FormatTreeData(listing.value);
        FindAfterUpdate(treeData, key, children);
        FormatWellFormed(listing.value);
        if WellFormed(treeData) && !ExpandsLeaf(treeData, key) {
          UpdateWellFormed(treeData, key, children);
        }
        treeData := UpdateTreeData(treeData, key, children);
      }
    }

    /** `onCheck`: the checked keys become the ".py" ones among those checked. */
    method OnCheck(checks: seq<string>)
      requires Valid()
      modifies this
      ensures Valid()
      ensures checkedKeys == FilterPy(checks)
      ensures treeData == old(treeData) && currentDir == old(currentDir) && isModalOpen == old(isModalOpen)
      ensures tasks == old(tasks) && cache == old(cache)
    {
      checkedKeys := FilterPy(checks);
      assert forall i :: 0 <= i < |checkedKeys| ==> checkedKeys[i] in checkedKeys;
    }

    /** The context-menu entry: the dialog opens only when at least one key is
        checked; otherwise a warning is shown and nothing changes. */
    method OnCreateClick() returns (shown: bool)
      requires Valid()
      modifies this
      ensures Valid()
      ensures shown <==> |checkedKeys| >= 1
      ensures isModalOpen == (old(isModalOpen) || shown)
      ensures treeData == old(treeData) && currentDir == old(currentDir) && checkedKeys == old(checkedKeys)
      ensures tasks == old(tasks) && cache == old(cache)
    {
      shown := |checkedKeys| >= 1;
      if shown {
        isModalOpen := true;
      }
    }

    /** The dialog's `onOk`: the store changes as CreateTask says, and the
        dialog closes only after a task was stored. */
    method OnOk(taskName: Option<string>) returns (outcome: Outcome)
      requires Valid()
      modifies this
      ensures Valid()
      ensures (tasks, outcome) == CreateTask(old(tasks), taskName, checkedKeys)
      ensures outcome == Created ==> taskName.value in tasks && AllPy(tasks[taskName.value])
      ensures old(AllPyTasks(tasks)) ==> AllPyTasks(tasks)
      ensures isModalOpen == (old(isModalOpen) && outcome != Created)
      ensures treeData == old(treeData) && currentDir == old(currentDir) && checkedKeys == old(checkedKeys)
      ensures cache == old(cache)
    {
      var r := CreateTask(tasks, taskName, checkedKeys);
      tasks, outcome := r.0, r.1;
      if outcome == Created {
        isModalOpen := false;
      }
    }

    /** The dialog's `onCancel`. */
    method OnCancel()
      requires Valid()
      modifies this
      ensures Valid()
      ensures !isModalOpen
      ensures treeData == old(treeData) && currentDir == old(currentDir) && checkedKeys == old(checkedKeys)
      ensures tasks == old(tasks) && cache == old(cache)
    {
      isModalOpen := false;
    }
  }
}
