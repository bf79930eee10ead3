# wally-app front-end core in Dafny

This project models the data-shape logic of wally-app's renderer: a desktop tool in which the user opens a
local directory, expands it lazily in a tree view, checks Python files, gathers them into a named task kept in a
persistent store, and sees every stored task in a second tree.

The model has six modules:

- `Optional` is the `Option` datatype. It stands for a value that may be `undefined`.
- `Strings` holds `endsWith`, the `.py` test, JavaScript's `split` for one separator character, `join`, and the
  basename that `split("/").pop()` yields.
- `TreeData` holds the listing entry and the tree node. `FormatTreeData` is `formatTreeData` once the listing has
  arrived. `UpdateTreeData` and `UpdateNode` are `updateTreeData` and its `map` callback, as mutually recursive
  functions. Beside them are a depth-first lookup `Find`, which gives the get-after-put property, and the
  well-formedness invariant (a node is a leaf exactly when it has no `children`).
- `TaskBuilder` holds the `onCheck` filter `FilterPy` and the decision of the dialog's `onOk`, `CreateTask` (empty
  name, name already stored, or created). `CreateTask` works on the task store, modelled as
  `map<string, seq<string>>`.
- `FileTree` holds the component class `FileTreeView`. Its fields are the component's state (`treeData`,
  `currentDir`, `checkedKeys`, `isModalOpen`) and the task and cache namespaces of the store. It has one method per
  handler.
- `App` holds `convertToTreeData` (`ConvertToTreeData`), the panel's `fetchData` with its `if (tasks)` guard
  (`TaskPanel.FetchData`), and the `onCreate` wiring from a created task to a refreshed panel (`ConfirmTask`).

Most awaited answers from the main process are parameters of the method that awaits them:

- the directory listing, which is `None` when reading the directory fails;
- the folder chosen in the native dialog;
- the `Object.entries` of the task namespace, given in the order the store object yields them.

The two single-key store reads are modelled through the component's state instead:

- `cacheStoreGet('projectPath')` reads the `cache` field in `Mount`;
- `taskStoreGet(taskName)` is the membership test `name in tasks` in `CreateTask`.

The dialog's form value (`form.getFieldValue('taskName')`) is a local, synchronous read. `OnOk` takes it as a
parameter that may be missing.

The model follows the code in these details, which differ from what the names might suggest:

- `onOk` does not filter the keys again and does not check for an empty selection. The only selection check is
  the `onCreateClick` gate, and the keys were already filtered by `onCheck`.
- `updateTreeData` replaces the children of every node with the target key, not only of the first one. It never
  descends into a node it replaced.
- `loadPath` sets the current directory before the listing arrives. A failed listing therefore leaves the tree
  as it was, but the directory field has already changed.
- The key of a file under a task is the task name, a dot and the path. For a path that two tasks share, the two
  keys differ. Across tasks, keys can still collide: `ChildKeysMayCollide` gives an example.

## Model

| member | source | states |
|---|---|---|
| TreeData.FormatTreeData | src/components/FileTree.tsx:10-21 | one node per listing entry, in order, with title = name, key = path, isLeaf = not a directory, children empty for a directory and absent for a file, and the Python icon exactly when the path ends in ".py" |
| TreeData.FormatEntry | src/components/FileTree.tsx:14-20 | the node built for one entry gives back that entry, is a leaf exactly when it has no children, and carries the Python icon exactly for a ".py" path |
| TreeData.FormatRoundTrip | src/components/FileTree.tsx:14-18 | the listing can be read back from the formatted nodes, so formatting loses nothing |
| TreeData.FormatWellFormed | src/components/FileTree.tsx:17-18 | a formatted listing satisfies the invariant "leaf exactly when children are absent" |
| TreeData.UpdateTreeData | src/components/FileTree.tsx:67-84 | the same number of siblings; every node keeps title, key, isLeaf and icon; a node with the target key gets exactly the new children; a non-matching node without children is returned as it is |
| TreeData.UpdateNode | src/components/FileTree.tsx:72-83 | for one node: labels kept, a match gets exactly the new children (its old subtree is not searched), a non-match keeps whether it has children and how many |
| TreeData.FindAfterUpdate | src/components/FileTree.tsx:72-84 | the depth-first lookup of the key after the update finds the node found before, now holding the new children; a key that was absent is still absent |
| TreeData.FindAfterUpdateNode | src/components/FileTree.tsx:73-80 | the same get-after-put property for the subtree of one node |
| TreeData.UpdateAbsent | src/components/FileTree.tsx:72-84 | if the key occurs nowhere in the tree, the update returns the tree unchanged |
| TreeData.UpdateAbsentNode | src/components/FileTree.tsx:76-82 | a node whose subtree does not hold the key comes back unchanged |
| TreeData.UpdateLeavesOthers | src/components/FileTree.tsx:72-83 | every sibling whose subtree does not hold the key is left exactly as it was |
| TreeData.UpdateIdempotent | src/components/FileTree.tsx:67-84 | updating twice with the same key and children gives the same tree as updating once |
| TreeData.UpdateIdempotentNode | src/components/FileTree.tsx:72-83 | the same idempotence for one node |
| TreeData.UpdateWellFormed | src/components/FileTree.tsx:67-84 | expanding a directory node with a well-formed listing keeps the whole tree well-formed |
| TreeData.UpdateWellFormedNode | src/components/FileTree.tsx:73-80 | the same preservation for one node |
| Strings.EndsWith | src/components/FileTree.tsx:129 | `endsWith` holds exactly when the string is some prefix followed by the suffix |
| Strings.Basename | src/App.tsx:14 | `split("/").pop()` yields a piece that contains no '/' |
| Strings.Split | src/App.tsx:14 | `split` returns at least one piece, and no piece contains the separator |
| Strings.JoinSplit | src/App.tsx:14 | joining the pieces of a split with the separator gives back the original string |
| Strings.BasenameIsLastSegment | src/App.tsx:14 | the last piece of `split("/")` is a suffix of the path without '/', and it is either the whole path or preceded by '/' |
| Strings.BasenameWhole | src/App.tsx:14 | the basename is the whole path exactly when the path contains no '/' |
| TaskBuilder.FilterPy | src/components/FileTree.tsx:128-131 | a key is kept exactly when it was checked and ends in ".py"; nothing is added |
| TaskBuilder.FilterPyAppend | src/components/FileTree.tsx:129 | filtering distributes over concatenation, so kept keys stay in their original order and multiplicity |
| TaskBuilder.FilterPyKeepsAll | src/components/FileTree.tsx:129 | the filter returns its input exactly when every key ends in ".py" |
| TaskBuilder.FilterPyIdempotent | src/components/FileTree.tsx:129-130 | filtering the filtered keys changes nothing |
| TaskBuilder.CreateTask | src/components/FileTree.tsx:144-172 | the outcome is EmptyName exactly for a missing or empty name, and AlreadyExists exactly for a present name. Created gains exactly name mapped to the checked keys. No existing entry changes, and a refusal leaves the store unchanged |
| TaskBuilder.CreateTwiceRejected | src/components/FileTree.tsx:155-157 | a second creation under the same name is refused and keeps the list stored by the first |
| TaskBuilder.CreateKeepsPyTasks | src/components/FileTree.tsx:128-157 | storing keys that passed the check filter keeps every stored task a list of keys ending in ".py" (a checked directory whose path ends in ".py" is such a key too) |
| FileTree.FileTreeView.constructor | src/components/FileTree.tsx:32-35 | an empty tree, an empty directory field, no checked keys and a closed dialog over the given stores |
| FileTree.FileTreeView.Mount | src/components/FileTree.tsx:38-46 | a non-empty remembered project path is loaded; otherwise nothing changes |
| FileTree.FileTreeView.LoadPath | src/components/FileTree.tsx:48-52 | the directory field becomes the path; the tree becomes the formatted listing if it arrived, and is kept otherwise |
| FileTree.FileTreeView.HandleSelectDir | src/components/FileTree.tsx:54-60 | a chosen directory is written to the cache under "projectPath" and loaded; a cancelled choice changes nothing |
| FileTree.FileTreeView.OnLoadData | src/components/FileTree.tsx:62-65 | the tree becomes the update of the old tree with the formatted listing, with the get-after-put and well-formedness guarantees; a failed listing changes nothing |
| FileTree.FileTreeView.OnCheck | src/components/FileTree.tsx:128-131 | the checked keys become the ".py" keys among those checked, and nothing else changes |
| FileTree.FileTreeView.OnCreateClick | src/components/FileTree.tsx:93-102 | the dialog opens exactly when at least one key is checked |
| FileTree.FileTreeView.OnOk | src/components/FileTree.tsx:144-172 | the store changes as CreateTask says, a created task lists only ".py" keys, and the dialog closes only after a creation |
| FileTree.FileTreeView.OnCancel | src/components/FileTree.tsx:173 | the dialog closes and nothing else changes |
| App.ConvertFiles | src/App.tsx:13-17 | one child per file path in list order, keyed by task name, dot and path, titled by the basename |
| App.ConvertToTreeData | src/App.tsx:9-19 | one top-level node per task entry, in entry order, with title and key equal to the task name, and one child per file, keyed and titled as above |
| App.ChildKey | src/App.tsx:15 | a child key starts with the task name and a dot, and what follows is exactly the file path |
| App.ChildKeysDistinct | src/App.tsx:13-15 | within one task, distinct file paths give distinct child keys |
| App.ChildKeysMayCollide | src/App.tsx:15 | two different tasks can yield the same child key |
| App.TitlesAreLastSegments | src/App.tsx:14 | no child title contains '/', and a path without '/' is its own title |
| App.CreatedTaskProjected | src/App.tsx:29-35 | after a creation, the projection of the store's listing holds a node keyed by the name, whose children are exactly the stored files, keyed and titled as above |
| App.TaskPanel.constructor | src/App.tsx:27 | the panel starts with an empty tree |
| App.TaskPanel.FetchData | src/App.tsx:29-36 | an absent listing leaves the panel's tree as it was; any listing, an empty one included, replaces it with its projection |
| App.ConfirmTask | src/components/FileTree.tsx:155-165 | confirming the dialog changes the store as CreateTask says for the keys checked before the call. The dialog closes only on a creation, and the tree, directory field, checked keys and cache are unchanged. Only a creation refreshes the panel, which then shows the new task with its files. The refresh is the `onCreate={fetchData}` wiring at src/App.tsx:56 |

## Left out

- The Electron main process (`electron/main.ts`) is left out: windows, the native folder dialog, `readdirSync`, `statSync`, `readFileSync`, `path.join` and the `electron-store` wrappers. These are I/O and foreign-library calls. Their answers are parameters here, and the stores are maps.
- The `electron-store` library reads a key containing "." as a path into nested objects, so a task name like "a.b" is not stored as a flat key. The model treats task names as flat keys, because that behaviour belongs to the library.
- `Object.entries` lists integer-like keys first and the others in insertion order. The model takes the entry order as given (`TaskEntries`) and does not derive it from the store.
- `electron/preload.ts` is an IPC bridge and is left out. Its record-store write goes to the channel "reocrdStore:set", while the main process listens on "recordStore:set". The record store is not used by the modelled core.
- Clicking a file (`onSelect`, then `openFile`, then `FileContent`) is left out: it is file I/O plus syntax-highlighted rendering.
- Left out as presentation: React rendering, antd components, message pop-ups, the context menu, styling and `console.log`.
- Concurrent `onLoadData` calls and React's functional `setTreeData((prev) => ...)` updater are left out. Handlers run one after another here, so interleaved expansions are not modelled.
- React keys are modelled as strings only. JavaScript truthiness is modelled only for the cases the code meets: a missing or empty name, a missing or empty path, and an absent task listing.
- FileTree.FileTreeView.Valid: keeps only "every checked key ends in .py". Tree well-formedness is not part of it, because `onLoadData` may name a leaf's key. `OnLoadData` states the preservation conditionally instead.
- FileTree.FileTreeView.OnCheck: can be called while the dialog is open, which can leave the checked keys empty when `OnOk` stores them. The modal overlay that prevents this is rendering and is not modelled.
- Every file under a task carries the same Python icon, so the icon of `App.FileNode` is not modelled. In the file tree, the icon is the boolean `pyIcon`.
