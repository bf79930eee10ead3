/** The rules that turn checked tree keys into a stored task: the `.py`
    filter applied on every check, and the decision taken when the
    create-task dialog is confirmed. */
module TaskBuilder {
  import opened Optional
  import opened Strings

  /** The task namespace of the persistent store: task name to file paths. */
  type TaskStore = map<string, seq<string>>

  /** Every key ends in ".py". */
  predicate AllPy(keys: seq<string>) {
    forall i :: 0 <= i < |keys| ==> IsPy(keys[i])
  }

  /** The `onCheck` filter: the checked keys that end in ".py", in order. */
  function FilterPy(keys: seq<string>): (kept: seq<string>)
    ensures forall k :: k in kept <==> k in keys && IsPy(k)
    ensures |kept| <= |keys|
  {
    if keys == [] then []
    else if IsPy(keys[0]) then [keys[0]] + FilterPy(keys[1..])
    else FilterPy(keys[1..])
  }

  /** Filtering a concatenation filters each part: with the one-element case,
      this says the kept keys keep their order and their multiplicity. */
  lemma {:induction false} FilterPyAppend(a: seq<string>, b: seq<string>)
    ensures FilterPy(a + b) == FilterPy(a) + FilterPy(b)
  {
    if a == [] {
      assert a + b == b;
    } else {
      assert (a + b)[0] == a[0];
      assert (a + b)[1..] == a[1..] + b;
      FilterPyAppend(a[1..], b);
    }
  }

  /** The keys are kept unchanged exactly when every one of them ends in ".py". */
  lemma {:induction false} FilterPyKeepsAll(keys: seq<string>)
    ensures FilterPy(keys) == keys <==> AllPy(keys)
  {
    if keys != [] {
      FilterPyKeepsAll(keys[1..]);
      if !IsPy(keys[0]) {
        assert |FilterPy(keys)| < |keys|;
      }
    }
  }

  /** Applying the filter a second time changes nothing. */
  lemma FilterPyIdempotent(keys: seq<string>)
    ensures FilterPy(FilterPy(keys)) == FilterPy(keys)
  {
  }

  /** What confirming the dialog reports to the user. */
  datatype Outcome = EmptyName | AlreadyExists | Created

  /** The dialog's `onOk`: a missing or empty name (JavaScript's `!taskName`
      for a field that is a string or missing) is refused, a name already
      in the store is refused, and otherwise the checked keys are stored
      under the name. Values in the store are arrays, which are never falsy,
      so "already exists" is "the key is present". */
  function CreateTask(store: TaskStore, name: Option<string>, checked: seq<string>): (r: (TaskStore, Outcome))
    ensures r.1 == EmptyName <==> name.None? || name.value == ""
    ensures r.1 == AlreadyExists <==> name.Some? && name.value != "" && name.value in store
    ensures r.1 == Created ==> r.0.Keys == store.Keys + {name.value} && r.0[name.value] == checked
    ensures forall k :: k in store ==> k in r.0 && r.0[k] == store[k]
    ensures r.1 != Created ==> r.0 == store
  {
    if name.None? || name.value == "" then (store, EmptyName)
    else if name.value in store then (store, AlreadyExists)
    else (store[name.value := checked], Created)
  }

  /** A second creation under the same name is refused and leaves the list
      stored by the first one untouched. */
  lemma CreateTwiceRejected(store: TaskStore, name: string, first: seq<string>, second: seq<string>)
    requires name != ""
    ensures var (s1, o1) := CreateTask(store, Some(name), first);
            var (s2, o2) := CreateTask(s1, Some(name), second);
            o2 == AlreadyExists && s2 == s1 && name in s2 &&
            (o1 == Created ==> s2[name] == first)
  {
  }

  /** Every task in the store lists only keys ending in ".py". */
  predicate AllPyTasks(store: TaskStore) {
    forall k :: k in store ==> AllPy(store[k])
  }

  /** Storing keys that went through the check filter keeps every task a
      list of keys ending in ".py" (a checked directory whose path ends in
      ".py" passes the filter too). */
  lemma CreateKeepsPyTasks(store: TaskStore, name: Option<string>, checks: seq<string>)
    requires AllPyTasks(store)
    ensures AllPyTasks(CreateTask(store, name, FilterPy(checks)).0)
  {
  }
}
