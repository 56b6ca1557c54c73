/** The app shell: the task list and the global member roster, kept in a document store and
    mirrored into the app's state by snapshot listeners, and the four handlers that write
    to the store. */
module App {
  import opened Wrappers
  import opened JsNumber
  import opened Types

  /** The roster document; its `list` field may be missing. */
  datatype Roster = Roster(list: Option<seq<string>>)

  /** The store: task documents newest first (the listener's `createdAt` descending order),
      each with its document id as `id`, and the roster document if it exists. */
  datatype Store = Store(tasks: seq<Task>, roster: Option<Roster>)

  /** The store together with the app's own state: the tasks and roster it last observed and
      whether the first task snapshot is still awaited. */
  datatype State = State(store: Store, tasks: seq<Task>, globalMembers: seq<string>, loading: bool)

  /** No two task documents share an id. */
  predicate UniqueIds(docs: seq<Task>)
    decreases |docs|
  {
    docs == [] || (FindTask(docs[1..], docs[0].id).None? && UniqueIds(docs[1..]))
  }

  /** Every task's winners count is a whole number of at least 1. */
  predicate CountsAtLeastOne(docs: seq<Task>) {
    forall i :: 0 <= i < |docs| ==> docs[i].winnersCount.Int? && docs[i].winnersCount.value >= 1
  }

  /** What the handlers keep true of the store. */
  predicate Valid(store: Store) {
    UniqueIds(store.tasks) && CountsAtLeastOne(store.tasks)
  }

  /** The documents with every one that has id `id` replaced by `t`. */
  function ReplaceTask(docs: seq<Task>, id: string, t: Task): (r: seq<Task>)
    ensures |r| == |docs|
    ensures forall i :: 0 <= i < |docs| ==> r[i] == if docs[i].id == id then t else docs[i]
  {
    if docs == [] then [] else [if docs[0].id == id then t else docs[0]] + ReplaceTask(docs[1..], id, t)
  }

  /** After a replacement by a task with the same id, a lookup of that id finds the
      replacement exactly when it found something before, and every other lookup is as it was. */
  lemma {:induction false} FindAfterReplace(docs: seq<Task>, id: string, t: Task, other: string)
    requires t.id == id
    ensures FindTask(ReplaceTask(docs, id, t), other) ==
            if other != id then FindTask(docs, other)
            else if FindTask(docs, id).Some? then Some(t) else None
  {
    if docs != [] {
      FindAfterReplace(docs[1..], id, t, other);
      assert ReplaceTask(docs, id, t)[1..] == ReplaceTask(docs[1..], id, t);
    }
  }

  /** A replacement by a task with the same id keeps the ids distinct. */
  lemma {:induction false} ReplaceKeepsUniqueIds(docs: seq<Task>, id: string, t: Task)
    requires t.id == id && UniqueIds(docs)
    ensures UniqueIds(ReplaceTask(docs, id, t))
  {
    if docs != [] {
      var r := ReplaceTask(docs, id, t);
      ReplaceKeepsUniqueIds(docs[1..], id, t);
      FindAfterReplace(docs[1..], id, t, docs[0].id);
      assert r[1..] == ReplaceTask(docs[1..], id, t);
    }
  }

  /** `sub` is `docs` with some documents left out, the rest in their order. */
  predicate IsSubsequence(sub: seq<Task>, docs: seq<Task>)
    decreases |docs|
  {
    if sub == [] then true
    else if docs == [] then false
    else if sub[0] == docs[0] then IsSubsequence(sub[1..], docs[1..])
    else IsSubsequence(sub, docs[1..])
  }

  /** The documents without those with id `id`, in order. */
  function RemoveTask(docs: seq<Task>, id: string): (r: seq<Task>)
    ensures forall x :: x in r ==> x in docs && x.id != id
    ensures IsSubsequence(r, docs)
  {
    if docs == [] then []
    else if docs[0].id == id then
      var r := RemoveTask(docs[1..], id);
      SubsequenceOfTail(r, docs);
      r
    else
      var r := [docs[0]] + RemoveTask(docs[1..], id);
      assert r[1..] == RemoveTask(docs[1..], id);
      r
  }

  /** Dropping the first document keeps a subsequence a subsequence. */
  lemma {:induction false} SubsequenceOfTail(sub: seq<Task>, docs: seq<Task>)
    requires docs != [] && IsSubsequence(sub, docs[1..])
    ensures IsSubsequence(sub, docs)
    decreases |docs|, 0
  {
    if sub != [] && sub[0] == docs[0] {
      SubsequenceDropFirst(sub, docs[1..]);
    }
  }

  /** Dropping the first element of a subsequence keeps it a subsequence. */
  lemma {:induction false} SubsequenceDropFirst(sub: seq<Task>, docs: seq<Task>)
    requires sub != [] && IsSubsequence(sub, docs)
    ensures IsSubsequence(sub[1..], docs)
    decreases |docs|, 1
  {
    if sub[0] != docs[0] {
      SubsequenceDropFirst(sub, docs[1..]);
    }
    SubsequenceOfTail(sub[1..], docs);
  }

  /** Every list is a subsequence of itself. */
  lemma {:induction false} SubsequenceRefl(docs: seq<Task>)
    ensures IsSubsequence(docs, docs)
  {
    if docs != [] {
      SubsequenceRefl(docs[1..]);
    }
  }

  /** Removing from a concatenation removes from each part: every document keeps its
      place relative to the others. */
  lemma {:induction false} RemoveTaskConcat(a: seq<Task>, b: seq<Task>, id: string)
    ensures RemoveTask(a + b, id) == RemoveTask(a, id) + RemoveTask(b, id)
  {
    if a != [] {
      assert (a + b)[0] == a[0] && (a + b)[1..] == a[1..] + b;
      RemoveTaskConcat(a[1..], b, id);
      if a[0].id != id {
        assert RemoveTask(a, id) == [a[0]] + RemoveTask(a[1..], id);
        assert RemoveTask(a + b, id) == [a[0]] + RemoveTask(a[1..] + b, id);
      }
    } else {
      assert a + b == b;
    }
  }

  /** After removing `id` a lookup of `id` finds nothing and every other lookup is unchanged. */
  lemma {:induction false} FindAfterRemove(docs: seq<Task>, id: string, other: string)
    ensures FindTask(RemoveTask(docs, id), other) == if other == id then None else FindTask(docs, other)
  {
    if docs != [] {
      FindAfterRemove(docs[1..], id, other);
      if docs[0].id != id {
        assert RemoveTask(docs, id)[1..] == RemoveTask(docs[1..], id);
      }
    }
  }

  /** Removing documents keeps the ids distinct. */
  lemma {:induction false} RemoveKeepsUniqueIds(docs: seq<Task>, id: string)
    requires UniqueIds(docs)
    ensures UniqueIds(RemoveTask(docs, id))
  {
    if docs != [] {
      RemoveKeepsUniqueIds(docs[1..], id);
      if docs[0].id != id {
        FindAfterRemove(docs[1..], id, docs[0].id);
        assert RemoveTask(docs, id)[1..] == RemoveTask(docs[1..], id);
      }
    }
  }

  /** Removing documents keeps every count at least 1. */
  lemma RemoveKeepsCounts(docs: seq<Task>, id: string)
    requires CountsAtLeastOne(docs)
    ensures CountsAtLeastOne(RemoveTask(docs, id))
  {
    var r := RemoveTask(docs, id);
    forall i | 0 <= i < |r| ensures r[i].winnersCount.Int? && r[i].winnersCount.value >= 1 {
      assert r[i] in r;
    }
  }

  /** Removing documents keeps the store's invariant. */
  lemma RemoveKeepsValid(docs: seq<Task>, id: string)
    ensures Valid(Store(docs, None)) ==> Valid(Store(RemoveTask(docs, id), None))
  {
    if Valid(Store(docs, None)) {
      RemoveKeepsUniqueIds(docs, id);
      RemoveKeepsCounts(docs, id);
    }
  }

  /** `handleAddTask`: the new document carries the form's fields, a winners count of 1 and,
      as its members, the roster the app last observed. It becomes the newest task; when the
      write fails nothing changes. */
  function AddTask(s: State, fields: TaskFields, id: string, ok: bool): (t: State)
    requires FindTask(s.store.tasks, id).None?
    ensures !ok ==> t == s
    ensures ok ==> FindTask(t.store.tasks, id) ==
                   Some(Task(id, fields.title, fields.category, fields.icon, fields.color, Int(1), s.globalMembers))
    ensures ok ==> t.store.tasks[0].id == id && t.store.tasks[1..] == s.store.tasks
    ensures forall other :: other != id ==> FindTask(t.store.tasks, other) == FindTask(s.store.tasks, other)
    ensures t.store.roster == s.store.roster && t.tasks == s.tasks &&
            t.globalMembers == s.globalMembers && t.loading == s.loading
    ensures Valid(s.store) ==> Valid(t.store)
  {
    if ok then
      var doc := Task(id, fields.title, fields.category, fields.icon, fields.color, Int(1), s.globalMembers);
      assert ([doc] + s.store.tasks)[1..] == s.store.tasks;
      s.(store := s.store.(tasks := [doc] + s.store.tasks))
    else
      s
  }

  /** `handleDeleteTask`: the document with that id is gone and every other is unchanged;
      deleting a missing id changes nothing, and a failed write changes nothing. */
  function DeleteTask(s: State, id: string, ok: bool): (t: State)
    ensures !ok ==> t == s
    ensures ok ==> FindTask(t.store.tasks, id).None?
    ensures IsSubsequence(t.store.tasks, s.store.tasks)
    ensures forall other :: other != id ==> FindTask(t.store.tasks, other) == FindTask(s.store.tasks, other)
    ensures t.store.roster == s.store.roster && t.tasks == s.tasks &&
            t.globalMembers == s.globalMembers && t.loading == s.loading
    ensures Valid(s.store) ==> Valid(t.store)
  {
    if ok then
      var docs := RemoveTask(s.store.tasks, id);
      FindAfterRemove(s.store.tasks, id, id);
      assert forall other :: FindTask(docs, other) == if other == id then None else FindTask(s.store.tasks, other) by {
        forall other { FindAfterRemove(s.store.tasks, id, other); }
      }
      RemoveKeepsValid(s.store.tasks, id);
      s.(store := s.store.(tasks := docs))
    else
      SubsequenceRefl(s.store.tasks);
      s
  }

  /** `Math.max(1, (count || 1) + delta)`: a missing, zero or NaN count counts as 1, and the
      result is the shifted count but never below 1. */
  function NextCount(count: Num, delta: int): (n: int)
    ensures n >= 1
    ensures n >= (if count.Truthy() then count.value else 1) + delta
    ensures n == 1 || n == (if count.Truthy() then count.value else 1) + delta
  {
    var base := if count.Truthy() then count.value else 1;
    if base + delta > 1 then base + delta else 1
  }

  /** The buttons' steps: a decrement at 1 stays at 1, a decrement above 1 and an increment
      move by one, and a falsy count is treated as 1. */
  lemma NextCountSteps(v: int)
    requires v >= 1
    ensures NextCount(Int(1), -1) == 1
    ensures v > 1 ==> NextCount(Int(v), -1) == v - 1
    ensures NextCount(Int(v), 1) == v + 1
    ensures NextCount(NaN, 1) == NextCount(Int(0), 1) == 2
  {
  }

  /** `handleUpdateWinners`: a task missing from the app's list is ignored. Otherwise the
      next count is computed from the count the app shows and written to the stored task,
      whose other fields stay; a missing document or a failed write changes nothing. */
  function UpdateWinners(s: State, id: string, delta: int, ok: bool): (t: State)
    ensures FindTask(s.tasks, id).None? || !ok || FindTask(s.store.tasks, id).None? ==> t == s
    ensures FindTask(s.tasks, id).Some? && ok && FindTask(s.store.tasks, id).Some? ==>
              FindTask(t.store.tasks, id) ==
              Some(FindTask(s.store.tasks, id).value.(winnersCount := Int(NextCount(FindTask(s.tasks, id).value.winnersCount, delta))))
    ensures forall other :: other != id ==> FindTask(t.store.tasks, other) == FindTask(s.store.tasks, other)
    ensures |t.store.tasks| == |s.store.tasks|
    ensures forall k :: 0 <= k < |t.store.tasks| ==> t.store.tasks[k].id == s.store.tasks[k].id
    ensures t.store.roster == s.store.roster && t.tasks == s.tasks &&
            t.globalMembers == s.globalMembers && t.loading == s.loading
    ensures Valid(s.store) ==> Valid(t.store)
  {
    var shown := FindTask(s.tasks, id);
    var stored := FindTask(s.store.tasks, id);
    if shown.None? || !ok || stored.None? then s
    else
      var doc := stored.value.(winnersCount := Int(NextCount(shown.value.winnersCount, delta)));
      ReplaceUpdates(s.store.tasks, id, doc);
      s.(store := s.store.(tasks := ReplaceTask(s.store.tasks, id, doc)))
  }

  /** Replacing by a task with the same id and a count of at least 1: the lookups and the
      store's invariant as the handlers need them. */
  lemma ReplaceUpdates(docs: seq<Task>, id: string, doc: Task)
    requires doc.id == id
    ensures FindTask(docs, id).Some? ==> FindTask(ReplaceTask(docs, id, doc), id) == Some(doc)
    ensures forall other :: other != id ==> FindTask(ReplaceTask(docs, id, doc), other) == FindTask(docs, other)
    ensures Valid(Store(docs, None)) && doc.winnersCount.Int? && doc.winnersCount.value >= 1 ==>
            Valid(Store(ReplaceTask(docs, id, doc), None))
  {
    FindAfterReplace(docs, id, doc, id);
    forall other | other != id
      ensures FindTask(ReplaceTask(docs, id, doc), other) == FindTask(docs, other)
    {
      FindAfterReplace(docs, id, doc, other);
    }
    if UniqueIds(docs) {
      ReplaceKeepsUniqueIds(docs, id, doc);
    }
  }

  /** `handleUpdateMembers`: first the roster document is overwritten with the new list, then
      the task's members. When the first write fails neither happens; when only the second
      fails the roster is updated and the task keeps its old members. */
  function UpdateMembers(s: State, taskId: string, names: seq<string>, rosterOk: bool, taskOk: bool): (t: State)
    ensures !rosterOk ==> t == s
    ensures rosterOk ==> t.store.roster == Some(Roster(Some(names)))
    ensures rosterOk && taskOk && FindTask(s.store.tasks, taskId).Some? ==>
              FindTask(t.store.tasks, taskId) == Some(FindTask(s.store.tasks, taskId).value.(members := names))
    ensures !taskOk || FindTask(s.store.tasks, taskId).None? ==> t.store.tasks == s.store.tasks
    ensures forall other :: other != taskId ==> FindTask(t.store.tasks, other) == FindTask(s.store.tasks, other)
    ensures |t.store.tasks| == |s.store.tasks|
    ensures forall k :: 0 <= k < |t.store.tasks| ==> t.store.tasks[k].id == s.store.tasks[k].id
    ensures t.tasks == s.tasks && t.globalMembers == s.globalMembers && t.loading == s.loading
    ensures Valid(s.store) ==> Valid(t.store)
  {
    if !rosterOk then s
    else
      var s1 := s.(store := s.store.(roster := Some(Roster(Some(names)))));
      var stored := FindTask(s1.store.tasks, taskId);
      if !taskOk || stored.None? then s1
      else
        var doc := stored.value.(members := names);
        ReplaceUpdates(s1.store.tasks, taskId, doc);
        assert CountsAtLeastOne(s1.store.tasks) ==> doc.winnersCount.Int? && doc.winnersCount.value >= 1;
        s1.(store := s1.store.(tasks := ReplaceTask(s1.store.tasks, taskId, doc)))
  }

  /** The task listener: the app's list becomes the store's list, in the store's order, and
      loading ends. */
  function OnTasksSnapshot(s: State): (t: State)
    ensures t.tasks == s.store.tasks && !t.loading
    ensures forall id :: FindTask(t.tasks, id) == FindTask(t.store.tasks, id)
    ensures t.store == s.store && t.globalMembers == s.globalMembers
  {
    s.(tasks := s.store.tasks, loading := false)
  }

  /** The roster listener: an existing roster document is observed as its list, or as the
      empty list when the field is missing; a missing document is created with an empty list
      (when that write succeeds) and nothing is observed yet. */
  function OnRosterSnapshot(s: State, ok: bool): (t: State)
    ensures s.store.roster.Some? ==> t.globalMembers == s.store.roster.value.list.GetOr([]) && t.store == s.store
    ensures s.store.roster.None? ==>
              t.globalMembers == s.globalMembers && t.store.roster == (if ok then Some(Roster(Some([]))) else None)
    ensures t.store.tasks == s.store.tasks && t.tasks == s.tasks && t.loading == s.loading
    ensures Valid(s.store) ==> Valid(t.store)
  {
    match s.store.roster
    case Some(doc) => s.(globalMembers := doc.list.GetOr([]))
    case None => if ok then s.(store := s.store.(roster := Some(Roster(Some([]))))) else s
  }

  /** Bootstrap: with no roster document, the first snapshot creates it and the one that the
      creation triggers makes the app observe an empty roster. */
  lemma RosterBootstrap(s: State)
    requires s.store.roster.None?
    ensures OnRosterSnapshot(OnRosterSnapshot(s, true), true).globalMembers == []
    ensures OnRosterSnapshot(OnRosterSnapshot(s, true), true).store.roster == Some(Roster(Some([])))
  {
  }

  /** A member update with both writes succeeding, once observed, makes the roster and the
      task's members equal the new list, and a task created afterwards starts with it. */
  lemma UpdateMembersObserved(s: State, taskId: string, names: seq<string>, fields: TaskFields, id: string)
    requires FindTask(s.store.tasks, taskId).Some?
    requires FindTask(s.store.tasks, id).None? && id != taskId
    ensures var t := OnTasksSnapshot(OnRosterSnapshot(UpdateMembers(s, taskId, names, true, true), true));
            t.globalMembers == names &&
            FindTask(t.tasks, taskId).Some? && FindTask(t.tasks, taskId).value.members == names &&
            FindTask(AddTask(t, fields, id, true).store.tasks, id).value.members == names
  {
  }

  /** Repeating a successful member update with the same list changes nothing more. */
  lemma {:induction false} UpdateMembersIdempotent(s: State, taskId: string, names: seq<string>)
    ensures var once := UpdateMembers(s, taskId, names, true, true);
            UpdateMembers(once, taskId, names, true, true) == once
  {
    var once := UpdateMembers(s, taskId, names, true, true);
    var stored := FindTask(s.store.tasks, taskId);
    if stored.Some? {
      var doc := stored.value.(members := names);
      ReplaceTwice(s.store.tasks, taskId, doc);
    }
  }

  /** Replacing twice by the same task is replacing once. */
  lemma {:induction false} ReplaceTwice(docs: seq<Task>, id: string, t: Task)
    ensures ReplaceTask(ReplaceTask(docs, id, t), id, t) == ReplaceTask(docs, id, t)
  {
    if docs != [] {
      ReplaceTwice(docs[1..], id, t);
      assert ReplaceTask(docs, id, t)[1..] == ReplaceTask(docs[1..], id, t);
    }
  }

  /** The app component together with the abstract store it writes to. */
  class AppShell {
    var taskDocs: seq<Task>
    var roster: Option<Roster>
    var tasks: seq<Task>
    var globalMembers: seq<string>
    var loading: bool

    /** The store and the app's state as one value. */
    function Current(): State
      reads this
    {
      State(Store(taskDocs, roster), tasks, globalMembers, loading)
    }

    /** The store's invariant. */
    predicate Invariant()
      reads this
    {
      Valid(Store(taskDocs, roster))
    }

    /** Mounting: the app starts loading with nothing observed. */
    constructor (docs: seq<Task>, rosterDoc: Option<Roster>)
      requires Valid(Store(docs, rosterDoc))
      ensures Current() == State(Store(docs, rosterDoc), [], [], true)
      ensures Invariant()
    {
      taskDocs := docs;
      roster := rosterDoc;
      tasks := [];
      globalMembers := [];
      loading := true;
    }

    method ReceiveTasks()
      requires Invariant()
      modifies this
      ensures Current() == OnTasksSnapshot(old(Current()))
      ensures Invariant()
    {
      tasks := taskDocs;
      loading := false;
    }

    method ReceiveRoster(ok: bool)
      requires Invariant()
      modifies this
      ensures Current() == OnRosterSnapshot(old(Current()), ok)
      ensures Invariant()
    {
      if roster.Some? {
        globalMembers := roster.value.list.GetOr([]);
      } else if ok {
        roster := Some(Roster(Some([])));
      }
    }

    method HandleAddTask(fields: TaskFields, id: string, ok: bool)
      requires Invariant() && FindTask(taskDocs, id).None?
      modifies this
      ensures Current() == AddTask(old(Current()), fields, id, ok)
      ensures Invariant()
    {
      if ok {
        var doc := Task(id, fields.title, fields.category, fields.icon, fields.color, Int(1), globalMembers);
        taskDocs := [doc] + taskDocs;
      }
    }

    method HandleDeleteTask(id: string, ok: bool)
      requires Invariant()
      modifies this
      ensures Current() == DeleteTask(old(Current()), id, ok)
      ensures Invariant()
    {
      if ok {
        taskDocs := RemoveTask(taskDocs, id);
      }
    }

    method HandleUpdateWinners(id: string, delta: int, ok: bool)
      requires Invariant()
      modifies this
      ensures Current() == UpdateWinners(old(Current()), id, delta, ok)
      ensures Invariant()
    {
      var shown := FindTask(tasks, id);
      if shown.None? {
        return;
      }
      var stored := FindTask(taskDocs, id);
      if ok && stored.Some? {
        var doc := stored.value.(winnersCount := Int(NextCount(shown.value.winnersCount, delta)));
        taskDocs := ReplaceTask(taskDocs, id, doc);
      }
    }

    method HandleUpdateMembers(taskId: string, names: seq<string>, rosterOk: bool, taskOk: bool)
      requires Invariant()
      modifies this
      ensures Current() == UpdateMembers(old(Current()), taskId, names, rosterOk, taskOk)
      ensures Invariant()
    {
      if !rosterOk {
        return;
      }
      roster := Some(Roster(Some(names)));
      var stored := FindTask(taskDocs, taskId);
      if taskOk && stored.Some? {
        taskDocs := ReplaceTask(taskDocs, taskId, stored.value.(members := names));
      }
    }
  }
}
