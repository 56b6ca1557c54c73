/** The member page: a selection list of the task's members, edits that are sent to the
    store as whole name lists, and the start of a draw over the checked members. */
module MembersPage {
  import opened Wrappers
  import opened JsString
  import opened Types

  /** The names of the rows, in order. */
  function Names(ms: seq<Member>): (names: seq<string>)
    ensures |names| == |ms|
    ensures forall i :: 0 <= i < |ms| ==> names[i] == ms[i].name
  {
    if ms == [] then [] else [ms[0].name] + Names(ms[1..])
  }

  /** The selection list a sync builds: one checked row per name. */
  function AllChecked(names: seq<string>): (ms: seq<Member>)
    ensures |ms| == |names|
    ensures forall i :: 0 <= i < |ms| ==> ms[i] == Member(names[i], true)
  {
    if names == [] then [] else [Member(names[0], true)] + AllChecked(names[1..])
  }

  /** The list with every flag set to `checked`. */
  function WithAllFlags(ms: seq<Member>, checked: bool): (r: seq<Member>)
    ensures |r| == |ms|
    ensures forall i :: 0 <= i < |ms| ==> r[i] == Member(ms[i].name, checked)
  {
    if ms == [] then [] else [Member(ms[0].name, checked)] + WithAllFlags(ms[1..], checked)
  }

  /** `members.filter(m => m.checked).map(m => m.name)`: the checked names in list order. */
  function CheckedNames(ms: seq<Member>): (names: seq<string>)
    ensures |names| <= |ms|
  {
    if ms == [] then [] else (if ms[0].checked then [ms[0].name] else []) + CheckedNames(ms[1..])
  }

  /** `checkedCount`: how many rows are checked. */
  function CheckedCount(ms: seq<Member>): (n: nat)
    ensures n <= |ms|
  {
    |CheckedNames(ms)|
  }

  /** A name is among the checked names exactly when some checked row carries it. */
  lemma {:induction false} CheckedNamesAreCheckedRows(ms: seq<Member>, x: string)
    ensures x in CheckedNames(ms) <==> exists i :: 0 <= i < |ms| && ms[i].checked && ms[i].name == x
  {
    if ms != [] {
      var tail := ms[1..];
      CheckedNamesAreCheckedRows(tail, x);
      if exists i :: 0 <= i < |ms| && ms[i].checked && ms[i].name == x {
        var i :| 0 <= i < |ms| && ms[i].checked && ms[i].name == x;
        if i > 0 {
          assert tail[i - 1] == ms[i];
        }
      }
      if exists i :: 0 <= i < |tail| && tail[i].checked && tail[i].name == x {
        var i :| 0 <= i < |tail| && tail[i].checked && tail[i].name == x;
        assert ms[i + 1] == tail[i];
      }
    }
  }

  /** A row added at the end adds its name at the end exactly when it is checked: the
      checked names keep the list's order. */
  lemma {:induction false} CheckedNamesAppend(ms: seq<Member>, m: Member)
    ensures CheckedNames(ms + [m]) == CheckedNames(ms) + (if m.checked then [m.name] else [])
  {
    if ms == [] {
      assert [] + [m] == [m];
      assert [m][1..] == [];
    } else {
      CheckedNamesAppend(ms[1..], m);
      assert (ms + [m])[1..] == ms[1..] + [m];
    }
  }

  /** The checked positions of a list. */
  function CheckedPositions(ms: seq<Member>): set<int> {
    set i | 0 <= i < |ms| && ms[i].checked
  }

  /** `checkedCount` is the number of checked rows. */
  lemma {:induction false} CheckedCountIsCheckedRows(ms: seq<Member>)
    ensures CheckedCount(ms) == |CheckedPositions(ms)|
    decreases |ms|
  {
    if ms != [] {
      var init := ms[..|ms| - 1];
      var m := ms[|ms| - 1];
      assert ms == init + [m];
      CheckedCountIsCheckedRows(init);
      CheckedNamesAppend(init, m);
      var k := |init|;
      if m.checked {
        assert CheckedPositions(ms) == CheckedPositions(init) + {k};
        assert k !in CheckedPositions(init);
      } else {
        assert CheckedPositions(ms) == CheckedPositions(init);
      }
    }
  }

  /** The checked names are some of the listed names: none occurs more often than listed. */
  lemma {:induction false} CheckedNamesListed(ms: seq<Member>)
    ensures multiset(CheckedNames(ms)) <= multiset(Names(ms))
  {
    if ms != [] {
      CheckedNamesListed(ms[1..]);
      assert Names(ms) == [ms[0].name] + Names(ms[1..]);
    }
  }

  /** All rows are checked exactly when the count of checked rows is the length of the list. */
  lemma {:induction false} CountIsLengthIffAllChecked(ms: seq<Member>)
    ensures CheckedCount(ms) == |ms| <==> forall i :: 0 <= i < |ms| ==> ms[i].checked
  {
    if ms != [] {
      var tail := ms[1..];
      CountIsLengthIffAllChecked(tail);
      assert CheckedCount(ms) == (if ms[0].checked then 1 else 0) + CheckedCount(tail);
      if forall i :: 0 <= i < |ms| ==> ms[i].checked {
        assert forall i :: 0 <= i < |tail| ==> tail[i].checked by {
          forall i | 0 <= i < |tail| ensures tail[i].checked { assert tail[i] == ms[i + 1]; }
        }
      } else {
        var j :| 0 <= j < |ms| && !ms[j].checked;
        if j > 0 {
          assert !tail[j - 1].checked;
        }
      }
    }
  }

  /** No row is checked exactly when the checked count is 0. */
  lemma {:induction false} CountIsZeroIffNoneChecked(ms: seq<Member>)
    ensures CheckedCount(ms) == 0 <==> forall i :: 0 <= i < |ms| ==> !ms[i].checked
  {
    if ms != [] {
      var tail := ms[1..];
      CountIsZeroIffNoneChecked(tail);
      assert CheckedCount(ms) == (if ms[0].checked then 1 else 0) + CheckedCount(tail);
      if forall i :: 0 <= i < |ms| ==> !ms[i].checked {
        assert forall i :: 0 <= i < |tail| ==> !tail[i].checked by {
          forall i | 0 <= i < |tail| ensures !tail[i].checked { assert tail[i] == ms[i + 1]; }
        }
      } else {
        var j :| 0 <= j < |ms| && ms[j].checked;
        if j > 0 {
          assert tail[j - 1].checked;
        }
      }
    }
  }

  /** With every row checked, the checked names are all the names. */
  lemma {:induction false} CheckedNamesOfAllChecked(ms: seq<Member>)
    requires forall i :: 0 <= i < |ms| ==> ms[i].checked
    ensures CheckedNames(ms) == Names(ms)
  {
    if ms != [] {
      CheckedNamesOfAllChecked(ms[1..]);
    }
  }

  /** The "select all" box: checked exactly when the list is non-empty and every row is. */
  predicate SelectAllBox(ms: seq<Member>) {
    |ms| > 0 && CheckedCount(ms) == |ms|
  }

  /** The "select all" box is checked exactly when the list is non-empty and every row is
      checked; it stays unchecked for an empty list. */
  lemma SelectAllBoxIff(ms: seq<Member>)
    ensures SelectAllBox(ms) <==> |ms| > 0 && forall i :: 0 <= i < |ms| ==> ms[i].checked
  {
    CountIsLengthIffAllChecked(ms);
  }

  /** After a sync the list has the task's names in order and all of them are selected. */
  lemma SyncSelectsAll(names: seq<string>)
    ensures Names(AllChecked(names)) == names
    ensures CheckedNames(AllChecked(names)) == names
    ensures names != [] ==> SelectAllBox(AllChecked(names))
  {
    CheckedNamesOfAllChecked(AllChecked(names));
    CountIsLengthIffAllChecked(AllChecked(names));
  }

  /** Setting every flag keeps the names in order. */
  lemma WithAllFlagsKeepsNames(ms: seq<Member>, checked: bool)
    ensures Names(WithAllFlags(ms, checked)) == Names(ms)
  {
    var r := WithAllFlags(ms, checked);
    assert forall i :: 0 <= i < |ms| ==> Names(r)[i] == r[i].name == ms[i].name == Names(ms)[i];
  }

  /** Toggling all on selects every name; toggling all off selects none. */
  lemma ToggleAllSelection(ms: seq<Member>)
    ensures CheckedNames(WithAllFlags(ms, true)) == Names(ms)
    ensures CheckedNames(WithAllFlags(ms, false)) == []
  {
    CheckedNamesOfAllChecked(WithAllFlags(ms, true));
    WithAllFlagsKeepsNames(ms, true);
    CountIsZeroIffNoneChecked(WithAllFlags(ms, false));
  }

  /** The request `onUpdateMembers(taskId, names)` sends to the store. */
  datatype MembersUpdate = MembersUpdate(taskId: string, names: seq<string>)

  /** `addMember`: with a non-blank input and a task id, the current names with the trimmed
      input appended at the end; otherwise nothing is sent. */
  function AddRequest(ms: seq<Member>, input: string, taskId: Option<string>): (r: Option<MembersUpdate>)
    ensures r.Some? <==> !AllWhiteSpace(input) && Truthy(taskId)
    ensures r.Some? ==> r.value.taskId == taskId.value && |r.value.names| == |ms| + 1 &&
                        r.value.names[..|ms|] == Names(ms) &&
                        r.value.names[|ms|] == Trim(input) && r.value.names[|ms|] != []
  {
    TrimEmptyIffBlank(input);
    if Trim(input) != [] && Truthy(taskId) then
      Some(MembersUpdate(taskId.value, Names(ms) + [Trim(input)]))
    else
      None
  }

  /** `members.filter((_, i) => i !== index).map(m => m.name)`, for rows whose positions
      start at `start`: the names with the row at position `index` left out, if there is one. */
  function NamesExcept(ms: seq<Member>, index: int, start: int): (names: seq<string>)
    ensures start <= index < start + |ms| ==>
              names == Names(ms)[..index - start] + Names(ms)[index - start + 1..]
    ensures !(start <= index < start + |ms|) ==> names == Names(ms)
    decreases |ms|
  {
    if ms == [] then []
    else
      var rest := NamesExcept(ms[1..], index, start + 1);
      assert Names(ms) == [ms[0].name] + Names(ms[1..]);
      (if start == index then [] else [ms[0].name]) + rest
  }

  /** `deleteMember(index)`: with a task id, the names with exactly the row at `index` removed,
      the rest in order; an index outside the list removes nothing. */
  function DeleteRequest(ms: seq<Member>, index: int, taskId: Option<string>): (r: Option<MembersUpdate>)
    ensures r.Some? <==> Truthy(taskId)
    ensures r.Some? && 0 <= index < |ms| ==>
              r.value == MembersUpdate(taskId.value, Names(ms)[..index] + Names(ms)[index + 1..])
    ensures r.Some? && !(0 <= index < |ms|) ==> r.value == MembersUpdate(taskId.value, Names(ms))
  {
    if Truthy(taskId) then Some(MembersUpdate(taskId.value, NamesExcept(ms, index, 0))) else None
  }

  /** The route of the result page for a task and a draw list. */
  function ResultRoute(taskId: string, memberList: string): string {
    "/result/" + taskId + "/" + memberList
  }

  /** What `startDraw` does: nothing while the task is not loaded, an alert when no row is
      checked, and otherwise navigation to the result page. */
  datatype DrawStart = Ignored | Rejected | Navigate(path: string)

  /** `startDraw`: ignored without a task or an id, rejected when no row is checked, and
      otherwise a navigation whose member list is the checked names joined by commas, in
      list order. */
  function StartDraw(task: Option<Task>, taskId: Option<string>, ms: seq<Member>): (r: DrawStart)
    ensures r.Ignored? <==> task.None? || !Truthy(taskId)
    ensures r.Rejected? <==> task.Some? && Truthy(taskId) && forall i :: 0 <= i < |ms| ==> !ms[i].checked
    ensures r.Navigate? ==> r.path == ResultRoute(taskId.value, Join(CheckedNames(ms), ","))
  {
    CountIsZeroIffNoneChecked(ms);
    if task.None? || !Truthy(taskId) then Ignored
    else
      var active := CheckedNames(ms);
      if |active| == 0 then Rejected
      else Navigate(ResultRoute(taskId.value, Join(active, ",")))
  }

  /** When no name holds a comma, no checked name does. */
  lemma {:induction false} CheckedNamesCommaFree(ms: seq<Member>)
    requires forall i :: 0 <= i < |ms| ==> ',' !in ms[i].name
    ensures forall k :: 0 <= k < |CheckedNames(ms)| ==> ',' !in CheckedNames(ms)[k]
  {
    if ms != [] {
      assert forall i :: 1 <= i < |ms| ==> ms[i] == ms[1..][i - 1];
      CheckedNamesCommaFree(ms[1..]);
    }
  }

  /** The member list in a draw route splits back into exactly the checked names when no
      name holds a comma, so the result page draws from the selected members. */
  lemma DrawRouteLists(task: Task, taskId: string, ms: seq<Member>)
    requires taskId != ""
    requires forall i :: 0 <= i < |ms| ==> ',' !in ms[i].name
    requires exists i :: 0 <= i < |ms| && ms[i].checked
    ensures StartDraw(Some(task), Some(taskId), ms) ==
            Navigate(ResultRoute(taskId, Join(CheckedNames(ms), ",")))
    ensures CheckedNames(ms) != []
    ensures Split(Join(CheckedNames(ms), ","), ',') == CheckedNames(ms)
  {
    CountIsZeroIffNoneChecked(ms);
    CheckedNamesCommaFree(ms);
    SplitJoin(CheckedNames(ms), ',');
  }

  /** The member page's state: the selection rows and the text of the "add" input. The
      route's task id is fixed for the page's lifetime. */
  class MembersView {
    const taskId: Option<string>
    var members: seq<Member>
    var newMember: string

    constructor (taskId: Option<string>)
      ensures this.taskId == taskId && members == [] && newMember == ""
    {
      this.taskId := taskId;
      members := [];
      newMember := "";
    }

    /** The sync effect: when the task is loaded, the rows become its member names, each
        checked; earlier selections are dropped. Without a task nothing changes. */
    method Sync(tasks: seq<Task>)
      modifies this
      ensures newMember == old(newMember)
      ensures FindRouteTask(tasks, taskId).Some? ==>
                members == AllChecked(FindRouteTask(tasks, taskId).value.members)
      ensures FindRouteTask(tasks, taskId).None? ==> members == old(members)
    {
      var task := FindRouteTask(tasks, taskId);
      if task.Some? {
        members := AllChecked(task.value.members);
      }
    }

    /** `handleToggle(index)`: flips the flag of row `index` only; names, length and the other
        flags are unchanged. */
    method Toggle(index: nat)
      requires index < |members|
      modifies this
      ensures newMember == old(newMember)
      ensures |members| == |old(members)| && Names(members) == Names(old(members))
      ensures members[index].checked == !old(members)[index].checked
      ensures forall i :: 0 <= i < |members| && i != index ==> members[i] == old(members)[i]
    {
      var updated := members;
      updated := updated[index := Member(updated[index].name, !updated[index].checked)];
      members := updated;
    }

    /** `handleToggleAll(checked)`: every flag becomes `checked`; names and length are kept. */
    method ToggleAll(checked: bool)
      modifies this
      ensures newMember == old(newMember)
      ensures members == WithAllFlags(old(members), checked)
    {
      members := WithAllFlags(members, checked);
    }

    /** Typing into the "add" input. */
    method EditNewMember(text: string)
      modifies this
      ensures members == old(members) && newMember == text
    {
      newMember := text;
    }

    /** `addMember`: sends the add request, if there is one, and then clears the input. The
        rows themselves change only when the store's update syncs back. */
    method AddMember() returns (sent: Option<MembersUpdate>)
      modifies this
      ensures sent == AddRequest(old(members), old(newMember), taskId)
      ensures members == old(members)
      ensures newMember == if sent.Some? then "" else old(newMember)
    {
      sent := AddRequest(members, newMember, taskId);
      if sent.Some? {
        newMember := "";
      }
    }
  }
}
