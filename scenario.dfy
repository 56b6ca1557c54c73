/** The app's pages working together: selecting members and drawing from the selection. */
module Scenario {
  import opened Wrappers
  import opened JsString
  import opened JsNumber
  import opened Types
  import opened App
  import opened MembersPage
  import opened ResultPage

  /** A draw started from the member page draws only checked members: the route's member list
      splits back into the checked names, so for a count of at least 1 the result page picks
      `min(count, checked)` winners, each the name of a checked row. */
  lemma DrawFromSelection(task: Task, taskId: string, ms: seq<Member>, count: int, shuffled: seq<string>)
    requires taskId != "" && count >= 1
    requires forall i :: 0 <= i < |ms| ==> ',' !in ms[i].name
    requires exists i :: 0 <= i < |ms| && ms[i].checked
    requires IsShuffleOf(shuffled, CheckedNames(ms))
    ensures var memberList := Join(CheckedNames(ms), ",");
            StartDraw(Some(task), Some(taskId), ms) == Navigate(ResultRoute(taskId, memberList)) &&
            IsShuffleOf(shuffled, Split(memberList, ',')) &&
            var winners := Draw(memberList, Int(count), shuffled);
            |winners| == (if count < |CheckedNames(ms)| then count else |CheckedNames(ms)|) &&
            forall i :: 0 <= i < |winners| ==>
              exists j :: 0 <= j < |ms| && ms[j].checked && ms[j].name == winners[i]
  {
    DrawRouteLists(task, taskId, ms);
    var memberList := Join(CheckedNames(ms), ",");
    DrawWinners(memberList, count, shuffled);
    var winners := Draw(memberList, Int(count), shuffled);
    forall i | 0 <= i < |winners|
      ensures exists j :: 0 <= j < |ms| && ms[j].checked && ms[j].name == winners[i]
    {
      CheckedNamesAreCheckedRows(ms, winners[i]);
    }
  }

  /** The selection with only A and B checked lists them in a route as `A,B`. */
  lemma SelectionWithoutC()
    ensures CheckedNames([Member("A", true), Member("B", true), Member("C", false)]) == ["A", "B"]
    ensures Join(["A", "B"], ",") == "A,B"
  {
    var ms := [Member("A", true), Member("B", true), Member("C", false)];
    assert ms[1..] == [Member("B", true), Member("C", false)];
    assert ms[1..][1..] == [Member("C", false)];
    assert ["A", "B"][1..] == ["B"];
  }

  /** A sync with the roster A, B, C checks all three. */
  lemma SyncedABC()
    ensures AllChecked(["A", "B", "C"]) == [Member("A", true), Member("B", true), Member("C", true)]
  {
    var ms := AllChecked(["A", "B", "C"]);
    assert ms[0] == Member("A", true) && ms[1] == Member("B", true) && ms[2] == Member("C", true);
  }

  /** Flipping the third row of the synced list unchecks C and nothing else. */
  lemma UncheckedC(synced: seq<Member>, toggled: seq<Member>)
    requires synced == [Member("A", true), Member("B", true), Member("C", true)]
    requires |toggled| == 3 && Names(toggled) == Names(synced)
    requires toggled[2].checked == !synced[2].checked
    requires forall i :: 0 <= i < 3 && i != 2 ==> toggled[i] == synced[i]
    ensures toggled == [Member("A", true), Member("B", true), Member("C", false)]
  {
    assert toggled[2].name == Names(toggled)[2] == Names(synced)[2] == "C";
    assert toggled[0] == synced[0] && toggled[1] == synced[1];
  }

  /** The draw route for that selection lists A and B, and a draw of one from it picks A
      or B. */
  lemma DrawOneOfAB(task: Task, id: string, shuffled: seq<string>)
    requires id != ""
    requires IsShuffleOf(shuffled, ["A", "B"])
    ensures StartDraw(Some(task), Some(id), [Member("A", true), Member("B", true), Member("C", false)]) ==
            Navigate(ResultRoute(id, "A,B"))
    ensures IsShuffleOf(shuffled, Split("A,B", ','))
    ensures var winners := Draw("A,B", Int(1), shuffled);
            |winners| == 1 && (winners[0] == "A" || winners[0] == "B")
  {
    var ms := [Member("A", true), Member("B", true), Member("C", false)];
    SelectionWithoutC();
    assert ms[0].checked;
    DrawFromSelection(task, id, ms, 1, shuffled);
  }

  /** A task created while the roster is A, B, C is shown with all three checked; with C
      unchecked, the draw for the default count of 1 has one winner, A or B. */
  method UncheckOneAndDraw(fields: TaskFields, id: string, shuffled: seq<string>) returns (winners: seq<string>)
    requires id != ""
    requires IsShuffleOf(shuffled, ["A", "B"])
    ensures |winners| == 1 && (winners[0] == "A" || winners[0] == "B")
  {
    var app := new AppShell([], Some(Roster(Some(["A", "B", "C"]))));
    app.ReceiveRoster(true);
    app.HandleAddTask(fields, id, true);
    app.ReceiveTasks();
    var tasks := app.tasks;
    var task := FindRouteTask(tasks, Some(id));
    assert task.value.members == ["A", "B", "C"] && task.value.winnersCount == Int(1);

    var page := new MembersView(Some(id));
    page.Sync(tasks);
    SyncedABC();
    var synced := page.members;
    page.Toggle(2);
    UncheckedC(synced, page.members);
    DrawOneOfAB(task.value, id, shuffled);
    var outcome := StartDraw(task, Some(id), page.members);
    assert outcome == Navigate(ResultRoute(id, "A,B"));

    var view := new ResultView([], Some(id), Some("A,B"));
    view.Load(tasks, shuffled);
    winners := view.winners;
  }
}
