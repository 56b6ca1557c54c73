/** The records of the raffle app and its fixed palettes. */
module Types {
  import opened Wrappers
  import opened JsNumber

  /** A task: something to draw winners for. `winnersCount` is a JavaScript number. */
  datatype Task = Task(
    id: string,
    title: string,
    category: string,
    icon: string,
    color: string,
    winnersCount: Num,
    members: seq<string>)

  /** The fields the task form submits: a task without id, winnersCount and members. */
  datatype TaskFields = TaskFields(title: string, icon: string, color: string, category: string)

  /** One row of the member selection list. */
  datatype Member = Member(name: string, checked: bool)

  /** The theme colours a task can take, first one the default. */
  const THEME_COLORS: seq<string> :=
    ["#9A8C98", "#84A59D", "#B5838D", "#8DA9C4", "#A5A58D", "#5E7385", "#4A4E69"]

  /** The symbolic icon names a task can take. */
  const ICONS: seq<string> :=
    ["restaurant", "local_cafe", "shopping_cart", "celebration", "menu_book", "skillet",
     "sports_esports", "movie", "cleaning_services", "fitness_center", "work", "pets",
     "flight", "music_note", "local_bar", "cake"]

  /** The categories the task form starts with. */
  const CATEGORIES: seq<string> := ["生活日常", "團隊合作", "家務整理", "聚會活動"]

  /** `tasks.find(t => t.id === id)`: the first task with that id, if any. */
  function FindTask(tasks: seq<Task>, id: string): (r: Option<Task>)
    ensures r.None? <==> forall i :: 0 <= i < |tasks| ==> tasks[i].id != id
    ensures r.Some? ==> r.value.id == id && r.value in tasks
  {
    if tasks == [] then None
    else if tasks[0].id == id then Some(tasks[0])
    else
      var r := FindTask(tasks[1..], id);
      assert forall i :: 1 <= i < |tasks| ==> tasks[i] == tasks[1..][i - 1];
      r
  }

  /** The task found is the first one with that id: every task before it has another id. */
  lemma {:induction false} FindTaskFirst(tasks: seq<Task>, id: string)
    requires FindTask(tasks, id).Some?
    ensures exists i :: 0 <= i < |tasks| && tasks[i] == FindTask(tasks, id).value &&
                        forall j :: 0 <= j < i ==> tasks[j].id != id
  {
    if tasks[0].id != id {
      FindTaskFirst(tasks[1..], id);
      var i :| 0 <= i < |tasks[1..]| && tasks[1..][i] == FindTask(tasks[1..], id).value &&
                forall j :: 0 <= j < i ==> tasks[1..][j].id != id;
      assert tasks[i + 1] == FindTask(tasks, id).value;
      assert forall j :: 0 <= j < i + 1 ==> tasks[j].id != id by {
        forall j | 0 <= j < i + 1 ensures tasks[j].id != id {
          if j > 0 { assert tasks[j] == tasks[1..][j - 1]; }
        }
      }
    } else {
      assert tasks[0] == FindTask(tasks, id).value;
    }
  }

  /** The same lookup for a route parameter, which may be absent: no task has an absent id. */
  function FindRouteTask(tasks: seq<Task>, id: Option<string>): Option<Task> {
    if id.Some? then FindTask(tasks, id.value) else None
  }
}
