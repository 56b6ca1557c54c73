/** The result page: in share mode it rebuilds a draw result from the link's query alone;
    otherwise it draws winners for a stored task from the member list in its route. */
module ResultPage {
  import opened Wrappers
  import opened JsString
  import opened JsNumber
  import opened Url
  import opened Types
  import ShareModal

  const UNKNOWN_TITLE: string := "未知任務"
  const DEFAULT_COLOR: string := "#9A8C98"
  const DEFAULT_ICON: string := "celebration"
  const DEFAULT_COUNT: string := "1"
  const SHARE_ID: string := "share-id"
  const SHARED_CATEGORY: string := "Shared"

  /** Share mode: the query has both a `t` and a `w` pair. */
  predicate IsShareMode(q: Query) {
    Has(q, "t") && Has(q, "w")
  }

  /** `params.get(name) || fallback`: a missing or empty value falls back. */
  function GetOr(q: Query, name: string, fallback: string): string {
    var v := Get(q, name);
    if Truthy(v) then v.value else fallback
  }

  /** What share mode shows: the rebuilt task and the winners. */
  datatype SharedResult = SharedResult(task: Task, winners: seq<string>)

  /** Share-mode decoding. Title, winners, color, icon and count come from `t`, `w`, `c`, `i`
      and `cnt` with their fallbacks; the color goes through `decodeURIComponent` once more,
      and None stands for the URIError that second decoding throws on a malformed escape.
      A decoded result never has an empty title or icon, always has at least one winner
      entry, and always carries the placeholder id, the `Shared` category and no members. */
  function DecodeShare(q: Query): (r: Option<SharedResult>)
    ensures r.None? <==> DecodeUriComponent(GetOr(q, "c", DEFAULT_COLOR)).None?
    ensures r.Some? ==> r.value.task.id == SHARE_ID && r.value.task.category == SHARED_CATEGORY &&
                        r.value.task.members == [] &&
                        r.value.task.title != "" && r.value.task.icon != "" &&
                        |r.value.winners| >= 1
  {
    var title := GetOr(q, "t", UNKNOWN_TITLE);
    var winnerStr := GetOr(q, "w", "");
    var color := GetOr(q, "c", DEFAULT_COLOR);
    var icon := GetOr(q, "i", DEFAULT_ICON);
    var count := ParseInt(GetOr(q, "cnt", DEFAULT_COUNT));
    match DecodeUriComponent(color)
    case None => None
    case Some(c) =>
      Some(SharedResult(Task(SHARE_ID, title, SHARED_CATEGORY, icon, c, count, []), Split(winnerStr, ',')))
  }

  /** Where each field of a decoded result comes from. */
  lemma DecodedFields(q: Query)
    requires DecodeShare(q).Some?
    ensures var r := DecodeShare(q).value;
            r.task.title == GetOr(q, "t", UNKNOWN_TITLE) &&
            r.task.icon == GetOr(q, "i", DEFAULT_ICON) &&
            Some(r.task.color) == DecodeUriComponent(GetOr(q, "c", DEFAULT_COLOR)) &&
            r.task.winnersCount == ParseInt(GetOr(q, "cnt", DEFAULT_COUNT)) &&
            r.winners == Split(GetOr(q, "w", ""), ',')
  {
  }

  /** Missing or empty fields decode to their fallbacks: the placeholder title, the default
      color, the `celebration` icon, a count of 1 and, for `w`, a single empty name. */
  lemma DecodeFallbacks(q: Query)
    requires DecodeShare(q).Some?
    ensures var r := DecodeShare(q).value;
            (!Truthy(Get(q, "t")) ==> r.task.title == UNKNOWN_TITLE) &&
            (!Truthy(Get(q, "c")) ==> r.task.color == DEFAULT_COLOR) &&
            (!Truthy(Get(q, "i")) ==> r.task.icon == DEFAULT_ICON) &&
            (!Truthy(Get(q, "cnt")) ==> r.task.winnersCount == Int(1)) &&
            (!Truthy(Get(q, "w")) ==> r.winners == [""])
  {
    DecodedFields(q);
    DefaultCountIsOne();
    DefaultColorDecodes();
    assert Split("", ',') == [""];
  }

  /** The default colour holds no escape, so decoding it again leaves it as it is. */
  lemma DefaultColorDecodes()
    ensures DecodeUriComponent(DEFAULT_COLOR) == Some(DEFAULT_COLOR)
  {
    var s := DEFAULT_COLOR;
    assert |s| == 7;
    assert s[0] != '%' && s[1] != '%' && s[2] != '%' && s[3] != '%' && s[4] != '%' &&
           s[5] != '%' && s[6] != '%';
  }

  /** The count fallback `'1'` parses to 1. */
  lemma DefaultCountIsOne()
    ensures ParseInt(DEFAULT_COUNT) == Int(1)
  {
    ParseNumeral(1);
    assert NatToDecimal(1) == DEFAULT_COUNT;
  }

  /** Reading each of the five share fields back from a query laid out as the share link's. */
  lemma GetShareFields(t: string, w: string, c: string, i: string, cnt: string)
    ensures var q := [Param("t", t), Param("w", w), Param("c", c), Param("i", i), Param("cnt", cnt)];
            Get(q, "t") == Some(t) && Get(q, "w") == Some(w) && Get(q, "c") == Some(c) &&
            Get(q, "i") == Some(i) && Get(q, "cnt") == Some(cnt)
  {
    var q5 := [Param("cnt", cnt)];
    var q4 := [Param("i", i)] + q5;
    var q3 := [Param("c", c)] + q4;
    var q2 := [Param("w", w)] + q3;
    var q1 := [Param("t", t)] + q2;
    assert q1 == [Param("t", t), Param("w", w), Param("c", c), Param("i", i), Param("cnt", cnt)];
    GetCons(Param("cnt", cnt), [], "cnt");
    GetCons(Param("i", i), q5, "i");
    GetCons(Param("i", i), q5, "cnt");
    GetCons(Param("c", c), q4, "c");
    GetCons(Param("c", c), q4, "i");
    GetCons(Param("c", c), q4, "cnt");
    GetCons(Param("w", w), q3, "w");
    GetCons(Param("w", w), q3, "c");
    GetCons(Param("w", w), q3, "i");
    GetCons(Param("w", w), q3, "cnt");
    GetCons(Param("t", t), q2, "t");
    GetCons(Param("t", t), q2, "w");
    GetCons(Param("t", t), q2, "c");
    GetCons(Param("t", t), q2, "i");
    GetCons(Param("t", t), q2, "cnt");
  }

  /** Decoding the share link's query gives back the task's count and, after the fallbacks
      for empty fields, its title, color and icon, provided the color holds no `%` (it is
      decoded a second time); the winners come back as the comma-split of their join. */
  lemma DecodeShareQuery(task: Task, winners: seq<string>)
    requires '%' !in task.color
    ensures var q := ShareModal.ShareQuery(task, winners);
            IsShareMode(q) &&
            DecodeShare(q) == Some(SharedResult(
              Task(SHARE_ID,
                   if task.title == "" then UNKNOWN_TITLE else task.title,
                   SHARED_CATEGORY,
                   if task.icon == "" then DEFAULT_ICON else task.icon,
                   if task.color == "" then DEFAULT_COLOR else task.color,
                   task.winnersCount,
                   []),
              Split(Join(winners, ","), ',')))
  {
    var q := ShareModal.ShareQuery(task, winners);
    var w := Join(winners, ",");
    var cnt := ToString(task.winnersCount);
    GetShareFields(task.title, w, task.color, task.icon, cnt);
    var color := if task.color == "" then DEFAULT_COLOR else task.color;
    assert GetOr(q, "c", DEFAULT_COLOR) == color;
    assert '%' !in DEFAULT_COLOR;
    assert DecodeUriComponent(color) == Some(color);
    ParseIntToString(task.winnersCount);
    assert cnt != "";
    assert ParseInt(GetOr(q, "cnt", DEFAULT_COUNT)) == task.winnersCount;
    assert Split(GetOr(q, "w", ""), ',') == Split(w, ',');
  }

  /** The share round trip: with a non-empty title, color and icon, a color free of `%`, and
      at least one winner, none of whose names contains a comma, decoding the link gives back
      title, color, icon, count and the winners exactly. */
  lemma ShareRoundTrip(task: Task, winners: seq<string>)
    requires task.title != "" && task.icon != "" && task.color != "" && '%' !in task.color
    requires |winners| >= 1 && forall i :: 0 <= i < |winners| ==> ',' !in winners[i]
    ensures var q := ShareModal.ShareQuery(task, winners);
            IsShareMode(q) &&
            DecodeShare(q) == Some(SharedResult(
              Task(SHARE_ID, task.title, SHARED_CATEGORY, task.icon, task.color, task.winnersCount, []),
              winners))
  {
    DecodeShareQuery(task, winners);
    SplitJoin(winners, ',');
  }

  /** The winners come back unchanged exactly when there is at least one and no name holds a
      comma: an empty list comes back as one empty name, and a name with a comma in two. */
  lemma SharedWinnersExact(task: Task, winners: seq<string>)
    requires '%' !in task.color
    ensures DecodeShare(ShareModal.ShareQuery(task, winners)).Some?
    ensures DecodeShare(ShareModal.ShareQuery(task, winners)).value.winners == winners <==>
            |winners| >= 1 && forall i :: 0 <= i < |winners| ==> ',' !in winners[i]
    ensures winners == [] ==> DecodeShare(ShareModal.ShareQuery(task, winners)).value.winners == [""]
  {
    DecodeShareQuery(task, winners);
    SplitJoin(winners, ',');
  }

  /** A color with a `%` escape does not survive: `%23FFF` is shared and `#FFF` comes back. */
  lemma PercentColorChanges(task: Task, winners: seq<string>)
    requires task.color == "%23FFF"
    ensures DecodeShare(ShareModal.ShareQuery(task, winners)).Some?
    ensures DecodeShare(ShareModal.ShareQuery(task, winners)).value.task.color == "#FFF"
  {
    GetShareFields(task.title, Join(winners, ","), task.color, task.icon, ToString(task.winnersCount));
    DecodeUriComponentExamples();
  }

  /** How many names `shuffled.slice(0, Math.min(count, n))` keeps: `Math.min` with NaN is
      NaN, which `slice` reads as 0, and a negative end counts back from the end. */
  function DrawLength(count: Num, n: nat): (k: nat)
    ensures k <= n
    ensures count.Int? && 0 <= count.value ==> k == if count.value < n then count.value else n
    ensures count.Int? && count.value < 0 ==> k == if n + count.value < 0 then 0 else n + count.value
    ensures count.NaN? ==> k == 0
  {
    match count
    case NaN => 0
    case Int(c) =>
      var end := if c < n then c else n;
      if end >= 0 then end else if n + end < 0 then 0 else n + end
  }

  /** `shuffled` is some rearrangement of `names`. */
  predicate IsShuffleOf(shuffled: seq<string>, names: seq<string>) {
    multiset(shuffled) == multiset(names)
  }

  /** The draw: split the member list at commas, take a rearrangement of it, and keep a prefix
      of length `Math.min(count, n)`. The winners are that prefix, and no name wins more often
      than it occurs in the list. */
  function Draw(memberList: string, count: Num, shuffled: seq<string>): (winners: seq<string>)
    requires IsShuffleOf(shuffled, Split(memberList, ','))
    ensures |winners| == DrawLength(count, |Split(memberList, ',')|)
    ensures winners == shuffled[..|winners|]
    ensures multiset(winners) <= multiset(Split(memberList, ','))
  {
    assert |shuffled| == |multiset(shuffled)| == |Split(memberList, ',')|;
    var k := DrawLength(count, |shuffled|);
    assert shuffled == shuffled[..k] + shuffled[k..];
    shuffled[..k]
  }

  /** For a count of at least 1 a draw has `min(count, n)` winners, so at least one, and each
      winner is one of the listed members. */
  lemma DrawWinners(memberList: string, count: int, shuffled: seq<string>)
    requires IsShuffleOf(shuffled, Split(memberList, ','))
    requires count >= 1
    ensures var winners := Draw(memberList, Int(count), shuffled);
            var n := |Split(memberList, ',')|;
            |winners| == (if count < n then count else n) && |winners| >= 1 &&
            forall i :: 0 <= i < |winners| ==> winners[i] in Split(memberList, ',')
  {
    var winners := Draw(memberList, Int(count), shuffled);
    forall i | 0 <= i < |winners| ensures winners[i] in Split(memberList, ',') {
      assert winners[i] in multiset(winners);
    }
  }

  /** The result page's state: the task and winners it shows, and where it navigated. The
      query and the route parameters are fixed for the page's lifetime. */
  class ResultView {
    const query: Query
    const taskId: Option<string>
    const memberList: Option<string>
    var task: Option<Task>
    var winners: seq<string>
    var navigatedTo: Option<string>
    /** An exception escaped the page's effect. Nothing catches it, so the whole app is
        unmounted and nothing is rendered any more. */
    var crashed: bool

    constructor (query: Query, taskId: Option<string>, memberList: Option<string>)
      ensures this.query == query && this.taskId == taskId && this.memberList == memberList
      ensures task == None && winners == [] && navigatedTo == None && !crashed
    {
      this.query := query;
      this.taskId := taskId;
      this.memberList := memberList;
      task := None;
      winners := [];
      navigatedTo := None;
      crashed := false;
    }

    /** The "task not found" view is shown while there is no task and the app still runs. */
    predicate ShowsNotFound()
      reads this
    {
      !crashed && task.None?
    }

    /** The page's effect. In share mode the decoded task and winners are shown; when the
        colour's second decoding throws, the exception escapes the effect and the app crashes.
        Otherwise the task with the route's id is looked up; when it exists and the member
        list is non-empty it is shown with a fresh draw, and when it does not nothing changes,
        so a page that never found its task stays on the not-found view. A crashed app runs
        no effects any more. */
    method Load(tasks: seq<Task>, shuffled: seq<string>)
      requires !crashed
      requires memberList.Some? ==> IsShuffleOf(shuffled, Split(memberList.value, ','))
      modifies this
      ensures navigatedTo == old(navigatedTo)
      ensures crashed <==> IsShareMode(query) && DecodeShare(query).None?
      ensures IsShareMode(query) && DecodeShare(query).Some? ==>
                task == Some(DecodeShare(query).value.task) && winners == DecodeShare(query).value.winners
      ensures IsShareMode(query) && DecodeShare(query).None? ==>
                task == old(task) && winners == old(winners)
      ensures !IsShareMode(query) ==>
                var found := FindRouteTask(tasks, taskId);
                if found.Some? && Truthy(memberList)
                then task == found && winners == Draw(memberList.value, found.value.winnersCount, shuffled)
                else task == old(task) && winners == old(winners)
      ensures !IsShareMode(query) && FindRouteTask(tasks, taskId).None? && old(ShowsNotFound()) ==>
                ShowsNotFound()
    {
      if IsShareMode(query) {
        var decoded := DecodeShare(query);
        if decoded.Some? {
          task := Some(decoded.value.task);
          winners := decoded.value.winners;
        } else {
          crashed := true;
        }
      } else {
        var found := FindRouteTask(tasks, taskId);
        if found.Some? && Truthy(memberList) {
          task := found;
          winners := Draw(memberList.value, found.value.winnersCount, shuffled);
        }
      }
    }

    /** `handleRedraw`. A shared result cannot be redrawn: the page goes back to `/`. Without a
        task or a member list nothing happens. Otherwise the winners are drawn again with the
        shown task's count; the task itself is unchanged. The button is gone once the app
        has crashed. */
    method Redraw(shuffled: seq<string>)
      requires !crashed
      requires memberList.Some? ==> IsShuffleOf(shuffled, Split(memberList.value, ','))
      modifies this
      ensures task == old(task) && !crashed
      ensures IsShareMode(query) ==> navigatedTo == Some("/") && winners == old(winners)
      ensures !IsShareMode(query) ==> navigatedTo == old(navigatedTo)
      ensures !IsShareMode(query) && (task.None? || !Truthy(memberList)) ==> winners == old(winners)
      ensures !IsShareMode(query) && task.Some? && Truthy(memberList) ==>
                winners == Draw(memberList.value, task.value.winnersCount, shuffled)
    {
      if IsShareMode(query) {
        navigatedTo := Some("/");
        return;
      }
      if task.None? || !Truthy(memberList) {
        return;
      }
      winners := Draw(memberList.value, task.value.winnersCount, shuffled);
    }
  }
}
