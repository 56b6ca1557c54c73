/** The share dialog of a draw result: the self-contained share link and the message
    text that carries it. */
module ShareModal {
  import opened JsString
  import opened JsNumber
  import opened Url
  import opened Types

  /** The route the share link opens. */
  const SHARE_ROUTE: string := "#/share?"

  /** The query of the share link: `t`, `w`, `c`, `i` and `cnt` set in that order on an empty
      `URLSearchParams`, so the list holds exactly these five pairs in that order, with title,
      color and icon verbatim, the winners joined by commas and the count in decimal. */
  function ShareQuery(task: Task, winners: seq<string>): (q: Query)
    ensures q == [Param("t", task.title), Param("w", Join(winners, ",")), Param("c", task.color),
                  Param("i", task.icon), Param("cnt", ToString(task.winnersCount))]
  {
    var q1 := Set([], "t", task.title);
    HasAppend([], Param("t", task.title), "w");
    var q2 := Set(q1, "w", Join(winners, ","));
    HasAppend([], Param("t", task.title), "c");
    HasAppend(q1, Param("w", Join(winners, ",")), "c");
    var q3 := Set(q2, "c", task.color);
    HasAppend([], Param("t", task.title), "i");
    HasAppend(q1, Param("w", Join(winners, ",")), "i");
    HasAppend(q2, Param("c", task.color), "i");
    var q4 := Set(q3, "i", task.icon);
    HasAppend([], Param("t", task.title), "cnt");
    HasAppend(q1, Param("w", Join(winners, ",")), "cnt");
    HasAppend(q2, Param("c", task.color), "cnt");
    HasAppend(q3, Param("i", task.icon), "cnt");
    Set(q4, "cnt", ToString(task.winnersCount))
  }

  /** `generateShareUrl`: the page's base URL, the share route, and the serialised query. */
  function ShareUrl(baseUrl: string, task: Task, winners: seq<string>): (url: string)
    ensures |url| >= |baseUrl| + |SHARE_ROUTE|
    ensures url[..|baseUrl| + |SHARE_ROUTE|] == baseUrl + SHARE_ROUTE
  {
    baseUrl + SHARE_ROUTE + Serialize(ShareQuery(task, winners))
  }

  /** The part of the share link after the route cuts at `&` into the five encoded fields
      `t=…`, `w=…`, `c=…`, `i=…`, `cnt=…`, in that order (see `Url.FieldOfPlainName` for the
      shape of each field). */
  lemma ShareUrlFields(baseUrl: string, task: Task, winners: seq<string>)
    ensures var url := ShareUrl(baseUrl, task, winners);
            Split(url[|baseUrl| + |SHARE_ROUTE|..], '&') ==
              [Field(Param("t", task.title)),
               Field(Param("w", Join(winners, ","))),
               Field(Param("c", task.color)),
               Field(Param("i", task.icon)),
               Field(Param("cnt", ToString(task.winnersCount)))]
  {
    var q := ShareQuery(task, winners);
    var url := ShareUrl(baseUrl, task, winners);
    assert url[|baseUrl| + |SHARE_ROUTE|..] == Serialize(q);
    SerializeSplits(q);
  }

  /** `winnersText`: the winners joined by a comma and a space. */
  function WinnersText(winners: seq<string>): string {
    Join(winners, ", ")
  }

  /** The winners after the first, each behind the space that follows a comma. */
  function Spaced(winners: seq<string>): (r: seq<string>)
    requires |winners| >= 1
    ensures |r| == |winners| && r[0] == winners[0]
    ensures forall i :: 1 <= i < |r| ==> r[i] == " " + winners[i]
  {
    [winners[0]] + seq(|winners| - 1, i requires 0 <= i < |winners| - 1 => " " + winners[i + 1])
  }

  lemma {:induction false} JoinCommaSpace(winners: seq<string>)
    requires |winners| >= 1
    ensures Join(winners, ", ") == Join(Spaced(winners), ",")
  {
    if |winners| > 1 {
      var tail := winners[1..];
      JoinCommaSpace(tail);
      var s, st := Spaced(winners), Spaced(tail);
      assert s[1..] == [" " + tail[0]] + st[1..];
      if |tail| == 1 {
        assert Join(s[1..], ",") == " " + tail[0];
      } else {
        assert Join(s[1..], ",") == " " + tail[0] + "," + Join(st[1..], ",");
        assert Join(st, ",") == tail[0] + "," + Join(st[1..], ",");
      }
    }
  }

  /** Read back at the commas, the winners text lists every winner, in order, the ones after
      the first behind one space, provided no name contains a comma. */
  lemma WinnersTextLists(winners: seq<string>)
    requires |winners| >= 1
    requires forall i :: 0 <= i < |winners| ==> ',' !in winners[i]
    ensures Split(WinnersText(winners), ',') == Spaced(winners)
  {
    JoinCommaSpace(winners);
    var s := Spaced(winners);
    forall i | 0 <= i < |s| ensures ',' !in s[i] {
      if i > 0 { assert s[i] == " " + winners[i]; }
    }
    SplitJoin(s, ',');
  }

  /** `baseShareText`: the task line and the winners line. */
  function BaseShareText(task: Task, winners: seq<string>): string {
    "任務: " + task.title + "\n" + "中獎者: " + WinnersText(winners)
  }

  /** `fullShareText`: the base text, an empty line, a caption and the link. */
  function FullShareText(task: Task, winners: seq<string>, url: string): string {
    BaseShareText(task, winners) + "\n" + "\n" + "查看詳細結果:" + "\n" + url
  }

  /** When no title, name or link contains a line break, the share text has exactly five
      lines: the title, the winners, an empty line, the caption and the link itself. */
  lemma FullShareTextLines(task: Task, winners: seq<string>, url: string)
    requires '\n' !in task.title && '\n' !in url
    requires forall i :: 0 <= i < |winners| ==> '\n' !in winners[i]
    ensures Split(FullShareText(task, winners, url), '\n') ==
              ["任務: " + task.title, "中獎者: " + WinnersText(winners), "", "查看詳細結果:", url]
  {
    var l0, l1, l3 := "任務: " + task.title, "中獎者: " + WinnersText(winners), "查看詳細結果:";
    NoBreakInJoin(winners, ", ");
    assert '\n' !in l0 && '\n' !in l1 && '\n' !in l3;
    var r3 := l3 + "\n" + url;
    var r2 := "" + "\n" + r3;
    var r1 := l1 + "\n" + r2;
    assert FullShareText(task, winners, url) == l0 + "\n" + r1;
    assert Split(url, '\n') == [url] by { SplitJoin([url], '\n'); }
    SplitAtSeparator(l3, url, '\n');
    SplitAtSeparator("", r3, '\n');
    SplitAtSeparator(l1, r2, '\n');
    SplitAtSeparator(l0, r1, '\n');
  }

  lemma {:induction false} NoBreakInJoin(parts: seq<string>, sep: string)
    requires '\n' !in sep
    requires forall i :: 0 <= i < |parts| ==> '\n' !in parts[i]
    ensures '\n' !in Join(parts, sep)
  {
    if |parts| > 1 {
      NoBreakInJoin(parts[1..], sep);
    }
  }
}
