/** The audit journal: one human-readable line per event, appended to the day's file and to the
    main journal, and read back newest first, optionally filtered by level; and the builders of
    the login, data-access and model-action events. */
module AuditLog {
  import opened Common
  import opened Text
  import opened Json

  // ---------------------------------------------------------------------------------------
  // The line format

  /** Where the user, level and action fields start in a line. */
  function UserAt(timestamp: string): nat { |timestamp| + 3 }
  function LevelAt(timestamp: string, user: string): nat
  {
    UserAt(timestamp) + |LeftJustify(user, 15)| + 3
  }
  function ActionAt(timestamp: string, user: string, level: string): nat
  {
    LevelAt(timestamp, user) + |LeftJustify(level, 8)| + 3
  }

  /** The part of a line before the action. */
  function Head(timestamp: string, user: string, level: string): (h: string)
    ensures |h| == ActionAt(timestamp, user, level)
  {
    timestamp + " | " + LeftJustify(user, 15) + " | " + LeftJustify(level, 8) + " | "
  }

  /** The human-readable line of an event: timestamp, user padded to 15, level padded to 8,
      action, separated by " | ", then " | " and the details' JSON when there are any. */
  function HumanLine(timestamp: string, user: string, level: string, action: string, details: Dict): string
  {
    Head(timestamp, user, level) + action + (if details == [] then "" else " | " + Dumps(details))
  }

  /** Each field stands at its place, padded but never truncated; the details are only there
      when there are some. */
  lemma HumanLineLayout(timestamp: string, user: string, level: string, action: string, details: Dict)
    ensures var line := HumanLine(timestamp, user, level, action, details);
      && line[..|timestamp|] == timestamp
      && SeparatorAt(line, |timestamp|)
      && OccursAt(line, user, UserAt(timestamp))
      && SeparatorAt(line, LevelAt(timestamp, user) - 3)
      && OccursAt(line, level, LevelAt(timestamp, user))
      && SeparatorAt(line, ActionAt(timestamp, user, level) - 3)
      && OccursAt(line, action, ActionAt(timestamp, user, level))
      && (details == [] <==> |line| == ActionAt(timestamp, user, level) + |action|)
      && (details != [] ==>
            line[ActionAt(timestamp, user, level) + |action|..] == " | " + Dumps(details))
  {
    LayoutStart(timestamp, user, level, action, details);
    LayoutLevel(timestamp, user, level, action, details);
    LayoutAction(timestamp, user, level, action, details);
    LayoutDetails(timestamp, user, level, action, details);
  }

  /** The line cut at the ends of its fields. */
  function Cuts(timestamp: string, user: string, level: string, action: string, details: Dict): (c: seq<string>)
    ensures |c| == 7
  {
    var sep := " | ";
    var p1 := timestamp + sep;
    var p2 := p1 + LeftJustify(user, 15);
    var p3 := p2 + sep;
    var p4 := p3 + LeftJustify(level, 8);
    var p5 := p4 + sep;
    var p6 := p5 + action;
    [p1, p2, p3, p4, p5, p6, if details == [] then "" else " | " + Dumps(details)]
  }

  lemma LayoutStart(timestamp: string, user: string, level: string, action: string, details: Dict)
    ensures var line := HumanLine(timestamp, user, level, action, details);
      && line[..|timestamp|] == timestamp
      && SeparatorAt(line, |timestamp|)
      && OccursAt(line, user, UserAt(timestamp))
  {
    LayoutTimestamp(timestamp, user, level, action, details);
    LayoutUser(timestamp, user, level, action, details);
  }

  lemma LayoutTimestamp(timestamp: string, user: string, level: string, action: string, details: Dict)
    ensures var line := HumanLine(timestamp, user, level, action, details);
      && line[..|timestamp|] == timestamp
      && SeparatorAt(line, |timestamp|)
  {
    var u, l, sep := LeftJustify(user, 15), LeftJustify(level, 8), " | ";
    var c := Cuts(timestamp, user, level, action, details);
    var p1, p2, p3, p4, p5, p6, tail := c[0], c[1], c[2], c[3], c[4], c[5], c[6];
    var line := p6 + tail;
    assert line == HumanLine(timestamp, user, level, action, details);
    assert OccursAt(line, timestamp, 0) by {
      assert OccursAt(timestamp, timestamp, 0);
      OccursAppend(timestamp, sep, timestamp, 0);
      OccursAppend(p1, u, timestamp, 0);
      OccursAppend(p2, sep, timestamp, 0);
      OccursAppend(p3, l, timestamp, 0);
      OccursAppend(p4, sep, timestamp, 0);
      OccursAppend(p5, action, timestamp, 0);
      OccursAppend(p6, tail, timestamp, 0);
    }
    assert OccursAt(line, sep, |timestamp|) by {
      assert OccursAt(sep, sep, 0);
      OccursPrepend(timestamp, sep, sep, 0);
      OccursAppend(p1, u, sep, |timestamp|);
      OccursAppend(p2, sep, sep, |timestamp|);
      OccursAppend(p3, l, sep, |timestamp|);
      OccursAppend(p4, sep, sep, |timestamp|);
      OccursAppend(p5, action, sep, |timestamp|);
      OccursAppend(p6, tail, sep, |timestamp|);
    }
    Separator(line, |timestamp|);
  }

  lemma LayoutUser(timestamp: string, user: string, level: string, action: string, details: Dict)
    ensures OccursAt(HumanLine(timestamp, user, level, action, details), user, UserAt(timestamp))
  {
    var u, l, sep := LeftJustify(user, 15), LeftJustify(level, 8), " | ";
    var c := Cuts(timestamp, user, level, action, details);
    var p1, p2, p3, p4, p5, p6, tail := c[0], c[1], c[2], c[3], c[4], c[5], c[6];
    var line := p6 + tail;
    assert line == HumanLine(timestamp, user, level, action, details);
    assert OccursAt(line, user, |p1|) by {
      LeftJustifyPadding(user, 15);
      assert OccursAt(u, user, 0);
      OccursPrepend(p1, u, user, 0);
      OccursAppend(p2, sep, user, |p1|);
      OccursAppend(p3, l, user, |p1|);
      OccursAppend(p4, sep, user, |p1|);
      OccursAppend(p5, action, user, |p1|);
      OccursAppend(p6, tail, user, |p1|);
    }
  }

  lemma LayoutLevel(timestamp: string, user: string, level: string, action: string, details: Dict)
    ensures var line := HumanLine(timestamp, user, level, action, details);
      && SeparatorAt(line, LevelAt(timestamp, user) - 3)
      && OccursAt(line, level, LevelAt(timestamp, user))
  {
    var u, l, sep := LeftJustify(user, 15), LeftJustify(level, 8), " | ";
    var c := Cuts(timestamp, user, level, action, details);
    var p1, p2, p3, p4, p5, p6, tail := c[0], c[1], c[2], c[3], c[4], c[5], c[6];
    var line := p6 + tail;
    assert line == HumanLine(timestamp, user, level, action, details);
    assert OccursAt(line, sep, |p2|) by {
      assert OccursAt(sep, sep, 0);
      OccursPrepend(p2, sep, sep, 0);
      OccursAppend(p3, l, sep, |p2|);
      OccursAppend(p4, sep, sep, |p2|);
      OccursAppend(p5, action, sep, |p2|);
      OccursAppend(p6, tail, sep, |p2|);
    }
    Separator(line, |p2|);
    assert OccursAt(line, level, |p3|) by {
      LeftJustifyPadding(level, 8);
      assert OccursAt(l, level, 0);
      OccursPrepend(p3, l, level, 0);
      OccursAppend(p4, sep, level, |p3|);
      OccursAppend(p5, action, level, |p3|);
      OccursAppend(p6, tail, level, |p3|);
    }
    assert |p3| == LevelAt(timestamp, user);
  }

  lemma LayoutAction(timestamp: string, user: string, level: string, action: string, details: Dict)
    ensures var line := HumanLine(timestamp, user, level, action, details);
      && SeparatorAt(line, ActionAt(timestamp, user, level) - 3)
      && OccursAt(line, action, ActionAt(timestamp, user, level))
  {
    var sep := " | ";
    var c := Cuts(timestamp, user, level, action, details);
    var p1, p2, p3, p4, p5, p6, tail := c[0], c[1], c[2], c[3], c[4], c[5], c[6];
    var line := p6 + tail;
    assert line == HumanLine(timestamp, user, level, action, details);
    assert OccursAt(line, sep, |p4|) by {
      assert OccursAt(sep, sep, 0);
      OccursPrepend(p4, sep, sep, 0);
      OccursAppend(p5, action, sep, |p4|);
      OccursAppend(p6, tail, sep, |p4|);
    }
    Separator(line, |p4|);
    assert OccursAt(line, action, |p5|) by {
      assert OccursAt(action, action, 0);
      OccursPrepend(p5, action, action, 0);
      OccursAppend(p6, tail, action, |p5|);
    }
    assert |p5| == ActionAt(timestamp, user, level);
  }

  lemma LayoutDetails(timestamp: string, user: string, level: string, action: string, details: Dict)
    ensures var line := HumanLine(timestamp, user, level, action, details);
      && (details == [] <==> |line| == ActionAt(timestamp, user, level) + |action|)
      && (details != [] ==>
            line[ActionAt(timestamp, user, level) + |action|..] == " | " + Dumps(details))
  {
    var body := Head(timestamp, user, level) + action;
    var tail := if details == [] then "" else " | " + Dumps(details);
    assert HumanLine(timestamp, user, level, action, details) == body + tail;
    assert (body + tail)[|body|..] == tail;
  }

  /** The " | " between two fields stands at `i`. */
  predicate SeparatorAt(line: string, i: int)
  {
    0 <= i && i + 3 <= |line| && line[i] == ' ' && line[i + 1] == '|' && line[i + 2] == ' '
  }

  lemma Separator(line: string, i: int)
    requires OccursAt(line, " | ", i)
    ensures SeparatorAt(line, i)
  {
    assert line[i..i + 3][1] == '|';
  }

  /** A line holds no newline when its text fields hold none. */
  lemma HumanLineSingle(timestamp: string, user: string, level: string, action: string, details: Dict)
    requires '\n' !in timestamp && '\n' !in user && '\n' !in level && '\n' !in action
    ensures '\n' !in HumanLine(timestamp, user, level, action, details)
  {
    DumpsPrintable(details);
    var u, l := LeftJustify(user, 15), LeftJustify(level, 8);
    assert '\n' !in u && '\n' !in l;
  }

  // ---------------------------------------------------------------------------------------
  // Reading back

  /** `lines[-n:]` for a Python integer `n`: the last `n` lines when n > 0, all of them when
      n == 0, and all but the first `-n` when n < 0. */
  function Tail<T>(lines: seq<T>, n: int): (t: seq<T>)
    ensures |t| <= |lines| && t == lines[|lines| - |t|..]
    ensures n > 0 ==> |t| == if n < |lines| then n else |lines|
    ensures n == 0 ==> t == lines
    ensures n < 0 ==> |t| == if -n < |lines| then |lines| + n else 0
  {
    if n > 0 then (if n >= |lines| then lines else lines[|lines| - n..])
    else if n == 0 then lines
    else if -n >= |lines| then [] else lines[-n..]
  }

  /** The level test of the reading loop: a filter is only applied when a non-empty level is given. */
  predicate Matches(line: string, level: Option<string>)
  {
    level.None? || level.value == "" || Contains(line, "| " + level.value)
  }

  /** A stripped line the reading loop keeps. */
  predicate Wanted(line: string, level: Option<string>)
  {
    Strip(line) != "" && Matches(Strip(line), level)
  }

  /** The reading loop's output over `lines`, taken in the order given. */
  function Selected(lines: seq<string>, level: Option<string>): seq<string>
  {
    if lines == [] then []
    else (if Wanted(lines[0], level) then [Strip(lines[0])] else []) + Selected(lines[1..], level)
  }

  /** What `get_recent_logs(n, level)` returns from the text of the day's log file. */
  function RecentOf(content: string, n: int, level: Option<string>): seq<string>
  {
    Selected(Reversed(Tail(Lines(content), n)), level)
  }

  function StripAll(lines: seq<string>): (r: seq<string>)
    ensures |r| == |lines| && forall i :: 0 <= i < |lines| ==> r[i] == Strip(lines[i])
  {
    seq(|lines|, i requires 0 <= i < |lines| => Strip(lines[i]))
  }

  lemma StripAllCons(lines: seq<string>)
    requires lines != []
    ensures StripAll(lines) == [Strip(lines[0])] + StripAll(lines[1..])
  {
    var a, b := StripAll(lines), [Strip(lines[0])] + StripAll(lines[1..]);
    forall i | 0 <= i < |a|
      ensures a[i] == b[i]
    {
      if i > 0 {
        assert lines[1..][i - 1] == lines[i];
      }
    }
  }

  /** The selection keeps exactly the stripped lines that are not blank and pass the level
      filter, in the order given, each position once: two identical log lines are both kept. */
  lemma SelectedSpec(lines: seq<string>, level: Option<string>)
    ensures var r := Selected(lines, level);
      && |r| <= |lines|
      && (forall i :: 0 <= i < |r| ==> r[i] != "" && Matches(r[i], level))
      && (forall s :: s in r <==> exists i :: 0 <= i < |lines| && Wanted(lines[i], level) && s == Strip(lines[i]))
      && SubsequenceOf(r, StripAll(lines))
      && KeepsExactly(r, StripAll(lines), WantedFlags(lines, level))
  {
    SelectedShape(lines, level);
    SelectedMembers(lines, level);
    SelectedOrder(lines, level);
    SelectedExact(lines, level);
  }

  lemma {:induction false} SelectedExact(lines: seq<string>, level: Option<string>)
    ensures KeepsExactly(Selected(lines, level), StripAll(lines), WantedFlags(lines, level))
  {
    if lines == [] {
      KeepsExactlyEmpty(StripAll(lines), WantedFlags(lines, level));
    } else {
      var rest := lines[1..];
      SelectedExact(rest, level);
      StripAllCons(lines);
      WantedFlagsCons(lines, level);
      KeepsExactlyPrepend(Selected(rest, level), StripAll(rest), WantedFlags(rest, level), Strip(lines[0]), Wanted(lines[0], level));
    }
  }

  /** Per line, whether the reading loop keeps it. */
  function WantedFlags(lines: seq<string>, level: Option<string>): (keep: seq<bool>)
    ensures |keep| == |lines|
    ensures forall i :: 0 <= i < |lines| ==> keep[i] == Wanted(lines[i], level)
  {
    seq(|lines|, i requires 0 <= i < |lines| => Wanted(lines[i], level))
  }

  lemma WantedFlagsCons(lines: seq<string>, level: Option<string>)
    requires lines != []
    ensures WantedFlags(lines, level) == [Wanted(lines[0], level)] + WantedFlags(lines[1..], level)
  {
    var a, b := WantedFlags(lines, level), [Wanted(lines[0], level)] + WantedFlags(lines[1..], level);
    forall i | 0 <= i < |a|
      ensures a[i] == b[i]
    {
      if i > 0 {
        assert lines[1..][i - 1] == lines[i];
      }
    }
  }

  lemma {:induction false} SelectedShape(lines: seq<string>, level: Option<string>)
    ensures var r := Selected(lines, level);
      && |r| <= |lines|
      && (forall i :: 0 <= i < |r| ==> r[i] != "" && Matches(r[i], level))
  {
    if lines != [] {
      SelectedShape(lines[1..], level);
    }
  }

  lemma {:induction false} SelectedMembers(lines: seq<string>, level: Option<string>)
    ensures forall s :: s in Selected(lines, level) <==>
      exists i :: 0 <= i < |lines| && Wanted(lines[i], level) && s == Strip(lines[i])
  {
    if lines != [] {
      var rest := lines[1..];
      SelectedMembers(rest, level);
      var r := Selected(lines, level);
      assert r == (if Wanted(lines[0], level) then [Strip(lines[0])] else []) + Selected(rest, level);
      forall s
        ensures s in r <==> exists i :: 0 <= i < |lines| && Wanted(lines[i], level) && s == Strip(lines[i])
      {
        if s in Selected(rest, level) {
          var j :| 0 <= j < |rest| && Wanted(rest[j], level) && s == Strip(rest[j]);
          assert lines[j + 1] == rest[j];
        }
        if i :| 0 <= i < |lines| && Wanted(lines[i], level) && s == Strip(lines[i]) {
          if i > 0 {
            assert rest[i - 1] == lines[i];
          }
        }
      }
    }
  }

  lemma {:induction false} SelectedOrder(lines: seq<string>, level: Option<string>)
    ensures SubsequenceOf(Selected(lines, level), StripAll(lines))
  {
    if lines == [] {
      SubsequenceOfEmpty(StripAll(lines));
    } else {
      var rest := lines[1..];
      SelectedOrder(rest, level);
      StripAllCons(lines);
      SubsequenceOfPrepend(Selected(rest, level), StripAll(rest), Strip(lines[0]), Wanted(lines[0], level));
    }
  }

  /** Reading back returns at most `n` lines when `n` is positive, each of them stripped, not
      blank and of the requested level, from the day's last `n` lines taken newest first;
      every such line among them is returned, once per occurrence. */
  lemma RecentOfSpec(content: string, n: int, level: Option<string>)
    ensures var r, ls := RecentOf(content, n, level), Reversed(Tail(Lines(content), n));
      && (n > 0 ==> |r| <= n)
      && |r| <= |Lines(content)|
      && (forall i :: 0 <= i < |r| ==> r[i] != "" && Matches(r[i], level))
      && SubsequenceOf(r, StripAll(ls))
      && KeepsExactly(r, StripAll(ls), WantedFlags(ls, level))
  {
    SelectedSpec(Reversed(Tail(Lines(content), n)), level);
  }

  /** Selection distributes over a first line. */
  lemma SelectedCons(x: string, rest: seq<string>, level: Option<string>)
    ensures Selected([x] + rest, level) == (if Wanted(x, level) then [Strip(x)] else []) + Selected(rest, level)
  {
    assert ([x] + rest)[1..] == rest;
  }

  lemma SelectedStep(lines: seq<string>, k: nat, level: Option<string>)
    requires k < |lines|
    ensures Selected(lines[k..], level)
      == (if Wanted(lines[k], level) then [Strip(lines[k])] else []) + Selected(lines[k + 1..], level)
  {
    assert lines[k..][1..] == lines[k + 1..];
  }

  /** `Tail` of a list grown by one element. */
  lemma TailAppend<T>(lines: seq<T>, x: T, n: int)
    requires n >= 0
    ensures Tail(lines + [x], n) == if n == 1 then [x] else Tail(lines, if n == 0 then 0 else n - 1) + [x]
  {
    if n >= 2 && n - 1 < |lines| {
      assert (lines + [x])[|lines| + 1 - n..] == lines[|lines| - (n - 1)..] + [x];
    }
    if n == 1 {
      assert (lines + [x])[|lines|..] == [x];
    }
  }

  /** `Reversed` of a list grown by one element starts with that element. */
  lemma ReversedAppend<T>(s: seq<T>, x: T)
    ensures Reversed(s + [x]) == [x] + Reversed(s)
  {
    assert (s + [x])[..|s|] == s;
  }

  /** The line of the event just logged is read back first: alone when one line is asked for,
      ahead of the previous ones otherwise, whether no level, an empty level or the event's own
      level is asked for. */
  lemma NewestFirst(content: string, timestamp: string, user: string, level: string,
                    action: string, details: Dict, n: int, filter: Option<string>)
    requires Terminated(content)
    requires '\n' !in timestamp && '\n' !in user && '\n' !in level && '\n' !in action
    requires n >= 0
    requires filter.None? || filter.value == "" || filter.value == level
    ensures var line := HumanLine(timestamp, user, level, action, details);
      RecentOf(content + line + "\n", n, filter)
      == [Strip(line)] + (if n == 1 then [] else RecentOf(content, if n == 0 then 0 else n - 1, filter))
  {
    HumanLineSingle(timestamp, user, level, action, details);
    WantedLine(timestamp, user, level, action, details, filter);
    RecentOfAppended(content, HumanLine(timestamp, user, level, action, details), n, filter);
  }

  /** Appending a line the filter keeps puts it first in what is read back. */
  lemma RecentOfAppended(content: string, line: string, n: int, filter: Option<string>)
    requires Terminated(content) && '\n' !in line && n >= 0 && Wanted(line, filter)
    ensures RecentOf(content + line + "\n", n, filter)
      == [Strip(line)] + (if n == 1 then [] else RecentOf(content, if n == 0 then 0 else n - 1, filter))
  {
    LinesAppend(content, line);
    var u := line + "\n";
    var ls := Lines(content);
    var m := if n == 0 then 0 else n - 1;
    var older := if n == 1 then [] else Reversed(Tail(ls, m));
    ReversedTailAppend(ls, u, n);
    assert Reversed(Tail(Lines(content + line + "\n"), n)) == [u] + older;
    StripDropsTrailingSpace(line, '\n');
    assert u == line + ['\n'];
    SelectedCons(u, older, filter);
  }

  /** The last `n` lines of a list grown by one, newest first, start with the new one. */
  lemma ReversedTailAppend<T>(ls: seq<T>, u: T, n: int)
    requires n >= 0
    ensures Reversed(Tail(ls + [u], n)) == [u] + if n == 1 then [] else Reversed(Tail(ls, if n == 0 then 0 else n - 1))
  {
    TailAppend(ls, u, n);
    var m := if n == 0 then 0 else n - 1;
    if n == 1 {
      assert Reversed([u]) == [u] + Reversed([]);
      assert [u] + [] == [u];
    } else {
      ReversedAppend(Tail(ls, m), u);
    }
  }

  /** A logged line is kept by the reading loop with no level, an empty level or its own level. */
  lemma WantedLine(timestamp: string, user: string, level: string, action: string, details: Dict,
                   filter: Option<string>)
    requires filter.None? || filter.value == "" || filter.value == level
    ensures Wanted(HumanLine(timestamp, user, level, action, details), filter)
  {
    var line := HumanLine(timestamp, user, level, action, details);
    LayoutLevel(timestamp, user, level, action, details);
    LayoutAction(timestamp, user, level, action, details);
    var b := LevelAt(timestamp, user);
    var c := ActionAt(timestamp, user, level);
    LevelMark(line, level, b);
    assert line[c - 2] == '|';
    BarNotSpace();
    StripKeeps(line, "| " + level, b - 2, c - 2);
    StripNonEmpty(line, b - 2);
    var r := Strip(line);
    assert r != "" && Contains(r, "| " + level);
    assert Matches(r, filter);
  }

  /** The separator before a field marks the field as "| " and its text. */
  lemma LevelMark(line: string, level: string, b: int)
    requires SeparatorAt(line, b - 3) && OccursAt(line, level, b)
    ensures OccursAt(line, "| " + level, b - 2) && line[b - 2] == '|'
  {
    var sub := "| " + level;
    forall i | 0 <= i < |sub|
      ensures line[b - 2 + i] == sub[i]
    {
      if i >= 2 {
        assert line[b..b + |level|][i - 2] == level[i - 2];
      }
    }
    assert line[b - 2..b - 2 + |sub|] == sub;
  }

  lemma BarNotSpace()
    ensures !IsSpace('|')
  {
  }

  // ---------------------------------------------------------------------------------------
  // The journal files

  /** The day's file, empty when it does not exist yet. */
  function DayFile(daily: map<string, string>, today: string): string
  {
    if today in daily then daily[today] else ""
  }

  /** The effect of writing `line`: the day's file is opened (and so created) and written first,
      then the main journal; a failure on the day's file leaves both untouched, a failure on the
      main journal leaves the day's line in place. */
  predicate Written(daily0: map<string, string>, main0: string, daily1: map<string, string>, main1: string,
                    today: string, line: string, dailyOk: bool, mainOk: bool)
  {
    && daily1 == (if dailyOk then daily0[today := DayFile(daily0, today) + line + "\n"] else daily0)
    && main1 == (if dailyOk && mainOk then main0 + line + "\n" else main0)
  }

  /** An event as the builders hand it to the journal. */
  datatype Event = Event(user: string, action: string, level: string, details: Dict)

  /** The directory of day files ("logs/audit_<date>.log", by date) and the main journal
      ("audit.log"). Whether each write succeeds is given by the caller, as the file system decides. */
  class Journal {
    var daily: map<string, string>
    var main: string

    /** Every file consists of whole lines. */
    ghost predicate Valid()
      reads this
    {
      (forall d :: d in daily ==> Terminated(daily[d])) && Terminated(main)
    }

    constructor(daily0: map<string, string>, main0: string)
      ensures daily == daily0 && main == main0
    {
      daily, main := daily0, main0;
    }

    /** `log_event`: the line is written to the day's file and to the main journal; the result
        is true exactly when both writes succeed. */
    method LogEvent(user: string, action: string, level: string, details: Dict,
                    timestamp: string, today: string, dailyOk: bool, mainOk: bool) returns (ok: bool)
      modifies this
      ensures Written(old(daily), old(main), daily, main, today, HumanLine(timestamp, user, level, action, details), dailyOk, mainOk)
      ensures ok <==> dailyOk && mainOk
      ensures old(Valid()) ==> Valid()
      ensures old(Valid()) && dailyOk && '\n' !in timestamp && '\n' !in user && '\n' !in level && '\n' !in action ==>
        && today in daily
        && RecentOf(daily[today], 1, None) == [Strip(HumanLine(timestamp, user, level, action, details))]
        && RecentOf(daily[today], 1, Some(level)) == [Strip(HumanLine(timestamp, user, level, action, details))]
    {
      var line := HumanLine(timestamp, user, level, action, details);
      ghost var daily0, main0 := daily, main;
      ghost var readable := Valid() && '\n' !in timestamp && '\n' !in user && '\n' !in level && '\n' !in action;
      if !dailyOk {
        return false;
      }
      daily := daily[today := DayFile(daily, today) + line + "\n"];
      if !mainOk {
        if readable { ReadBack(daily0, main0, today, timestamp, user, level, action, details, false); }
        return false;
      }
      main := main + line + "\n";
      if readable { ReadBack(daily0, main0, today, timestamp, user, level, action, details, true); }
      return true;
    }

    /** `get_recent_logs`: nothing when the day's file does not exist or cannot be read;
        otherwise the last `n` lines, newest first, stripped, blank ones skipped, and only those
        containing "| " and the level when a non-empty level is given. */
    method GetRecentLogs(today: string, n: int, level: Option<string>, readOk: bool) returns (logs: seq<string>)
      ensures logs == if today in daily && readOk then RecentOf(daily[today], n, level) else []
    {
      if today !in daily || !readOk {
        return [];
      }
      var lines := Tail(Lines(daily[today]), n);
      var rev := Reversed(lines);
      logs := [];
      var k := 0;
      while k < |rev|
        invariant 0 <= k <= |rev|
        invariant logs + Selected(rev[k..], level) == Selected(rev, level)
      {
        var line := Strip(rev[k]);
        ghost var later := Selected(rev[k + 1..], level);
        ghost var keep := Wanted(rev[k], level);
        SelectedStep(rev, k, level);
        assert Selected(rev[k..], level) == (if keep then [line] else []) + later;
        k := k + 1;
        if line == "" {
          assert !keep && [] + later == later;
          continue;
        }
        if level.Some? && level.value != "" && !Contains(line, "| " + level.value) {
          assert !keep && [] + later == later;
          continue;
        }
        assert keep;
        AppendAssoc(logs, [line], later);
        logs := logs + [line];
      }
    }

    /** `log_login_attempt`. */
    method LogLoginAttempt(username: string, success: bool, ip: Option<string>, userAgent: Option<string>,
                           timestamp: string, today: string, dailyOk: bool, mainOk: bool)
      modifies this
      ensures var e := LoginAttemptEvent(username, success, ip, userAgent);
        Written(old(daily), old(main), daily, main, today, HumanLine(timestamp, e.user, e.level, e.action, e.details), dailyOk, mainOk)
      ensures old(Valid()) ==> Valid()
    {
      var e := LoginAttemptEvent(username, success, ip, userAgent);
      var _ := LogEvent(e.user, e.action, e.level, e.details, timestamp, today, dailyOk, mainOk);
    }

    /** `log_data_access`. */
    method LogDataAccess(user: string, source: string, recordCount: Option<int>,
                         timestamp: string, today: string, dailyOk: bool, mainOk: bool)
      modifies this
      ensures var e := DataAccessEvent(user, source, recordCount);
        Written(old(daily), old(main), daily, main, today, HumanLine(timestamp, e.user, e.level, e.action, e.details), dailyOk, mainOk)
      ensures old(Valid()) ==> Valid()
    {
      var e := DataAccessEvent(user, source, recordCount);
      var _ := LogEvent(e.user, e.action, e.level, e.details, timestamp, today, dailyOk, mainOk);
    }

    /** `log_model_action`. */
    method LogModelAction(user: string, action: string, modelName: string, details: Dict,
                          timestamp: string, today: string, dailyOk: bool, mainOk: bool)
      modifies this
      ensures var e := ModelActionEvent(user, action, modelName, details);
        Written(old(daily), old(main), daily, main, today, HumanLine(timestamp, e.user, e.level, e.action, e.details), dailyOk, mainOk)
      ensures old(Valid()) ==> Valid()
    {
      var e := ModelActionEvent(user, action, modelName, details);
      var _ := LogEvent(e.user, e.action, e.level, e.details, timestamp, today, dailyOk, mainOk);
    }
  }

  /** In whole-line files, a line just written to the day's file is the first one read back. */
  lemma ReadBack(daily0: map<string, string>, main0: string, today: string, timestamp: string,
                 user: string, level: string, action: string, details: Dict, mainOk: bool)
    requires (forall d :: d in daily0 ==> Terminated(daily0[d])) && Terminated(main0)
    requires '\n' !in timestamp && '\n' !in user && '\n' !in level && '\n' !in action
    ensures var daily1 := daily0[today := DayFile(daily0, today) + HumanLine(timestamp, user, level, action, details) + "\n"];
      && RecentOf(daily1[today], 1, None) == [Strip(HumanLine(timestamp, user, level, action, details))]
      && RecentOf(daily1[today], 1, Some(level)) == [Strip(HumanLine(timestamp, user, level, action, details))]
  {
    var line := HumanLine(timestamp, user, level, action, details);
    var daily1 := daily0[today := DayFile(daily0, today) + line + "\n"];
    var main1 := if mainOk then main0 + line + "\n" else main0;
    assert Terminated(DayFile(daily0, today));
    assert Written(daily0, main0, daily1, main1, today, line, true, mainOk);
    LoggedThenRead(daily0, main0, daily1, main1, today, timestamp, user, level, action, details, mainOk);
  }

  /** After a successful write the day's file holds the new line last, and so reading one line
      back returns it. */
  lemma LoggedThenRead(daily0: map<string, string>, main0: string, daily1: map<string, string>, main1: string,
                       today: string, timestamp: string, user: string, level: string, action: string,
                       details: Dict, mainOk: bool)
    requires Terminated(DayFile(daily0, today))
    requires '\n' !in timestamp && '\n' !in user && '\n' !in level && '\n' !in action
    requires Written(daily0, main0, daily1, main1, today, HumanLine(timestamp, user, level, action, details), true, mainOk)
    ensures today in daily1
    ensures RecentOf(daily1[today], 1, None) == [Strip(HumanLine(timestamp, user, level, action, details))]
    ensures RecentOf(daily1[today], 1, Some(level)) == [Strip(HumanLine(timestamp, user, level, action, details))]
  {
    NewestFirst(DayFile(daily0, today), timestamp, user, level, action, details, 1, None);
    NewestFirst(DayFile(daily0, today), timestamp, user, level, action, details, 1, Some(level));
  }

  // ---------------------------------------------------------------------------------------
  // Dictionaries: insertion order, and `d[k] = v` overwriting in place

  function Keys(d: Dict): (ks: seq<string>)
    ensures |ks| == |d| && forall i :: 0 <= i < |d| ==> ks[i] == d[i].0
  {
    seq(|d|, i requires 0 <= i < |d| => d[i].0)
  }

  /** A Python dictionary: no key twice. */
  ghost predicate IsDict(d: Dict)
  {
    Distinct(Keys(d))
  }

  /** `d.get(k)`. */
  function Lookup(d: Dict, k: string): (r: Option<Json>)
    ensures r.None? <==> k !in Keys(d)
  {
    match IndexOf(Keys(d), k)
    case None => None
    case Some(i) => Some(d[i].1)
  }

  /** `d[k] = v`: the value of an existing key is replaced where it stands, a new key goes last. */
  function Put(d: Dict, k: string, v: Json): (r: Dict)
    ensures Keys(r) == if k in Keys(d) then Keys(d) else Keys(d) + [k]
  {
    match IndexOf(Keys(d), k)
    case Some(i) =>
      assert Keys(d[i := (k, v)]) == Keys(d);
      d[i := (k, v)]
    case None =>
      assert Keys(d + [(k, v)]) == Keys(d) + [k];
      d + [(k, v)]
  }

  /** The position `IndexOf` finds is the only first occurrence. */
  lemma IndexOfAt<T>(s: seq<T>, x: T, i: nat)
    requires i < |s| && s[i] == x && x !in s[..i]
    ensures IndexOf(s, x) == Some(i)
  {
  }

  /** After `d[k] = v`, `k` gives `v` and every other key what it gave before. */
  lemma PutLookup(d: Dict, k: string, v: Json)
    ensures Lookup(Put(d, k, v), k) == Some(v)
    ensures forall k' :: k' != k ==> Lookup(Put(d, k, v), k') == Lookup(d, k')
  {
    var ks := Keys(d);
    var r := Put(d, k, v);
    match IndexOf(ks, k)
    case Some(i) =>
      assert Keys(r) == ks;
    case None =>
      assert Keys(r) == ks + [k];
      assert (ks + [k])[..|ks|] == ks;
      IndexOfAt(ks + [k], k, |ks|);
      forall k' | k' != k && k' in ks
        ensures Lookup(r, k') == Lookup(d, k')
      {
        var j := IndexOf(ks, k').value;
        assert (ks + [k])[..j] == ks[..j];
        IndexOfAt(ks + [k], k', j);
      }
  }

  /** `{**base, **extra}`: the entries of `extra` put, in order, over those of `base`. */
  function Merge(base: Dict, extra: Dict): Dict
  {
    if extra == [] then base
    else Put(Merge(base, extra[..|extra| - 1]), extra[|extra| - 1].0, extra[|extra| - 1].1)
  }

  /** A merge is a dictionary whose keys start with those of `base`; a key of `extra` gives its
      value there, and any other key what it gave in `base`. */
  lemma MergeSpec(base: Dict, extra: Dict)
    requires IsDict(base) && IsDict(extra)
    ensures var m := Merge(base, extra);
      && IsDict(m)
      && |Keys(m)| >= |Keys(base)| && Keys(m)[..|base|] == Keys(base)
      && (forall k :: k in Keys(m) <==> k in Keys(base) || k in Keys(extra))
      && (forall k :: Lookup(m, k) == if k in Keys(extra) then Lookup(extra, k) else Lookup(base, k))
  {
    MergeKeys(base, extra);
    MergeLookup(base, extra);
  }

  lemma {:induction false} MergeKeys(base: Dict, extra: Dict)
    requires IsDict(base)
    ensures var m := Merge(base, extra);
      && IsDict(m)
      && |Keys(m)| >= |Keys(base)| && Keys(m)[..|base|] == Keys(base)
      && (forall k :: k in Keys(m) <==> k in Keys(base) || k in Keys(extra))
  {
    if extra != [] {
      var init, last := extra[..|extra| - 1], extra[|extra| - 1];
      assert Keys(extra) == Keys(init) + [last.0];
      MergeKeys(base, init);
      var m0 := Merge(base, init);
      var m := Merge(base, extra);
      if last.0 !in Keys(m0) {
        assert Keys(m) == Keys(m0) + [last.0];
        assert Keys(m)[..|base|] == Keys(m0)[..|base|];
      }
    }
  }

  /** In a dictionary grown by one new key, the other keys keep their values. */
  lemma LookupAppend(d: Dict, entry: (string, Json), k: string)
    requires k != entry.0 && k in Keys(d)
    ensures Lookup(d + [entry], k) == Lookup(d, k)
  {
    var j := IndexOf(Keys(d), k).value;
    assert Keys(d + [entry]) == Keys(d) + [entry.0];
    assert (Keys(d) + [entry.0])[..j] == Keys(d)[..j];
    IndexOfAt(Keys(d + [entry]), k, j);
  }

  lemma {:induction false} MergeLookup(base: Dict, extra: Dict)
    requires IsDict(extra)
    ensures forall k :: Lookup(Merge(base, extra), k) == if k in Keys(extra) then Lookup(extra, k) else Lookup(base, k)
  {
    if extra != [] {
      var init, last := extra[..|extra| - 1], extra[|extra| - 1];
      assert extra == init + [last];
      assert Keys(extra) == Keys(init) + [last.0];
      assert IsDict(init) by {
        assert Keys(init) == Keys(extra)[..|init|];
      }
      MergeLookup(base, init);
      PutLookup(Merge(base, init), last.0, last.1);
      assert Keys(extra)[..|init|] == Keys(init);
      assert last.0 !in Keys(init);
      IndexOfAt(Keys(extra), last.0, |init|);
      forall k | k != last.0 && k in Keys(init)
        ensures Lookup(extra, k) == Lookup(init, k)
      {
        LookupAppend(init, last, k);
      }
    }
  }

  // ---------------------------------------------------------------------------------------
  // Event builders

  function OptionalText(s: Option<string>): Json
  {
    if s.Some? then JStr(s.value) else JNull
  }

  /** `log_login_attempt`'s event: the username and INFO on success, "unknown" and WARNING on
      failure, the matching action text, and the ip and user agent (null when not given). */
  function LoginAttemptEvent(username: string, success: bool, ip: Option<string>, userAgent: Option<string>): (e: Event)
    ensures e.details == [("ip", OptionalText(ip)), ("user_agent", OptionalText(userAgent))]
  {
    Event(
      if success then username else "unknown",
      if success then "Tentative de connexion réussie" else "Tentative de connexion échouée",
      if success then "INFO" else "WARNING",
      [("ip", OptionalText(ip)), ("user_agent", OptionalText(userAgent))])
  }

  /** A failed attempt does not record who tried: it is logged under "unknown", at WARNING,
      whatever the username; a successful one under that username, at INFO. Both always carry
      details, so the line always ends with them. */
  lemma LoginAttemptUsers(u1: string, u2: string, success: bool, ip: Option<string>, userAgent: Option<string>)
    ensures !success ==> LoginAttemptEvent(u1, false, ip, userAgent) == LoginAttemptEvent(u2, false, ip, userAgent)
    ensures !success ==> LoginAttemptEvent(u1, false, ip, userAgent).user == "unknown"
    ensures LoginAttemptEvent(u1, success, ip, userAgent).level == if success then "INFO" else "WARNING"
    ensures success ==> LoginAttemptEvent(u1, true, ip, userAgent).user == u1
    ensures LoginAttemptEvent(u1, success, ip, userAgent).details != []
    ensures LoginAttemptEvent(u1, true, ip, userAgent).action != LoginAttemptEvent(u1, false, ip, userAgent).action
  {
  }

  /** `log_data_access`'s event. */
  function DataAccessEvent(user: string, source: string, recordCount: Option<int>): (e: Event)
    ensures e.user == user && e.level == "INFO"
  {
    var details := [("source", JStr(source))]
      + (if recordCount.Some? && recordCount.value != 0 then [("records", JInt(recordCount.value))] else []);
    Event(user, "Accès aux données", "INFO", details)
  }

  /** The source is always recorded; the record count only when it is given and not zero. */
  lemma DataAccessDetails(user: string, source: string, recordCount: Option<int>)
    ensures var d := DataAccessEvent(user, source, recordCount).details;
      && IsDict(d)
      && Lookup(d, "source") == Some(JStr(source))
      && Lookup(d, "records") == if recordCount.Some? && recordCount.value != 0 then Some(JInt(recordCount.value)) else None
  {
    var d := DataAccessEvent(user, source, recordCount).details;
    assert Keys(d)[0] == "source";
    if |d| == 2 {
      assert Keys(d) == ["source", "records"];
      IndexOfAt(Keys(d), "records", 1);
    }
  }

  /** The descriptions of the known model actions. */
  function ActionDescription(action: string): (desc: string)
  {
    if action == "train" then "Entraînement modèle"
    else if action == "predict" then "Prédiction modèle"
    else if action == "evaluate" then "Évaluation modèle"
    else if action == "load" then "Chargement modèle"
    else if action == "save" then "Sauvegarde modèle"
    else "Action modèle: " + action
  }

  /** An unknown action is described by its own name after a fixed prefix, which no known
      action's description carries, so the two never collide. */
  lemma ActionDescriptions(action: string)
    ensures action !in {"train", "predict", "evaluate", "load", "save"} ==>
      ActionDescription(action) == "Action modèle: " + action
    ensures var prefix := "Action modèle: ";
      (|ActionDescription(action)| >= |prefix| && ActionDescription(action)[..|prefix|] == prefix)
      <==> action !in {"train", "predict", "evaluate", "load", "save"}
  {
    var prefix := "Action modèle: ";
    var d := ActionDescription(action);
    if action in {"train", "predict", "evaluate", "load", "save"} {
      assert d[0] != 'A' && |d| >= |prefix|;
      assert d[..|prefix|][0] != prefix[0];
    } else {
      assert (prefix + action)[..|prefix|] == prefix;
    }
  }

  /** `log_model_action`'s event: the model and the action first, then the caller's details,
      which override either of them. */
  function ModelActionEvent(user: string, action: string, modelName: string, details: Dict): (e: Event)
    ensures e.user == user && e.level == "INFO" && e.action == ActionDescription(action)
  {
    Event(user, ActionDescription(action), "INFO",
          Merge([("model", JStr(modelName)), ("action", JStr(action))], details))
  }

  /** The details hold "model" and "action" first, with the caller's values when the caller
      gives those keys, and every other key the caller gives with its value. */
  lemma ModelActionDetails(user: string, action: string, modelName: string, details: Dict)
    requires IsDict(details)
    ensures var d := ModelActionEvent(user, action, modelName, details).details;
      && IsDict(d)
      && |d| >= 2 && Keys(d)[..2] == ["model", "action"]
      && Lookup(d, "model") == (if "model" in Keys(details) then Lookup(details, "model") else Some(JStr(modelName)))
      && Lookup(d, "action") == (if "action" in Keys(details) then Lookup(details, "action") else Some(JStr(action)))
      && (forall k :: k != "model" && k != "action" ==> Lookup(d, k) == Lookup(details, k))
  {
    var base := [("model", JStr(modelName)), ("action", JStr(action))];
    assert Keys(base) == ["model", "action"];
    IndexOfAt(Keys(base), "action", 1);
    MergeSpec(base, details);
  }
}
