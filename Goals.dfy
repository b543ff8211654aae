/**
 * The weekly goal list: goals with ordered tasks and a completion
 * percentage derived from them. Every handler builds a new list from the old
 * one; a goal's `progress` is recomputed only by the handlers that change
 * that goal's tasks one by one (toggle and delete).
 */
module Goals {
  import opened Decimal
  import opened Seqs

  datatype TaskStatus = Todo | InProgress | Done

  datatype Task = Task(id: string, title: string, status: TaskStatus)

  datatype Goal = Goal(id: string, title: string, progress: int, tasks: seq<Task>)

  // ---------------------------------------------------------------------------
  // The derived progress percentage
  // ---------------------------------------------------------------------------

  /** How many tasks are done (the length of the filtered list). */
  function DoneCount(tasks: seq<Task>): (c: nat)
    ensures c <= |tasks|
  {
    |Filter(tasks, (t: Task) => t.status == Done)|
  }

  /**
   * `100 * done / total` rounded to the nearest whole number, halves rounded
   * up (what `Math.round` does to a non-negative ratio).
   */
  function RoundPercent(done: nat, total: nat): (p: int)
    requires done <= total && 0 < total
    ensures 0 <= p <= 100
    ensures 200 * done - total < 2 * total * p <= 200 * done + total
    ensures done == 0 ==> p == 0
    ensures done == total ==> p == 100
  {
    RoundPercentFacts(done, total);
    (200 * done + total) / (2 * total)
  }

  lemma RoundPercentFacts(done: nat, total: nat)
    requires done <= total && 0 < total
    ensures var p := (200 * done + total) / (2 * total);
      && 0 <= p <= 100
      && 200 * done - total < 2 * total * p <= 200 * done + total
      && (done == 0 ==> p == 0)
      && (done == total ==> p == 100)
  {
    var n, d := 200 * done + total, 2 * total;
    DivBounds(n, d);
    assert n < d * 101;
    DivBelow(n, d, 101);
    if done == 0 {
      DivBelow(n, d, 1);
    }
    if done == total {
      assert d * 100 <= n;
      DivAtLeast(n, d, 100);
    }
  }

  lemma DivBounds(n: nat, d: nat)
    requires 0 < d
    ensures d * (n / d) <= n < d * (n / d + 1)
  {
  }

  lemma DivBelow(n: nat, d: nat, k: nat)
    requires 0 < d && n < d * k
    ensures n / d < k
  {
    DivBounds(n, d);
    assert d * (n / d) < d * k;
  }

  lemma DivAtLeast(n: nat, d: nat, k: nat)
    requires 0 < d && d * k <= n
    ensures k <= n / d
  {
    DivBounds(n, d);
    assert d * k < d * (n / d + 1);
  }

  /** A goal's progress for a task list: the rounded done percentage, 0 for no tasks. */
  function Progress(tasks: seq<Task>): (p: int)
    ensures 0 <= p <= 100
    ensures tasks == [] ==> p == 0
    ensures tasks != [] ==> 200 * DoneCount(tasks) - |tasks| < 2 * |tasks| * p <= 200 * DoneCount(tasks) + |tasks|
  {
    if |tasks| == 0 then 0 else RoundPercent(DoneCount(tasks), |tasks|)
  }

  /** All tasks done gives 100; none done gives 0. */
  lemma ProgressExtremes(tasks: seq<Task>)
    ensures (forall i :: 0 <= i < |tasks| ==> tasks[i].status == Done) && tasks != [] ==> Progress(tasks) == 100
    ensures (forall i :: 0 <= i < |tasks| ==> tasks[i].status != Done) ==> Progress(tasks) == 0
  {
    var isDone := (t: Task) => t.status == Done;
    if forall i :: 0 <= i < |tasks| ==> tasks[i].status == Done {
      FilterKeepsAll(tasks, isDone);
    }
    if forall i :: 0 <= i < |tasks| ==> tasks[i].status != Done {
      FilterKeepsNone(tasks, isDone);
    }
  }

  /** The stored progress of the goal matches its tasks. */
  predicate Consistent(g: Goal) {
    g.progress == Progress(g.tasks)
  }

  predicate AllConsistent(goals: seq<Goal>) {
    forall g :: g in goals ==> Consistent(g)
  }

  // ---------------------------------------------------------------------------
  // Toggling a task
  // ---------------------------------------------------------------------------

  /** Clicking a task: done becomes to-do, anything else becomes done. */
  function FlipStatus(st: TaskStatus): (r: TaskStatus)
    ensures (r == Done) == (st != Done)
    ensures r != InProgress
  {
    if st == Done then Todo else Done
  }

  /** One goal after toggling task `tId`: every task with that id flips, progress is recomputed. */
  function ToggleInGoal(g: Goal, tId: string): (r: Goal)
    ensures r.id == g.id && r.title == g.title && |r.tasks| == |g.tasks|
    ensures forall j :: 0 <= j < |g.tasks| ==>
      && r.tasks[j].id == g.tasks[j].id && r.tasks[j].title == g.tasks[j].title
      && r.tasks[j].status == (if g.tasks[j].id == tId then FlipStatus(g.tasks[j].status) else g.tasks[j].status)
    ensures Consistent(r) && 0 <= r.progress <= 100
  {
    var tasks := seq(|g.tasks|, j requires 0 <= j < |g.tasks| =>
      if g.tasks[j].id == tId then g.tasks[j].(status := FlipStatus(g.tasks[j].status)) else g.tasks[j]);
    g.(tasks := tasks, progress := Progress(tasks))
  }

  /**
   * Toggling task `tId` of goal `gId`: exactly the matching tasks of the
   * matching goals flip, those goals' progress is recomputed, and every other
   * goal and task is left as it was.
   */
  function ToggleTask(goals: seq<Goal>, gId: string, tId: string): (r: seq<Goal>)
    ensures |r| == |goals|
    ensures forall i :: 0 <= i < |goals| && goals[i].id != gId ==> r[i] == goals[i]
    ensures forall i :: 0 <= i < |goals| && goals[i].id == gId ==>
      && r[i].id == gId && r[i].title == goals[i].title
      && |r[i].tasks| == |goals[i].tasks| && Consistent(r[i])
    ensures forall i, j :: 0 <= i < |goals| && 0 <= j < |goals[i].tasks| ==>
      && r[i].tasks[j].id == goals[i].tasks[j].id && r[i].tasks[j].title == goals[i].tasks[j].title
      && r[i].tasks[j].status ==
           (if goals[i].id == gId && goals[i].tasks[j].id == tId
            then FlipStatus(goals[i].tasks[j].status) else goals[i].tasks[j].status)
    ensures AllConsistent(goals) ==> AllConsistent(r)
  {
    seq(|goals|, i requires 0 <= i < |goals| =>
      if goals[i].id != gId then goals[i] else ToggleInGoal(goals[i], tId))
  }

  /**
   * Toggling the same task twice restores the list, as long as the progress
   * figures were up to date and no toggled task was in progress (an
   * in-progress task becomes done, then to-do).
   */
  lemma ToggleTaskTwice(goals: seq<Goal>, gId: string, tId: string)
    requires AllConsistent(goals)
    requires forall i, j ::
      0 <= i < |goals| && 0 <= j < |goals[i].tasks| && goals[i].id == gId && goals[i].tasks[j].id == tId ==>
        goals[i].tasks[j].status != InProgress
    ensures ToggleTask(ToggleTask(goals, gId, tId), gId, tId) == goals
  {
    var once := ToggleTask(goals, gId, tId);
    var twice := ToggleTask(once, gId, tId);
    forall i | 0 <= i < |goals|
      ensures twice[i] == goals[i]
    {
      if goals[i].id == gId {
        assert |twice[i].tasks| == |goals[i].tasks|;
        forall j | 0 <= j < |goals[i].tasks|
          ensures twice[i].tasks[j] == goals[i].tasks[j]
        {
          assert once[i].tasks[j].id == goals[i].tasks[j].id;
        }
        assert twice[i].tasks == goals[i].tasks;
        assert goals[i] in goals;
      }
    }
  }

  /** Flipping an in-progress task twice does not bring it back: it ends up to-do. */
  lemma ToggleTwiceLosesInProgress(g: Goal, tId: string, j: nat)
    requires j < |g.tasks| && g.tasks[j].id == tId && g.tasks[j].status == InProgress
    ensures ToggleInGoal(ToggleInGoal(g, tId), tId).tasks[j].status == Todo
  {
    assert ToggleInGoal(g, tId).tasks[j].status == Done;
  }

  // ---------------------------------------------------------------------------
  // Deleting tasks and goals
  // ---------------------------------------------------------------------------

  /** One goal after deleting task `tId`: the other tasks in order, progress recomputed. */
  function DeleteInGoal(g: Goal, tId: string): (r: Goal)
    ensures r.id == g.id && r.title == g.title
    ensures forall t :: t in r.tasks <==> t in g.tasks && t.id != tId
    ensures forall t :: multiset(r.tasks)[t] == if t.id == tId then 0 else multiset(g.tasks)[t]
    ensures IsSubsequence(r.tasks, g.tasks)
    ensures Consistent(r)
    ensures r.tasks == [] ==> r.progress == 0
  {
    var keep := (t: Task) => t.id != tId;
    FilterSpec(g.tasks, keep);
    var tasks := Filter(g.tasks, keep);
    g.(tasks := tasks, progress := Progress(tasks))
  }

  /**
   * Deleting task `tId` of goal `gId`: the matching goals lose exactly the
   * tasks with that id and get their progress recomputed; the other goals are
   * left as they were.
   */
  function DeleteTask(goals: seq<Goal>, gId: string, tId: string): (r: seq<Goal>)
    ensures |r| == |goals|
    ensures forall i :: 0 <= i < |goals| && goals[i].id != gId ==> r[i] == goals[i]
    ensures forall i :: 0 <= i < |goals| && goals[i].id == gId ==>
      && r[i].id == gId && r[i].title == goals[i].title
      && (forall t :: t in r[i].tasks <==> t in goals[i].tasks && t.id != tId)
      && (forall t :: multiset(r[i].tasks)[t] == if t.id == tId then 0 else multiset(goals[i].tasks)[t])
      && IsSubsequence(r[i].tasks, goals[i].tasks)
      && Consistent(r[i])
    ensures AllConsistent(goals) ==> AllConsistent(r)
  {
    seq(|goals|, i requires 0 <= i < |goals| =>
      if goals[i].id != gId then goals[i] else DeleteInGoal(goals[i], tId))
  }

  /** Deleting goal `id`: exactly the goals with that id go, the rest keep their order. */
  function DeleteGoal(goals: seq<Goal>, id: string): (r: seq<Goal>)
    ensures forall g :: g in r <==> g in goals && g.id != id
    ensures forall g :: multiset(r)[g] == if g.id == id then 0 else multiset(goals)[g]
    ensures IsSubsequence(r, goals)
    ensures AllConsistent(goals) ==> AllConsistent(r)
  {
    var keep := (g: Goal) => g.id != id;
    FilterSpec(goals, keep);
    Filter(goals, keep)
  }

  // ---------------------------------------------------------------------------
  // Adding a goal and attaching its generated tasks
  // ---------------------------------------------------------------------------

  /** The characters `String.prototype.trim` removes: ECMAScript white space and line terminators. */
  predicate IsWhiteSpace(c: char) {
    c == '\t' || c == '\n' || c == '\U{000B}' || c == '\U{000C}' || c == '\r' || c == ' '
    || c == '\U{00A0}' || c == '\U{1680}' || ('\U{2000}' <= c <= '\U{200A}')
    || c == '\U{2028}' || c == '\U{2029}' || c == '\U{202F}' || c == '\U{205F}'
    || c == '\U{3000}' || c == '\U{FEFF}'
  }

  /** `s.trimStart()`: drops the white space at the front. */
  function TrimStart(s: string): (r: string)
    ensures |r| <= |s| && r == s[|s| - |r|..]
    ensures r == [] || !IsWhiteSpace(r[0])
    ensures forall i :: 0 <= i < |s| - |r| ==> IsWhiteSpace(s[i])
    decreases |s|
  {
    if s != [] && IsWhiteSpace(s[0]) then TrimStart(s[1..]) else s
  }

  /** `s.trimEnd()`: drops the white space at the back. */
  function TrimEnd(s: string): (r: string)
    ensures |r| <= |s| && r == s[..|r|]
    ensures r == [] || !IsWhiteSpace(r[|r| - 1])
    ensures forall i :: |r| <= i < |s| ==> IsWhiteSpace(s[i])
    decreases |s|
  {
    if s != [] && IsWhiteSpace(s[|s| - 1]) then TrimEnd(s[..|s| - 1]) else s
  }

  /** `s.trim()`: white space removed at both ends, the inside left as it was. */
  function Trim(s: string): (r: string)
    ensures |r| <= |s|
    ensures r == [] || (!IsWhiteSpace(r[0]) && !IsWhiteSpace(r[|r| - 1]))
    ensures var k := |s| - |TrimStart(s)|;
      && k + |r| <= |s| && r == s[k..k + |r|]
      && forall i :: 0 <= i < k || k + |r| <= i < |s| ==> IsWhiteSpace(s[i])
  {
    TrimEnd(TrimStart(s))
  }

  /** `!s.trim()`: the text trims to the empty string. */
  predicate Blank(s: string) {
    Trim(s) == []
  }

  /** A text is blank exactly when every character of it is white space. */
  lemma BlankIffAllWhiteSpace(s: string)
    ensures Blank(s) <==> forall i :: 0 <= i < |s| ==> IsWhiteSpace(s[i])
  {
    var front := TrimStart(s);
    if Blank(s) {
      assert front == [];
    } else {
      var k := |s| - |front|;
      assert front != [] && s[k] == front[0];
    }
  }

  /**
   * The synchronous half of adding a goal: blank titles are ignored,
   * otherwise one goal with the untrimmed title, no tasks and progress 0 is
   * appended at the end.
   */
  function AddGoal(goals: seq<Goal>, title: string, id: string): (r: seq<Goal>)
    ensures Blank(title) ==> r == goals
    ensures !Blank(title) ==> |r| == |goals| + 1 && r[..|goals|] == goals
    ensures !Blank(title) ==> r[|goals|] == Goal(id, title, 0, [])
    ensures AllConsistent(goals) ==> AllConsistent(r)
  {
    if Blank(title) then goals else goals + [Goal(id, title, 0, [])]
  }

  /** The id of the `i`-th generated task of goal `goalId`. */
  function TaskId(goalId: string, i: nat): (id: string)
    ensures |id| > |goalId| && id[..|goalId|] == goalId && id[|goalId|] == '-'
  {
    goalId + "-" + NatToString(i)
  }

  /** Generated task ids of one goal never collide. */
  lemma TaskIdInjective(goalId: string, i: nat, j: nat)
    requires TaskId(goalId, i) == TaskId(goalId, j)
    ensures i == j
  {
    var n := |goalId| + 1;
    assert TaskId(goalId, i)[n..] == NatToString(i);
    assert TaskId(goalId, j)[n..] == NatToString(j);
    NatToStringInjective(i, j);
  }

  /** The generated task titles as to-do tasks of goal `goalId`. */
  function MakeTasks(goalId: string, titles: seq<string>): (r: seq<Task>)
    ensures |r| == |titles|
    ensures forall i :: 0 <= i < |r| ==> r[i].title == titles[i] && r[i].status == Todo
    ensures forall i :: 0 <= i < |r| ==> r[i].id == TaskId(goalId, i)
  {
    seq(|titles|, i requires 0 <= i < |titles| => Task(TaskId(goalId, i), titles[i], Todo))
  }

  /** The tasks attached to one goal have pairwise distinct ids, and none is done. */
  lemma MakeTasksDistinct(goalId: string, titles: seq<string>)
    ensures var ts := MakeTasks(goalId, titles);
      forall i, j :: 0 <= i < j < |ts| ==> ts[i].id != ts[j].id
    ensures Progress(MakeTasks(goalId, titles)) == 0
  {
    var ts := MakeTasks(goalId, titles);
    forall i, j | 0 <= i < j < |ts|
      ensures ts[i].id != ts[j].id
    {
      if ts[i].id == ts[j].id {
        TaskIdInjective(goalId, i, j);
      }
    }
    ProgressExtremes(ts);
  }

  /**
   * The asynchronous half of adding a goal, applied to the list as it is
   * when the suggestions arrive: goals with id `goalId` get the generated
   * tasks; everything else, and their progress, is left as it was.
   */
  function AttachTasks(goals: seq<Goal>, goalId: string, titles: seq<string>): (r: seq<Goal>)
    ensures |r| == |goals|
    ensures forall i :: 0 <= i < |goals| && goals[i].id != goalId ==> r[i] == goals[i]
    ensures forall i :: 0 <= i < |goals| && goals[i].id == goalId ==>
      r[i] == goals[i].(tasks := MakeTasks(goalId, titles))
    ensures (forall g :: g in goals && g.id == goalId ==> g.progress == 0) && AllConsistent(goals)
      ==> AllConsistent(r)
  {
    MakeTasksDistinct(goalId, titles);
    seq(|goals|, i requires 0 <= i < |goals| =>
      if goals[i].id == goalId then goals[i].(tasks := MakeTasks(goalId, titles)) else goals[i])
  }

  /** No goal in the list carries `id`. */
  predicate FreshId(goals: seq<Goal>, id: string) {
    forall g :: g in goals ==> g.id != id
  }

  /**
   * Both halves of adding a goal under a fresh id, with nothing in between:
   * the list gains one goal at the end holding the generated to-do tasks at
   * progress 0, and the progress figures stay consistent.
   */
  lemma AddThenAttach(goals: seq<Goal>, title: string, id: string, titles: seq<string>)
    requires !Blank(title) && FreshId(goals, id) && AllConsistent(goals)
    ensures var r := AttachTasks(AddGoal(goals, title, id), id, titles);
      && r == goals + [Goal(id, title, 0, MakeTasks(id, titles))]
      && AllConsistent(r)
  {
    var added := AddGoal(goals, title, id);
    var r := AttachTasks(added, id, titles);
    forall i | 0 <= i < |r|
      ensures r[i] == (goals + [Goal(id, title, 0, MakeTasks(id, titles))])[i]
    {
      if i < |goals| {
        assert added[i] == goals[i];
        assert goals[i] in goals;
      }
    }
    MakeTasksDistinct(id, titles);
  }

  /** When the goal was deleted before its suggestions arrived, attaching them changes nothing. */
  lemma AttachAfterDelete(goals: seq<Goal>, id: string, titles: seq<string>)
    ensures AttachTasks(DeleteGoal(goals, id), id, titles) == DeleteGoal(goals, id)
  {
    var d := DeleteGoal(goals, id);
    forall i | 0 <= i < |d|
      ensures d[i].id != id
    {
      assert d[i] in d;
    }
  }

  /** Deleting a goal just added under a fresh id gives back the list before. */
  lemma DeleteUndoesAdd(goals: seq<Goal>, title: string, id: string)
    requires FreshId(goals, id)
    ensures DeleteGoal(AddGoal(goals, title, id), id) == goals
  {
    var keep := (g: Goal) => g.id != id;
    forall i | 0 <= i < |goals|
      ensures keep(goals[i])
    {
      assert goals[i] in goals;
    }
    if Blank(title) {
      FilterKeepsAll(goals, keep);
    } else {
      FilterUndoesAppend(goals, Goal(id, title, 0, []), keep);
    }
  }
}
