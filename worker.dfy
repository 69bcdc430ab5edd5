/** The background job side: `_set_task_progress` and the progress loop of
    `export_posts`.

    Progress is an integer here: the job reports `100 * i / total` truncated
    toward zero (the value `int(progress)` puts in the notification). For the
    completion test nothing is lost, since a quotient is at least 100 exactly
    when its truncation is. */
module Worker {
  import opened Common
  import opened Accounts

  const ProgressName: string := "task_progress"

  /** `_set_task_progress(progress)` for the job `current` the worker is
      running (None outside a job). `task` is the row `Task.query.get` finds
      for the job's id, null when there is none, and `owner` that row's user.
      The progress reaches the job's meta first; a missing row then fails on
      `task.user` (`raised`), before any notification or completion. */
  method SetTaskProgress(q: JobQueue, current: Option<JobId>, task: Task?, owner: User, progress: int, now: int)
    returns (raised: bool)
    requires current.Some? && task != null ==> task.id == current.value && task.userId == owner.id
    modifies q`meta, task, owner`notifications
    ensures raised <==> current.Some? && task == null
    ensures current.None? ==> q.meta == old(q.meta) && owner.notifications == old(owner.notifications)
    ensures current.Some? ==> q.meta == old(q.meta)[current.value := Some(progress)]
    ensures raised ==> owner.notifications == old(owner.notifications)
    ensures current.Some? && task != null ==>
      owner.notifications == Notify(old(owner.notifications), ProgressName, TaskProgress(current.value, progress), now)
    ensures task != null ==> task.complete == (old(task.complete) || (current.Some? && progress >= 100))
  {
    raised := false;
    if current.Some? {
      var id := current.value;
      q.SaveProgress(id, progress);
      if task == null {
        return true;
      }
      owner.AddNotification(ProgressName, TaskProgress(id, progress), now);
      if progress >= 100 {
        task.complete := true;
      }
    }
  }

  /** One exported entry: the tweet's body and creation time. */
  datatype Post = Post(body: string, created: int)

  function Created(p: Post): int { p.created }

  /** The number of tweets the loop gets through. `crashAfter == Some(k)`
      says the body raises: while handling tweet number `k` when `k` is below
      the total, otherwise after the loop, while sending the e-mail. */
  function Stop(total: nat, crashAfter: Option<nat>): (r: nat)
    ensures r <= total
    ensures crashAfter.None? ==> r == total
    ensures crashAfter.Some? ==> r == if crashAfter.value < total then crashAfter.value else total
  {
    if crashAfter.Some? && crashAfter.value < total then crashAfter.value else total
  }

  /** The progress reported after the `i`-th of `total` tweets. */
  function Percent(i: nat, total: nat): int
    requires 0 < total
  {
    100 * i / total
  }

  /** The reports made inside the loop after the first `k` tweets. */
  function LoopReports(total: nat, k: nat): seq<int>
    requires k <= total
  {
    if k == 0 then [] else LoopReports(total, k - 1) + [Percent(k, total)]
  }

  /** Everything `export_posts` reports: 0 first, one value per tweet handled,
      then the 100 of the `finally` clause. */
  function ExportReports(total: nat, crashAfter: Option<nat>): seq<int>
  {
    [0] + LoopReports(total, Stop(total, crashAfter)) + [100]
  }

  lemma MulMonotone(d: int, x: int, y: int)
    requires d > 0
    ensures d * x < d * y ==> x < y
  {
    if x >= y {
      assert d * x - d * y == d * (x - y);
    }
  }

  lemma DivMonotone(a: nat, b: nat, d: nat)
    requires a <= b && 0 < d
    ensures a / d <= b / d
  {
    var qa, qb := a / d, b / d;
    assert d * qa <= a by {
      assert a == d * qa + a % d;
    }
    assert b < d * qb + d by {
      assert b == d * qb + b % d;
    }
    assert d * qa < d * (qb + 1);
    MulMonotone(d, qa, qb + 1);
  }

  lemma PercentBounds(i: nat, total: nat)
    requires i <= total && 0 < total
    ensures 0 <= Percent(i, total) <= 100
    ensures i == total ==> Percent(i, total) == 100
  {
    DivMonotone(100 * i, 100 * total, total);
    assert 100 * total / total == 100 by {
      assert 100 * total == total * 100 + 0;
    }
  }

  lemma PercentMonotone(i: nat, j: nat, total: nat)
    requires i <= j <= total && 0 < total
    ensures Percent(i, total) <= Percent(j, total)
  {
    DivMonotone(100 * i, 100 * j, total);
  }

  lemma {:induction false} LoopReportsShape(total: nat, k: nat)
    requires k <= total
    ensures |LoopReports(total, k)| == k
    ensures forall i :: 0 <= i < k ==> LoopReports(total, k)[i] == Percent(i + 1, total)
  {
    if k > 0 {
      LoopReportsShape(total, k - 1);
    }
  }

  /** The reported sequence starts at 0, ends at 100, never decreases and
      stays within [0, 100]; when every tweet is handled the last value
      reported inside the loop is already 100. */
  lemma ExportReportsShape(total: nat, crashAfter: Option<nat>)
    ensures var r := ExportReports(total, crashAfter);
      && |r| == Stop(total, crashAfter) + 2
      && r[0] == 0 && r[|r| - 1] == 100
      && (forall i :: 0 <= i < |r| ==> 0 <= r[i] <= 100)
      && (forall i, j :: 0 <= i <= j < |r| ==> r[i] <= r[j])
    ensures crashAfter.None? && total > 0 ==>
      var r := ExportReports(total, crashAfter); r[|r| - 2] == 100
  {
    var k := Stop(total, crashAfter);
    var r := ExportReports(total, crashAfter);
    LoopReportsShape(total, k);
    forall i | 0 <= i < |r| ensures 0 <= r[i] <= 100 {
      if 0 < i < |r| - 1 {
        PercentBounds(i, total);
      }
    }
    forall i, j | 0 <= i <= j < |r| ensures r[i] <= r[j] {
      if 0 < i <= j < |r| - 1 {
        PercentMonotone(i, j, total);
      }
      if 0 < i < |r| - 1 {
        PercentBounds(i, total);
      }
      if 0 < j < |r| - 1 {
        PercentBounds(j, total);
      }
    }
    if crashAfter.None? && total > 0 {
      PercentBounds(total, total);
    }
  }

  /** The job state after `progress` was the last value reported: the job
      meta holds it and the owner's `task_progress` notification carries it,
      the rest as it was before the run (nothing at all changes outside a
      job). */
  ghost predicate Reported(q: JobQueue, owner: User, current: Option<JobId>,
                           meta0: map<JobId, Option<int>>, ns0: seq<Notification>, progress: int, now: int)
    reads q, owner
  {
    if current.Some? then
      && q.meta == meta0[current.value := Some(progress)]
      && owner.notifications == Notify(ns0, ProgressName, TaskProgress(current.value, progress), now)
    else
      q.meta == meta0 && owner.notifications == ns0
  }

  /** A report made after an earlier one: only the latest shows. */
  method Report(q: JobQueue, current: Option<JobId>, task: Task?, owner: User, progress: int, now: int,
                ghost meta0: map<JobId, Option<int>>, ghost ns0: seq<Notification>, ghost last: int)
    requires current.Some? ==> task != null && task.id == current.value && task.userId == owner.id
    requires Reported(q, owner, current, meta0, ns0, last, now)
    modifies q`meta, task, owner`notifications
    ensures Reported(q, owner, current, meta0, ns0, progress, now)
    ensures task != null ==> task.complete == (old(task.complete) || (current.Some? && progress >= 100))
  {
    var raised := SetTaskProgress(q, current, task, owner, progress, now);
    if current.Some? {
      NotifyAbsorbs(ns0, ProgressName, TaskProgress(current.value, last), now, TaskProgress(current.value, progress), now);
    }
  }

  /** The `for` loop of `export_posts` over the tweets in creation order:
      append the entry, count it, report the percentage. */
  method ExportLoop(q: JobQueue, current: Option<JobId>, task: Task?, owner: User,
                    ordered: seq<Post>, crashAfter: Option<nat>, now: int,
                    ghost meta0: map<JobId, Option<int>>, ghost ns0: seq<Notification>)
    returns (data: seq<Post>, reports: seq<int>)
    requires current.Some? ==> task != null && task.id == current.value && task.userId == owner.id
    requires Reported(q, owner, current, meta0, ns0, 0, now)
    modifies q`meta, task, owner`notifications
    ensures data == ordered[..Stop(|ordered|, crashAfter)]
    ensures reports == [0] + LoopReports(|ordered|, Stop(|ordered|, crashAfter))
    ensures Reported(q, owner, current, meta0, ns0, reports[|reports| - 1], now)
    ensures current.None? && task != null ==> task.complete == old(task.complete)
  {
    reports := [0];
    data := [];
    var total := |ordered|;
    ghost var stop := Stop(total, crashAfter);
    var i := 0;
    while i < total
      invariant 0 <= i <= stop
      invariant data == ordered[..i]
      invariant reports == [0] + LoopReports(total, i)
      invariant Reported(q, owner, current, meta0, ns0, reports[|reports| - 1], now)
      invariant current.None? && task != null ==> task.complete == old(task.complete)
    {
      if crashAfter == Some(i) {
        break;
      }
      data := data + [ordered[i]];
      i := i + 1;
      var progress := 100 * i / total;
      Report(q, current, task, owner, progress, now, meta0, ns0, reports[|reports| - 1]);
      assert LoopReports(total, i) == LoopReports(total, i - 1) + [progress];
      reports := reports + [progress];
      assert reports == [0] + LoopReports(total, i);
      assert ordered[..i] == ordered[..i - 1] + [ordered[i - 1]];
    }
    assert i == stop;
  }

  /** `export_posts(user_id)` run as job `current` for `owner`, whose tweets are
      `posts` in storage order; `task` is the job's Task row, if there is one.
      Returns the entries collected, every progress value reported, in order,
      the archive e-mailed (None when the body raised before sending it) and
      whether an exception escapes the job.

      Whatever the body does, the `finally` clause reports 100, so the Task row
      ends complete and the owner's single `task_progress` notification says
      100. Without a Task row the first report already fails, and so does the
      one in `finally`, which escapes the job: the meta says 100 but nothing
      is marked complete or notified. */
  method ExportPosts(q: JobQueue, current: Option<JobId>, task: Task?, owner: User,
                     posts: seq<Post>, crashAfter: Option<nat>, now: int)
    returns (data: seq<Post>, reports: seq<int>, archive: Option<seq<Post>>, raised: bool)
    requires current.Some? && task != null ==> task.id == current.value && task.userId == owner.id
    modifies q`meta, task, owner`notifications
    ensures raised <==> current.Some? && task == null
    ensures raised ==>
      && data == [] && reports == [0, 100] && archive.None?
      && q.meta == old(q.meta)[current.value := Some(100)]
      && owner.notifications == old(owner.notifications)
    ensures !raised ==> reports == ExportReports(|posts|, crashAfter)
    ensures !raised ==> data == SortBy(posts, Created)[..Stop(|posts|, crashAfter)]
    ensures !raised ==> (archive.Some? <==> crashAfter.None?)
    ensures SortedBy(data, Created)
    ensures archive.Some? ==> archive.value == data && multiset(data) == multiset(posts)
    ensures current.Some? && task != null ==>
      && task.complete
      && q.meta == old(q.meta)[current.value := Some(100)]
      && owner.notifications == Notify(old(owner.notifications), ProgressName, TaskProgress(current.value, 100), now)
    ensures current.None? ==>
      && q.meta == old(q.meta)
      && owner.notifications == old(owner.notifications)
      && (task != null ==> task.complete == old(task.complete))
  {
    ghost var meta0, ns0 := q.meta, owner.notifications;
    raised := SetTaskProgress(q, current, task, owner, 0, now);
    if raised {
      raised := SetTaskProgress(q, current, task, owner, 100, now);
      return [], [0, 100], None, raised;
    }
    var ordered := SortBy(posts, Created);
    data, reports := ExportLoop(q, current, task, owner, ordered, crashAfter, now, meta0, ns0);
    assert ordered[..|ordered|] == ordered;
    archive := if crashAfter.None? then Some(data) else None;
    Report(q, current, task, owner, 100, now, meta0, ns0, reports[|reports| - 1]);
    reports := reports + [100];
  }
}
