/** Users and what hangs off them: the follow and like edges with their
    guards, replace-on-write notifications, background tasks and the job
    queue that runs them. */
module Accounts {
  import opened Common

  // ---------------------------------------------------------------------------
  // Guarded edges

  /** The edge list after a guarded insert (`follow`, `like_tweet`): `x` is
      appended only when it is not there yet. */
  function Added(s: seq<int>, x: int): seq<int>
  {
    if x in s then s else s + [x]
  }

  /** The edge list with every edge to `x` removed (`unfollow`,
      `unlike_tweet`). */
  function Without(s: seq<int>, x: int): (r: seq<int>)
    ensures forall y :: y in r <==> y in s && y != x
    ensures |r| <= |s|
  {
    if s == [] then []
    else Without(s[..|s| - 1], x) + (if s[|s| - 1] == x then [] else [s[|s| - 1]])
  }

  predicate NoDup(s: seq<int>)
  {
    forall i, j :: 0 <= i < j < |s| ==> s[i] != s[j]
  }

  /** After a guarded insert the edge exists, no other edge changed, the
      insert is a no-op when repeated, and there is still at most one edge
      per pair. */
  lemma AddedSpec(s: seq<int>, x: int)
    ensures x in Added(s, x)
    ensures forall y :: y != x ==> (y in Added(s, x) <==> y in s)
    ensures Added(Added(s, x), x) == Added(s, x)
    ensures x in s ==> Added(s, x) == s
    ensures NoDup(s) ==> NoDup(Added(s, x))
  {
  }

  lemma {:induction false} WithoutNoDup(s: seq<int>, x: int)
    requires NoDup(s)
    ensures NoDup(Without(s, x))
  {
    if s != [] {
      var init, last := s[..|s| - 1], s[|s| - 1];
      assert NoDup(init);
      WithoutNoDup(init, x);
      assert last !in init by {
        forall j | 0 <= j < |init| ensures init[j] != last {
          assert s[j] != s[|s| - 1];
        }
      }
      var w := Without(init, x);
      if last != x {
        assert forall j :: 0 <= j < |w| ==> w[j] in init;
        assert Without(s, x) == w + [last];
      }
    }
  }

  lemma {:induction false} WithoutAbsent(s: seq<int>, x: int)
    requires x !in s
    ensures Without(s, x) == s
  {
    if s != [] {
      WithoutAbsent(s[..|s| - 1], x);
    }
  }

  /** After a guarded removal the edge is gone, no other edge changed, the
      removal is a no-op when repeated, and removal undoes a fresh insert. */
  lemma WithoutSpec(s: seq<int>, x: int)
    ensures x !in Without(s, x)
    ensures forall y :: y != x ==> (y in Without(s, x) <==> y in s)
    ensures Without(Without(s, x), x) == Without(s, x)
    ensures x !in s ==> Without(Added(s, x), x) == s
    ensures NoDup(s) ==> NoDup(Without(s, x))
  {
    WithoutAbsent(Without(s, x), x);
    if x !in s {
      WithoutAbsent(s, x);
      assert (s + [x])[..|s + [x]| - 1] == s;
    }
    if NoDup(s) {
      WithoutNoDup(s, x);
    }
  }

  // ---------------------------------------------------------------------------
  // Notifications

  type JobId = nat

  /** The JSON payloads the application stores: a counter
      (`unread_message_count`, `unread_notifs_count`) or a task's progress. */
  datatype Payload = Count(n: int) | TaskProgress(taskId: JobId, progress: int)

  datatype Notification = Notification(name: string, timestamp: int, payload: Payload)

  /** The notifications called `name`, in order. */
  function Named(ns: seq<Notification>, name: string): seq<Notification>
  {
    if ns == [] then []
    else
      var last := ns[|ns| - 1];
      Named(ns[..|ns| - 1], name) + (if last.name == name then [last] else [])
  }

  /** `notifications.filter_by(name=name).delete()`. */
  function DropNamed(ns: seq<Notification>, name: string): seq<Notification>
  {
    if ns == [] then []
    else
      var last := ns[|ns| - 1];
      DropNamed(ns[..|ns| - 1], name) + (if last.name == name then [] else [last])
  }

  lemma {:induction false} DropNamedMembers(ns: seq<Notification>, name: string)
    ensures forall n :: n in DropNamed(ns, name) <==> n in ns && n.name != name
  {
    if ns != [] {
      DropNamedMembers(ns[..|ns| - 1], name);
      assert ns == ns[..|ns| - 1] + [ns[|ns| - 1]];
    }
  }

  lemma {:induction false} NamedSnoc(ns: seq<Notification>, n: Notification, k: string)
    ensures Named(ns + [n], k) == Named(ns, k) + (if n.name == k then [n] else [])
  {
    assert (ns + [n])[..|ns + [n]| - 1] == ns;
  }

  lemma {:induction false} NamedOfDropNamed(ns: seq<Notification>, name: string, k: string)
    ensures Named(DropNamed(ns, name), k) == if k == name then [] else Named(ns, k)
  {
    if ns != [] {
      var init, last := ns[..|ns| - 1], ns[|ns| - 1];
      NamedOfDropNamed(init, name, k);
      assert Named(ns, k) == Named(init, k) + (if last.name == k then [last] else []);
      if last.name != name {
        assert DropNamed(ns, name) == DropNamed(init, name) + [last];
        NamedSnoc(DropNamed(init, name), last, k);
      } else {
        assert DropNamed(ns, name) == DropNamed(init, name);
      }
    }
  }

  /** The notification list after `add_notification(name, payload)` at time
      `now`. */
  function Notify(ns: seq<Notification>, name: string, payload: Payload, now: int): seq<Notification>
  {
    DropNamed(ns, name) + [Notification(name, now, payload)]
  }

  /** After `add_notification` there is exactly one notification with that
      name, carrying the new payload; the notifications with any other name
      are exactly those before. */
  lemma NotifyReplaces(ns: seq<Notification>, name: string, payload: Payload, now: int)
    ensures Named(Notify(ns, name, payload, now), name) == [Notification(name, now, payload)]
    ensures forall k :: k != name ==> Named(Notify(ns, name, payload, now), k) == Named(ns, k)
  {
    var n := Notification(name, now, payload);
    NamedSnoc(DropNamed(ns, name), n, name);
    NamedOfDropNamed(ns, name, name);
    forall k | k != name
      ensures Named(Notify(ns, name, payload, now), k) == Named(ns, k)
    {
      NamedSnoc(DropNamed(ns, name), n, k);
      NamedOfDropNamed(ns, name, k);
    }
  }

  lemma {:induction false} DropNamedTwice(ns: seq<Notification>, name: string)
    ensures DropNamed(DropNamed(ns, name), name) == DropNamed(ns, name)
  {
    if ns != [] {
      var init, last := ns[..|ns| - 1], ns[|ns| - 1];
      DropNamedTwice(init, name);
      var d := DropNamed(init, name);
      if last.name != name {
        assert DropNamed(ns, name) == d + [last];
        assert (d + [last])[..|d + [last]| - 1] == d;
      } else {
        assert DropNamed(ns, name) == d;
      }
    }
  }

  /** A later notification under the same name replaces an earlier one
      outright: only the last write matters. */
  lemma NotifyAbsorbs(ns: seq<Notification>, name: string, p1: Payload, t1: int, p2: Payload, t2: int)
    ensures Notify(Notify(ns, name, p1, t1), name, p2, t2) == Notify(ns, name, p2, t2)
  {
    var d := DropNamed(ns, name);
    var n1 := Notification(name, t1, p1);
    assert (d + [n1])[..|d + [n1]| - 1] == d;
    DropNamedTwice(ns, name);
  }

  // ---------------------------------------------------------------------------
  // Tasks and the job queue

  /** A row of the `task` table; its id is the id of the queued job. */
  class Task {
    const id: JobId
    const name: string
    const description: string
    const userId: int
    var complete: bool

    constructor (id: JobId, name: string, description: string, userId: int)
      ensures this.id == id && this.name == name && this.description == description
      ensures this.userId == userId && !complete
    {
      this.id, this.name, this.description, this.userId := id, name, description, userId;
      complete := false;
    }
  }

  /** The Redis-backed job queue: each job id that can still be fetched maps
      to the progress saved in its meta, if any. */
  class JobQueue {
    var meta: map<JobId, Option<int>>
    /** The job id, function path and user id of every enqueued job, in order. */
    var enqueued: seq<(JobId, string, int)>
    var nextId: JobId

    /** Job ids are handed out once: every id the queue knows is below
        `nextId`, and the enqueued ids strictly increase, so no two jobs
        share one. */
    ghost predicate Valid()
      reads this
    {
      && (forall id :: id in meta ==> id < nextId)
      && (forall i :: 0 <= i < |enqueued| ==> enqueued[i].0 < nextId)
      && (forall i, j :: 0 <= i < j < |enqueued| ==> enqueued[i].0 < enqueued[j].0)
    }

    constructor ()
      ensures Valid()
      ensures meta == map[] && enqueued == [] && nextId == 0
    {
      meta, enqueued, nextId := map[], [], 0;
    }

    /** `task_queue.enqueue(function, user_id)`: a new job without progress,
        under an id no earlier job has. */
    method Enqueue(func: string, userId: int) returns (id: JobId)
      requires Valid()
      modifies this
      ensures Valid()
      ensures id !in old(meta) && forall i :: 0 <= i < |old(enqueued)| ==> old(enqueued)[i].0 != id
      ensures id == old(nextId) && nextId == old(nextId) + 1
      ensures meta == old(meta)[id := None]
      ensures enqueued == old(enqueued) + [(id, func, userId)]
    {
      id := nextId;
      nextId := nextId + 1;
      meta := meta[id := None];
      enqueued := enqueued + [(id, func, userId)];
    }

    /** `job.meta['progress'] = p; job.save_meta()`. Saving for a job the queue
        handed out keeps the ids valid. */
    method SaveProgress(id: JobId, p: int)
      modifies this`meta
      ensures meta == old(meta)[id := Some(p)]
      ensures old(Valid()) && id < nextId ==> Valid()
    {
      meta := meta[id := Some(p)];
    }

    /** The job's result expired from Redis (or Redis cannot be reached):
        fetching it fails from now on. */
    method Expire(id: JobId)
      modifies this`meta
      ensures meta == old(meta) - {id}
      ensures old(Valid()) ==> Valid()
    {
      meta := meta - {id};
    }
  }

  /** `Task.get_progress` over the queue's meta: 100 when the job cannot be
      fetched, otherwise the saved progress, 0 if none was saved. */
  function GetProgress(meta: map<JobId, Option<int>>, id: JobId): (r: int)
    ensures id !in meta ==> r == 100
    ensures id in meta && meta[id].None? ==> r == 0
    ensures id in meta && meta[id].Some? ==> r == meta[id].value
  {
    if id in meta then meta[id].GetOr(0) else 100
  }

  /** The Task rows of `ts` called `name` that are not complete. */
  function InProgress(ts: seq<Task>, name: string): (r: seq<Task>)
    reads ts
    ensures forall i :: 0 <= i < |r| ==> r[i] in ts && r[i].name == name && !r[i].complete
    ensures forall i :: 0 <= i < |ts| && ts[i].name == name && !ts[i].complete ==> ts[i] in r
  {
    if ts == [] then []
    else
      var last := ts[|ts| - 1];
      InProgress(ts[..|ts| - 1], name) + (if last.name == name && !last.complete then [last] else [])
  }

  lemma InProgressSnoc(ts: seq<Task>, t: Task, name: string)
    ensures InProgress(ts + [t], name) == InProgress(ts, name) + (if t.name == name && !t.complete then [t] else [])
  {
    assert (ts + [t])[..|ts + [t]| - 1] == ts;
  }

  // ---------------------------------------------------------------------------
  // Users

  class User {
    const id: int
    var username: string
    var showname: string
    var email: string
    var filterNsfw: bool
    /** Ids of the users this one follows (the `followers` association rows). */
    var followed: seq<int>
    /** Ids of the tweets this user likes (the user's `Like` rows). */
    var liked: seq<int>
    var notifications: seq<Notification>
    var tasks: seq<Task>
    var lastMessageReadTime: Option<int>
    var lastNotifsReadTime: Option<int>

    constructor (id: int, username: string, showname: string, email: string)
      ensures this.id == id && this.username == username && this.showname == showname
      ensures this.email == email && !filterNsfw
      ensures followed == [] && liked == [] && notifications == [] && tasks == []
      ensures lastMessageReadTime == None && lastNotifsReadTime == None
    {
      this.id, this.username, this.showname, this.email := id, username, showname, email;
      filterNsfw := false;
      followed, liked, notifications, tasks := [], [], [], [];
      lastMessageReadTime, lastNotifsReadTime := None, None;
    }

    /** Everything about the user except the follow and like edges. */
    function Account(): (string, string, string, bool, seq<Notification>, seq<Task>, Option<int>, Option<int>)
      reads this
    {
      (username, showname, email, filterNsfw, notifications, tasks, lastMessageReadTime, lastNotifsReadTime)
    }

    predicate IsFollowing(userId: int)
      reads this
    {
      userId in followed
    }

    method Follow(userId: int)
      modifies this`followed
      ensures followed == Added(old(followed), userId)
      ensures IsFollowing(userId)
    {
      if !IsFollowing(userId) {
        followed := followed + [userId];
      }
    }

    method Unfollow(userId: int)
      modifies this`followed
      ensures followed == Without(old(followed), userId)
      ensures !IsFollowing(userId)
    {
      if IsFollowing(userId) {
        followed := Without(followed, userId);
      } else {
        WithoutAbsent(followed, userId);
      }
    }

    predicate HasLikedTweet(tweetId: int)
      reads this
    {
      tweetId in liked
    }

    method LikeTweet(tweetId: int)
      modifies this`liked
      ensures liked == Added(old(liked), tweetId)
      ensures HasLikedTweet(tweetId)
    {
      if !HasLikedTweet(tweetId) {
        liked := liked + [tweetId];
      }
    }

    method UnlikeTweet(tweetId: int)
      modifies this`liked
      ensures liked == Without(old(liked), tweetId)
      ensures !HasLikedTweet(tweetId)
    {
      if HasLikedTweet(tweetId) {
        liked := Without(liked, tweetId);
      } else {
        WithoutAbsent(liked, tweetId);
      }
    }

    /** `add_notification`: deletes the notifications called `name`, then
        inserts one with the new payload, stamped `now`. */
    method AddNotification(name: string, payload: Payload, now: int)
      modifies this`notifications
      ensures notifications == Notify(old(notifications), name, payload, now)
    {
      notifications := DropNamed(notifications, name);
      notifications := notifications + [Notification(name, now, payload)];
    }

    /** `launch_task`: enqueues `src.tasks.<name>` for this user and records a
        Task with the job's id, not complete. */
    method LaunchTask(q: JobQueue, name: string, description: string) returns (t: Task)
      requires q.Valid()
      modifies this`tasks, q
      ensures q.Valid()
      ensures fresh(t)
      ensures t.id == old(q.nextId) && t.name == name && t.description == description
      ensures t.userId == id && !t.complete
      ensures tasks == old(tasks) + [t]
      ensures q.meta == old(q.meta)[t.id := None] && q.nextId == old(q.nextId) + 1
      ensures q.enqueued == old(q.enqueued) + [(t.id, "src.tasks." + name, id)]
    {
      var jobId := q.Enqueue("src.tasks." + name, id);
      t := new Task(jobId, name, description, id);
      tasks := tasks + [t];
    }

    /** `get_task_in_progress(name)`. */
    function TasksInProgress(name: string): seq<Task>
      reads this, tasks
    {
      InProgress(tasks, name)
    }
  }

  /** A freshly launched task reports progress 0 until its job saves some. */
  lemma LaunchedTaskProgress(meta: map<JobId, Option<int>>, id: JobId, p: int)
    ensures GetProgress(meta[id := None], id) == 0
    ensures GetProgress(meta[id := None][id := Some(p)], id) == p
    ensures GetProgress(meta[id := None] - {id}, id) == 100
  {
  }
}
