/** The decision logic of the users blueprint: the follow toggle, the
    pages that reset the unread counters, the notification poll and the
    export launch guard. */
module UserRoutes {
  import opened Common
  import opened Accounts

  /** `User.query.filter_by(username=name).first()`. */
  function FindUser(users: seq<User>, name: string): (r: User?)
    reads users
    ensures r != null ==> r in users && r.username == name
    ensures r == null <==> forall i :: 0 <= i < |users| ==> users[i].username != name
  {
    if users == [] then null
    else if users[0].username == name then users[0]
    else FindUser(users[1..], name)
  }

  /** `user_follow`: an anonymous caller, an unknown user name and the caller's
      own name are refused with statuscode -1; otherwise the follow edge is
      toggled. The status texts are as written: "Following" after an
      unfollow, "Unfollowed" after a follow. */
  method UserFollow(viewer: User?, users: seq<User>, username: string) returns (r: Response)
    modifies viewer
    ensures viewer == null ==> r == Json(-1, Some("Permission denied"))
    ensures viewer != null ==>
      var target := old(FindUser(users, username));
      if target == null || target.id == viewer.id then
        && r == Json(-1, Some("User not found or can't follow yourself"))
        && viewer.followed == old(viewer.followed)
      else if old(viewer.IsFollowing(target.id)) then
        && r == Json(0, Some("Following"))
        && viewer.followed == Without(old(viewer.followed), target.id)
        && !viewer.IsFollowing(target.id)
      else
        && r == Json(0, Some("Unfollowed"))
        && viewer.followed == Added(old(viewer.followed), target.id)
        && viewer.IsFollowing(target.id)
    ensures viewer != null ==> viewer.liked == old(viewer.liked) && viewer.Account() == old(viewer.Account())
  {
    if viewer == null {
      return Json(-1, Some("Permission denied"));
    }
    var user := FindUser(users, username);
    if user == null || viewer.id == user.id {
      r := Json(-1, Some("User not found or can't follow yourself"));
    } else if viewer.IsFollowing(user.id) {
      viewer.Unfollow(user.id);
      r := Json(0, Some("Following"));
    } else {
      viewer.Follow(user.id);
      r := Json(0, Some("Unfollowed"));
    }
  }

  const UnreadMessages: string := "unread_message_count"
  const UnreadNotifs: string := "unread_notifs_count"

  /** `messages`: records the visit and resets the unread-message counter. */
  method Messages(viewer: User, now: int) returns (r: Response)
    modifies viewer`lastMessageReadTime, viewer`notifications
    ensures r == Render("users/messages.html")
    ensures viewer.lastMessageReadTime == Some(now)
    ensures viewer.notifications == Notify(old(viewer.notifications), UnreadMessages, Count(0), now)
    ensures Named(viewer.notifications, UnreadMessages) == [Notification(UnreadMessages, now, Count(0))]
  {
    viewer.lastMessageReadTime := Some(now);
    viewer.AddNotification(UnreadMessages, Count(0), now);
    NotifyReplaces(old(viewer.notifications), UnreadMessages, Count(0), now);
    r := Render("users/messages.html");
  }

  /** `notifs`: records the visit and resets the unread-comment counter. */
  method Notifs(viewer: User, now: int) returns (r: Response)
    modifies viewer`lastNotifsReadTime, viewer`notifications
    ensures r == Render("users/notifs.html")
    ensures viewer.lastNotifsReadTime == Some(now)
    ensures viewer.notifications == Notify(old(viewer.notifications), UnreadNotifs, Count(0), now)
    ensures Named(viewer.notifications, UnreadNotifs) == [Notification(UnreadNotifs, now, Count(0))]
  {
    viewer.lastNotifsReadTime := Some(now);
    viewer.AddNotification(UnreadNotifs, Count(0), now);
    NotifyReplaces(old(viewer.notifications), UnreadNotifs, Count(0), now);
    r := Render("users/notifs.html");
  }

  function Timestamp(n: Notification): int { n.timestamp }

  /** The notifications stamped strictly after `since`, in order. */
  function After(ns: seq<Notification>, since: int): (r: seq<Notification>)
    ensures forall n :: n in r <==> n in ns && n.timestamp > since
  {
    if ns == [] then []
    else
      var last := ns[|ns| - 1];
      After(ns[..|ns| - 1], since) + (if last.timestamp > since then [last] else [])
  }

  /** `notifications`: the caller's notifications newer than the `since`
      query argument (0 when absent), oldest first. */
  function Poll(ns: seq<Notification>, since: Option<int>): (r: seq<Notification>)
    ensures SortedBy(r, Timestamp)
    ensures forall n :: n in r <==> n in ns && n.timestamp > since.GetOr(0)
    ensures multiset(r) == multiset(After(ns, since.GetOr(0)))
  {
    var a := After(ns, since.GetOr(0));
    var r := SortBy(a, Timestamp);
    assert forall n :: n in r <==> n in a by {
      forall n ensures n in r <==> n in a {
        assert n in r <==> n in multiset(r);
        assert n in a <==> n in multiset(a);
      }
    }
    r
  }

  /** A client that polls with the newest timestamp it has seen picks up a
      replacement written later, and no older notification of that name. */
  lemma PollSeesReplacement(ns: seq<Notification>, name: string, payload: Payload, now: int, since: int)
    requires now > since
    ensures Notification(name, now, payload) in Poll(Notify(ns, name, payload, now), Some(since))
    ensures forall n :: n in Poll(Notify(ns, name, payload, now), Some(since)) && n.name == name ==>
      n == Notification(name, now, payload)
  {
    DropNamedMembers(ns, name);
  }

  /** The variables of the profile page's URL rule,
      `/user/<string:username>/profile`. */
  const ProfileRuleArgs: set<string> := {"username"}

  /** `redirect(url_for(endpoint, **args))` for an endpoint whose URL rule has
      the variables `ruleArgs`, called with the keyword arguments `given`:
      arguments that are not rule variables go into the query string, but a
      missing rule variable makes werkzeug raise BuildError, which Flask
      re-raises, so the request ends in a server error. */
  function RedirectFor(endpoint: string, ruleArgs: set<string>, given: set<string>): (r: Response)
    ensures r.Redirect? <==> forall a :: a in ruleArgs ==> a in given
    ensures r.Redirect? ==> r.endpoint == endpoint
    ensures !r.Redirect? ==> r == ServerError
  {
    if ruleArgs <= given then Redirect(endpoint) else ServerError
  }

  /** The profile URL as `export_posts` builds it, from `user_id` only, cannot
      be built; from `username` it can. */
  lemma ProfileRedirectNeedsUsername()
    ensures RedirectFor("users.user_profile", ProfileRuleArgs, {"user_id"}) == ServerError
    ensures RedirectFor("users.user_profile", ProfileRuleArgs, {"username"}) == Redirect("users.user_profile")
  {
    assert "username" in ProfileRuleArgs && "username" !in {"user_id"};
  }

  /** `export_posts` as written: both exits build the profile URL from
      `user_id`, so every path ends in a server error. The launch and its
      commit come before the URL is built, so the state changes are those of
      `ExportPostsRoute`. */
  method ExportPostsAsWritten(viewer: User, q: JobQueue) returns (r: Response, launched: Option<Task>)
    requires q.Valid()
    modifies viewer`tasks, q
    ensures q.Valid()
    ensures r == ServerError
    ensures launched.Some? <==> viewer.email != "" && old(viewer.TasksInProgress("export_posts")) == []
    ensures launched.None? ==> viewer.tasks == old(viewer.tasks) && unchanged(q)
    ensures launched.Some? ==>
      var t := launched.value;
      && fresh(t) && t.name == "export_posts" && !t.complete && t.userId == viewer.id
      && viewer.tasks == old(viewer.tasks) + [t]
      && q.enqueued == old(q.enqueued) + [(t.id, "src.tasks.export_posts", viewer.id)]
      && viewer.TasksInProgress("export_posts") == [t]
  {
    var _, l := ExportPostsRoute(viewer, q);
    launched := l;
    ProfileRedirectNeedsUsername();
    r := RedirectFor("users.user_profile", ProfileRuleArgs, {"user_id"});
  }

  /** `export_posts` as intended: refused without an email address; when an
      `export_posts` task of the caller is still incomplete no new one is
      launched; otherwise exactly one is. Every path redirects to the
      caller's profile page, its URL built from the user name. */
  method ExportPostsRoute(viewer: User, q: JobQueue) returns (r: Response, launched: Option<Task>)
    requires q.Valid()
    modifies viewer`tasks, q
    ensures q.Valid()
    ensures r == Redirect("users.user_profile")
    ensures launched.Some? <==> viewer.email != "" && old(viewer.TasksInProgress("export_posts")) == []
    ensures launched.None? ==> viewer.tasks == old(viewer.tasks) && unchanged(q)
    ensures launched.Some? ==>
      var t := launched.value;
      && fresh(t) && t.name == "export_posts" && t.description == "Exporting tweets"
      && !t.complete && t.userId == viewer.id && t.id == old(q.nextId)
      && viewer.tasks == old(viewer.tasks) + [t]
      && q.enqueued == old(q.enqueued) + [(t.id, "src.tasks.export_posts", viewer.id)]
      && viewer.TasksInProgress("export_posts") == [t]
  {
    ProfileRedirectNeedsUsername();
    r := RedirectFor("users.user_profile", ProfileRuleArgs, {"username"});
    if viewer.email == "" {
      return r, None;
    }
    if viewer.TasksInProgress("export_posts") != [] {
      launched := None;
    } else {
      var t := LaunchExport(viewer, q);
      launched := Some(t);
    }
  }

  /** The launching branch of `export_posts`, when no export is in progress. */
  method LaunchExport(viewer: User, q: JobQueue) returns (t: Task)
    requires q.Valid()
    requires viewer.TasksInProgress("export_posts") == []
    modifies viewer`tasks, q
    ensures q.Valid()
    ensures fresh(t) && t.name == "export_posts" && t.description == "Exporting tweets"
    ensures !t.complete && t.userId == viewer.id && t.id == old(q.nextId)
    ensures viewer.tasks == old(viewer.tasks) + [t]
    ensures q.enqueued == old(q.enqueued) + [(t.id, "src.tasks.export_posts", viewer.id)]
    ensures viewer.TasksInProgress("export_posts") == [t]
  {
    ghost var before := viewer.tasks;
    assert InProgress(before, "export_posts") == [];
    t := viewer.LaunchTask(q, "export_posts", "Exporting tweets");
    assert InProgress(before, "export_posts") == [];
    InProgressSnoc(before, t, "export_posts");
    assert "src.tasks." + "export_posts" == "src.tasks.export_posts";
  }
}
