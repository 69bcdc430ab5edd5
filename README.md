# kura core in Dafny

A verified model of the core of *kura*, a small Flask social feed (users post
tweets, comment in threads, follow and like, search, and export their posts
in the background). The model covers five pieces of the application's logic:

- **Index mirroring and ranked search** (`search.dfy`, module `Search`). The
  SQLAlchemy session is a class with the new, dirty and deleted objects as
  sequences. The commit hooks `before_commit`/`after_commit` snapshot them and
  mirror the searchable ones into an external full-text index. The index is
  a class holding a map from `(index name, id)` to the last document sent,
  plus the log of calls made to it. `reindex` re-adds every row. `search`
  takes the ids and total the index answered and re-imposes the index's
  rank order on the rows fetched from the store.
- **Materialized comment paths** (`paths.dfy`, `comments.dfy`). `Comment.save`
  bumps the tweet's counter, formats it zero-padded to width 6 and appends
  it to the parent's path. The lemmas cover round-trips, uniqueness, width
  and string order. `Comment.save` commits twice, and the second commit
  re-indexes the tweet it made dirty.
- **Replace-on-write notifications and polling** (`accounts.dfy`,
  `user_routes.dfy`).
- **Tasks and progress** (`accounts.dfy`, `worker.dfy`). `launch_task`,
  `get_progress`, `_set_task_progress` and the `export_posts` job with its
  forced final 100.
- **Guarded toggles and route decisions** (`accounts.dfy`, `user_routes.dfy`,
  `tweet_routes.dfy`, `main_routes.dfy`). These are follow/like, sticky,
  edit, comment create/reply, the tweet page, the home timeline, and the
  search page's filters and page links.

`common.dfy` holds `Option`, the `Response` a handler returns (a JSON body,
a redirect, a rendered template, or an unhandled exception that Flask turns
into a 500) and the stable sort that stands for `ORDER BY`.

Things outside the program are parameters:

- The clock is a `now: int`.
- The full-text index's ranking is a function from `(index, expression,
  page, per_page)` to `(ids, total)`.
- The job the worker is running is `current: Option<JobId>`.
- An exception inside the `export_posts` body is `crashAfter: Option<nat>`:
  the body is interrupted before handling that tweet.
- The id the database assigns to a new comment is `newId`.

Where the code behaves differently from what its names or messages
suggest, the model follows the code:

- The counter defaults to 1 and is bumped before it is formatted, so the
  first comment on a tweet gets `"000002"`, not `"000001"`
  (`Comments.ThreadExample`).
- `level()` is the character length of the path (6 for a top-level comment,
  7 more per reply level), not the number of segments
  (`Paths.LevelOfChild`).
- `user_follow` answers "Following" after an unfollow and "Unfollowed" after
  a follow. `tweet_like` answers "Liked" after an unlike and "Unliked" after
  a like.

## Model

| member | source | states |
|---|---|---|
| Search.Search | src/models.py:17-25 | no ids or a zero total gives an empty result with total 0; otherwise the total is the index's unchanged, a row is returned exactly for each ranked id present in the store, ids missing from the store are dropped, and rows come in strictly increasing rank |
| Search.RankOrderDetermines | src/models.py:22-25 | two id lists with the same members, both in strictly increasing rank, are equal, so the result order is fully fixed by the index's ranking |
| Search.RankCases | src/models.py:22-24 | the `when` list built by the loop maps each returned id to its first position in the index's list and gives no value for any other id |
| Search.CaseValueOfPositions | src/models.py:22-25 | a CASE list of (id, position) pairs evaluates an id to its rank, and to nothing for ids not in the list |
| Search.KeptIdsInRankOrder | src/models.py:25 | filtering by `id IN ids` and ordering by the CASE keeps exactly the ranked ids present in the store, in strictly increasing rank |
| Search.Session.BeforeCommit | src/models.py:27-33 | the snapshot holds the session's new, dirty and deleted objects |
| Search.Session.AfterCommit | src/models.py:35-46 | the index receives exactly the mirror calls of the snapshot (adds for new then dirty searchables, removes for deleted searchables), the index contents change accordingly, and the snapshot is cleared to None |
| Search.Session.Commit | src/models.py:27-46 | a commit runs both hooks: the pending lists empty, the snapshot ends None, and the index gets the mirror calls of what was pending |
| Search.MirrorAdds | src/models.py:37-42 | one `add_to_index` per searchable object, in order, and no call for any other object |
| Search.MirrorRemoves | src/models.py:43-45 | one `remove_from_index` per searchable deleted object, in order |
| Search.AddCallsExact | src/models.py:37-42 | the add loop emits exactly one call per searchable object, carrying that object's key and document |
| Search.RemoveCallsExact | src/models.py:43-45 | the delete loop emits exactly one removal per searchable object |
| Search.MirrorCallsExact | src/models.py:35-46 | every captured new or dirty searchable object is added, every captured deleted searchable one removed, the call count is the number of searchables, and every call comes from such an object (non-searchables are ignored) |
| Search.CommitMirrorsChanges | src/models.py:35-46 | after mirroring, the indexed keys are the old keys plus the added or updated searchable keys minus the deleted ones, and each added key holds the last document sent for it |
| Search.IndexAfterCommit | src/models.py:35-46 | per object: a deleted searchable is absent afterwards, a new or dirty searchable is present unless a deletion shares its key, and keys the commit does not mention keep their documents |
| Search.Reindex | src/models.py:48-51 | the loop issues exactly the add calls for the rows, in query order, and the index contents follow |
| Search.ReindexAddsEachRow | src/models.py:48-51 | reindexing issues exactly one add per record, for that record, and no removal |
| Search.ReindexIdempotent | src/models.py:48-51 | reindexing twice leaves the index as reindexing once |
| Paths.SegmentRoundTrip | src/models.py:234 | a segment is all digits and parses back to the counter it was formatted from |
| Paths.SegmentInjective | src/models.py:234 | different counter values never give the same segment |
| Paths.SegmentWidth | src/models.py:234 | counters below 10^6 give segments of exactly 6 characters |
| Paths.SegmentOrder | src/models.py:234 | for counters below 10^6, string order of segments equals numeric order ("000010" after "000002") |
| Paths.OrderBreaksAtSevenDigits | src/models.py:234 | at 10^6 the padding no longer fixes the width and "1000000" sorts before "999999" |
| Paths.ReplyExtendsParent | src/models.py:232-234 | a reply's path has the parent's path plus "." as a strict prefix and sorts after the parent |
| Paths.EarlierSiblingSubtreeFirst | src/models.py:232-234 | with counters a < b < 10^6 under one parent, every path in the first child's subtree sorts before every path in the second's |
| Paths.LevelOfChild | src/models.py:237-238 | `level` grows by 7 per reply (6 digits and the separator) and is 6 for a top-level comment |
| Paths.LastSegmentIsCounter | src/models.py:232-234 | the last segment of a new path is the formatted counter and reads back as that counter |
| Paths.DistinctCountersDistinctLastSegments | src/models.py:233-234 | two saves that drew different counter values never end in the same segment |
| Comments.Tweet.constructor | src/models.py:187-200 | a new tweet is not stickied, not edited, and its comment counter starts at 1 |
| Comments.Comment.Save | src/models.py:229-235 | the counter goes up by exactly 1, the path becomes parent path + "." (if any) + the padded counter, the first commit mirrors what was pending plus the comment, and the second commit re-adds the dirty tweet's document to the index; with a parent whose path is NULL the save stops after the first commit |
| Comments.SecondCommitReaddsTweet | src/models.py:233-235 | the second commit's mirror calls are exactly one add of the tweet's document; the comment is not indexed |
| Comments.Comment.Level | src/models.py:237-238 | `level` is the character length of the path, undefined while the path is NULL |
| Comments.ThreadExample | src/models.py:229-235 | on a fresh tweet: first comment "000002", its reply "000002.000003", next top-level comment "000004", in thread order by string comparison |
| Comments.TopLevel | src/tweets/routes.py:26 | keeps exactly the comments whose parent is None, and every such comment (both directions); no order is promised, as the query has no ORDER BY |
| Accounts.AddedSpec | src/models.py:118-120 | after `follow`/`like_tweet` the edge exists, other edges are unchanged, repeating is a no-op and there is still at most one edge per pair |
| Accounts.WithoutSpec | src/models.py:122-124 | after `unfollow`/`unlike_tweet` the edge is gone, other edges are unchanged, repeating is a no-op, removal undoes a fresh insert, and at most one edge per pair is kept |
| Accounts.User.Follow | src/models.py:118-127 | `followed` gains the user only when not already followed; `is_following` (`User.IsFollowing`, membership in `followed`) holds afterwards |
| Accounts.User.Unfollow | src/models.py:122-127 | the follow edge is removed when present; `is_following` (`User.IsFollowing`) is false afterwards |
| Accounts.User.LikeTweet | src/models.py:133-147 | a like row is added only when none exists; `has_liked_tweet` (`User.HasLikedTweet`, membership in `liked`) holds afterwards |
| Accounts.User.UnlikeTweet | src/models.py:138-147 | the like rows for the tweet are deleted when present; `has_liked_tweet` (`User.HasLikedTweet`) is false afterwards |
| Accounts.User.AddNotification | src/models.py:157-161 | the notifications become those of other names followed by one new notification with that name, payload and time |
| Accounts.NotifyReplaces | src/models.py:157-161 | after `add_notification` there is exactly one notification with the name, carrying the new payload, and those of every other name are unchanged |
| Accounts.NotifyAbsorbs | src/models.py:157-161 | a second `add_notification` with the same name erases every trace of the first |
| Accounts.User.LaunchTask | src/models.py:163-167 | one job is enqueued as `src.tasks.<name>` for the user, and a Task with the job's id, name and description, not complete, is added to the user's tasks |
| Accounts.Task.constructor | src/models.py:263-268 | a new task is not complete |
| Accounts.JobQueue.Enqueue | src/models.py:164 | the queue hands out a job id used by no earlier job (in `meta` or in the enqueued list), with no progress saved, records the function and user, and keeps `JobQueue.Valid` (every known id below the next one, enqueued ids increasing) |
| Accounts.InProgress | src/models.py:172-173 | keeps exactly the Task rows with the name that are not complete; `User.TasksInProgress` applies it to the user's tasks |
| Accounts.GetProgress | src/models.py:277-279 | 100 when the job cannot be fetched, otherwise the saved progress, 0 when none was saved |
| Accounts.LaunchedTaskProgress | src/models.py:277-279 | a just-launched task reports 0, then what its job saved, and 100 once the job is gone |
| Worker.SetTaskProgress | src/tasks.py:12-23 | without a current job nothing changes; with one, the job meta holds the progress; when the Task row is missing the call raises after saving the meta and notifies no one; otherwise the owner's `task_progress` notification is replaced by {task id, progress}, and the Task row becomes complete exactly when progress is at least 100 (never reset to incomplete) |
| Worker.ExportReportsShape | src/tasks.py:25-52 | the reported values start at 0, end at 100, never decrease and stay in [0,100]; with no exception the last value reported inside the loop is 100 |
| Worker.ExportLoop | src/tasks.py:32-37 | the loop exports the tweets in creation order up to the interruption and reports 100*i/total after the i-th |
| Worker.ExportPosts | src/tasks.py:25-52 | with a missing Task row the first report raises, the `finally` report raises again (meta 100, no notification) and the exception escapes; otherwise the reports are 0, one per tweet handled, then 100; the data is the tweets in ascending creation order; the archive is sent exactly when the body does not raise, and then holds every tweet; whatever the body does, the Task row ends complete and the owner's progress notification says 100 |
| UserRoutes.FindUser | src/users/routes.py:98 | the first user with the name, or none exactly when no user has it |
| UserRoutes.UserFollow | src/users/routes.py:91-109 | statuscode -1 and no follow edge changed for an anonymous caller, an unknown name or the caller's own name; otherwise the follow edge is toggled, "Following" after an unfollow and "Unfollowed" after a follow; in every case the caller's likes and account fields (`User.Account`) are unchanged |
| UserRoutes.Messages | src/users/routes.py:154-161 | records the read time and leaves exactly one `unread_message_count` notification, with count 0 |
| UserRoutes.Notifs | src/users/routes.py:163-170 | records the read time and leaves exactly one `unread_notifs_count` notification, with count 0 |
| UserRoutes.Poll | src/users/routes.py:173-183 | returns exactly the notifications stamped after `since` (0 when absent), in ascending timestamp order |
| UserRoutes.PollSeesReplacement | src/users/routes.py:173-183 | a poll with a cursor older than a replacement sees the new notification and no older one of that name |
| UserRoutes.ExportPostsRoute | src/users/routes.py:185-196 | as intended: no launch without an email or while an incomplete `export_posts` task exists; otherwise exactly one launch, after which that task is the only one in progress; every path redirects to the profile page, its URL built from the user name |
| UserRoutes.RedirectFor | src/users/routes.py:190 | `redirect(url_for(...))` builds a redirect to the endpoint exactly when every variable of its URL rule is given, and is a server error (BuildError) otherwise |
| UserRoutes.ProfileRedirectNeedsUsername | src/users/routes.py:51-53 | the profile rule `/user/<string:username>/profile` cannot be built from `user_id` alone, and can from `username` |
| UserRoutes.ExportPostsAsWritten | src/users/routes.py:185-196 | as written: the same launch guard and state changes as `ExportPostsRoute` (the launch is committed before the URL is built), but every path ends in a server error |
| TweetRoutes.TweetLike | src/tweets/routes.py:49-67 | statuscode -1 and no like changed for an anonymous caller or an unknown tweet; otherwise the like is toggled, "Liked" after an unlike and "Unliked" after a like; in every case the caller's follow edges and account fields (`User.Account`) are unchanged |
| TweetRoutes.TweetSticky | src/tweets/routes.py:69-83 | only the author flips `stickied`; anyone else gets -1 with the tweet unchanged; an unknown id is an unhandled error |
| TweetRoutes.TweetEdit | src/tweets/routes.py:29-47 | a missing tweet or a non-owner changes nothing; an owner's valid edit sets body and NSFW flag, marks the tweet edited and stamps the edit time |
| TweetRoutes.CommentCreate | src/tweets/routes.py:85-98 | an unknown tweet or an invalid form changes neither the session, the index nor the tweet; otherwise the new comment's counter root is the tweet itself and it has no parent, its path is the padded new counter, only the tweet's counter changes, and the index gets the first commit's mirror calls followed by one re-add of the tweet's document (`SavedTwice`) |
| TweetRoutes.CommentReply | src/tweets/routes.py:108-121 | an unknown parent or an invalid form changes neither the session, the index nor the tweet; otherwise the reply's counter root is the parent comment's tweet and its parent is that comment, and only the tweet's counter can change; with a parent path its path extends the parent's and both commits happen (`SavedTwice`); with a NULL parent path the response is a server error, the counter is unchanged and only the first commit happened (`SavedOnce`) |
| TweetRoutes.FindTweet | src/tweets/routes.py:25 | `Tweet.query.filter_by(id=…).first()`: a tweet with that id, or none exactly when no tweet has it |
| TweetRoutes.FindComment | src/tweets/routes.py:112 | `Comment.query.filter_by(id=…).first()`: a comment with that id, or none exactly when no comment has it |
| TweetRoutes.ReplyRoot | src/tweets/routes.py:112-116 | the tweet a reply is filed under is the parent comment's tweet; none exactly when the parent comment is missing |
| TweetRoutes.OfTweet | src/tweets/routes.py:26 | `tweet.comments`: keeps only comments of that tweet, and every one of them |
| TweetRoutes.TweetShow | src/tweets/routes.py:22-27 | a tweet's page lists exactly its comments without a parent; an unknown id is an unhandled error |
| MainRoutes.Timeline | src/models.py:109-116 | exactly the tweets by followed users or by the user, without NSFW ones when the user filters them |
| MainRoutes.FollowedPosts | src/models.py:109-116 | the timeline, newest first |
| MainRoutes.SearchResults | src/main/routes.py:26-41 | invalid form redirects home; otherwise both searches use pages of 3, NSFW tweets are removed for anonymous visitors and filtering users, the signed-in user is excluded from user results, a next link exists iff total_tweets > page*3 and a previous link iff page > 1; both lists keep the index's rank order (`InRankOrder`) |
| MainRoutes.SafeIds | src/main/routes.py:33-34 | `filter_by(is_nsfw=False)`: an id stays exactly when it was returned by the search and its tweet is not NSFW |
| MainRoutes.SafeIdsInRankOrder | src/main/routes.py:33-34 | removing NSFW tweets from rank-ordered hits leaves them in rank order |
| MainRoutes.WithoutInRankOrder | src/main/routes.py:36-37 | leaving the signed-in user out of rank-ordered user hits leaves them in rank order |
| MainRoutes.LinksFollowPageCount | src/main/routes.py:39-40 | from page 1 on, the next link exists exactly when a later page exists and the previous link exactly from page 2 on |
| MainRoutes.PageHoldsAtMostThree | src/main/routes.py:32-35 | when the index returns at most the page size asked for, a page lists at most three tweets and three users |
| MainRoutes.SearchAsWritten | src/main/routes.py:9-29 | as written, an anonymous visitor's search fails before anything else; a signed-in user's search is `SearchResults` |
| MainRoutes.AnonymousSearchFails | src/main/routes.py:9-34 | for an anonymous visitor with a valid query the page as written fails, while the intended page is a result page without NSFW tweets |

## Findings

| source | as written | input that shows it | evidently intended | confidence | as-written member | corrected member |
|---|---|---|---|---|---|---|
| src/users/routes.py:185-196 | both exits of `export_posts` call `url_for('users.user_profile', user_id=current_user.id)`, but the only rule of that endpoint, `/user/<string:username>/profile` (line 51), needs `username` | any signed-in user opening `/export_posts`: werkzeug raises BuildError, a 500 response (after the launch is committed, when one happens) | a redirect to the caller's profile page, built with `username=current_user.username` | not executed; high, from reading the code | UserRoutes.ExportPostsAsWritten, UserRoutes.ProfileRedirectNeedsUsername | UserRoutes.ExportPostsRoute |
| src/main/routes.py:9-28 | `g.search_form` is only set for authenticated users, yet `search` reads it unconditionally and is not behind `login_required` | an anonymous GET of `/search?q=x`: the attribute lookup on `g` raises, a 500 response; the anonymous branch of the NSFW filter (line 33) is unreachable | anonymous visitors get a result page with NSFW tweets removed | not executed; high, from reading the code | MainRoutes.SearchAsWritten, MainRoutes.AnonymousSearchFails | MainRoutes.SearchResults |

## Left out

- Search.Index: the Elasticsearch client (`src/search.py`) is not part of this model. The index is a map from key to the last document sent. Ranking, tokenising and paging are external, so `query_index` is a parameter.
- Search.Search: `cls.query.filter_by(id=0)` for an empty answer is modelled as no rows. The database hands out ids from 1, so no row has id 0.
- SQLAlchemy session mechanics (autoflush, identity map, dynamic relationships, rollback) are not modelled. The session is three explicit sequences, and an object becomes dirty when a model method marks it so.
- The commits inside route handlers are not modelled: follow, like, edit and sticky state their changes to objects. What any commit sends to the index is `Search.Session.Commit`. It is applied where the source's own logic depends on it, in `Comment.save`.
- Comments.Tweet: `commentPathCounter` is a natural number. Python ints would format a negative counter with a minus sign, but nothing in the program can make the counter negative.
- Paths.SegmentOrder, Paths.EarlierSiblingSubtreeFirst: ordering is proved only for counters below 10^6, because beyond that it does not hold (`Paths.OrderBreaksAtSevenDigits`).
- The race between the two commits of `Comment.save` under concurrent writers is not modelled, because the model is sequential.
- Accounts.User.Unfollow: `followed.remove(user)` is modelled as removing every edge to that user. This is the same as removing one edge, since the guards keep at most one edge per pair (`Accounts.AddedSpec`).
- Accounts.User.LikeTweet: likes are kept per user as tweet ids. The global `Like` table, `tweet.likes` counts and the `Like` row ids are not modelled.
- Worker.ExportPosts: progress is an integer, `100*i/total` truncated. Python computes a float, and the notification carries its `int()`. Completion (at least 100) is the same for both.
- Worker.ExportPosts: an exception raised before the first `_set_task_progress(0)` is not modelled, and one clock value stands for all reports of a run.
- Worker.ExportPosts: the Task row is looked up once for the whole run, so a row committed by the web process between two reports is not modelled; a row missing at the first report is (the job is enqueued before the route commits the row).
- Worker.ExportPosts: sending the e-mail with the archive and `time.sleep(3)` are I/O and timing, so they are left out. The archive the e-mail would carry is returned instead (`archive`), and none when the body raises before the e-mail.
- Notification timestamps and the `since` cursor are integers, where the source uses float seconds.
- `new_messages`, `new_notifs` and the `unread_*_count` notifications that `send_message`, `comment_create` and `comment_reply` add are not modelled. They are count queries over timestamped message and comment rows outside this model.
- `get_tasks_in_progress` (all names) is not modelled. It is `get_task_in_progress` without the name filter, and no modelled route uses it.
- `get_rq_job`: Redis errors and unknown jobs are both the job id missing from `JobQueue.meta`. Job ids are UUID strings in the source and natural numbers handed out by `JobQueue` here, since only their distinctness matters; `JobQueue.Valid` states that distinctness.
- `login_required` redirects, `request.json` key errors (400), `flash`, `url_for`, templates and `jsonify` are Flask plumbing. The exception is a `url_for` that cannot build its URL, which `UserRoutes.RedirectFor` models as a server error. Each handler takes the signed-in user (or `null`) and the parsed arguments, and returns a `Response`.
- Password hashing, reset tokens, e-mail, image handling, form validators, the JavaScript UI and application wiring are not modelled. They are foreign libraries or configuration.
- The `home` route's pagination is not modelled, only the `followed_posts` query it pages. The page size comes from configuration.
