/** The decision logic of the tweets blueprint: the like toggle, sticky,
    editing, creating a comment or a reply, and the top-level comment list of
    a tweet's page. Handlers behind `login_required` take the signed-in user;
    the JSON handlers take `null` for an anonymous caller. */
module TweetRoutes {
  import opened Common
  import opened Search
  import opened Paths
  import opened Comments
  import opened Accounts

  /** `Tweet.query.filter_by(id=id).first()`. */
  function FindTweet(tweets: seq<Tweet>, id: int): (r: Tweet?)
    ensures r != null ==> r in tweets && r.id == id
    ensures r == null <==> forall i :: 0 <= i < |tweets| ==> tweets[i].id != id
  {
    if tweets == [] then null
    else if tweets[0].id == id then tweets[0]
    else FindTweet(tweets[1..], id)
  }

  /** `Comment.query.filter_by(id=id).first()`. */
  function FindComment(comments: seq<Comment>, id: int): (r: Comment?)
    ensures r != null ==> r in comments && r.id == id
    ensures r == null <==> forall i :: 0 <= i < |comments| ==> comments[i].id != id
  {
    if comments == [] then null
    else if comments[0].id == id then comments[0]
    else FindComment(comments[1..], id)
  }

  /** `tweet_like`: an anonymous caller or an unknown tweet is refused with
      statuscode -1; otherwise the caller's like is toggled. The status texts
      are as written: "Liked" after an unlike, "Unliked" after a like. */
  method TweetLike(viewer: User?, tweets: seq<Tweet>, tweetId: int) returns (r: Response)
    modifies viewer
    ensures viewer == null ==> r == Json(-1, Some("Permission denied"))
    ensures viewer != null ==>
      if FindTweet(tweets, tweetId) == null then
        && r == Json(-1, Some("Tweet not found"))
        && viewer.liked == old(viewer.liked)
      else if old(viewer.HasLikedTweet(tweetId)) then
        && r == Json(0, Some("Liked"))
        && viewer.liked == Without(old(viewer.liked), tweetId)
        && !viewer.HasLikedTweet(tweetId)
      else
        && r == Json(0, Some("Unliked"))
        && viewer.liked == Added(old(viewer.liked), tweetId)
        && viewer.HasLikedTweet(tweetId)
    ensures viewer != null ==> viewer.followed == old(viewer.followed) && viewer.Account() == old(viewer.Account())
  {
    if viewer == null {
      return Json(-1, Some("Permission denied"));
    }
    var tweet := FindTweet(tweets, tweetId);
    if tweet == null {
      r := Json(-1, Some("Tweet not found"));
    } else if viewer.HasLikedTweet(tweet.id) {
      viewer.UnlikeTweet(tweet.id);
      r := Json(0, Some("Liked"));
    } else {
      viewer.LikeTweet(tweet.id);
      r := Json(0, Some("Unliked"));
    }
  }

  /** `tweet_sticky`: only the tweet's author flips `stickied`; anyone else
      gets statuscode -1 and the tweet is unchanged. An unknown id fails on
      the missing row (an unhandled AttributeError). */
  method TweetSticky(viewer: User, tweets: seq<Tweet>, tweetId: int) returns (r: Response)
    modifies FindTweet(tweets, tweetId)
    ensures var t := FindTweet(tweets, tweetId);
      if t == null then r == ServerError
      else if t.userid == viewer.id then
        && r == Json(0, None)
        && t.stickied == !old(t.stickied)
        && t.textbody == old(t.textbody) && t.isNsfw == old(t.isNsfw) && t.isEdited == old(t.isEdited)
        && t.editedUtc == old(t.editedUtc) && t.commentPathCounter == old(t.commentPathCounter)
      else
        && r == Json(-1, Some("Cannot sticky/unsticky the tweet"))
        && unchanged(t)
  {
    var tweet := FindTweet(tweets, tweetId);
    if tweet == null {
      return ServerError;
    }
    if tweet.userid == viewer.id {
      tweet.stickied := !tweet.stickied;
      r := Json(0, None);
    } else {
      r := Json(-1, Some("Cannot sticky/unsticky the tweet"));
    }
  }

  /** `tweet_edit`: an unknown tweet or one the caller does not own sends the
      caller home untouched; a submitted valid form (`form`, the new body and
      NSFW flag) overwrites the tweet and marks it edited at `now`; otherwise
      the edit form is shown. */
  method TweetEdit(viewer: User, tweets: seq<Tweet>, tweetId: int, form: Option<(string, bool)>, now: int)
    returns (r: Response)
    modifies FindTweet(tweets, tweetId)
    ensures var t := FindTweet(tweets, tweetId);
      if t == null || t.userid != viewer.id then
        r == Redirect("main.home") && (t != null ==> unchanged(t))
      else if form.Some? then
        && r == Redirect("main.home")
        && t.textbody == form.value.0 && t.isNsfw == form.value.1
        && t.isEdited && t.editedUtc == now
        && t.stickied == old(t.stickied) && t.commentPathCounter == old(t.commentPathCounter)
      else
        r == Render("tweets/tweet_create.html") && unchanged(t)
  {
    var tweet := FindTweet(tweets, tweetId);
    if tweet == null || viewer.id != tweet.userid {
      return Redirect("main.home");
    }
    if form.Some? {
      tweet.textbody := form.value.0;
      tweet.editedUtc := now;
      tweet.isEdited := true;
      tweet.isNsfw := form.value.1;
      r := Redirect("main.home");
    } else {
      r := Render("tweets/tweet_create.html");
    }
  }

  /** Saving a comment changes no field of its tweet but the counter. */
  twostate predicate TweetKeptButCounter(t: Tweet)
    reads t
  {
    && t.textbody == old(t.textbody) && t.stickied == old(t.stickied) && t.isNsfw == old(t.isNsfw)
    && t.isEdited == old(t.isEdited) && t.editedUtc == old(t.editedUtc)
  }

  /** The first commit of `save`: what was pending plus the new comment (id
      `commentId`) is mirrored to the index, and the session is left empty. */
  twostate predicate SavedOnce(s: Session, ix: Index, commentId: int)
    reads s, ix
  {
    var first := MirrorCalls(Changes(old(s.pendingNew) + [Obj("comment", commentId, false, [])], old(s.dirty), old(s.deleted)));
    && s.pendingNew == [] && s.dirty == [] && s.deleted == [] && s.changes == None
    && ix.calls == old(ix.calls) + first
    && ix.docs == Apply(old(ix.docs), first)
  }

  /** Both commits of `save`: the first as in `SavedOnce`, then one re-add
      of the tweet's document. */
  twostate predicate SavedTwice(s: Session, ix: Index, commentId: int, t: Tweet)
    reads s, ix, t
  {
    var first := MirrorCalls(Changes(old(s.pendingNew) + [Obj("comment", commentId, false, [])], old(s.dirty), old(s.deleted)));
    && s.pendingNew == [] && s.dirty == [] && s.deleted == [] && s.changes == None
    && ix.calls == old(ix.calls) + first + [AddDoc(("tweet", t.id), [t.textbody])]
    && ix.docs == Apply(old(ix.docs), first)[("tweet", t.id) := [t.textbody]]
  }

  /** `comment_create`: a comment directly under the tweet, numbered from the
      tweet's own counter. `form` is the submitted body, if the form
      validated; `newId` the id the database assigns. */
  method CommentCreate(viewer: User, tweets: seq<Tweet>, tweetId: int, form: Option<string>, newId: int,
                       s: Session, ix: Index)
    returns (r: Response, c: Comment?)
    modifies FindTweet(tweets, tweetId), s, ix
    ensures var t := FindTweet(tweets, tweetId);
      if t == null then r == Redirect("main.home") && c == null && unchanged(s, ix)
      else if form.None? then r == Render("tweets/comment_create.html") && c == null && unchanged(t, s, ix)
      else
        && r == Redirect("tweets.tweet_show")
        && c != null && fresh(c) && c.id == newId
        && c.tweet == t && c.parent == null
        && c.textbody == form.value && c.commenterId == viewer.id && c.authorId == t.userid
        && t.commentPathCounter == old(t.commentPathCounter) + 1
        && c.path == Some(Segment(t.commentPathCounter))
        && TweetKeptButCounter(t)
        && SavedTwice(s, ix, newId, t)
  {
    var tweet := FindTweet(tweets, tweetId);
    if tweet == null {
      return Redirect("main.home"), null;
    }
    if form.None? {
      return Render("tweets/comment_create.html"), null;
    }
    c := new Comment(newId, tweet, null, form.value, viewer.id, tweet.userid);
    var ok := c.Save(s, ix);
    assert ChildPath("", false, tweet.commentPathCounter) == Segment(tweet.commentPathCounter) by {
      assert "" + Segment(tweet.commentPathCounter) == Segment(tweet.commentPathCounter);
    }
    r := Redirect("tweets.tweet_show");
  }

  /** The tweet whose counter numbers a reply to comment `id`: the parent's
      own tweet. */
  function ReplyRoot(comments: seq<Comment>, id: int): (r: Tweet?)
    ensures r == null <==> FindComment(comments, id) == null
    ensures r != null ==> r == FindComment(comments, id).tweet
  {
    var p := FindComment(comments, id);
    if p == null then null else p.tweet
  }

  /** `comment_reply`: a reply to comment `commentId`, filed under the parent's
      tweet and numbered from that tweet's counter. When the parent has no
      path the save fails after its first commit (an unhandled TypeError). */
  method CommentReply(viewer: User, comments: seq<Comment>, commentId: int, form: Option<string>, newId: int,
                      s: Session, ix: Index)
    returns (r: Response, c: Comment?)
    modifies ReplyRoot(comments, commentId), s, ix
    ensures var p := FindComment(comments, commentId);
      if p == null then r == Redirect("main.home") && c == null && unchanged(s, ix)
      else if form.None? then r == Render("tweets/comment_create.html") && c == null && unchanged(p.tweet, s, ix)
      else
        && c != null && fresh(c) && c.id == newId
        && c.tweet == p.tweet && c.parent == p
        && c.textbody == form.value && c.commenterId == viewer.id && c.authorId == p.tweet.userid
        && TweetKeptButCounter(p.tweet)
        && (if old(p.path).Some? then
              && r == Redirect("tweets.tweet_show")
              && p.tweet.commentPathCounter == old(p.tweet.commentPathCounter) + 1
              && c.path == Some(ChildPath(old(p.path).value, true, p.tweet.commentPathCounter))
              && SavedTwice(s, ix, newId, p.tweet)
            else
              && r == ServerError && c.path == None
              && p.tweet.commentPathCounter == old(p.tweet.commentPathCounter)
              && SavedOnce(s, ix, newId))
  {
    var parent := FindComment(comments, commentId);
    if parent == null {
      return Redirect("main.home"), null;
    }
    if form.None? {
      return Render("tweets/comment_create.html"), null;
    }
    c := new Comment(newId, parent.tweet, parent, form.value, viewer.id, parent.tweet.userid);
    var ok := c.Save(s, ix);
    r := if ok then Redirect("tweets.tweet_show") else ServerError;
  }

  /** The comments of the tweet with id `tweetId` (its `comments` relation). */
  function OfTweet(comments: seq<Comment>, tweetId: int): (r: seq<Comment>)
    ensures forall i :: 0 <= i < |r| ==> r[i] in comments && r[i].tweet.id == tweetId
    ensures forall i :: 0 <= i < |comments| && comments[i].tweet.id == tweetId ==> comments[i] in r
  {
    if comments == [] then []
    else
      var last := comments[|comments| - 1];
      OfTweet(comments[..|comments| - 1], tweetId) + (if last.tweet.id == tweetId then [last] else [])
  }

  /** `tweet_show`: the comments listed on a tweet's page are exactly its
      comments without a parent. An unknown id fails on the missing row
      (None: an unhandled AttributeError). */
  function TweetShow(tweets: seq<Tweet>, comments: seq<Comment>, tweetId: int): (r: Option<seq<Comment>>)
    ensures r.None? <==> FindTweet(tweets, tweetId) == null
    ensures r.Some? ==> forall i :: 0 <= i < |r.value| ==>
      r.value[i] in comments && r.value[i].tweet.id == tweetId && r.value[i].parent == null
    ensures r.Some? ==> forall i :: 0 <= i < |comments| && comments[i].tweet.id == tweetId && comments[i].parent == null ==>
      comments[i] in r.value
  {
    if FindTweet(tweets, tweetId) == null then None
    else
      var own := OfTweet(comments, tweetId);
      var top := TopLevel(own);
      assert forall i :: 0 <= i < |comments| && comments[i].tweet.id == tweetId && comments[i].parent == null ==> comments[i] in top by {
        forall i | 0 <= i < |comments| && comments[i].tweet.id == tweetId && comments[i].parent == null
          ensures comments[i] in top
        {
          var j :| 0 <= j < |own| && own[j] == comments[i];
        }
      }
      assert forall i :: 0 <= i < |top| ==> top[i] in comments && top[i].tweet.id == tweetId by {
        forall i | 0 <= i < |top| ensures top[i] in comments && top[i].tweet.id == tweetId {
          var j :| 0 <= j < |own| && own[j] == top[i];
        }
      }
      Some(top)
  }
}
