/** Tweets and their comment tree: `Comment.save`, which numbers a comment
    from its tweet's counter and commits twice, and `Comment.level`. */
module Comments {
  import opened Common
  import opened Search
  import opened Paths

  /** A tweet row. It mixes in SearchableMixin; its indexed field is
      `textbody`. Times are integer clock readings. */
  class Tweet {
    const id: int
    const userid: int
    const createdUtc: int
    var textbody: string
    var stickied: bool
    var isNsfw: bool
    var isEdited: bool
    var editedUtc: int
    /** `comment_path_counter`, default 1. */
    var commentPathCounter: nat

    constructor (id: int, userid: int, textbody: string, isNsfw: bool, now: int)
      ensures this.id == id && this.userid == userid && this.textbody == textbody
      ensures this.isNsfw == isNsfw && createdUtc == now && editedUtc == now
      ensures !stickied && !isEdited && commentPathCounter == 1
    {
      this.id, this.userid, this.textbody, this.isNsfw := id, userid, textbody, isNsfw;
      createdUtc, editedUtc := now, now;
      stickied, isEdited := false, false;
      commentPathCounter := 1;
    }

    /** The tweet as the session and the index see it. */
    function AsObj(): Obj
      reads this
    {
      Obj("tweet", id, true, [textbody])
    }
  }

  /** A comment row. `tweet` is `tweetComment` (the tweet whose counter numbers
      the comment), `parent` the comment replied to, if any. `path` is NULL
      until the comment is saved. Comments are not searchable. */
  class Comment {
    const id: int
    const tweet: Tweet
    const parent: Comment?
    const textbody: string
    const commenterId: int
    const authorId: int
    var path: Option<string>

    constructor (id: int, tweet: Tweet, parent: Comment?, textbody: string, commenterId: int, authorId: int)
      ensures this.id == id && this.tweet == tweet && this.parent == parent
      ensures this.textbody == textbody && this.commenterId == commenterId && this.authorId == authorId
      ensures path == None
    {
      this.id, this.tweet, this.parent := id, tweet, parent;
      this.textbody, this.commenterId, this.authorId := textbody, commenterId, authorId;
      path := None;
    }

    function AsObj(): Obj
    {
      Obj("comment", id, false, [])
    }

    /** The parent's path, or "" for a top-level comment. */
    function ParentPath(): string
      reads parent
    {
      if parent != null && parent.path.Some? then parent.path.value else ""
    }

    /** `save`: commits the new comment, then bumps the tweet's counter, sets
        the path from it and commits again. When the parent has no path yet
        the concatenation fails after the first commit (`ok` is false) and
        nothing further happens.

        The second commit sees the tweet dirty, so it re-sends the tweet's
        document to the index; the comment itself is never indexed. */
    method Save(s: Session, ix: Index) returns (ok: bool)
      modifies this`path, tweet`commentPathCounter, s, ix
      ensures ok <==> (parent == null || old(parent.path).Some?)
      ensures s.pendingNew == [] && s.dirty == [] && s.deleted == [] && s.changes == None
      ensures var first := MirrorCalls(Changes(old(s.pendingNew) + [AsObj()], old(s.dirty), old(s.deleted)));
        if ok then
          && tweet.commentPathCounter == old(tweet.commentPathCounter) + 1
          && path == Some(ChildPath(old(ParentPath()), parent != null, tweet.commentPathCounter))
          && ix.calls == old(ix.calls) + first + [AddDoc(("tweet", tweet.id), [tweet.textbody])]
          && ix.docs == Apply(old(ix.docs), first)[("tweet", tweet.id) := [tweet.textbody]]
        else
          && tweet.commentPathCounter == old(tweet.commentPathCounter)
          && path == old(path)
          && ix.calls == old(ix.calls) + first
          && ix.docs == Apply(old(ix.docs), first)
    {
      ghost var calls0, docs0 := ix.calls, ix.docs;
      ghost var first := MirrorCalls(Changes(s.pendingNew + [AsObj()], s.dirty, s.deleted));
      s.Add(AsObj());
      s.Commit(ix);
      if parent != null && parent.path.None? {
        return false;
      }
      var prefix := if parent != null then parent.path.value + [Separator] else "";
      tweet.commentPathCounter := tweet.commentPathCounter + 1;
      s.MarkDirty(tweet.AsObj());
      path := Some(prefix + Segment(tweet.commentPathCounter));
      s.MarkDirty(AsObj());
      assert s.pendingNew == [] && s.dirty == [tweet.AsObj(), AsObj()] && s.deleted == [];
      ghost var mid := ix.docs;
      s.Commit(ix);
      SecondCommitReaddsTweet(tweet.AsObj(), AsObj());
      ApplySnoc(mid, [], AddDoc(("tweet", tweet.id), [tweet.textbody]));
      ok := true;
    }

    /** `level`: `Paths.Level` of the path, which the path lemmas state on
        plain strings, lifted to the nullable column (a TypeError while the
        path is NULL). */
    function Level(): (r: Option<nat>)
      reads this
      ensures r.Some? <==> path.Some?
      ensures r.Some? ==> r.value == |path.value|
    {
      if path.Some? then Some(Paths.Level(path.value)) else None
    }
  }

  /** What the second commit of `save` sends to the index: the dirty tweet's
      document and nothing for the comment. */
  lemma SecondCommitReaddsTweet(t: Obj, c: Obj)
    requires t.searchable && !c.searchable
    ensures MirrorCalls(Changes([], [t, c], [])) == [AddDoc(KeyOf(t), t.doc)]
  {
    assert [t, c][..1] == [t];
    assert [t][..0] == [];
    assert AddCalls([t]) == [AddDoc(KeyOf(t), t.doc)];
    assert AddCalls([t, c]) == AddCalls([t]) + [];
  }

  /** `tweet_show`: the comments shown directly under a tweet are those
      without a parent. The query has no ORDER BY, so no order is promised;
      the model happens to keep the order of `comments`. */
  function TopLevel(comments: seq<Comment>): (r: seq<Comment>)
    ensures forall i :: 0 <= i < |r| ==> r[i] in comments && r[i].parent == null
    ensures forall i :: 0 <= i < |comments| && comments[i].parent == null ==> comments[i] in r
    ensures |r| <= |comments|
  {
    if comments == [] then []
    else
      var init, last := comments[..|comments| - 1], comments[|comments| - 1];
      TopLevel(init) + (if last.parent == null then [last] else [])
  }

  /** Creates and saves a comment under `t`, or under `parent` when one is
      given, keeping only what the save does to the counter and the path. */
  method SaveNew(id: int, t: Tweet, parent: Comment?, s: Session, ix: Index) returns (c: Comment)
    requires parent != null ==> parent.tweet == t && parent.path.Some?
    modifies t`commentPathCounter, s, ix
    ensures fresh(c) && c.parent == parent && c.tweet == t
    ensures t.commentPathCounter == old(t.commentPathCounter) + 1
    ensures c.path == Some(ChildPath(if parent != null then parent.path.value else "", parent != null, t.commentPathCounter))
  {
    c := new Comment(id, t, parent, "", 0, t.userid);
    var ok := c.Save(s, ix);
  }

  /** The first three saves under a fresh tweet: a top-level comment gets
      "000002" (the counter starts at 1 and is bumped before formatting), a
      reply to it "000002.000003", and the next top-level comment "000004";
      the three sort in thread order. */
  method ThreadExample(s: Session, ix: Index) returns (first: string, reply: string, second: string)
    modifies s, ix
    ensures first == "000002" && reply == "000002.000003" && second == "000004"
    ensures LexLess(first, reply) && LexLess(reply, second)
  {
    var t := new Tweet(1, 7, "hello", false, 0);
    var c1 := SaveNew(1, t, null, s, ix);
    var c2 := SaveNew(2, t, c1, s, ix);
    var c3 := SaveNew(3, t, null, s, ix);
    ThreadPaths();
    first, reply, second := c1.path.value, c2.path.value, c3.path.value;
  }

  /** The paths of the first three saves, spelled out, and their order. */
  lemma ThreadPaths()
    ensures ChildPath("", false, 2) == "000002"
    ensures ChildPath(ChildPath("", false, 2), true, 3) == "000002.000003"
    ensures ChildPath("", false, 4) == "000004"
    ensures LexLess("000002", "000002.000003") && LexLess("000002.000003", "000004")
  {
    FirstSegments();
    var first := ChildPath("", false, 2);
    var reply := ChildPath(first, true, 3);
    assert first == "000002" by {
      assert "" + Segment(2) == Segment(2);
    }
    assert reply == "000002.000003";
    assert ChildPath("", false, 4) == "000004" by {
      assert "" + Segment(4) == Segment(4);
    }
    ReplyExtendsParent(first, 3);
    EarlierSiblingSubtreeFirst("", false, 2, 4, ".000003", "");
    assert reply == ChildPath("", false, 2) + ".000003";
    assert ChildPath("", false, 4) == ChildPath("", false, 4) + "";
  }

  lemma FirstSegments()
    ensures Segment(2) == "000002" && Segment(3) == "000003" && Segment(4) == "000004"
  {
    assert Digits(2) == "2" && Digits(3) == "3" && Digits(4) == "4";
    assert Zeros(5) == "00000" by {
      assert Zeros(1) == "0";
      assert Zeros(2) == "00";
      assert Zeros(3) == "000";
      assert Zeros(4) == "0000";
    }
  }
}
