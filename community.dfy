/**
 * The community board (frontend/src/components/community/Community.tsx): a
 * list of posts, new posts validated, trimmed and put first, and votes added
 * to the post with a given id.
 */
module Community {
  import opened Text

  datatype Comment = Comment(id: string, content: string, author: string, votes: int)

  datatype Post = Post(id: string, title: string, content: string, author: string, votes: int, comments: seq<Comment>)

  /** The mock post the board starts with. */
  const InitialPosts: seq<Post> := [
    Post(
      "1",
      "Tips for Managing Early Stage Dementia",
      "I've found that keeping a strict routine and using reminder apps has helped my father tremendously...",
      "CareGiver123",
      15,
      [Comment("c1", "Thank you for sharing this. The reminder apps suggestion is really helpful.", "User456", 5)])
  ]

  /**
   * The updater of `handleVote`: every post whose id is `postId` gets
   * `value` more votes; no other field and no other post changes.
   */
  function Voted(posts: seq<Post>, postId: string, value: int): (r: seq<Post>)
    ensures |r| == |posts|
    ensures forall i :: 0 <= i < |posts| ==>
      r[i] == posts[i].(votes := posts[i].votes + (if posts[i].id == postId then value else 0))
    decreases |posts|
  {
    if posts == [] then []
    else
      var head := if posts[0].id == postId then posts[0].(votes := posts[0].votes + value) else posts[0];
      [head] + Voted(posts[1..], postId, value)
  }

  /** A vote for an id that no post has changes nothing. */
  lemma VoteUnknownId(posts: seq<Post>, postId: string, value: int)
    requires forall i :: 0 <= i < |posts| ==> posts[i].id != postId
    ensures Voted(posts, postId, value) == posts
  {
    assert forall i :: 0 <= i < |posts| ==> Voted(posts, postId, value)[i] == posts[i];
  }

  /** Two votes on the same id add up. */
  lemma VotesAdd(posts: seq<Post>, postId: string, a: int, b: int)
    ensures Voted(Voted(posts, postId, a), postId, b) == Voted(posts, postId, a + b)
  {
    var left, right := Voted(Voted(posts, postId, a), postId, b), Voted(posts, postId, a + b);
    assert forall i :: 0 <= i < |posts| ==> left[i] == right[i];
  }

  /** An up-vote followed by a down-vote on the same post restores every count. */
  lemma UpThenDownRestores(posts: seq<Post>, postId: string)
    ensures Voted(Voted(posts, postId, 1), postId, -1) == posts
  {
    VotesAdd(posts, postId, 1, -1);
    assert forall i :: 0 <= i < |posts| ==> Voted(posts, postId, 0)[i] == posts[i];
  }

  class Board {
    var posts: seq<Post>
    var newPostTitle: string
    var newPostContent: string
    var showNewPost: bool

    /** Every post on the board has a non-empty title and content. */
    ghost predicate Valid()
      reads this
    {
      forall p :: p in posts ==> p.title != "" && p.content != ""
    }

    constructor ()
      ensures Valid()
      ensures posts == InitialPosts && newPostTitle == "" && newPostContent == "" && !showNewPost
    {
      posts := InitialPosts;
      newPostTitle := "";
      newPostContent := "";
      showNewPost := false;
    }

    /** The title field's `onChange`. */
    method SetNewPostTitle(text: string)
      modifies this
      ensures newPostTitle == text
      ensures posts == old(posts) && newPostContent == old(newPostContent) && showNewPost == old(showNewPost)
    {
      newPostTitle := text;
    }

    /** The content field's `onChange`. */
    method SetNewPostContent(text: string)
      modifies this
      ensures newPostContent == text
      ensures posts == old(posts) && newPostTitle == old(newPostTitle) && showNewPost == old(showNewPost)
    {
      newPostContent := text;
    }

    /** The dialog's `onOpenChange`. */
    method SetShowNewPost(open: bool)
      modifies this
      ensures showNewPost == open
      ensures posts == old(posts) && newPostTitle == old(newPostTitle) && newPostContent == old(newPostContent)
    {
      showNewPost := open;
    }

    /**
     * `handleCreatePost` at clock reading `now`, with `roll` the value of
     * `Math.floor(Math.random() * 10000)`: when the trimmed title or the
     * trimmed content is empty nothing changes; otherwise a post with the
     * trimmed title and content, no votes and no comments is put first, the
     * drafts are cleared and the dialog is closed.
     */
    method HandleCreatePost(now: nat, roll: nat)
      requires Valid() && roll < 10000
      modifies this
      ensures Valid()
      ensures JsTrim(old(newPostTitle)) == "" || JsTrim(old(newPostContent)) == "" ==>
        && posts == old(posts) && newPostTitle == old(newPostTitle)
        && newPostContent == old(newPostContent) && showNewPost == old(showNewPost)
      ensures JsTrim(old(newPostTitle)) != "" && JsTrim(old(newPostContent)) != "" ==>
        && posts == [Post(DecimalString(now), JsTrim(old(newPostTitle)), JsTrim(old(newPostContent)), RandomUsername(roll), 0, [])] + old(posts)
        && newPostTitle == "" && newPostContent == "" && !showNewPost
    {
      var title, content := JsTrim(newPostTitle), JsTrim(newPostContent);
      if title == "" || content == "" {
        return;
      }
      var newPost := Post(DecimalString(now), title, content, RandomUsername(roll), 0, []);
      posts := [newPost] + posts;
      newPostTitle := "";
      newPostContent := "";
      showNewPost := false;
    }

    /** `handleVote`: only the votes of the posts with id `postId` change, by `value`. */
    method HandleVote(postId: string, value: int)
      requires Valid()
      modifies this
      ensures Valid()
      ensures posts == Voted(old(posts), postId, value)
      ensures newPostTitle == old(newPostTitle) && newPostContent == old(newPostContent) && showNewPost == old(showNewPost)
    {
      posts := Voted(posts, postId, value);
      forall p | p in posts
        ensures p.title != "" && p.content != ""
      {
        var i :| 0 <= i < |posts| && posts[i] == p;
        assert old(posts)[i] in old(posts);
      }
    }
  }
}
