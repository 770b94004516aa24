/**
 * Forum posts and their interactions (forum/models.py): the three static constructors that
 * build a post from a completed challenge, a card or a completed guide, each with at most one
 * content reference and the default 'university' visibility, and the table of likes and
 * dislikes that holds at most one interaction per user and post.
 */
module Posts {
  import opened Basics
  import Challenges

  datatype PostType = ChallengePost | ObjectivePost | CardPost | GuidePost

  datatype Visibility = FriendsOnly | UniversityWide

  /** A `Post` row; the creation time is left out. */
  datatype Post = Post(
    user: UserId,
    postType: PostType,
    visibility: Visibility,
    challenge: Option<ChallengeId>,
    cardAchievement: Option<CardId>,
    title: Option<string>,
    description: Option<string>,
    submission: Option<string>,
    score: Option<int>)

  /** The column default of `visibility`. */
  const DefaultVisibility := UniversityWide

  /** Only one content reference is non-null. */
  predicate AtMostOneReference(p: Post)
  {
    !(p.challenge.Some? && p.cardAchievement.Some?)
  }

  /**
   * The shape every constructor gives a post: the default visibility, at most one reference,
   * and a reference exactly of the kind its type names.
   */
  predicate Constructed(p: Post)
  {
    p.visibility == DefaultVisibility && AtMostOneReference(p) &&
    (p.challenge.Some? <==> p.postType == ChallengePost) &&
    (p.cardAchievement.Some? <==> p.postType == CardPost) &&
    (p.score.Some? ==> p.postType == GuidePost)
  }

  /** `create_from_ongoing_challenge`. */
  function FromOngoingChallenge(o: Challenges.Ongoing): (p: Post)
    ensures Constructed(p)
    ensures p.user == o.user && p.postType == ChallengePost
    ensures p.challenge == Some(o.challenge.id) && p.submission == o.submission
    ensures p.cardAchievement.None? && p.title.None? && p.description.None? && p.score.None?
  {
    Post(o.user, ChallengePost, DefaultVisibility, Some(o.challenge.id), None, None, None, o.submission, None)
  }

  /** `create_from_card`. */
  function FromCard(card: CardId, user: UserId): (p: Post)
    ensures Constructed(p)
    ensures p.user == user && p.postType == CardPost && p.cardAchievement == Some(card)
    ensures p.challenge.None? && p.title.None? && p.description.None? && p.submission.None? && p.score.None?
  {
    Post(user, CardPost, DefaultVisibility, None, Some(card), None, None, None, None)
  }

  /** `create_from_guide`. */
  function FromGuide(title: string, description: string, user: UserId, score: int): (p: Post)
    ensures Constructed(p)
    ensures p.user == user && p.postType == GuidePost
    ensures p.title == Some(title) && p.description == Some(description) && p.score == Some(score)
    ensures p.challenge.None? && p.cardAchievement.None? && p.submission.None?
  {
    Post(user, GuidePost, DefaultVisibility, None, None, Some(title), Some(description), None, Some(score))
  }

  /** A post's type can be read back from its content: the constructors never produce the same post. */
  lemma ConstructorsDistinct(o: Challenges.Ongoing, card: CardId, user: UserId, title: string, description: string, score: int)
    ensures FromOngoingChallenge(o) != FromCard(card, user)
    ensures FromOngoingChallenge(o) != FromGuide(title, description, user, score)
    ensures FromCard(card, user) != FromGuide(title, description, user, score)
  {
  }

  datatype InteractionType = Like | Dislike

  /** A `PostInteraction` row; `post` indexes the post table. */
  datatype Interaction = Interaction(user: UserId, post: nat, kind: InteractionType)

  /** The `unique_together` constraint on (user, post). */
  predicate UniquePairs(rows: seq<Interaction>)
  {
    forall i, j :: 0 <= i < j < |rows| ==> (rows[i].user, rows[i].post) != (rows[j].user, rows[j].post)
  }

  /** The row of `user` on `post`, if there is one. */
  function FindInteraction(rows: seq<Interaction>, user: UserId, post: nat): (r: Option<nat>)
    ensures r.None? <==> forall i :: 0 <= i < |rows| ==> (rows[i].user, rows[i].post) != (user, post)
    ensures r.Some? ==> r.value < |rows| && rows[r.value].user == user && rows[r.value].post == post
  {
    if rows == [] then None
    else if rows[|rows| - 1].user == user && rows[|rows| - 1].post == post then Some(|rows| - 1)
    else FindInteraction(rows[..|rows| - 1], user, post)
  }

  /** The forum tables: posts in creation order (their index is their id) and interactions. */
  class Forum {
    var posts: seq<Post>
    var interactions: seq<Interaction>

    /** Every post was built by a constructor; interactions are unique and point at existing posts. */
    ghost predicate Valid()
      reads this
    {
      (forall i :: 0 <= i < |posts| ==> Constructed(posts[i])) &&
      UniquePairs(interactions) &&
      (forall i :: 0 <= i < |interactions| ==> interactions[i].post < |posts|)
    }

    constructor ()
      ensures Valid() && posts == [] && interactions == []
    {
      posts := [];
      interactions := [];
    }

    /** The `save` that ends each constructor: the post is stored and its id returned. */
    method Save(p: Post) returns (id: nat)
      requires Valid() && Constructed(p)
      modifies this
      ensures Valid()
      ensures posts == old(posts) + [p] && interactions == old(interactions)
      ensures id == |old(posts)| && posts[id] == p
    {
      id := |posts|;
      posts := posts + [p];
    }

    /**
     * Creating a `PostInteraction`: refused (the integrity error) when the user already has one on
     * that post or the post does not exist; otherwise stored.
     */
    method Interact(user: UserId, post: nat, kind: InteractionType) returns (created: bool)
      requires Valid()
      modifies this
      ensures Valid()
      ensures posts == old(posts)
      ensures created <==> post < |posts| && FindInteraction(old(interactions), user, post).None?
      ensures created ==> interactions == old(interactions) + [Interaction(user, post, kind)]
      ensures !created ==> interactions == old(interactions)
    {
      if post >= |posts| || FindInteraction(interactions, user, post).Some? {
        return false;
      }
      interactions := interactions + [Interaction(user, post, kind)];
      created := true;
    }
  }

  /** A second interaction by the same user on the same post is always refused. */
  method InteractTwice(f: Forum, user: UserId, post: nat, first: InteractionType, second: InteractionType)
    returns (again: bool)
    requires f.Valid()
    modifies f
    ensures f.Valid()
    ensures !again
    ensures FindInteraction(f.interactions, user, post).None? <==> post >= |f.posts|
  {
    var created := f.Interact(user, post, first);
    if created {
      assert f.interactions[|f.interactions| - 1] == Interaction(user, post, first);
    }
    again := f.Interact(user, post, second);
  }
}
