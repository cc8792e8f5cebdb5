/**
 The account side of the data model: users, the caller of a request, and
 the `Follow` relation with its two database constraints (one row per
 (follower, author) pair, and nobody follows themselves).
 */
module Users {
  import opened Seqs

  /** Primary keys are positive integers handed out by the database. */
  type Id = nat

  /** `request.user`: either anonymous or a stored user. */
  datatype Caller = Anonymous | Authenticated(id: Id)

  datatype User = User(id: Id, username: string, email: string, firstName: string, lastName: string)

  /** A subscription of `user` (the follower) to `author`. */
  datatype Follow = Follow(user: Id, author: Id)

  function UserIds(users: seq<User>): set<Id>
  {
    set u | u in users :: u.id
  }

  lemma UserIdsWithout(users: seq<User>, keep: User -> bool, id: Id)
    requires forall u :: u in users ==> keep(u) == (u.id != id)
    ensures UserIds(Filter(users, keep)) == UserIds(users) - {id}
  {
    forall k | k in UserIds(users) - {id} ensures k in UserIds(Filter(users, keep)) {
      var u :| u in users && u.id == k;
      assert u in Filter(users, keep);
    }
  }

  function UserKey(u: User): Id
  {
    u.id
  }

  function UsernameOf(u: User): string
  {
    u.username
  }

  function EmailOf(u: User): string
  {
    u.email
  }

  /** Primary key, `username` and `email` (both `unique=True`): no two rows of the table share one. */
  predicate AccountsUnique(users: seq<User>)
  {
    UniqueBy(users, UserKey) && UniqueBy(users, UsernameOf) && UniqueBy(users, EmailOf)
  }

  /** The check constraint `follow_user_following_check`. */
  predicate NoSelfFollow(follows: seq<Follow>)
  {
    forall f :: f in follows ==> f.user != f.author
  }

  /** The unique constraint `unique_followers` on (user, author). */
  predicate UniqueFollowers(follows: seq<Follow>)
  {
    NoDup(follows)
  }

  predicate FollowConstraints(follows: seq<Follow>)
  {
    NoSelfFollow(follows) && UniqueFollowers(follows)
  }

  /** `get_object_or_404(User, id=...)`: the user with that primary key, if any. */
  function UserById(users: seq<User>, id: Id): (r: Option<User>)
    ensures r.Some? <==> id in UserIds(users)
    ensures r.Some? ==> r.value in users && r.value.id == id
  {
    if users == [] then None
    else if users[0].id == id then Some(users[0])
    else
      var r := UserById(users[1..], id);
      assert users == [users[0]] + users[1..];
      r
  }

  /** Why a subscription request is refused before anything is written. */
  datatype FollowRefusal = SelfFollow | AlreadyFollowing

  /** The two pre-checks of the subscribe endpoint, in the order it makes them. */
  function CheckFollow(follows: seq<Follow>, user: Id, author: Id): (r: Option<FollowRefusal>)
    ensures r == Some(SelfFollow) <==> user == author
    ensures r == Some(AlreadyFollowing) <==> user != author && Follow(user, author) in follows
    ensures r.None? <==> user != author && Follow(user, author) !in follows
  {
    if user == author then Some(SelfFollow)
    else if Follow(user, author) in follows then Some(AlreadyFollowing)
    else None
  }

  /**
   The subscribe endpoint's pre-checks are exactly the database constraints:
   on a table that satisfies them, adding (user, author) keeps them iff neither
   pre-check refuses.
   */
  lemma FollowChecksMatchConstraints(follows: seq<Follow>, user: Id, author: Id)
    requires FollowConstraints(follows)
    ensures CheckFollow(follows, user, author).None? <==> FollowConstraints(follows + [Follow(user, author)])
  {
    var f := Follow(user, author);
    var extended := follows + [f];
    if CheckFollow(follows, user, author).None? {
      AppendNoDup(follows, f);
    } else if user == author {
      assert f in extended && !NoSelfFollow(extended);
    } else {
      var k :| 0 <= k < |follows| && follows[k] == f;
      assert extended[k] == extended[|follows|];
      assert !UniqueFollowers(extended);
    }
  }

  /** Deleting a user cascades to every subscription where they are follower or author. */
  function FollowsWithoutUser(follows: seq<Follow>, id: Id): (r: seq<Follow>)
    ensures forall f :: f in r <==> f in follows && f.user != id && f.author != id
    ensures FollowConstraints(follows) ==> FollowConstraints(r)
  {
    var r := Filter(follows, (f: Follow) => f.user != id && f.author != id);
    if NoDup(follows) then FilterNoDup(follows, (f: Follow) => f.user != id && f.author != id); r else r
  }

  /** `Follow.Meta.ordering = ['-author_id']`: subscriptions listed by descending author id. */
  function OrderedFollows(follows: seq<Follow>): (r: seq<Follow>)
    ensures multiset(r) == multiset(follows)
    ensures forall i, j :: 0 <= i < j < |r| ==> r[i].author >= r[j].author
  {
    SortDescBy(follows, (f: Follow) => f.author)
  }
}
