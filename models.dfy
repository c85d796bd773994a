/** The records of the `posts` app and the schema's rules about them: string forms, the listing
    order, the uniqueness constraints and what deleting a row does to the rows that refer to it. */
module Models {
  import opened QuerySet

  type UserId = nat
  type GroupId = nat
  type PostId = nat
  type CommentId = nat

  /** `CHARS_SHOWN`: how much of a post's text its string form shows. */
  const CharsShown: nat := 30

  /** The picture a new profile starts with. */
  const DefaultPhoto: string := "profile/default.png"

  /** A registered account of the authentication layer. */
  datatype User = User(id: UserId, username: string)

  datatype Profile = Profile(user: UserId, photo: string, bio: string)

  datatype Group = Group(id: GroupId, creator: UserId, title: string, slug: string, description: string)

  /** `pubDate` is stamped once, when the post is created. */
  datatype Post = Post(id: PostId, text: string, pubDate: nat, author: UserId, group: Option<GroupId>, image: string)

  datatype Comment = Comment(id: CommentId, post: PostId, author: UserId, text: string, created: nat)

  /** `user` follows `author`. */
  datatype Follow = Follow(user: UserId, author: UserId)

  /** `str(post)`: the first `CharsShown` characters of the text, the whole text when shorter. */
  function PostStr(p: Post): (r: string)
    ensures |r| == if |p.text| < CharsShown then |p.text| else CharsShown
    ensures r <= p.text
  {
    if |p.text| < CharsShown then p.text else p.text[..CharsShown]
  }

  /** `str(group)`. */
  function GroupStr(g: Group): string {
    g.title
  }

  // ----- listing order: `ordering = ('-pub_date',)`

  predicate Newer(a: Post, b: Post) {
    a.pubDate > b.pubDate
  }

  /** Every post comes before all older ones. */
  ghost predicate NewestFirst(posts: seq<Post>) {
    Pairwise(posts, Newer)
  }

  /** The newest-first order of a set of posts is unique: two newest-first listings holding the
      same posts are the same listing. */
  lemma {:induction false} NewestFirstUnique(a: seq<Post>, b: seq<Post>)
    requires NewestFirst(a) && NewestFirst(b)
    requires forall p :: p in a <==> p in b
    ensures a == b
    decreases |a|
  {
    if a == [] {
      assert forall i :: 0 <= i < |b| ==> b[i] in a;
    } else {
      assert a[0] in a && a[0] in b;
      assert b[0] in b && b[0] in a;
      assert a[0] == b[0] by {
        var i :| 0 <= i < |b| && b[i] == a[0];
        var j :| 0 <= j < |a| && a[j] == b[0];
        if i != 0 {
          assert Newer(b[0], b[i]);
          if j != 0 {
            assert Newer(a[0], a[j]);
          }
        }
      }
      forall p ensures p in a[1..] <==> p in b[1..] {
        TailMembers(a, p);
        TailMembers(b, p);
      }
      NewestFirstTail(a);
      NewestFirstTail(b);
      NewestFirstUnique(a[1..], b[1..]);
      assert a == [a[0]] + a[1..] && b == [b[0]] + b[1..];
    }
  }

  lemma NewestFirstTail(a: seq<Post>)
    requires NewestFirst(a) && a != []
    ensures NewestFirst(a[1..])
  {
  }

  /** In a newest-first listing the head is newer than every other post, so it occurs once. */
  lemma TailMembers(a: seq<Post>, p: Post)
    requires NewestFirst(a) && a != []
    ensures p in a[1..] <==> p in a && p != a[0]
  {
  }

  /** A post newer than all others goes in front of a newest-first listing. */
  lemma PrependNewest(p: Post, posts: seq<Post>)
    requires NewestFirst(posts) && Pairwise(posts, PostsDiffer)
    requires forall q :: q in posts ==> q.pubDate < p.pubDate && q.id != p.id
    ensures NewestFirst([p] + posts) && Pairwise([p] + posts, PostsDiffer)
    ensures forall q :: q in [p] + posts <==> q == p || q in posts
  {
  }

  // ----- keys and uniqueness constraints

  function UserIds(users: seq<User>): set<UserId> {
    set u | u in users :: u.id
  }

  function GroupIds(groups: seq<Group>): set<GroupId> {
    set g | g in groups :: g.id
  }

  function PostIds(posts: seq<Post>): set<PostId> {
    set p | p in posts :: p.id
  }

  /** Primary keys and usernames are unique. */
  predicate UsersDiffer(a: User, b: User) {
    a.id != b.id && a.username != b.username
  }

  /** One profile per user. */
  predicate ProfilesDiffer(a: Profile, b: Profile) {
    a.user != b.user
  }

  /** Primary keys and slugs are unique. */
  predicate GroupsDiffer(a: Group, b: Group) {
    a.id != b.id && a.slug != b.slug
  }

  predicate PostsDiffer(a: Post, b: Post) {
    a.id != b.id
  }

  predicate CommentsDiffer(a: Comment, b: Comment) {
    a.id != b.id
  }

  /** A newest-first listing whose posts have distinct keys never holds a post twice. */
  lemma PostsDistinct(posts: seq<Post>)
    requires Pairwise(posts, PostsDiffer)
    ensures Distinct(posts)
  {
  }

  lemma CommentsDistinct(comments: seq<Comment>)
    requires Pairwise(comments, CommentsDiffer)
    ensures Distinct(comments)
  {
  }

  // ----- the schema's invariants, table by table

  /** Keys and usernames are unique, and below the next key to hand out. */
  ghost predicate UsersValid(users: seq<User>, nextId: nat) {
    && Pairwise(users, UsersDiffer)
    && (forall u :: u in users ==> u.id < nextId)
  }

  /** One profile per user, each of a registered user. */
  ghost predicate ProfilesValid(profiles: seq<Profile>, userIds: set<UserId>) {
    && Pairwise(profiles, ProfilesDiffer)
    && (forall pr :: pr in profiles ==> pr.user in userIds)
  }

  /** Keys and slugs are unique; every group has a registered creator. */
  ghost predicate GroupsValid(groups: seq<Group>, userIds: set<UserId>, nextId: nat) {
    && Pairwise(groups, GroupsDiffer)
    && (forall g :: g in groups ==> g.creator in userIds && g.id < nextId)
  }

  /** Posts are held newest first, with unique keys, registered authors, existing groups and
      stamps older than the clock. */
  ghost predicate PostsValid(posts: seq<Post>, userIds: set<UserId>, groupIds: set<GroupId>, nextId: nat, clock: nat) {
    && NewestFirst(posts)
    && Pairwise(posts, PostsDiffer)
    && (forall p :: p in posts ==>
          && p.author in userIds
          && (p.group.None? || p.group.value in groupIds)
          && p.id < nextId && p.pubDate < clock)
  }

  /** Comments have unique keys and belong to an existing post and a registered author. */
  ghost predicate CommentsValid(comments: seq<Comment>, postIds: set<PostId>, userIds: set<UserId>, nextId: nat, clock: nat) {
    && Pairwise(comments, CommentsDiffer)
    && (forall c :: c in comments ==>
          c.post in postIds && c.author in userIds && c.id < nextId && c.created < clock)
  }

  /** At most one edge per (user, author) pair, never from a user to themself. */
  ghost predicate FollowsValid(follows: seq<Follow>, userIds: set<UserId>) {
    && Distinct(follows)
    && (forall f :: f in follows ==> f.user != f.author && f.user in userIds && f.author in userIds)
  }

  /** The whole database satisfies the schema: each table's constraints, and every foreign key
      names an existing row. */
  ghost predicate SchemaValid(users: seq<User>, profiles: seq<Profile>, groups: seq<Group>, posts: seq<Post>,
                              comments: seq<Comment>, follows: seq<Follow>,
                              nextUserId: nat, nextGroupId: nat, nextPostId: nat, nextCommentId: nat, clock: nat) {
    && UsersValid(users, nextUserId)
    && ProfilesValid(profiles, UserIds(users))
    && GroupsValid(groups, UserIds(users), nextGroupId)
    && PostsValid(posts, UserIds(users), GroupIds(groups), nextPostId, clock)
    && CommentsValid(comments, PostIds(posts), UserIds(users), nextCommentId, clock)
    && FollowsValid(follows, UserIds(users))
  }

  // ----- `on_delete` rules

  /** `on_delete=SET_NULL` on `Post.group`: the posts of the deleted groups lose their group;
      no post is deleted and nothing else about a post changes. */
  function DetachGroups(posts: seq<Post>, gone: set<GroupId>): (r: seq<Post>)
    ensures |r| == |posts|
    ensures forall i :: 0 <= i < |r| ==> r[i] == posts[i].(group := r[i].group)
    ensures forall i :: 0 <= i < |r| && posts[i].group.Some? && posts[i].group.value in gone ==> r[i].group.None?
    ensures forall i :: 0 <= i < |r| && (posts[i].group.None? || posts[i].group.value !in gone) ==> r[i] == posts[i]
    ensures forall p :: p in r ==> p.group.None? || p.group.value !in gone
    ensures PostIds(r) == PostIds(posts)
    ensures Pairwise(posts, Newer) ==> Pairwise(r, Newer)
    ensures Pairwise(posts, PostsDiffer) ==> Pairwise(r, PostsDiffer)
  {
    var r := Update(posts, (p: Post) => p.group.Some? && p.group.value in gone, (p: Post) => p.(group := None));
    assert forall i :: 0 <= i < |r| ==> r[i].id == posts[i].id;
    assert PostIds(r) == PostIds(posts) by {
      forall x | x in PostIds(posts) ensures x in PostIds(r) {
        var i :| 0 <= i < |posts| && posts[i].id == x;
        assert r[i] in r;
      }
    }
    r
  }

  /** Deleting posts (`on_delete=CASCADE` on `Comment.post`) deletes exactly the comments on them. */
  function CommentsNotOn(comments: seq<Comment>, gone: set<PostId>): (r: seq<Comment>)
    ensures forall c :: c in r <==> c in comments && c.post !in gone
    ensures Pairwise(comments, CommentsDiffer) ==> Pairwise(r, CommentsDiffer)
  {
    var keep := (c: Comment) => c.post !in gone;
    FilterPairwise(comments, keep, CommentsDiffer);
    Filter(comments, keep)
  }

  // Deleting user `x`: every foreign key to `User` is `on_delete=CASCADE`, so the user's profile,
  // the groups they created, their posts, their comments and every follow edge they are part of
  // go with them; the groups going take their posts' group along (SET_NULL above) and the posts
  // going take their comments along (CASCADE above).

  function UsersWithout(users: seq<User>, x: UserId): (r: seq<User>)
    ensures forall u :: u in r <==> u in users && u.id != x
    ensures UserIds(r) == UserIds(users) - {x}
    ensures Pairwise(users, UsersDiffer) ==> Pairwise(r, UsersDiffer)
  {
    var keep := (u: User) => u.id != x;
    FilterPairwise(users, keep, UsersDiffer);
    var r := Filter(users, keep);
    assert UserIds(r) == UserIds(users) - {x} by {
      forall y | y in UserIds(users) - {x} ensures y in UserIds(r) {
        var u :| u in users && u.id == y;
        assert u in r;
      }
    }
    r
  }

  function ProfilesWithout(profiles: seq<Profile>, x: UserId): (r: seq<Profile>)
    ensures forall pr :: pr in r <==> pr in profiles && pr.user != x
    ensures Pairwise(profiles, ProfilesDiffer) ==> Pairwise(r, ProfilesDiffer)
  {
    var keep := (pr: Profile) => pr.user != x;
    FilterPairwise(profiles, keep, ProfilesDiffer);
    Filter(profiles, keep)
  }

  /** Keys of the groups `x` created. */
  function CreatedGroupIds(groups: seq<Group>, x: UserId): set<GroupId> {
    set g | g in groups && g.creator == x :: g.id
  }

  function GroupsWithout(groups: seq<Group>, x: UserId): (r: seq<Group>)
    ensures forall g :: g in r <==> g in groups && g.creator != x
    ensures Pairwise(groups, GroupsDiffer) ==> Pairwise(r, GroupsDiffer)
  {
    var keep := (g: Group) => g.creator != x;
    FilterPairwise(groups, keep, GroupsDiffer);
    Filter(groups, keep)
  }

  /** Keys of the posts `x` wrote. */
  function AuthoredPostIds(posts: seq<Post>, x: UserId): set<PostId> {
    set p | p in posts && p.author == x :: p.id
  }

  function PostsWithout(posts: seq<Post>, x: UserId): (r: seq<Post>)
    ensures forall p :: p in r <==> p in posts && p.author != x
    ensures Pairwise(posts, Newer) ==> Pairwise(r, Newer)
    ensures Pairwise(posts, PostsDiffer) ==> Pairwise(r, PostsDiffer)
  {
    var keep := (p: Post) => p.author != x;
    FilterPairwise(posts, keep, Newer);
    FilterPairwise(posts, keep, PostsDiffer);
    Filter(posts, keep)
  }

  function CommentsWithout(comments: seq<Comment>, x: UserId): (r: seq<Comment>)
    ensures forall c :: c in r <==> c in comments && c.author != x
    ensures Pairwise(comments, CommentsDiffer) ==> Pairwise(r, CommentsDiffer)
  {
    var keep := (c: Comment) => c.author != x;
    FilterPairwise(comments, keep, CommentsDiffer);
    Filter(comments, keep)
  }

  function FollowsWithout(follows: seq<Follow>, x: UserId): (r: seq<Follow>)
    ensures forall f :: f in r <==> f in follows && f.user != x && f.author != x
    ensures Distinct(follows) ==> Distinct(r)
  {
    var keep := (f: Follow) => f.user != x && f.author != x;
    FilterPairwise(follows, keep, NotEqual);
    Filter(follows, keep)
  }
}
