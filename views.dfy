/** The request handlers of the `posts` app over an in-memory store. Query handlers are functions
    of the store; handlers that save or delete rows are methods of it. The requester is an
    already authenticated user, and a submitted form is reduced to the fields it carries plus
    `formOk`, the outcome of the form's own field validation. */
module Views {
  import opened QuerySet
  import opened Models
  import opened Paging

  /** The named URL a handler redirects to. */
  datatype Target =
    | IndexUrl                        // posts:index
    | GroupUrl(slug: string)          // posts:group_list
    | ProfileUrl(username: string)    // posts:profile
    | PostUrl(postId: PostId)         // posts:post_detail
    | CommentsUrl(postId: PostId)     // posts:post_detail followed by '#comments'

  /** The data a rendered template is given. */
  datatype Page =
    | IndexPage(items: seq<Post>)
    | GroupPage(group: Group, items: seq<Post>)
    | ProfilePage(author: User, postsNum: nat, items: seq<Post>, followersNum: nat, followingNum: nat,
                  following: Option<bool>)
    | DetailPage(post: Post, numPosts: nat, comments: seq<Comment>, numComments: nat)
    | FollowPage(items: seq<Post>)
    | PostFormPage(editing: Option<PostId>)
    | ProfileFormPage(username: string)
    | GroupFormPage(editingSlug: Option<string>)

  datatype Response = Redirect(target: Target) | Render(page: Page) | NotFound

  // ----- lookups (`get_object_or_404`)

  function UserByName(users: seq<User>, name: string): (r: Option<User>)
    ensures r.Some? <==> exists u :: u in users && u.username == name
    ensures r.Some? ==> r.value in users && r.value.username == name
  {
    Get(users, (u: User) => u.username == name)
  }

  function UserById(users: seq<User>, id: UserId): (r: Option<User>)
    ensures r.Some? <==> id in UserIds(users)
    ensures r.Some? ==> r.value in users && r.value.id == id
  {
    Get(users, (u: User) => u.id == id)
  }

  function GroupBySlug(groups: seq<Group>, slug: string): (r: Option<Group>)
    ensures r.Some? <==> exists g :: g in groups && g.slug == slug
    ensures r.Some? ==> r.value in groups && r.value.slug == slug
  {
    Get(groups, (g: Group) => g.slug == slug)
  }

  function PostById(posts: seq<Post>, id: PostId): (r: Option<Post>)
    ensures r.Some? <==> id in PostIds(posts)
    ensures r.Some? ==> r.value in posts && r.value.id == id
  {
    Get(posts, (p: Post) => p.id == id)
  }

  function ProfileOf(profiles: seq<Profile>, user: UserId): (r: Option<Profile>)
    ensures r.Some? <==> exists pr :: pr in profiles && pr.user == user
    ensures r.Some? ==> r.value in profiles && r.value.user == user
  {
    Get(profiles, (pr: Profile) => pr.user == user)
  }

  // ----- listings (`filter(...)` over posts kept newest first)

  /** `Post.objects.filter(author=author)`. */
  function PostsBy(posts: seq<Post>, author: UserId): (r: seq<Post>)
    ensures forall p :: p in r <==> p in posts && p.author == author
    ensures NewestFirst(posts) ==> NewestFirst(r)
    ensures Distinct(posts) ==> |r| == |set p | p in posts && p.author == author|
  {
    var keep := (p: Post) => p.author == author;
    FilterPairwise(posts, keep, Newer);
    CountFilter(posts, keep);
    assert Matching(posts, keep) == (set p | p in posts && p.author == author);
    Filter(posts, keep)
  }

  /** `group.posts.all()`. */
  function InGroup(posts: seq<Post>, g: GroupId): (r: seq<Post>)
    ensures forall p :: p in r <==> p in posts && p.group == Some(g)
    ensures NewestFirst(posts) ==> NewestFirst(r)
  {
    var keep := (p: Post) => p.group == Some(g);
    FilterPairwise(posts, keep, Newer);
    Filter(posts, keep)
  }

  /** `follow_index`: the posts whose author `me` follows. */
  function Feed(posts: seq<Post>, follows: seq<Follow>, me: UserId): (r: seq<Post>)
    ensures forall p :: p in r <==> p in posts && Follow(me, p.author) in follows
    ensures NewestFirst(posts) ==> NewestFirst(r)
  {
    var keep := (p: Post) => Follow(me, p.author) in follows;
    FilterPairwise(posts, keep, Newer);
    Filter(posts, keep)
  }

  /** Read page after page, the follow feed holds exactly the posts of the authors `me` follows,
      newest first. */
  lemma FeedPages(posts: seq<Post>, follows: seq<Follow>, me: UserId)
    requires NewestFirst(posts)
    ensures var all := Join(Pages(Feed(posts, follows, me)));
      && (forall p :: p in all <==> p in posts && Follow(me, p.author) in follows)
      && NewestFirst(all)
  {
    JoinPages(Feed(posts, follows, me));
  }

  /** `Comment.objects.filter(post=post_id)`. */
  function CommentsOn(comments: seq<Comment>, post: PostId): (r: seq<Comment>)
    ensures forall c :: c in r <==> c in comments && c.post == post
    ensures Distinct(comments) ==> |r| == |set c | c in comments && c.post == post|
  {
    var keep := (c: Comment) => c.post == post;
    CountFilter(comments, keep);
    assert Matching(comments, keep) == (set c | c in comments && c.post == post);
    Filter(comments, keep)
  }

  /** `Follow.objects.filter(author=author)`. */
  function Followers(follows: seq<Follow>, author: UserId): (r: seq<Follow>)
    ensures forall f :: f in r <==> f in follows && f.author == author
    ensures Distinct(follows) ==> |r| == |set f | f in follows && f.author == author|
  {
    var keep := (f: Follow) => f.author == author;
    CountFilter(follows, keep);
    assert Matching(follows, keep) == (set f | f in follows && f.author == author);
    Filter(follows, keep)
  }

  /** `Follow.objects.filter(user=user)`. */
  function Followings(follows: seq<Follow>, user: UserId): (r: seq<Follow>)
    ensures forall f :: f in r <==> f in follows && f.user == user
    ensures Distinct(follows) ==> |r| == |set f | f in follows && f.user == user|
  {
    var keep := (f: Follow) => f.user == user;
    CountFilter(follows, keep);
    assert Matching(follows, keep) == (set f | f in follows && f.user == user);
    Filter(follows, keep)
  }

  // ----- follow edges

  /** `Follow.objects.get_or_create(...)`: afterwards the edge is present, exactly once, and no
      other edge has appeared or gone. */
  function AddFollow(follows: seq<Follow>, e: Follow): (r: seq<Follow>)
    ensures forall f :: f in r <==> f in follows || f == e
    ensures Distinct(follows) ==> Distinct(r)
    ensures |r| <= |follows| + 1
  {
    if e in follows then follows
    else
      var r := follows + [e];
      assert Distinct(follows) ==> Distinct(r) by {
        if Distinct(follows) {
          forall i, j | 0 <= i < j < |r| ensures NotEqual(r[i], r[j]) {
            if j == |follows| {
              assert r[i] == follows[i];
            } else {
              assert r[i] == follows[i] && r[j] == follows[j];
            }
          }
        }
      }
      r
  }

  /** Following twice leaves the same edges as following once. */
  lemma FollowTwice(follows: seq<Follow>, e: Follow)
    ensures AddFollow(AddFollow(follows, e), e) == AddFollow(follows, e)
  {
  }

  /** `Follow.objects.filter(user=..., author=...).delete()`: exactly that edge goes, the others
      stay in their order. */
  function RemoveFollow(follows: seq<Follow>, e: Follow): (r: seq<Follow>)
    ensures forall f :: f in r <==> f in follows && f != e
    ensures e !in follows ==> r == follows
    ensures Distinct(follows) ==> Distinct(r)
    ensures Distinct(follows) && e in follows ==> |r| == |follows| - 1
  {
    var keep := (f: Follow) => f != e;
    FilterPairwise(follows, keep, NotEqual);
    if e !in follows then FilterKeepsAll(follows, keep); follows
    else
      CountFilter(follows, keep);
      CountFilter(follows, (f: Follow) => true);
      FilterKeepsAll(follows, (f: Follow) => true);
      assert Matching(follows, keep) == Matching(follows, (f: Follow) => true) - {e};
      Filter(follows, keep)
  }

  /** Unfollowing an author one does not follow changes nothing; unfollowing twice is the same
      as unfollowing once. */
  lemma UnfollowTwice(follows: seq<Follow>, e: Follow)
    ensures RemoveFollow(RemoveFollow(follows, e), e) == RemoveFollow(follows, e)
  {
  }

  // ----- row edits and deletions

  /** `Post.objects.filter(id=post_id).delete()`. */
  function WithoutPost(posts: seq<Post>, id: PostId): (r: seq<Post>)
    ensures forall p :: p in r <==> p in posts && p.id != id
    ensures Pairwise(posts, Newer) ==> Pairwise(r, Newer)
    ensures Pairwise(posts, PostsDiffer) ==> Pairwise(r, PostsDiffer)
  {
    var keep := (p: Post) => p.id != id;
    FilterPairwise(posts, keep, Newer);
    FilterPairwise(posts, keep, PostsDiffer);
    Filter(posts, keep)
  }

  /** `form.save()` of the post edit form: the post's text, group and image become the submitted
      ones; its key, author and publication stamp stay; every other post is untouched. */
  function EditPost(posts: seq<Post>, id: PostId, text: string, group: Option<GroupId>, image: string): (r: seq<Post>)
    ensures |r| == |posts|
    ensures forall i :: 0 <= i < |r| ==>
      r[i].id == posts[i].id && r[i].author == posts[i].author && r[i].pubDate == posts[i].pubDate
    ensures forall i :: 0 <= i < |r| && posts[i].id == id ==>
      r[i].text == text && r[i].group == group && r[i].image == image
    ensures forall i :: 0 <= i < |r| && posts[i].id != id ==> r[i] == posts[i]
  {
    Update(posts, (p: Post) => p.id == id, (p: Post) => p.(text := text, group := group, image := image))
  }

  /** `Group.objects.filter(slug=...).delete()` for a group with this key. */
  function WithoutGroup(groups: seq<Group>, id: GroupId): (r: seq<Group>)
    ensures forall g :: g in r <==> g in groups && g.id != id
    ensures Pairwise(groups, GroupsDiffer) ==> Pairwise(r, GroupsDiffer)
  {
    var keep := (g: Group) => g.id != id;
    FilterPairwise(groups, keep, GroupsDiffer);
    Filter(groups, keep)
  }

  /** `form.save()` of the group edit form: title, slug and description become the submitted
      ones; key and creator stay; every other group is untouched. */
  function EditGroup(groups: seq<Group>, id: GroupId, title: string, slug: string, description: string): (r: seq<Group>)
    ensures |r| == |groups|
    ensures forall i :: 0 <= i < |r| ==> r[i].id == groups[i].id && r[i].creator == groups[i].creator
    ensures forall i :: 0 <= i < |r| && groups[i].id == id ==>
      r[i].title == title && r[i].slug == slug && r[i].description == description
    ensures forall i :: 0 <= i < |r| && groups[i].id != id ==> r[i] == groups[i]
  {
    Update(groups, (g: Group) => g.id == id, (g: Group) => g.(title := title, slug := slug, description := description))
  }

  /** `form.save()` of the profile edit form: photo and bio of `user`'s profile become the
      submitted ones; every other profile is untouched. */
  function EditProfile(profiles: seq<Profile>, user: UserId, photo: string, bio: string): (r: seq<Profile>)
    ensures |r| == |profiles|
    ensures forall i :: 0 <= i < |r| ==> r[i].user == profiles[i].user
    ensures forall i :: 0 <= i < |r| && profiles[i].user == user ==> r[i].photo == photo && r[i].bio == bio
    ensures forall i :: 0 <= i < |r| && profiles[i].user != user ==> r[i] == profiles[i]
  {
    Update(profiles, (pr: Profile) => pr.user == user, (pr: Profile) => pr.(photo := photo, bio := bio))
  }

  /** With slugs unique, a lookup by slug that finds nothing, or finds group `id`, means that no
      other group holds that slug. */
  lemma SlugHeldOnlyBy(groups: seq<Group>, slug: string, id: GroupId)
    requires Pairwise(groups, GroupsDiffer)
    requires GroupBySlug(groups, slug).None? || GroupBySlug(groups, slug).value.id == id
    ensures forall k :: 0 <= k < |groups| && groups[k].slug == slug ==> groups[k].id == id
  {
  }

  /** Editing a group to a slug no other group holds keeps keys, creators and slugs unique. */
  lemma EditKeepsGroupsValid(groups: seq<Group>, g: Group, title: string, slug: string, description: string)
    requires Pairwise(groups, GroupsDiffer)
    requires GroupBySlug(groups, slug).None? || GroupBySlug(groups, slug).value.id == g.id
    ensures var r := EditGroup(groups, g.id, title, slug, description);
      && Pairwise(r, GroupsDiffer)
      && GroupIds(r) == GroupIds(groups)
      && forall h :: h in r ==> exists k :: 0 <= k < |groups| && groups[k].id == h.id && groups[k].creator == h.creator
  {
  }

  /** `q` is `p` with at most its text, image and group changed, the group to `group`. */
  predicate Retouched(p: Post, q: Post, group: Option<GroupId>) {
    p.id == q.id && p.author == q.author && p.pubDate == q.pubDate && (q.group == p.group || q.group == group)
  }

  /** Editing a post keeps the listing newest first and the keys unique; each edited post keeps
      the key, author and stamp of a post that was there, and either its group or the new one. */
  lemma EditKeepsPostsValid(posts: seq<Post>, id: PostId, text: string, group: Option<GroupId>, image: string)
    requires NewestFirst(posts) && Pairwise(posts, PostsDiffer)
    ensures var r := EditPost(posts, id, text, group, image);
      && NewestFirst(r) && Pairwise(r, PostsDiffer)
      && PostIds(r) == PostIds(posts)
      && forall q :: q in r ==> exists p :: p in posts && Retouched(p, q, group)
  {
    var r := EditPost(posts, id, text, group, image);
    forall i, j | 0 <= i < j < |r| ensures Newer(r[i], r[j]) && PostsDiffer(r[i], r[j]) {
      assert Newer(posts[i], posts[j]) && PostsDiffer(posts[i], posts[j]);
    }
    assert PostIds(r) == PostIds(posts) by {
      forall x | x in PostIds(posts) ensures x in PostIds(r) {
        var i :| 0 <= i < |posts| && posts[i].id == x;
        assert r[i] in r;
      }
    }
    forall q | q in r ensures exists p :: p in posts && Retouched(p, q, group) {
      var i :| 0 <= i < |r| && r[i] == q;
      assert posts[i] in posts && Retouched(posts[i], q, group);
    }
  }

  /** The database of the `posts` app. `posts` is held newest first, which is the order of
      every post listing; `clock` is the publication stamp the next post or comment receives, and
      the `next...Id` fields are the primary keys the next rows receive. */
  class Store {
    var users: seq<User>
    var profiles: seq<Profile>
    var groups: seq<Group>
    var posts: seq<Post>
    var comments: seq<Comment>
    var follows: seq<Follow>
    var clock: nat
    var nextUserId: nat
    var nextGroupId: nat
    var nextPostId: nat
    var nextCommentId: nat

    /** The schema's uniqueness constraints and foreign keys, the listing order, and the fact
        that the app never lets anyone follow themself. */
    ghost predicate Valid()
      reads this
    {
      SchemaValid(users, profiles, groups, posts, comments, follows,
                  nextUserId, nextGroupId, nextPostId, nextCommentId, clock)
    }

    constructor ()
      ensures Valid()
      ensures users == [] && profiles == [] && groups == [] && posts == [] && comments == [] && follows == []
    {
      users, profiles, groups, posts, comments, follows := [], [], [], [], [], [];
      clock, nextUserId, nextGroupId, nextPostId, nextCommentId := 0, 0, 0, 0, 0;
    }

    /** `str(user)`, the username of a registered user. */
    function UsernameOf(id: UserId): string
      reads this
      requires id in UserIds(users)
    {
      UserById(users, id).value.username
    }

    // ----- handlers that only read the store

    /** `index`: one page of all posts, newest first. */
    function Index(page: Option<int>): (r: Response)
      reads this
      requires Valid()
      ensures r.Render? && r.page.IndexPage?
      ensures r.page.items == Pages(posts)[PageNumber(page, |posts|) - 1]
      ensures |r.page.items| <= PostsPerPage && NewestFirst(r.page.items)
      ensures forall p :: p in r.page.items ==> p in posts
      ensures page.None? && posts != [] ==> r.page.items[0] == posts[0]
    {
      PageObjPairwise(posts, page, Newer);
      Render(IndexPage(PageObj(posts, page)))
    }

    /** `group_posts`: one page of the group's posts, newest first; Not Found for an unknown slug. */
    function GroupPosts(slug: string, page: Option<int>): (r: Response)
      reads this
      requires Valid()
      ensures r.NotFound? <==> !exists g :: g in groups && g.slug == slug
      ensures !r.NotFound? ==> r.Render? && r.page.GroupPage? && r.page.group in groups && r.page.group.slug == slug
      ensures r.Render? && r.page.GroupPage? ==>
        var listing := InGroup(posts, r.page.group.id);
        && r.page.items == Pages(listing)[PageNumber(page, |listing|) - 1]
        && |r.page.items| <= PostsPerPage && NewestFirst(r.page.items)
        && (forall p :: p in r.page.items ==> p in posts && p.group == Some(r.page.group.id))
    {
      match GroupBySlug(groups, slug)
      case None => NotFound
      case Some(g) =>
        var listing := InGroup(posts, g.id);
        PageObjPairwise(listing, page, Newer);
        Render(GroupPage(g, PageObj(listing, page)))
    }

    /** `profile`: one page of the author's posts, newest first, with how many posts they wrote,
        how many users follow them and how many they follow, and, for a signed-in viewer,
        whether the viewer follows them. */
    function ProfileView(viewer: Option<UserId>, username: string, page: Option<int>): (r: Response)
      reads this
      requires Valid()
      ensures r.NotFound? <==> !exists u :: u in users && u.username == username
      ensures !r.NotFound? ==>
        r.Render? && r.page.ProfilePage? && r.page.author in users && r.page.author.username == username
      ensures r.Render? && r.page.ProfilePage? ==>
        var a := r.page.author.id;
        && r.page.postsNum == |set p | p in posts && p.author == a|
        && r.page.followersNum == |set f | f in follows && f.author == a|
        && r.page.followingNum == |set f | f in follows && f.user == a|
        && r.page.items == Pages(PostsBy(posts, a))[PageNumber(page, r.page.postsNum) - 1]
        && TotalSize(Pages(PostsBy(posts, a))) == r.page.postsNum
        && |r.page.items| <= PostsPerPage && NewestFirst(r.page.items)
        && (forall p :: p in r.page.items ==> p in posts && p.author == a)
        && (r.page.following.Some? <==> viewer.Some?)
        && (viewer.Some? ==> (r.page.following.value <==> Follow(viewer.value, a) in follows))
    {
      match UserByName(users, username)
      case None => NotFound
      case Some(a) =>
        PostsDistinct(posts);
        var listing := PostsBy(posts, a.id);
        PageObjPairwise(listing, page, Newer);
        PageSizesSum(listing);
        var following := if viewer.Some? then Some(Follow(viewer.value, a.id) in follows) else None;
        Render(ProfilePage(a, |listing|, PageObj(listing, page),
                           |Followers(follows, a.id)|, |Followings(follows, a.id)|, following))
    }

    /** `post_detail`: the post with all its comments, how many comments it has and how many
        posts its author wrote. */
    function PostDetail(id: PostId): (r: Response)
      reads this
      requires Valid()
      ensures r.NotFound? <==> id !in PostIds(posts)
      ensures !r.NotFound? ==> r.Render? && r.page.DetailPage? && r.page.post in posts && r.page.post.id == id
      ensures r.Render? && r.page.DetailPage? ==>
        && r.page.numPosts == |set p | p in posts && p.author == r.page.post.author|
        && (forall c :: c in r.page.comments <==> c in comments && c.post == id)
        && r.page.numComments == |r.page.comments| == |set c | c in comments && c.post == id|
    {
      match PostById(posts, id)
      case None => NotFound
      case Some(p) =>
        PostsDistinct(posts);
        CommentsDistinct(comments);
        var onPost := CommentsOn(comments, id);
        Render(DetailPage(p, |PostsBy(posts, p.author)|, onPost, |onPost|))
    }

    /** `follow_index`: one page of the posts of the authors `me` follows, newest first. */
    function FollowIndex(me: UserId, page: Option<int>): (r: Response)
      reads this
      requires Valid()
      ensures r.Render? && r.page.FollowPage?
      ensures var listing := Feed(posts, follows, me);
        r.page.items == Pages(listing)[PageNumber(page, |listing|) - 1]
      ensures |r.page.items| <= PostsPerPage && NewestFirst(r.page.items)
      ensures forall p :: p in r.page.items ==> p in posts && Follow(me, p.author) in follows
    {
      var listing := Feed(posts, follows, me);
      PageObjPairwise(listing, page, Newer);
      Render(FollowPage(PageObj(listing, page)))
    }

    // ----- rows created outside the core

    /** A new account (the authentication layer's `create_user`): usernames are unique. */
    method AddUser(username: string) returns (id: Option<UserId>)
      requires Valid()
      modifies this`users, this`nextUserId
      ensures Valid()
      ensures UserByName(old(users), username).Some? ==>
        id.None? && users == old(users) && nextUserId == old(nextUserId)
      ensures UserByName(old(users), username).None? ==>
        && id == Some(old(nextUserId)) && old(nextUserId) !in UserIds(old(users))
        && users == old(users) + [User(old(nextUserId), username)]
        && nextUserId == old(nextUserId) + 1
    {
      if UserByName(users, username).Some? {
        return None;
      }
      var u := User(nextUserId, username);
      forall v | v in users ensures UsersDiffer(v, u) {
        assert v.username != username;
      }
      users := users + [u];
      id := Some(nextUserId);
      nextUserId := nextUserId + 1;
    }

    /** A user's profile row, with the model's defaults: the default photo and an empty bio.
        A user has at most one. */
    method AddProfile(user: UserId) returns (ok: bool)
      requires Valid()
      modifies this`profiles
      ensures Valid()
      ensures ok <==> user in UserIds(users) && ProfileOf(old(profiles), user).None?
      ensures ok ==> profiles == old(profiles) + [Profile(user, DefaultPhoto, "")]
      ensures !ok ==> profiles == old(profiles)
    {
      ok := user in UserIds(users) && ProfileOf(profiles, user).None?;
      if ok {
        profiles := profiles + [Profile(user, DefaultPhoto, "")];
      }
    }

    // ----- handlers that change the store

    /** `post_create`: a valid form becomes a new post whose author is the requester and whose
        stamp is newer than every other post's, so it heads every listing it belongs to. */
    method PostCreate(me: UserId, formOk: bool, text: string, group: Option<GroupId>, image: string)
      returns (r: Response)
      requires Valid() && me in UserIds(users)
      modifies this`posts, this`clock, this`nextPostId
      ensures Valid()
      ensures formOk && (group.None? || group.value in GroupIds(groups)) ==>
        && posts == [Post(old(nextPostId), text, old(clock), me, group, image)] + old(posts)
        && clock == old(clock) + 1 && nextPostId == old(nextPostId) + 1
        && r == Redirect(ProfileUrl(UsernameOf(me)))
      ensures !(formOk && (group.None? || group.value in GroupIds(groups))) ==>
        && posts == old(posts) && clock == old(clock) && nextPostId == old(nextPostId)
        && r == Render(PostFormPage(None))
    {
      if !(formOk && (group.None? || group.value in GroupIds(groups))) {
        return Render(PostFormPage(None));
      }
      var p := Post(nextPostId, text, clock, me, group, image);
      PrependNewest(p, posts);
      assert PostIds(posts) <= PostIds([p] + posts);
      posts := [p] + posts;
      clock := clock + 1;
      nextPostId := nextPostId + 1;
      r := Redirect(ProfileUrl(UsernameOf(me)));
    }

    /** `add_comment`: a valid form becomes a comment by the requester on the post named in the
        path; valid or not, the answer is the post's comment section. */
    method AddComment(me: UserId, postId: PostId, formOk: bool, text: string) returns (r: Response)
      requires Valid() && me in UserIds(users)
      modifies this`comments, this`clock, this`nextCommentId
      ensures Valid()
      ensures postId !in PostIds(posts) ==>
        r == NotFound && comments == old(comments) && clock == old(clock) && nextCommentId == old(nextCommentId)
      ensures postId in PostIds(posts) ==>
        && r == Redirect(CommentsUrl(postId))
        && (formOk ==>
              && comments == old(comments) + [Comment(old(nextCommentId), postId, me, text, old(clock))]
              && clock == old(clock) + 1 && nextCommentId == old(nextCommentId) + 1)
        && (!formOk ==> comments == old(comments) && clock == old(clock) && nextCommentId == old(nextCommentId))
    {
      if PostById(posts, postId).None? {
        return NotFound;
      }
      if formOk {
        var c := Comment(nextCommentId, postId, me, text, clock);
        forall d | d in comments ensures CommentsDiffer(d, c) {
        }
        comments := comments + [c];
        clock := clock + 1;
        nextCommentId := nextCommentId + 1;
      }
      r := Redirect(CommentsUrl(postId));
    }

    /** `profile_follow`: following someone else adds the edge (once); following oneself is
        ignored. Either way the answer is the author's profile. */
    method ProfileFollow(me: UserId, username: string) returns (r: Response)
      requires Valid() && me in UserIds(users)
      modifies this`follows
      ensures Valid()
      ensures UserByName(users, username).None? ==> r == NotFound && follows == old(follows)
      ensures UserByName(users, username).Some? ==>
        var author := UserByName(users, username).value.id;
        && r == Redirect(ProfileUrl(username))
        && (author == me ==> follows == old(follows))
        && (author != me ==> follows == AddFollow(old(follows), Follow(me, author)))
    {
      var found := UserByName(users, username);
      if found.None? {
        return NotFound;
      }
      if me != found.value.id {
        follows := AddFollow(follows, Follow(me, found.value.id));
      }
      r := Redirect(ProfileUrl(username));
    }

    /** `profile_unfollow`: the edge from the requester to the author is removed if present. */
    method ProfileUnfollow(me: UserId, username: string) returns (r: Response)
      requires Valid() && me in UserIds(users)
      modifies this`follows
      ensures Valid()
      ensures UserByName(users, username).None? ==> r == NotFound && follows == old(follows)
      ensures UserByName(users, username).Some? ==>
        && r == Redirect(ProfileUrl(username))
        && follows == RemoveFollow(old(follows), Follow(me, UserByName(users, username).value.id))
    {
      var found := UserByName(users, username);
      if found.None? {
        return NotFound;
      }
      follows := RemoveFollow(follows, Follow(me, found.value.id));
      r := Redirect(ProfileUrl(username));
    }

    /** `post_edit`: only the author may edit. Anyone else is sent to the post's page and nothing
        changes; a valid form from the author rewrites text, group and image of that post only. */
    method PostEdit(me: UserId, id: PostId, formOk: bool, text: string, group: Option<GroupId>, image: string)
      returns (r: Response)
      requires Valid() && me in UserIds(users)
      modifies this`posts
      ensures Valid()
      ensures PostById(old(posts), id).None? ==> r == NotFound && posts == old(posts)
      ensures PostById(old(posts), id).Some? && PostById(old(posts), id).value.author != me ==>
        r == Redirect(PostUrl(id)) && posts == old(posts)
      ensures PostById(old(posts), id).Some? && PostById(old(posts), id).value.author == me ==>
        var valid := formOk && (group.None? || group.value in GroupIds(groups));
        && (valid ==> posts == EditPost(old(posts), id, text, group, image) && r == Redirect(PostUrl(id)))
        && (!valid ==> posts == old(posts) && r == Render(PostFormPage(Some(id))))
    {
      var found := PostById(posts, id);
      if found.None? {
        return NotFound;
      }
      if me != found.value.author {
        return Redirect(PostUrl(id));
      }
      if !(formOk && (group.None? || group.value in GroupIds(groups))) {
        return Render(PostFormPage(Some(id)));
      }
      EditKeepsPostsValid(posts, id, text, group, image);
      posts := EditPost(posts, id, text, group, image);
      r := Redirect(PostUrl(id));
    }

    /** `post_delete`: only the author's request deletes the post (with its comments); any other
        requester changes nothing. Both are sent to the author's profile. */
    method PostDelete(me: UserId, id: PostId) returns (r: Response)
      requires Valid() && me in UserIds(users)
      modifies this`posts, this`comments
      ensures Valid()
      ensures PostById(old(posts), id).None? ==>
        r == NotFound && posts == old(posts) && comments == old(comments)
      ensures PostById(old(posts), id).Some? ==>
        var author := PostById(old(posts), id).value.author;
        && r == Redirect(ProfileUrl(UsernameOf(author)))
        && (author == me ==> posts == WithoutPost(old(posts), id) && comments == CommentsNotOn(old(comments), {id}))
        && (author != me ==> posts == old(posts) && comments == old(comments))
    {
      var found := PostById(posts, id);
      if found.None? {
        return NotFound;
      }
      r := Redirect(ProfileUrl(UsernameOf(found.value.author)));
      if me == found.value.author {
        DeletePost(id);
      }
    }

    /** `profile_edit`: only the owner of the profile named in the path may edit it. */
    method ProfileEdit(me: UserId, username: string, formOk: bool, photo: string, bio: string) returns (r: Response)
      requires Valid() && me in UserIds(users)
      modifies this`profiles
      ensures Valid()
      ensures UsernameOf(me) != username ==> r == Redirect(ProfileUrl(username)) && profiles == old(profiles)
      ensures UsernameOf(me) == username && ProfileOf(old(profiles), me).None? ==>
        r == NotFound && profiles == old(profiles)
      ensures UsernameOf(me) == username && ProfileOf(old(profiles), me).Some? ==>
        && (formOk ==> profiles == EditProfile(old(profiles), me, photo, bio) && r == Redirect(ProfileUrl(username)))
        && (!formOk ==> profiles == old(profiles) && r == Render(ProfileFormPage(username)))
    {
      if UsernameOf(me) != username {
        return Redirect(ProfileUrl(username));
      }
      if ProfileOf(profiles, me).None? {
        return NotFound;
      }
      if !formOk {
        return Render(ProfileFormPage(username));
      }
      var edited := EditProfile(profiles, me, photo, bio);
      assert forall q :: q in edited ==> exists i :: 0 <= i < |profiles| && edited[i] == q;
      profiles := edited;
      r := Redirect(ProfileUrl(username));
    }

    /** `group_create`: a valid form whose slug is still free becomes a group created by the
        requester. */
    method GroupCreate(me: UserId, formOk: bool, title: string, slug: string, description: string)
      returns (r: Response)
      requires Valid() && me in UserIds(users)
      modifies this`groups, this`nextGroupId
      ensures Valid()
      ensures formOk && GroupBySlug(old(groups), slug).None? ==>
        && groups == old(groups) + [Group(old(nextGroupId), me, title, slug, description)]
        && nextGroupId == old(nextGroupId) + 1
        && r == Redirect(GroupUrl(slug))
      ensures !(formOk && GroupBySlug(old(groups), slug).None?) ==>
        groups == old(groups) && nextGroupId == old(nextGroupId) && r == Render(GroupFormPage(None))
    {
      if !(formOk && GroupBySlug(groups, slug).None?) {
        return Render(GroupFormPage(None));
      }
      var g := Group(nextGroupId, me, title, slug, description);
      forall h | h in groups ensures GroupsDiffer(h, g) {
        assert h.slug != slug;
      }
      assert GroupIds(groups) <= GroupIds(groups + [g]);
      groups := groups + [g];
      nextGroupId := nextGroupId + 1;
      r := Redirect(GroupUrl(slug));
    }

    /** `group_edit`: only the creator may edit. Anyone else is sent to the group's page and
        nothing changes; a valid form (its slug free or the group's own) rewrites that group only. */
    method GroupEdit(me: UserId, slug: string, formOk: bool, title: string, newSlug: string, description: string)
      returns (r: Response)
      requires Valid() && me in UserIds(users)
      modifies this`groups
      ensures Valid()
      ensures GroupBySlug(old(groups), slug).None? ==> r == NotFound && groups == old(groups)
      ensures GroupBySlug(old(groups), slug).Some? && GroupBySlug(old(groups), slug).value.creator != me ==>
        r == Redirect(GroupUrl(slug)) && groups == old(groups)
      ensures GroupBySlug(old(groups), slug).Some? && GroupBySlug(old(groups), slug).value.creator == me ==>
        var g := GroupBySlug(old(groups), slug).value;
        var valid := formOk && (GroupBySlug(old(groups), newSlug).None? || GroupBySlug(old(groups), newSlug).value.id == g.id);
        && (valid ==> groups == EditGroup(old(groups), g.id, title, newSlug, description) && r == Redirect(GroupUrl(newSlug)))
        && (!valid ==> groups == old(groups) && r == Render(GroupFormPage(Some(slug))))
    {
      var found := GroupBySlug(groups, slug);
      if found.None? {
        return NotFound;
      }
      var g := found.value;
      if me != g.creator {
        return Redirect(GroupUrl(g.slug));
      }
      var clash := GroupBySlug(groups, newSlug);
      if !(formOk && (clash.None? || clash.value.id == g.id)) {
        return Render(GroupFormPage(Some(g.slug)));
      }
      var edited := EditGroup(groups, g.id, title, newSlug, description);
      EditKeepsGroupsValid(groups, g, title, newSlug, description);
      groups := edited;
      r := Redirect(GroupUrl(newSlug));
    }

    /** `group_delete`: only the creator's request deletes the group; its posts stay, without a
        group. Every requester is sent to the index. */
    method GroupDelete(me: UserId, slug: string) returns (r: Response)
      requires Valid() && me in UserIds(users)
      modifies this`groups, this`posts
      ensures Valid()
      ensures GroupBySlug(old(groups), slug).None? ==> r == NotFound && groups == old(groups) && posts == old(posts)
      ensures GroupBySlug(old(groups), slug).Some? ==>
        var g := GroupBySlug(old(groups), slug).value;
        && r == Redirect(IndexUrl)
        && (g.creator == me ==> groups == WithoutGroup(old(groups), g.id) && posts == DetachGroups(old(posts), {g.id}))
        && (g.creator != me ==> groups == old(groups) && posts == old(posts))
    {
      var found := GroupBySlug(groups, slug);
      if found.None? {
        return NotFound;
      }
      if me == found.value.creator {
        DeleteGroup(found.value.id);
      }
      r := Redirect(IndexUrl);
    }

    // ----- the schema's delete rules

    /** Deleting a post deletes exactly the comments on it. */
    method DeletePost(id: PostId)
      requires Valid()
      modifies this`posts, this`comments
      ensures Valid()
      ensures posts == WithoutPost(old(posts), id)
      ensures comments == CommentsNotOn(old(comments), {id})
    {
      var kept := WithoutPost(posts, id);
      var keptComments := CommentsNotOn(comments, {id});
      forall c | c in keptComments ensures c.post in PostIds(kept) {
        var p :| p in posts && p.id == c.post;
        assert p in kept;
      }
      posts, comments := kept, keptComments;
    }

    /** Deleting a group leaves every post in place, with `group` cleared on those that were in it. */
    method DeleteGroup(id: GroupId)
      requires Valid()
      modifies this`groups, this`posts
      ensures Valid()
      ensures groups == WithoutGroup(old(groups), id)
      ensures posts == DetachGroups(old(posts), {id})
    {
      var kept := WithoutGroup(groups, id);
      var detached := DetachGroups(posts, {id});
      forall p | p in detached && p.group.Some? ensures p.group.value in GroupIds(kept) {
        var i :| 0 <= i < |detached| && detached[i] == p;
        assert posts[i] in posts;
        var g :| g in groups && g.id == p.group.value;
        assert g in kept;
      }
      groups, posts := kept, detached;
    }

    /** Deleting user `x` removes their account and profile, the groups they created, their
        posts, their comments and every follow edge they are part of; the comments on their posts
        go too, and posts of others that were in their groups stay, without a group. */
    method DeleteUser(x: UserId)
      requires Valid()
      modifies this`users, this`profiles, this`groups, this`posts, this`comments, this`follows
      ensures Valid()
      ensures x !in UserIds(users)
      ensures users == UsersWithout(old(users), x)
      ensures profiles == ProfilesWithout(old(profiles), x)
      ensures groups == GroupsWithout(old(groups), x)
      ensures posts == DetachGroups(PostsWithout(old(posts), x), CreatedGroupIds(old(groups), x))
      ensures comments == CommentsWithout(CommentsNotOn(old(comments), AuthoredPostIds(old(posts), x)), x)
      ensures follows == FollowsWithout(old(follows), x)
    {
      DeleteFollowsOf(x);
      DeleteProfileOf(x);
      DeleteCommentsOf(x);
      DeletePostsBy(x);
      DetachGroupsOf(x);
      DeleteGroupsOf(x);
      DeleteAccount(x);
    }

    // The steps of deleting a user, in an order in which every intermediate database satisfies
    // the schema: rows are removed before the rows they refer to.

    method DeleteFollowsOf(x: UserId)
      requires Valid()
      modifies this`follows
      ensures Valid()
      ensures follows == FollowsWithout(old(follows), x)
    {
      follows := FollowsWithout(follows, x);
    }

    method DeleteProfileOf(x: UserId)
      requires Valid()
      modifies this`profiles
      ensures Valid()
      ensures profiles == ProfilesWithout(old(profiles), x)
    {
      profiles := ProfilesWithout(profiles, x);
    }

    /** The comments `x` wrote and the comments on the posts `x` wrote. */
    method DeleteCommentsOf(x: UserId)
      requires Valid()
      modifies this`comments
      ensures Valid()
      ensures comments == CommentsWithout(CommentsNotOn(old(comments), AuthoredPostIds(posts, x)), x)
      ensures forall c :: c in comments ==> c.author != x && c.post !in AuthoredPostIds(posts, x)
    {
      comments := CommentsWithout(CommentsNotOn(comments, AuthoredPostIds(posts, x)), x);
    }

    method DeletePostsBy(x: UserId)
      requires Valid()
      requires forall c :: c in comments ==> c.post !in AuthoredPostIds(posts, x)
      modifies this`posts
      ensures Valid()
      ensures posts == PostsWithout(old(posts), x)
    {
      var kept := PostsWithout(posts, x);
      forall c | c in comments ensures c.post in PostIds(kept) {
        var p :| p in posts && p.id == c.post;
        assert p.author != x by {
          assert p.author == x ==> p.id in AuthoredPostIds(posts, x);
        }
        assert p in kept;
      }
      posts := kept;
    }

    /** The posts in groups `x` created lose their group. */
    method DetachGroupsOf(x: UserId)
      requires Valid()
      modifies this`posts
      ensures Valid()
      ensures posts == DetachGroups(old(posts), CreatedGroupIds(groups, x))
      ensures forall p :: p in posts ==> p.group.None? || p.group.value !in CreatedGroupIds(groups, x)
    {
      var detached := DetachGroups(posts, CreatedGroupIds(groups, x));
      forall p | p in detached && p.group.Some? ensures p.group.value in GroupIds(groups) {
        var i :| 0 <= i < |detached| && detached[i] == p;
        assert posts[i] in posts;
      }
      posts := detached;
    }

    method DeleteGroupsOf(x: UserId)
      requires Valid()
      requires forall p :: p in posts ==> p.group.None? || p.group.value !in CreatedGroupIds(groups, x)
      modifies this`groups
      ensures Valid()
      ensures groups == GroupsWithout(old(groups), x)
    {
      var kept := GroupsWithout(groups, x);
      forall p | p in posts && p.group.Some? ensures p.group.value in GroupIds(kept) {
        var g :| g in groups && g.id == p.group.value;
        assert g.creator != x by {
          assert g.creator == x ==> g.id in CreatedGroupIds(groups, x);
        }
        assert g in kept;
      }
      groups := kept;
    }

    /** The account itself, once no row refers to it any more. */
    method DeleteAccount(x: UserId)
      requires Valid()
      requires forall pr :: pr in profiles ==> pr.user != x
      requires forall g :: g in groups ==> g.creator != x
      requires forall p :: p in posts ==> p.author != x
      requires forall c :: c in comments ==> c.author != x
      requires forall f :: f in follows ==> f.user != x && f.author != x
      modifies this`users
      ensures Valid()
      ensures users == UsersWithout(old(users), x) && x !in UserIds(users)
    {
      users := UsersWithout(users, x);
    }
  }
}
