/** The contents of the three tables and the constraints the schema of
    backend/internal/entity puts on them: users keyed by id with unique usernames and
    case-insensitively unique (`citext`) emails, posts whose authors exist, and tokens in
    primary-key order whose users exist. Deletions are described by selectors, the WHERE
    clauses the repositories issue. */
module Tables {
  import opened Common
  import opened Entities

  /** Every stored user sits under its own id, which is never the zero id GORM treats as
      "not yet assigned", and carries no plaintext password. */
  ghost predicate UsersKeyed(users: map<int, User>)
  {
    forall id | id in users :: id != 0 && users[id].id == id && users[id].password.plaintext == None
  }

  /** The UNIQUE constraint on `username`. */
  ghost predicate UsernamesUnique(users: map<int, User>)
  {
    forall a, b | a in users && b in users && users[a].username == users[b].username :: a == b
  }

  /** The UNIQUE constraint on the `citext` column `email`. */
  ghost predicate EmailsUnique(users: map<int, User>)
  {
    forall a, b | a in users && b in users && FoldEq(users[a].email, users[b].email) :: a == b
  }

  ghost predicate UsersValid(users: map<int, User>)
  {
    UsersKeyed(users) && UsernamesUnique(users) && EmailsUnique(users)
  }

  ghost predicate PostIdsDistinct(posts: seq<Post>)
  {
    forall i, j | 0 <= i < j < |posts| :: posts[i].id != posts[j].id
  }

  /** Post ids are a nonzero primary key and every author exists (the foreign key to
      users). */
  ghost predicate PostsValid(posts: seq<Post>, users: map<int, User>)
  {
    PostIdsDistinct(posts) && forall i | 0 <= i < |posts| :: posts[i].id != 0 && posts[i].authorId in users
  }

  ghost predicate TokenIdsIncreasing(tokens: seq<Token>)
  {
    forall i, j | 0 <= i < j < |tokens| :: tokens[i].id < tokens[j].id
  }

  /** Tokens are kept in primary-key order, every id was drawn from the sequence (which
      starts at 1) before `nextId`, every user exists and no plaintext is stored. */
  ghost predicate TokensValid(tokens: seq<Token>, users: map<int, User>, nextId: int)
  {
    && TokenIdsIncreasing(tokens)
    && forall i | 0 <= i < |tokens| ::
         1 <= tokens[i].id < nextId && tokens[i].userId in users && tokens[i].plaintext == ""
  }

  /** Some other row already holds the username. */
  predicate UsernameTaken(users: map<int, User>, u: User)
  {
    exists id | id in users :: id != u.id && users[id].username == u.username
  }

  /** Some other row already holds the email, compared as `citext`. */
  predicate EmailTaken(users: map<int, User>, u: User)
  {
    exists id | id in users :: id != u.id && FoldEq(users[id].email, u.email)
  }

  /** The unique constraint a write of row `u` violates, checked in the order of the
      table's indexes: primary key, username, email. `inserting` is false when the write
      overwrites the row that already holds `u.id`. */
  function UserConflict(users: map<int, User>, u: User, inserting: bool): (r: Option<string>)
    ensures r.None? <==> (inserting ==> u.id !in users) && !UsernameTaken(users, u) && !EmailTaken(users, u)
    ensures r == Some("users_email_key") <==>
      (inserting ==> u.id !in users) && !UsernameTaken(users, u) && EmailTaken(users, u)
  {
    if inserting && u.id in users then Some("users_pkey")
    else if UsernameTaken(users, u) then Some("users_username_key")
    else if EmailTaken(users, u) then Some("users_email_key")
    else None
  }

  /** Writing a row that violates no constraint keeps the users table valid. */
  lemma WriteUserKeepsValid(users: map<int, User>, u: User, inserting: bool)
    requires UsersValid(users)
    requires u.id != 0
    requires UserConflict(users, u, inserting).None?
    ensures UsersValid(users[u.id := StoredUser(u)])
  {
    var users' := users[u.id := StoredUser(u)];
    forall a, b | a in users' && b in users' && FoldEq(users'[a].email, users'[b].email)
      ensures a == b
    {
      if a != u.id && b != u.id {
        assert users'[a] == users[a] && users'[b] == users[b];
      }
    }
    forall a, b | a in users' && b in users' && users'[a].username == users'[b].username
      ensures a == b
    {
      if a != u.id && b != u.id {
        assert users'[a] == users[a] && users'[b] == users[b];
      }
    }
  }

  /** Rewriting a stored row with its own username and (case-folded) email never
      violates a constraint. */
  lemma RewriteKeepsKeys(users: map<int, User>, u: User)
    requires UsersValid(users)
    requires u.id in users
    requires u.username == users[u.id].username && Lower(u.email) == Lower(users[u.id].email)
    ensures UserConflict(users, u, false).None?
  {
    forall id | id in users && id != u.id
      ensures users[id].username != u.username && !FoldEq(users[id].email, u.email)
    {
      assert users[u.id].username == u.username;
    }
  }

  /** Inserting a row that repeats the username of a stored row always fails, whatever
      the row's other fields: with a fresh id on the username key, otherwise on the
      primary key. */
  lemma InsertOfStoredUsernameFails(users: map<int, User>, u: User, owner: int)
    requires owner in users && users[owner].username == u.username
    ensures UserConflict(users, u, true).Some?
  {
    if u.id != owner {
      assert users[owner].username == u.username;
    }
  }

  /** WHERE clauses of the post deletions. */
  datatype PostSelector = PostWithId(id: int) | PostsByAuthor(authorId: int)

  predicate SelectsPost(sel: PostSelector, p: Post)
  {
    match sel
    case PostWithId(id) => p.id == id
    case PostsByAuthor(author) => p.authorId == author
  }

  /** The posts that a DELETE with the selector leaves, in their order. */
  function RemovePosts(posts: seq<Post>, sel: PostSelector): (r: seq<Post>)
    ensures |r| <= |posts|
  {
    if posts == [] then []
    else (if SelectsPost(sel, posts[0]) then [] else [posts[0]]) + RemovePosts(posts[1..], sel)
  }

  /** A DELETE leaves exactly the rows it does not select. */
  lemma {:induction false} RemovePostsMembers(posts: seq<Post>, sel: PostSelector)
    ensures forall p :: p in RemovePosts(posts, sel) <==> p in posts && !SelectsPost(sel, p)
  {
    if posts != [] {
      RemovePostsMembers(posts[1..], sel);
      assert posts == [posts[0]] + posts[1..];
    }
  }

  /** The number of rows a DELETE with the selector affects. */
  function CountPosts(posts: seq<Post>, sel: PostSelector): (n: nat)
    ensures n <= |posts|
    ensures n == |posts| - |RemovePosts(posts, sel)|
    ensures n == 0 <==> forall i | 0 <= i < |posts| :: !SelectsPost(sel, posts[i])
  {
    if posts == [] then 0
    else (if SelectsPost(sel, posts[0]) then 1 else 0) + CountPosts(posts[1..], sel)
  }

  lemma {:induction false} RemovePostsKeepsDistinct(posts: seq<Post>, sel: PostSelector)
    requires PostIdsDistinct(posts)
    ensures PostIdsDistinct(RemovePosts(posts, sel))
  {
    if posts != [] {
      RemovePostsKeepsDistinct(posts[1..], sel);
      var rest := RemovePosts(posts[1..], sel);
      RemovePostsMembers(posts[1..], sel);
      forall p | p in rest ensures p.id != posts[0].id {
        var k :| 0 <= k < |posts[1..]| && posts[1..][k] == p;
        assert posts[k + 1] == p;
      }
    }
  }

  /** A second identical DELETE finds nothing more to remove. */
  lemma {:induction false} RemovePostsIdempotent(posts: seq<Post>, sel: PostSelector)
    ensures RemovePosts(RemovePosts(posts, sel), sel) == RemovePosts(posts, sel)
  {
    if posts != [] {
      RemovePostsIdempotent(posts[1..], sel);
      if !SelectsPost(sel, posts[0]) {
        var once := RemovePosts(posts, sel);
        assert once == [posts[0]] + RemovePosts(posts[1..], sel);
        assert once[0] == posts[0] && once[1..] == RemovePosts(posts[1..], sel);
        assert RemovePosts(once, sel) == [posts[0]] + RemovePosts(once[1..], sel);
      } else {
        assert RemovePosts(posts, sel) == [] + RemovePosts(posts[1..], sel);
        assert [] + RemovePosts(posts[1..], sel) == RemovePosts(posts[1..], sel);
      }
    }
  }

  /** Deleting by id removes at most one row when ids are distinct. */
  lemma {:induction false} RemovePostByIdCount(posts: seq<Post>, id: int)
    requires PostIdsDistinct(posts)
    ensures CountPosts(posts, PostWithId(id)) <= 1
  {
    if posts != [] {
      DistinctTail(posts);
      RemovePostByIdCount(posts[1..], id);
    }
  }

  lemma DistinctTail(posts: seq<Post>)
    requires posts != [] && PostIdsDistinct(posts)
    ensures PostIdsDistinct(posts[1..])
    ensures forall k | 0 <= k < |posts[1..]| :: posts[1..][k].id != posts[0].id
  {
    var tail := posts[1..];
    forall a, b | 0 <= a < b < |tail| ensures tail[a].id != tail[b].id {
      assert tail[a] == posts[a + 1] && tail[b] == posts[b + 1];
    }
    forall k | 0 <= k < |tail| ensures tail[k].id != posts[0].id {
      assert tail[k] == posts[k + 1];
    }
  }

  /** Deleting by the id of the post at position i removes that post and nothing else. */
  lemma {:induction false} RemovePostById(posts: seq<Post>, i: nat)
    requires PostIdsDistinct(posts)
    requires i < |posts|
    ensures RemovePosts(posts, PostWithId(posts[i].id)) == posts[..i] + posts[i + 1..]
  {
    var id := posts[i].id;
    var tail := posts[1..];
    DistinctTail(posts);
    if i == 0 {
      RemoveNothing(tail, PostWithId(id));
      assert RemovePosts(posts, PostWithId(id)) == [] + tail;
      assert posts[..0] + posts[1..] == [] + tail;
    } else {
      assert tail[i - 1] == posts[i];
      RemovePostById(tail, i - 1);
      assert RemovePosts(posts, PostWithId(id)) == [posts[0]] + RemovePosts(tail, PostWithId(id));
      assert tail[..i - 1] == posts[1..i];
      assert tail[i..] == posts[i + 1..];
      assert [posts[0]] + posts[1..i] == posts[..i];
    }
  }

  lemma {:induction false} RemoveNothing(posts: seq<Post>, sel: PostSelector)
    requires forall i | 0 <= i < |posts| :: !SelectsPost(sel, posts[i])
    ensures RemovePosts(posts, sel) == posts
  {
    if posts != [] {
      RemoveNothing(posts[1..], sel);
      assert [posts[0]] + posts[1..] == posts;
    }
  }

  /** WHERE clauses of the token deletions. */
  datatype TokenSelector =
    | ScopeOfUser(scope: string, userId: int)
    | TokensOfUser(userId: int)
    | TokenWithId(id: int)

  predicate SelectsToken(sel: TokenSelector, t: Token)
  {
    match sel
    case ScopeOfUser(scope, user) => t.scope == scope && t.userId == user
    case TokensOfUser(user) => t.userId == user
    case TokenWithId(id) => t.id == id
  }

  function RemoveTokens(tokens: seq<Token>, sel: TokenSelector): (r: seq<Token>)
    ensures |r| <= |tokens|
  {
    if tokens == [] then []
    else (if SelectsToken(sel, tokens[0]) then [] else [tokens[0]]) + RemoveTokens(tokens[1..], sel)
  }

  /** A DELETE leaves exactly the rows it does not select. */
  lemma {:induction false} RemoveTokensMembers(tokens: seq<Token>, sel: TokenSelector)
    ensures forall t :: t in RemoveTokens(tokens, sel) <==> t in tokens && !SelectsToken(sel, t)
  {
    if tokens != [] {
      RemoveTokensMembers(tokens[1..], sel);
      assert tokens == [tokens[0]] + tokens[1..];
    }
  }

  lemma IncreasingTail(tokens: seq<Token>)
    requires tokens != [] && TokenIdsIncreasing(tokens)
    ensures TokenIdsIncreasing(tokens[1..])
    ensures forall t | t in tokens[1..] :: tokens[0].id < t.id
  {
    var tail := tokens[1..];
    forall i, j | 0 <= i < j < |tail| ensures tail[i].id < tail[j].id {
      assert tail[i] == tokens[i + 1] && tail[j] == tokens[j + 1];
    }
    forall t | t in tail ensures tokens[0].id < t.id {
      var k :| 0 <= k < |tail| && tail[k] == t;
      assert tokens[k + 1] == t;
    }
  }

  lemma IncreasingCons(first: Token, rest: seq<Token>)
    requires TokenIdsIncreasing(rest)
    requires forall t | t in rest :: first.id < t.id
    ensures TokenIdsIncreasing([first] + rest)
  {
    var r := [first] + rest;
    forall i, j | 0 <= i < j < |r| ensures r[i].id < r[j].id {
      assert r[j] == rest[j - 1];
      if i > 0 {
        assert r[i] == rest[i - 1];
      }
    }
  }

  lemma {:induction false} RemoveTokensKeepsOrder(tokens: seq<Token>, sel: TokenSelector)
    requires TokenIdsIncreasing(tokens)
    ensures TokenIdsIncreasing(RemoveTokens(tokens, sel))
  {
    if tokens != [] {
      IncreasingTail(tokens);
      RemoveTokensKeepsOrder(tokens[1..], sel);
      var rest := RemoveTokens(tokens[1..], sel);
      if !SelectsToken(sel, tokens[0]) {
        RemoveTokensMembers(tokens[1..], sel);
        IncreasingCons(tokens[0], rest);
      } else {
        assert RemoveTokens(tokens, sel) == [] + rest;
      }
    }
  }

  /** A second identical DELETE finds nothing more to remove. */
  lemma {:induction false} RemoveTokensIdempotent(tokens: seq<Token>, sel: TokenSelector)
    ensures RemoveTokens(RemoveTokens(tokens, sel), sel) == RemoveTokens(tokens, sel)
  {
    if tokens != [] {
      RemoveTokensIdempotent(tokens[1..], sel);
      if !SelectsToken(sel, tokens[0]) {
        var once := RemoveTokens(tokens, sel);
        assert once == [tokens[0]] + RemoveTokens(tokens[1..], sel);
        assert once[0] == tokens[0] && once[1..] == RemoveTokens(tokens[1..], sel);
        assert RemoveTokens(once, sel) == [tokens[0]] + RemoveTokens(once[1..], sel);
      } else {
        assert RemoveTokens(tokens, sel) == [] + RemoveTokens(tokens[1..], sel);
        assert [] + RemoveTokens(tokens[1..], sel) == RemoveTokens(tokens[1..], sel);
      }
    }
  }

  /** Removing the rows of a deleted user keeps every table valid (ON DELETE CASCADE). */
  lemma CascadeKeepsValid(users: map<int, User>, posts: seq<Post>, tokens: seq<Token>, nextId: int, id: int)
    requires UsersValid(users) && PostsValid(posts, users) && TokensValid(tokens, users, nextId)
    ensures UsersValid(users - {id})
    ensures PostsValid(RemovePosts(posts, PostsByAuthor(id)), users - {id})
    ensures TokensValid(RemoveTokens(tokens, TokensOfUser(id)), users - {id}, nextId)
  {
    var users' := users - {id};
    assert forall a | a in users' :: users'[a] == users[a];
    CascadePostsValid(users, posts, id);
    CascadeTokensValid(users, tokens, nextId, id);
  }

  lemma CascadePostsValid(users: map<int, User>, posts: seq<Post>, id: int)
    requires PostsValid(posts, users)
    ensures PostsValid(RemovePosts(posts, PostsByAuthor(id)), users - {id})
  {
    RemovePostsKeepsDistinct(posts, PostsByAuthor(id));
    var posts' := RemovePosts(posts, PostsByAuthor(id));
    RemovePostsMembers(posts, PostsByAuthor(id));
    forall i | 0 <= i < |posts'| ensures posts'[i].id != 0 && posts'[i].authorId in users - {id} {
      assert posts'[i] in posts';
    }
  }

  lemma CascadeTokensValid(users: map<int, User>, tokens: seq<Token>, nextId: int, id: int)
    requires TokensValid(tokens, users, nextId)
    ensures TokensValid(RemoveTokens(tokens, TokensOfUser(id)), users - {id}, nextId)
  {
    RemoveTokensKeepsOrder(tokens, TokensOfUser(id));
    var tokens' := RemoveTokens(tokens, TokensOfUser(id));
    RemoveTokensMembers(tokens, TokensOfUser(id));
    forall i | 0 <= i < |tokens'|
      ensures 1 <= tokens'[i].id < nextId && tokens'[i].userId in users - {id} && tokens'[i].plaintext == ""
    {
      assert tokens'[i] in tokens';
    }
  }

  /** Any token deletion keeps the token table valid. */
  lemma RemoveTokensKeepsValid(tokens: seq<Token>, users: map<int, User>, nextId: int, sel: TokenSelector)
    requires TokensValid(tokens, users, nextId)
    ensures TokensValid(RemoveTokens(tokens, sel), users, nextId)
  {
    RemoveTokensKeepsOrder(tokens, sel);
    var tokens' := RemoveTokens(tokens, sel);
    RemoveTokensMembers(tokens, sel);
    forall i | 0 <= i < |tokens'|
      ensures 1 <= tokens'[i].id < nextId && tokens'[i].userId in users && tokens'[i].plaintext == ""
    {
      assert tokens'[i] in tokens';
    }
  }

  /** Any post deletion keeps the post table valid. */
  lemma RemovePostsKeepsValid(posts: seq<Post>, users: map<int, User>, sel: PostSelector)
    requires PostsValid(posts, users)
    ensures PostsValid(RemovePosts(posts, sel), users)
  {
    RemovePostsKeepsDistinct(posts, sel);
    var posts' := RemovePosts(posts, sel);
    RemovePostsMembers(posts, sel);
    forall i | 0 <= i < |posts'| ensures posts'[i].id != 0 && posts'[i].authorId in users {
      assert posts'[i] in posts';
    }
  }

  /** The position of the post with the id: a primary-key lookup. */
  function PostIndex(posts: seq<Post>, id: int): (r: Option<nat>)
    ensures r.Some? ==> r.value < |posts| && posts[r.value].id == id
    ensures r.None? <==> forall i | 0 <= i < |posts| :: posts[i].id != id
  {
    if posts == [] then None
    else if posts[0].id == id then Some(0)
    else match PostIndex(posts[1..], id)
      case None => None
      case Some(k) => Some(k + 1)
  }

  /** Adding users keeps every post author and token owner present. */
  lemma MoreUsersKeepValid(posts: seq<Post>, tokens: seq<Token>, users: map<int, User>, users': map<int, User>, nextId: int)
    requires PostsValid(posts, users) && TokensValid(tokens, users, nextId)
    requires users.Keys <= users'.Keys
    ensures PostsValid(posts, users') && TokensValid(tokens, users', nextId)
  {
  }

  /** The UPDATE ... WHERE id = $n AND version = $m of the SQL user store: the new table,
      or RecordNotFound when no row has that id and version. Only the listed columns
      change; the version becomes the stored one plus one. */
  function CompareAndSwapUser(users: map<int, User>, u: User): (r: Result<map<int, User>>)
  {
    if u.id !in users || users[u.id].version != u.version then Err(RecordNotFound)
    else
      var row := CasUserRow(users[u.id], u);
      match UserConflict(users, row, false)
      case Some(constraint) => Err(UniqueViolation(constraint))
      case None => Ok(users[u.id := row])
  }

  function CasUserRow(stored: User, u: User): (row: User)
  {
    stored.(name := u.name, surname := u.surname, username := u.username, telegram := u.telegram,
            discord := u.discord, email := u.email, skills := u.skills,
            password := Password(None, u.password.hash), activated := u.activated,
            version := stored.version + 1)
  }

  /** A successful swap bumps the version, writes the listed columns and nothing else,
      and fails exactly when the id or version does not match or a key is taken. */
  lemma CompareAndSwapUserSpec(users: map<int, User>, u: User)
    requires UsersValid(users)
    ensures CompareAndSwapUser(users, u) == Err(RecordNotFound) <==>
      u.id !in users || users[u.id].version != u.version
    ensures CompareAndSwapUser(users, u).Ok? ==>
      var row := CompareAndSwapUser(users, u).value[u.id];
      && u.id in users
      && row.version == users[u.id].version + 1 == u.version + 1
      && row.createdAt == users[u.id].createdAt && row.profileImage == users[u.id].profileImage
      && row.email == u.email && row.username == u.username && row.password.hash == u.password.hash
      && CompareAndSwapUser(users, u).value.Keys == users.Keys
      && UsersValid(CompareAndSwapUser(users, u).value)
  {
    if u.id in users && users[u.id].version == u.version {
      var row := CasUserRow(users[u.id], u);
      if UserConflict(users, row, false).None? {
        WriteUserKeepsValid(users, row, false);
        assert StoredUser(row) == row;
      }
    }
  }

  /** Two updates issued from the same read: once the first succeeds the second finds
      no row with the version it read, so it fails and cannot overwrite the first. */
  lemma {:induction false} LostUpdatePrevented(users: map<int, User>, first: User, second: User)
    requires first.id == second.id && first.version == second.version
    requires CompareAndSwapUser(users, first).Ok?
    ensures CompareAndSwapUser(CompareAndSwapUser(users, first).value, second) == Err(RecordNotFound)
  {
    var users' := CompareAndSwapUser(users, first).value;
    assert users'[first.id].version == users[first.id].version + 1;
  }

  /** The UPDATE ... WHERE id = $5 AND version = $6 of the SQL post store: the new table,
      or RecordNotFound when no row has that id and version; the author must exist. */
  function CompareAndSwapPost(posts: seq<Post>, users: map<int, User>, p: Post): (r: Result<seq<Post>>)
  {
    match PostIndex(posts, p.id)
    case None => Err(RecordNotFound)
    case Some(i) =>
      if posts[i].version != p.version then Err(RecordNotFound)
      else if p.authorId !in users then Err(ForeignKeyViolation("fk_users_posts"))
      else Ok(posts[i := CasPostRow(posts[i], p)])
  }

  function CasPostRow(stored: Post, p: Post): (row: Post)
  {
    stored.(name := p.name, description := p.description, postType := p.postType,
            authorId := p.authorId, version := stored.version + 1)
  }

  /** A successful swap rewrites the one row with that id: name, description, type and
      author from the argument, the version one above the version read, id, creation
      time and skills as stored; every other row is untouched and the table stays valid. */
  lemma CompareAndSwapPostSpec(posts: seq<Post>, users: map<int, User>, p: Post)
    requires PostsValid(posts, users)
    ensures CompareAndSwapPost(posts, users, p) == Err(RecordNotFound) <==>
      forall i | 0 <= i < |posts| :: posts[i].id != p.id || posts[i].version != p.version
    ensures CompareAndSwapPost(posts, users, p).Ok? ==>
      var posts' := CompareAndSwapPost(posts, users, p).value;
      && |posts'| == |posts|
      && PostsValid(posts', users)
      && forall i | 0 <= i < |posts| ::
           if posts[i].id == p.id then
             && posts'[i].version == p.version + 1
             && posts'[i].name == p.name && posts'[i].description == p.description
             && posts'[i].postType == p.postType && posts'[i].authorId == p.authorId
             && posts'[i].id == posts[i].id && posts'[i].createdAt == posts[i].createdAt
             && posts'[i].skills == posts[i].skills
           else posts'[i] == posts[i]
  {
    match PostIndex(posts, p.id)
    case None =>
    case Some(i) =>
      forall j | 0 <= j < |posts| && j != i ensures posts[j].id != p.id {
        if j < i {
          assert posts[j].id != posts[i].id;
        } else {
          assert posts[i].id != posts[j].id;
        }
      }
  }
  /** The WHERE clause of GetForToken over the joined token: the stored hash is the
      hash of the presented plaintext, the scope is the one asked for and the token has
      not expired. */
  predicate TokenMatches(t: Token, hash: Bytes, scope: string, now: int)
  {
    t.hash == hash && t.scope == scope && t.expiry > now
  }

  /** The user GORM's First picks from the join: the least owner id of a matching token
      (First orders by the users' primary key), or None when no token matches. */
  function LeastOwner(tokens: seq<Token>, hash: Bytes, scope: string, now: int): (r: Option<int>)
  {
    if tokens == [] then None
    else
      var rest := LeastOwner(tokens[..|tokens| - 1], hash, scope, now);
      var t := tokens[|tokens| - 1];
      if !TokenMatches(t, hash, scope, now) then rest
      else if rest.Some? && rest.value <= t.userId then rest
      else Some(t.userId)
  }

  /** A user is found exactly when some token matches, the user found owns a matching
      token, and no matching token belongs to a smaller id. */
  lemma {:induction false} LeastOwnerSpec(tokens: seq<Token>, hash: Bytes, scope: string, now: int)
    ensures LeastOwner(tokens, hash, scope, now).None? <==>
      forall i | 0 <= i < |tokens| :: !TokenMatches(tokens[i], hash, scope, now)
    ensures LeastOwner(tokens, hash, scope, now).Some? ==>
      var id := LeastOwner(tokens, hash, scope, now).value;
      && (exists i | 0 <= i < |tokens| :: TokenMatches(tokens[i], hash, scope, now) && tokens[i].userId == id)
      && forall i | 0 <= i < |tokens| && TokenMatches(tokens[i], hash, scope, now) :: id <= tokens[i].userId
  {
    if tokens != [] {
      var init := tokens[..|tokens| - 1];
      LeastOwnerSpec(init, hash, scope, now);
      assert forall i | 0 <= i < |init| :: tokens[i] == init[i];
      var last := |tokens| - 1;
      if LeastOwner(tokens, hash, scope, now).Some? {
        var id := LeastOwner(tokens, hash, scope, now).value;
        if id == tokens[last].userId && TokenMatches(tokens[last], hash, scope, now) {
          assert TokenMatches(tokens[last], hash, scope, now) && tokens[last].userId == id;
        } else {
          var j :| 0 <= j < |init| && TokenMatches(init[j], hash, scope, now) && init[j].userId == id;
          assert TokenMatches(tokens[j], hash, scope, now) && tokens[j].userId == id;
        }
      }
    }
  }

  /** An expired token, or a token of another scope, never decides the lookup: adding
      one to the table does not change who is found. */
  lemma LeastOwnerIgnores(tokens: seq<Token>, t: Token, hash: Bytes, scope: string, now: int)
    requires t.expiry <= now || t.scope != scope
    ensures LeastOwner(tokens + [t], hash, scope, now) == LeastOwner(tokens, hash, scope, now)
  {
    assert (tokens + [t])[..|tokens|] == tokens;
  }
}
