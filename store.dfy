/** The PostgreSQL database every repository copy talks to, replaced by in-memory tables.
    Its methods are the statements the repositories issue (INSERT through GORM's Create,
    GORM's Save, DELETE ... WHERE, the versioned UPDATEs of the SQL stores), with the
    engine's behaviour: id sequences, column defaults, unique keys, foreign keys and
    ON DELETE CASCADE. Users are keyed by id; posts are kept in storage order; tokens in
    primary-key order. */
module Store {
  import opened Common
  import opened Entities
  import opened Tables

  /** The row GORM's Create inserts: a zero id draws `nextId`, and a zero version or
      creation time takes the column default (1, the current time). */
  function UserRow(u: User, nextId: int, now: int): (row: User)
    ensures row.id == (if u.id == 0 then nextId else u.id)
    ensures row.version != 0 && (now != 0 ==> row.createdAt != 0)
    ensures row.(id := u.id, version := u.version, createdAt := u.createdAt) == u
  {
    u.(id := if u.id == 0 then nextId else u.id,
       version := if u.version == 0 then 1 else u.version,
       createdAt := if u.createdAt == 0 then now else u.createdAt)
  }

  function PostRow(p: Post, nextId: int, now: int): (row: Post)
    ensures row.id == (if p.id == 0 then nextId else p.id)
    ensures row.version != 0 && (now != 0 ==> row.createdAt != 0)
    ensures row.(id := p.id, version := p.version, createdAt := p.createdAt) == p
  {
    p.(id := if p.id == 0 then nextId else p.id,
       version := if p.version == 0 then 1 else p.version,
       createdAt := if p.createdAt == 0 then now else p.createdAt)
  }

  class Database {
    var users: map<int, User>
    var posts: seq<Post>
    var tokens: seq<Token>
    /** The next values of the id sequences of the three tables. */
    var userSeq: int
    var postSeq: int
    var tokenSeq: int

    ghost predicate Valid()
      reads this
    {
      UsersValid(users) && PostsValid(posts, users) && TokensValid(tokens, users, tokenSeq)
      && 1 <= userSeq && 1 <= postSeq && 1 <= tokenSeq
    }

    constructor ()
      ensures Valid()
      ensures users == map[] && posts == [] && tokens == []
    {
      users, posts, tokens := map[], [], [];
      userSeq, postSeq, tokenSeq := 1, 1, 1;
    }

    /** INSERT INTO users through GORM's Create. A zero id consumes a value of the
        sequence even when the insert then fails. */
    method CreateUser(u: User, now: int) returns (r: Result<User>)
      requires Valid()
      modifies this
      ensures Valid()
      ensures posts == old(posts) && tokens == old(tokens)
      ensures postSeq == old(postSeq) && tokenSeq == old(tokenSeq)
      ensures userSeq == if u.id == 0 then old(userSeq) + 1 else old(userSeq)
      ensures var row := UserRow(u, old(userSeq), now);
        && (r.Ok? <==> UserConflict(old(users), row, true).None?)
        && (r.Ok? ==> r.value == row && users == old(users)[row.id := StoredUser(row)])
        && (r.Err? ==> r.error == UniqueViolation(UserConflict(old(users), row, true).value) && users == old(users))
    {
      var row := UserRow(u, userSeq, now);
      if u.id == 0 {
        userSeq := userSeq + 1;
      }
      var conflict := UserConflict(users, row, true);
      if conflict.Some? {
        return Err(UniqueViolation(conflict.value));
      }
      WriteUserKeepsValid(users, row, true);
      MoreUsersKeepValid(posts, tokens, users, users[row.id := StoredUser(row)], tokenSeq);
      users := users[row.id := StoredUser(row)];
      return Ok(row);
    }

    /** GORM's Save: a zero id is a Create; otherwise every column of the row with that id
        is overwritten, and when there is no such row the user is inserted with its id. */
    method SaveUser(u: User, now: int) returns (r: Result<User>)
      requires Valid()
      modifies this
      ensures Valid()
      ensures posts == old(posts) && tokens == old(tokens)
      ensures postSeq == old(postSeq) && tokenSeq == old(tokenSeq)
      ensures u.id != 0 && u.id in old(users) ==>
        && userSeq == old(userSeq)
        && (r.Ok? <==> UserConflict(old(users), u, false).None?)
        && (r.Ok? ==> r.value == u && users == old(users)[u.id := StoredUser(u)])
        && (r.Err? ==> r.error == UniqueViolation(UserConflict(old(users), u, false).value) && users == old(users))
      ensures u.id == 0 || u.id !in old(users) ==>
        && userSeq == (if u.id == 0 then old(userSeq) + 1 else old(userSeq))
        && var row := UserRow(u, old(userSeq), now);
        && (r.Ok? <==> UserConflict(old(users), row, true).None?)
        && (r.Ok? ==> r.value == row && users == old(users)[row.id := StoredUser(row)])
        && (r.Err? ==> r.error == UniqueViolation(UserConflict(old(users), row, true).value) && users == old(users))
    {
      if u.id == 0 || u.id !in users {
        r := CreateUser(u, now);
        return;
      }
      var conflict := UserConflict(users, u, false);
      if conflict.Some? {
        return Err(UniqueViolation(conflict.value));
      }
      WriteUserKeepsValid(users, u, false);
      MoreUsersKeepValid(posts, tokens, users, users[u.id := StoredUser(u)], tokenSeq);
      users := users[u.id := StoredUser(u)];
      return Ok(u);
    }

    /** DELETE FROM users WHERE id = $1, cascading to the user's posts and tokens.
        Reports whether a row was affected. */
    method DeleteUser(id: int) returns (affected: bool)
      requires Valid()
      modifies this
      ensures Valid()
      ensures affected == (id in old(users))
      ensures users == old(users) - {id}
      ensures posts == RemovePosts(old(posts), PostsByAuthor(id))
      ensures tokens == RemoveTokens(old(tokens), TokensOfUser(id))
      ensures userSeq == old(userSeq) && postSeq == old(postSeq) && tokenSeq == old(tokenSeq)
    {
      CascadeKeepsValid(users, posts, tokens, tokenSeq, id);
      affected := id in users;
      users := users - {id};
      posts := RemovePosts(posts, PostsByAuthor(id));
      tokens := RemoveTokens(tokens, TokensOfUser(id));
    }

    /** The versioned UPDATE of the SQL user store; on success the new version. */
    method CompareAndSwapUser(u: User) returns (r: Result<int>)
      requires Valid()
      modifies this
      ensures Valid()
      ensures r.Ok? <==> Tables.CompareAndSwapUser(old(users), u).Ok?
      ensures r.Ok? ==> users == Tables.CompareAndSwapUser(old(users), u).value && r.value == u.version + 1
      ensures r.Err? ==> users == old(users) && r.error == Tables.CompareAndSwapUser(old(users), u).error
      ensures posts == old(posts) && tokens == old(tokens)
      ensures userSeq == old(userSeq) && postSeq == old(postSeq) && tokenSeq == old(tokenSeq)
    {
      CompareAndSwapUserSpec(users, u);
      var swapped := Tables.CompareAndSwapUser(users, u);
      if swapped.Err? {
        return Err(swapped.error);
      }
      MoreUsersKeepValid(posts, tokens, users, swapped.value, tokenSeq);
      users := swapped.value;
      return Ok(u.version + 1);
    }

    /** INSERT INTO posts through GORM's Create: primary key, then the author's foreign key. */
    method CreatePost(p: Post, now: int) returns (r: Result<Post>)
      requires Valid()
      modifies this
      ensures Valid()
      ensures users == old(users) && tokens == old(tokens)
      ensures userSeq == old(userSeq) && tokenSeq == old(tokenSeq)
      ensures postSeq == if p.id == 0 then old(postSeq) + 1 else old(postSeq)
      ensures var row := PostRow(p, old(postSeq), now);
        && (r.Ok? <==> PostIndex(old(posts), row.id).None? && row.authorId in users)
        && (r.Ok? ==> r.value == row && posts == old(posts) + [row])
        && (r.Err? ==> posts == old(posts))
        && (r.Err? && PostIndex(old(posts), row.id).Some? ==> r.error == UniqueViolation("posts_pkey"))
        && (r.Err? && PostIndex(old(posts), row.id).None? ==> r.error == ForeignKeyViolation("fk_users_posts"))
    {
      var row := PostRow(p, postSeq, now);
      if p.id == 0 {
        postSeq := postSeq + 1;
      }
      if PostIndex(posts, row.id).Some? {
        return Err(UniqueViolation("posts_pkey"));
      }
      if row.authorId !in users {
        return Err(ForeignKeyViolation("fk_users_posts"));
      }
      posts := posts + [row];
      return Ok(row);
    }

    /** GORM's Save for a post: a zero id is a Create; otherwise the row with that id is
        overwritten in place, or inserted with its id when there is none. */
    method SavePost(p: Post, now: int) returns (r: Result<Post>)
      requires Valid()
      modifies this
      ensures Valid()
      ensures users == old(users) && tokens == old(tokens)
      ensures userSeq == old(userSeq) && tokenSeq == old(tokenSeq)
      ensures p.id != 0 && PostIndex(old(posts), p.id).Some? ==>
        var i := PostIndex(old(posts), p.id).value;
        && postSeq == old(postSeq)
        && (r.Ok? <==> p.authorId in users)
        && (r.Ok? ==> r.value == p && posts == old(posts)[i := p])
        && (r.Err? ==> r.error == ForeignKeyViolation("fk_users_posts") && posts == old(posts))
      ensures p.id == 0 || PostIndex(old(posts), p.id).None? ==>
        && postSeq == (if p.id == 0 then old(postSeq) + 1 else old(postSeq))
        && var row := PostRow(p, old(postSeq), now);
        && (r.Ok? <==> PostIndex(old(posts), row.id).None? && row.authorId in users)
        && (r.Ok? ==> r.value == row && posts == old(posts) + [row])
        && (r.Err? ==> posts == old(posts))
        && (r.Err? && PostIndex(old(posts), row.id).Some? ==> r.error == UniqueViolation("posts_pkey"))
        && (r.Err? && PostIndex(old(posts), row.id).None? ==> r.error == ForeignKeyViolation("fk_users_posts"))
    {
      var index := PostIndex(posts, p.id);
      if p.id == 0 || index.None? {
        r := CreatePost(p, now);
        return;
      }
      if p.authorId !in users {
        return Err(ForeignKeyViolation("fk_users_posts"));
      }
      var i := index.value;
      forall j | 0 <= j < |posts| && j != i ensures posts[j].id != p.id {
        if j < i {
          assert posts[j].id != posts[i].id;
        } else {
          assert posts[i].id != posts[j].id;
        }
      }
      posts := posts[i := p];
      return Ok(p);
    }

    /** DELETE FROM posts WHERE ...; the number of rows affected. */
    method DeletePosts(sel: PostSelector) returns (affected: nat)
      requires Valid()
      modifies this
      ensures Valid()
      ensures affected == CountPosts(old(posts), sel)
      ensures posts == RemovePosts(old(posts), sel)
      ensures users == old(users) && tokens == old(tokens)
      ensures userSeq == old(userSeq) && postSeq == old(postSeq) && tokenSeq == old(tokenSeq)
    {
      RemovePostsKeepsValid(posts, users, sel);
      affected := CountPosts(posts, sel);
      posts := RemovePosts(posts, sel);
    }

    /** The versioned UPDATE of the SQL post store; on success the new version. */
    method CompareAndSwapPost(p: Post) returns (r: Result<int>)
      requires Valid()
      modifies this
      ensures Valid()
      ensures r.Ok? <==> Tables.CompareAndSwapPost(old(posts), old(users), p).Ok?
      ensures r.Ok? ==> posts == Tables.CompareAndSwapPost(old(posts), old(users), p).value && r.value == p.version + 1
      ensures r.Err? ==> posts == old(posts) && r.error == Tables.CompareAndSwapPost(old(posts), old(users), p).error
      ensures users == old(users) && tokens == old(tokens)
      ensures userSeq == old(userSeq) && postSeq == old(postSeq) && tokenSeq == old(tokenSeq)
    {
      CompareAndSwapPostSpec(posts, users, p);
      var swapped := Tables.CompareAndSwapPost(posts, users, p);
      if swapped.Err? {
        return Err(swapped.error);
      }
      posts := swapped.value;
      return Ok(p.version + 1);
    }

    /** INSERT INTO tokens through GORM's Create. The id always comes from the sequence
        (every token reaching here is fresh) and the plaintext is not a column. */
    method InsertToken(t: Token) returns (r: Result<Token>)
      requires Valid()
      requires t.id == 0
      modifies this
      ensures Valid()
      ensures users == old(users) && posts == old(posts)
      ensures userSeq == old(userSeq) && postSeq == old(postSeq) && tokenSeq == old(tokenSeq) + 1
      ensures r.Ok? <==> t.userId in users
      ensures r.Ok? ==> r.value == t.(id := old(tokenSeq)) && tokens == old(tokens) + [StoredToken(r.value)]
      ensures r.Err? ==> r.error == ForeignKeyViolation("fk_users_tokens") && tokens == old(tokens)
    {
      var row := t.(id := tokenSeq);
      tokenSeq := tokenSeq + 1;
      if t.userId !in users {
        return Err(ForeignKeyViolation("fk_users_tokens"));
      }
      tokens := tokens + [StoredToken(row)];
      return Ok(row);
    }

    /** DELETE FROM tokens WHERE ... */
    method DeleteTokens(sel: TokenSelector)
      requires Valid()
      modifies this
      ensures Valid()
      ensures tokens == RemoveTokens(old(tokens), sel)
      ensures users == old(users) && posts == old(posts)
      ensures userSeq == old(userSeq) && postSeq == old(postSeq) && tokenSeq == old(tokenSeq)
    {
      RemoveTokensKeepsValid(tokens, users, tokenSeq, sel);
      tokens := RemoveTokens(tokens, sel);
    }
  }
}
