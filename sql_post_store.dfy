/** The hand-written SQL post store of internal/post/data/posts.go. Unlike the GORM
    repository it guards every id below 1, updates with a version compare-and-swap and
    reads an author's posts with a row loop. Its `Delete` is the statement of
    `PostRepository.Delete` and is not repeated here. */
module SqlPostStore {
  import opened Common
  import opened Entities
  import opened Tables
  import opened Store

  /** The posts of one author, in storage order. */
  function ByAuthor(posts: seq<Post>, authorId: int): (r: seq<Post>)
    ensures |r| <= |posts|
  {
    if posts == [] then []
    else
      var last := posts[|posts| - 1];
      ByAuthor(posts[..|posts| - 1], authorId) + (if last.authorId == authorId then [last] else [])
  }

  /** An author's posts are exactly the stored posts with that author. */
  lemma {:induction false} ByAuthorMembers(posts: seq<Post>, authorId: int)
    ensures forall p :: p in ByAuthor(posts, authorId) <==> p in posts && p.authorId == authorId
  {
    if posts != [] {
      ByAuthorMembers(posts[..|posts| - 1], authorId);
      assert posts == posts[..|posts| - 1] + [posts[|posts| - 1]];
    }
  }

  /** Removing an author's posts leaves none of them to read. */
  lemma NoPostsAfterRemoval(posts: seq<Post>, authorId: int)
    ensures ByAuthor(RemovePosts(posts, PostsByAuthor(authorId)), authorId) == []
  {
    var rest := RemovePosts(posts, PostsByAuthor(authorId));
    RemovePostsMembers(posts, PostsByAuthor(authorId));
    ByAuthorMembers(rest, authorId);
    if ByAuthor(rest, authorId) != [] {
      assert ByAuthor(rest, authorId)[0] in ByAuthor(rest, authorId);
    }
  }

  class SqlPostStore {
    const db: Database

    constructor (db: Database)
      ensures this.db == db
    {
      this.db := db;
    }

    /** SELECT * FROM posts WHERE id = $1; ids below 1 are not looked up. */
    method GetByID(id: int) returns (r: Result<Post>)
      ensures id < 1 ==> r == Err(RecordNotFound)
      ensures id >= 1 ==> (r.Ok? <==> PostIndex(db.posts, id).Some?)
      ensures r.Ok? ==> r.value in db.posts && r.value.id == id
      ensures r.Err? ==> r.error == RecordNotFound
    {
      if id < 1 {
        return Err(RecordNotFound);
      }
      var index := PostIndex(db.posts, id);
      if index.None? {
        return Err(RecordNotFound);
      }
      return Ok(db.posts[index.value]);
    }

    /** SELECT * FROM posts WHERE authorid = $1, one row appended per iteration. */
    method GetByAuthor(authorId: int) returns (r: Result<seq<Post>>)
      ensures authorId < 1 ==> r == Err(RecordNotFound)
      ensures authorId >= 1 ==> r == Ok(ByAuthor(db.posts, authorId))
    {
      if authorId < 1 {
        return Err(RecordNotFound);
      }
      var rows := db.posts;
      var posts: seq<Post> := [];
      var i := 0;
      while i < |rows|
        invariant 0 <= i <= |rows|
        invariant posts == ByAuthor(rows[..i], authorId)
      {
        assert rows[..i + 1][..i] == rows[..i];
        if rows[i].authorId == authorId {
          posts := posts + [rows[i]];
        }
        i := i + 1;
      }
      assert rows[..|rows|] == rows;
      return Ok(posts);
    }

    /** UPDATE posts SET name, description, type, authorid, version = version + 1
        WHERE id = $5 AND version = $6 RETURNING version: the new version, or not found
        when the row is gone or was changed since it was read. */
    method Update(p: Post) returns (r: Result<int>)
      requires db.Valid()
      modifies db
      ensures db.Valid()
      ensures db.users == old(db.users) && db.tokens == old(db.tokens)
      ensures r.Ok? <==> Tables.CompareAndSwapPost(old(db.posts), old(db.users), p).Ok?
      ensures r.Ok? ==> r.value == p.version + 1 && db.posts == Tables.CompareAndSwapPost(old(db.posts), old(db.users), p).value
      ensures r.Err? ==> db.posts == old(db.posts)
      ensures r.Err? ==> r.error == Tables.CompareAndSwapPost(old(db.posts), old(db.users), p).error
    {
      r := db.CompareAndSwapPost(p);
    }

    /** DELETE FROM tokens WHERE user_id = $1: despite its name it removes the user's
        tokens of every scope, and no post. */
    method DeleteAllForUser(userId: int) returns (err: Option<Error>)
      requires db.Valid()
      modifies db
      ensures db.Valid()
      ensures err == None
      ensures db.users == old(db.users) && db.posts == old(db.posts)
      ensures db.tokens == RemoveTokens(old(db.tokens), TokensOfUser(userId))
      ensures forall t | t in db.tokens :: t.userId != userId
    {
      db.DeleteTokens(TokensOfUser(userId));
      RemoveTokensMembers(old(db.tokens), TokensOfUser(userId));
      return None;
    }
  }
}
