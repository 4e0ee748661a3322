/** The GORM post repository of backend/post/repository/postsImpl.go. Its older copy,
    post/repository/postsImpl.go, differs only in the search (no count, no metadata),
    which is `GetFilteredPostsWithoutCount`, and in the text of the not-found error. */
module PostRepository {
  import opened Common
  import opened Entities
  import opened Tables
  import opened Store
  import opened PostSearch

  class PostRepository {
    const db: Database

    constructor (db: Database)
      ensures this.db == db
    {
      this.db := db;
    }

    /** Create: the row with its generated id and defaults, or the violated constraint. */
    method Insert(p: Post, now: int) returns (r: Result<Post>)
      requires db.Valid()
      modifies db
      ensures db.Valid()
      ensures db.users == old(db.users) && db.tokens == old(db.tokens)
      ensures var row := PostRow(p, old(db.postSeq), now);
        && (r.Ok? <==> PostIndex(old(db.posts), row.id).None? && row.authorId in db.users)
        && (r.Ok? ==> r.value == row && db.posts == old(db.posts) + [row])
        && (r.Err? ==> db.posts == old(db.posts))
    {
      r := db.CreatePost(p, now);
    }

    /** WHERE id = ? ... First: the stored post, or the repository's not-found error. */
    method GetByID(postId: int) returns (r: Result<Post>)
      ensures r.Ok? <==> exists i | 0 <= i < |db.posts| :: db.posts[i].id == postId
      ensures r.Ok? ==> r.value in db.posts && r.value.id == postId
      ensures r.Ok? ==> PostIndex(db.posts, postId).Some? && r.value == db.posts[PostIndex(db.posts, postId).value]
      ensures r.Err? ==> r.error == PostNotFound
    {
      var index := PostIndex(db.posts, postId);
      if index.None? {
        return Err(PostNotFound);
      }
      return Ok(db.posts[index.value]);
    }

    /** Delete by id: ids below 1 and ids that affect no row are not found. */
    method Delete(id: int) returns (err: Option<Error>)
      requires db.Valid()
      modifies db
      ensures db.Valid()
      ensures db.users == old(db.users) && db.tokens == old(db.tokens)
      ensures id < 1 ==> err == Some(RecordNotFound) && db.posts == old(db.posts)
      ensures id >= 1 ==>
        && (err.None? <==> PostIndex(old(db.posts), id).Some?)
        && (err.None? ==> var i := PostIndex(old(db.posts), id).value;
                          db.posts == old(db.posts)[..i] + old(db.posts)[i + 1..])
        && (err.Some? ==> err == Some(RecordNotFound) && db.posts == old(db.posts))
    {
      if id < 1 {
        return Some(RecordNotFound);
      }
      ghost var index := PostIndex(db.posts, id);
      if index.Some? {
        RemovePostById(db.posts, index.value);
      }
      var affected := db.DeletePosts(PostWithId(id));
      if affected == 0 {
        RemoveNothing(old(db.posts), PostWithId(id));
        return Some(RecordNotFound);
      }
      return None;
    }

    /** GORM's Save: no version check. A stored id is overwritten in place; a zero or
        unknown id is inserted as by Create. */
    method Update(p: Post, now: int) returns (err: Option<Error>)
      requires db.Valid()
      modifies db
      ensures db.Valid()
      ensures db.users == old(db.users) && db.tokens == old(db.tokens)
      ensures p.id != 0 && PostIndex(old(db.posts), p.id).Some? ==>
        && (err.None? <==> p.authorId in db.users)
        && (err.None? ==> db.posts == old(db.posts)[PostIndex(old(db.posts), p.id).value := p])
        && (err.Some? ==> err == Some(ForeignKeyViolation("fk_users_posts")) && db.posts == old(db.posts))
        && db.postSeq == old(db.postSeq)
      ensures p.id == 0 || PostIndex(old(db.posts), p.id).None? ==>
        && db.postSeq == (if p.id == 0 then old(db.postSeq) + 1 else old(db.postSeq))
        && var row := PostRow(p, old(db.postSeq), now);
        && (err.None? <==> PostIndex(old(db.posts), row.id).None? && row.authorId in db.users)
        && (err.None? ==> db.posts == old(db.posts) + [row])
        && (err.Some? ==> db.posts == old(db.posts))
        && (err.Some? && PostIndex(old(db.posts), row.id).Some? ==> err == Some(UniqueViolation("posts_pkey")))
        && (err.Some? && PostIndex(old(db.posts), row.id).None? ==> err == Some(ForeignKeyViolation("fk_users_posts")))
    {
      var saved := db.SavePost(p, now);
      if saved.Err? {
        return Some(saved.error);
      }
      return None;
    }

    /** DELETE FROM posts WHERE author_id = ?; user ids below 1 are not found, and
        deleting no post is not an error. */
    method DeleteAllForUser(userId: int) returns (err: Option<Error>)
      requires db.Valid()
      modifies db
      ensures db.Valid()
      ensures db.users == old(db.users) && db.tokens == old(db.tokens)
      ensures userId < 1 ==> err == Some(RecordNotFound) && db.posts == old(db.posts)
      ensures userId >= 1 ==> err == None && db.posts == RemovePosts(old(db.posts), PostsByAuthor(userId))
      ensures forall p | p in db.posts :: p.authorId != userId || userId < 1
    {
      if userId < 1 {
        return Some(RecordNotFound);
      }
      var _ := db.DeletePosts(PostsByAuthor(userId));
      RemovePostsMembers(old(db.posts), PostsByAuthor(userId));
      return None;
    }

    /** The search over the posts table; see `FilteredPosts`. */
    method GetFilteredPosts(name: string, description: string, author: string, postType: string, skills: seq<string>,
                            filters: Filters, sortRows: seq<Post> -> seq<Post>) returns (r: Result<SearchPage>)
      requires filters.page >= 1 && filters.pageSize >= 1
      requires Permutes(sortRows)
      ensures r == SearchResult(db.posts, name, description, author, postType, skills, filters, sortRows)
    {
      r := FilteredPosts(db.posts, name, description, author, postType, skills, filters, sortRows);
    }

    /** The older search over the posts table; see `FilteredPostsWithoutCount`. */
    method GetFilteredPostsWithoutCount(name: string, description: string, author: string, postType: string,
                                        skills: seq<string>, filters: Filters, sortRows: seq<Post> -> seq<Post>)
      returns (r: Result<seq<Post>>)
      requires filters.page >= 1 && filters.pageSize >= 1
      requires Permutes(sortRows)
      ensures var full := SearchResult(db.posts, name, description, author, postType, skills, filters, sortRows);
        && (r.Err? <==> full.Err?)
        && (r.Err? ==> r.error == full.error)
        && (r.Ok? ==> r.value == full.value.posts)
    {
      r := FilteredPostsWithoutCount(db.posts, name, description, author, postType, skills, filters, sortRows);
    }
  }

  /** The search: the clauses are added one by one, the total is counted before the
      sort and the paging are applied. */
  method FilteredPosts(stored: seq<Post>, name: string, description: string, author: string, postType: string, skills: seq<string>,
                        filters: Filters, sortRows: seq<Post> -> seq<Post>) returns (r: Result<SearchPage>)
    requires filters.page >= 1 && filters.pageSize >= 1
    requires Permutes(sortRows)
    ensures r == SearchResult(stored, name, description, author, postType, skills, filters, sortRows)
  {
    var query := SearchConditions(name, description, author, postType, skills);
    SearchConditionsBadAuthor(name, description, author, postType, skills);
    var bad := FirstBadAuthor(query);
    if bad.Some? {
      return Err(InvalidBigint(bad.value));
    }
    SelectIsMatching(stored, name, description, author, postType, skills);
    ghost var matching := Matching(stored, name, description, author, postType, skills);
    var rows := Select(stored, query);
    var totalRecords := |rows|;

    if filters.sort != "" {
      var safe := Contains(filters.sortSafeList, filters.sort);
      if safe {
        rows := sortRows(rows);
      }
    }
    assert rows == Ordered(matching, filters, sortRows);
    var posts := Window(rows, Offset(filters), filters.pageSize);
    var metadata := CalculateMetadata(totalRecords, filters.page, filters.pageSize);
    return Ok(SearchPage(posts, metadata));
  }

  /** The older search: the same clauses, sort and paging, with no count and no
      metadata; an error yields no posts at all. */
  method FilteredPostsWithoutCount(stored: seq<Post>, name: string, description: string, author: string, postType: string,
                                  skills: seq<string>, filters: Filters, sortRows: seq<Post> -> seq<Post>)
    returns (r: Result<seq<Post>>)
    requires filters.page >= 1 && filters.pageSize >= 1
    requires Permutes(sortRows)
    ensures var full := SearchResult(stored, name, description, author, postType, skills, filters, sortRows);
      && (r.Err? <==> full.Err?)
      && (r.Err? ==> r.error == full.error)
      && (r.Ok? ==> r.value == full.value.posts)
  {
    var query := SearchConditions(name, description, author, postType, skills);
    SearchConditionsBadAuthor(name, description, author, postType, skills);
    var bad := FirstBadAuthor(query);
    if bad.Some? {
      return Err(InvalidBigint(bad.value));
    }
    SelectIsMatching(stored, name, description, author, postType, skills);
    ghost var matching := Matching(stored, name, description, author, postType, skills);
    var rows := Select(stored, query);
    if filters.sort != "" {
      var safe := Contains(filters.sortSafeList, filters.sort);
      if safe {
        rows := sortRows(rows);
      }
    }
    assert rows == Ordered(matching, filters, sortRows);
    return Ok(Window(rows, Offset(filters), filters.pageSize));
  }
}
