/** The post use case of backend/post/usecase/postUsecaseImpl.go and its older copy
    post/usecase/postUsecaseImpl.go: the owner-checked edit and the pass-throughs to the
    repository. The two copies differ only in the search they pass through. */
module PostUseCase {
  import opened Common
  import opened Entities
  import opened Tables
  import opened Store
  import opened PostSearch
  import opened PostRepository

  /** The edit UpdatePost applies to the post it read: the four editable fields from the
      request and the version one up; the id, author and creation time are kept. */
  function EditedPost(p: Post, name: string, description: string, postType: string, skills: seq<string>): (r: Post)
    ensures r.name == name && r.description == description && r.postType == postType && r.skills == skills
    ensures r.version == p.version + 1
    ensures r.id == p.id && r.authorId == p.authorId && r.createdAt == p.createdAt
  {
    p.(name := name, description := description, postType := postType, skills := skills, version := p.version + 1)
  }

  class PostUseCase {
    const repo: PostRepository

    constructor (repo: PostRepository)
      ensures this.repo == repo
    {
      this.repo := repo;
    }

    method GetPostById(id: int) returns (r: Result<Post>)
      ensures r.Ok? <==> PostIndex(repo.db.posts, id).Some?
      ensures r.Ok? ==> r.value == repo.db.posts[PostIndex(repo.db.posts, id).value]
      ensures r.Err? ==> r.error == PostNotFound
    {
      r := repo.GetByID(id);
    }

    /** CreatePost: the repository's insert, its error returned as is. */
    method CreatePost(p: Post, now: int) returns (r: Result<Post>)
      requires repo.db.Valid()
      modifies repo.db
      ensures repo.db.Valid()
      ensures repo.db.users == old(repo.db.users) && repo.db.tokens == old(repo.db.tokens)
      ensures var row := PostRow(p, old(repo.db.postSeq), now);
        && (r.Ok? <==> PostIndex(old(repo.db.posts), row.id).None? && row.authorId in repo.db.users)
        && (r.Ok? ==> r.value == row && repo.db.posts == old(repo.db.posts) + [row])
        && (r.Err? ==> repo.db.posts == old(repo.db.posts))
    {
      r := repo.Insert(p, now);
    }

    /** DeletePost: the repository's delete, its error returned as is. */
    method DeletePost(id: int) returns (err: Option<Error>)
      requires repo.db.Valid()
      modifies repo.db
      ensures repo.db.Valid()
      ensures repo.db.users == old(repo.db.users) && repo.db.tokens == old(repo.db.tokens)
      ensures err.None? <==> id >= 1 && PostIndex(old(repo.db.posts), id).Some?
      ensures err.None? ==> var i := PostIndex(old(repo.db.posts), id).value;
        repo.db.posts == old(repo.db.posts)[..i] + old(repo.db.posts)[i + 1..]
      ensures err.Some? ==> err == Some(RecordNotFound) && repo.db.posts == old(repo.db.posts)
    {
      err := repo.Delete(id);
    }

    /** UpdatePost: read the post, refuse anyone but its author before touching it, then
        save the edited post. */
    method UpdatePost(postId: int, userId: int, name: string, description: string, skills: seq<string>,
                      postType: string, now: int) returns (err: Option<Error>)
      requires repo.db.Valid()
      modifies repo.db
      ensures repo.db.Valid()
      ensures repo.db.users == old(repo.db.users) && repo.db.tokens == old(repo.db.tokens)
      ensures var i := PostIndex(old(repo.db.posts), postId);
        && (i.None? ==> err == Some(PostNotFound) && repo.db.posts == old(repo.db.posts))
        && (i.Some? && old(repo.db.posts)[i.value].authorId != userId ==>
              err == Some(PostNotOwned) && repo.db.posts == old(repo.db.posts))
        && (i.Some? && old(repo.db.posts)[i.value].authorId == userId ==>
              && err == None
              && repo.db.posts == old(repo.db.posts)[i.value := EditedPost(old(repo.db.posts)[i.value], name, description, postType, skills)])
    {
      var found := repo.GetByID(postId);
      if found.Err? {
        return Some(found.error);
      }
      var post := found.value;
      if post.authorId != userId {
        return Some(PostNotOwned);
      }
      post := EditedPost(post, name, description, postType, skills);
      err := repo.Update(post, now);
    }

    /** GetFilteredPosts: the repository's search; an error comes back with no posts. */
    method GetFilteredPosts(name: string, description: string, author: string, postType: string, skills: seq<string>,
                            filters: Filters, sortRows: seq<Post> -> seq<Post>) returns (r: Result<SearchPage>)
      requires filters.page >= 1 && filters.pageSize >= 1
      requires Permutes(sortRows)
      ensures r == SearchResult(repo.db.posts, name, description, author, postType, skills, filters, sortRows)
    {
      r := repo.GetFilteredPosts(name, description, author, postType, skills, filters, sortRows);
    }

    /** The older GetFilteredPosts: the posts of the search without its metadata. */
    method GetFilteredPostsWithoutCount(name: string, description: string, author: string, postType: string,
                                        skills: seq<string>, filters: Filters, sortRows: seq<Post> -> seq<Post>)
      returns (r: Result<seq<Post>>)
      requires filters.page >= 1 && filters.pageSize >= 1
      requires Permutes(sortRows)
      ensures var full := SearchResult(repo.db.posts, name, description, author, postType, skills, filters, sortRows);
        && (r.Err? <==> full.Err?)
        && (r.Err? ==> r.error == full.error)
        && (r.Ok? ==> r.value == full.value.posts)
    {
      r := repo.GetFilteredPostsWithoutCount(name, description, author, postType, skills, filters, sortRows);
    }
  }
}
