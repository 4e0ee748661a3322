/** The post search of backend/post/repository/postsImpl.go and its older copy in
    post/repository/postsImpl.go: optional filters ANDed into a query, a sort applied only
    for a safelisted key, offset/limit paging and the page metadata. The WHERE clauses are
    values (`Condition`) that the database evaluates; `SatisfiesFilters` states the same
    search directly, as a reference. */
module PostSearch {
  import opened Common
  import opened Entities
  import opened Strconv

  /** The paging and sorting request. `SortColumn`/`SortDirection` are not part of this
      model: the ordering they produce is a parameter of the search. */
  datatype Filters = Filters(page: int, pageSize: int, sort: string, sortSafeList: seq<string>)

  datatype Metadata = Metadata(
    currentPage: int,
    pageSize: int,
    firstPage: int,
    lastPage: int,
    totalRecords: int)

  const NoMetadata: Metadata := Metadata(0, 0, 0, 0, 0)

  /** calculateMetadata: the empty value for an empty result, otherwise the last page is
      the ceiling of total / pageSize (computed in float64 by the source; integer ceiling
      division here). */
  function CalculateMetadata(totalRecords: int, page: int, pageSize: int): (m: Metadata)
    requires pageSize > 0
    ensures m == NoMetadata <==> totalRecords == 0
    ensures totalRecords != 0 ==>
      && m.firstPage == 1 && m.currentPage == page && m.pageSize == pageSize
      && m.totalRecords == totalRecords
      && (m.lastPage - 1) * pageSize < totalRecords <= m.lastPage * pageSize
  {
    if totalRecords == 0 then NoMetadata
    else
      var last := (totalRecords + pageSize - 1) / pageSize;
      assert (last - 1) * pageSize < totalRecords <= last * pageSize;
      Metadata(page, pageSize, 1, last, totalRecords)
  }

  /** contains: a linear scan of the safelist. */
  method Contains(list: seq<string>, value: string) returns (found: bool)
    ensures found <==> value in list
  {
    for i := 0 to |list|
      invariant value !in list[..i]
    {
      if list[i] == value {
        return true;
      }
    }
    return false;
  }

  /** The OFFSET of the requested page: the rows of the pages before it. */
  function Offset(f: Filters): nat
    requires f.page >= 1 && f.pageSize >= 1
  {
    (f.page - 1) * f.pageSize
  }

  /** The sort is applied only for a non-empty key on the safelist. */
  predicate SortApplies(f: Filters)
  {
    f.sort != "" && f.sort in f.sortSafeList
  }

  /** The WHERE clauses the search can add. */
  datatype Condition =
    | NameLike(name: string)               // name ILIKE '%' || name || '%'
    | DescriptionLike(description: string) // description ILIKE '%' || description || '%'
    | AuthorIs(author: string)             // author_id = the text, cast to bigint
    | TypeIs(postType: string)             // type = postType
    | SkillsContain(skills: seq<string>)   // skills @> the requested array

  /** The text of an `author_id = ?` clause that PostgreSQL cannot read as a bigint,
      modelled with strconv.Atoi's syntax and range. */
  predicate BadAuthor(c: Condition)
  {
    c.AuthorIs? && Atoi(c.author).None?
  }

  /** Whether a row satisfies one clause (for a readable author text). */
  predicate Holds(c: Condition, p: Post)
  {
    match c
    case NameLike(name) => ContainsFold(p.name, name)
    case DescriptionLike(description) => ContainsFold(p.description, description)
    case AuthorIs(author) => Atoi(author) == Some(p.authorId)
    case TypeIs(postType) => p.postType == postType
    case SkillsContain(skills) => forall s | s in skills :: s in p.skills
  }

  predicate AllHold(conds: seq<Condition>, p: Post)
  {
    forall c | c in conds :: Holds(c, p)
  }

  /** The rows the database returns for the WHERE clauses, in storage order. */
  function Select(posts: seq<Post>, conds: seq<Condition>): (r: seq<Post>)
    ensures |r| <= |posts|
  {
    if posts == [] then []
    else (if AllHold(conds, posts[0]) then [posts[0]] else []) + Select(posts[1..], conds)
  }

  /** The search stated directly: each non-empty filter constrains the post, an empty
      one does not. */
  predicate SatisfiesFilters(p: Post, name: string, description: string, author: string, postType: string, skills: seq<string>)
  {
    && (name != "" ==> ContainsFold(p.name, name))
    && (description != "" ==> ContainsFold(p.description, description))
    && (author != "" ==> Atoi(author) == Some(p.authorId))
    && (postType != "" ==> p.postType == postType)
    && (|skills| > 0 ==> forall s | s in skills :: s in p.skills)
  }

  /** The clauses the search adds, in the order it adds them. */
  function SearchConditions(name: string, description: string, author: string, postType: string, skills: seq<string>): (conds: seq<Condition>)
    ensures |conds| <= 5
    ensures forall c | c in conds :: match c
      case NameLike(x) => x == name != ""
      case DescriptionLike(x) => x == description != ""
      case AuthorIs(x) => x == author != ""
      case TypeIs(x) => x == postType != ""
      case SkillsContain(x) => x == skills && |skills| > 0
  {
    (if name != "" then [NameLike(name)] else [])
    + (if description != "" then [DescriptionLike(description)] else [])
    + (if author != "" then [AuthorIs(author)] else [])
    + (if postType != "" then [TypeIs(postType)] else [])
    + (if |skills| > 0 then [SkillsContain(skills)] else [])
  }

  /** The clauses mean the filters: a post satisfies all of them exactly when it
      satisfies every non-empty filter, and one of them is unreadable exactly when the
      author text is non-empty and not a 64-bit integer. */
  lemma SearchConditionsMeanFilters(name: string, description: string, author: string, postType: string, skills: seq<string>)
    ensures var conds := SearchConditions(name, description, author, postType, skills);
      && (forall p :: AllHold(conds, p) <==> SatisfiesFilters(p, name, description, author, postType, skills))
      && ((exists c | c in conds :: BadAuthor(c)) <==> author != "" && Atoi(author).None?)
  {
    var conds := SearchConditions(name, description, author, postType, skills);
    assert name != "" ==> NameLike(name) in conds;
    assert description != "" ==> DescriptionLike(description) in conds;
    assert author != "" ==> AuthorIs(author) in conds;
    assert postType != "" ==> TypeIs(postType) in conds;
    assert |skills| > 0 ==> SkillsContain(skills) in conds;
    forall p ensures AllHold(conds, p) <==> SatisfiesFilters(p, name, description, author, postType, skills) {
      if SatisfiesFilters(p, name, description, author, postType, skills) {
        forall c | c in conds ensures Holds(c, p) {
        }
      }
    }
  }

  /** OFFSET offset LIMIT limit. */
  function Window(rows: seq<Post>, offset: nat, limit: nat): (r: seq<Post>)
    ensures |r| <= limit
    ensures offset >= |rows| ==> r == []
    ensures offset < |rows| ==> |r| == (if offset + limit <= |rows| then limit else |rows| - offset)
    ensures forall k | 0 <= k < |r| :: offset + k < |rows| && r[k] == rows[offset + k]
  {
    var start := if offset <= |rows| then offset else |rows|;
    var end := if offset + limit <= |rows| then offset + limit else |rows|;
    rows[start..end]
  }

  /** The first n pages of the rows, one after the other. */
  function Pages(rows: seq<Post>, pageSize: nat, n: nat): seq<Post>
  {
    if n == 0 then [] else Pages(rows, pageSize, n - 1) + Window(rows, (n - 1) * pageSize, pageSize)
  }

  lemma {:induction false} PagesArePrefix(rows: seq<Post>, pageSize: nat, n: nat)
    requires pageSize > 0
    ensures Pages(rows, pageSize, n) == rows[..if n * pageSize <= |rows| then n * pageSize else |rows|]
  {
    if n > 0 {
      PagesArePrefix(rows, pageSize, n - 1);
      var before := if (n - 1) * pageSize <= |rows| then (n - 1) * pageSize else |rows|;
      var after := if n * pageSize <= |rows| then n * pageSize else |rows|;
      var w := Window(rows, (n - 1) * pageSize, pageSize);
      assert w == rows[before..after];
      assert rows[..before] + rows[before..after] == rows[..after];
    }
  }

  /** Reading the pages 1 .. lastPage of the metadata, in order, gives back every
      matching row exactly once; the page after the last is empty. */
  lemma PagesCoverRows(rows: seq<Post>, pageSize: int)
    requires pageSize > 0
    requires |rows| > 0
    ensures var last := CalculateMetadata(|rows|, 1, pageSize).lastPage;
      && last >= 1
      && Pages(rows, pageSize, last) == rows
      && Window(rows, last * pageSize, pageSize) == []
  {
    var last := CalculateMetadata(|rows|, 1, pageSize).lastPage;
    PagesArePrefix(rows, pageSize, last);
    assert rows[..|rows|] == rows;
  }

  /** The permutations: what a sort may do to the rows. */
  ghost predicate Permutes(sortRows: seq<Post> -> seq<Post>)
  {
    forall s {:trigger sortRows(s)} :: multiset(sortRows(s)) == multiset(s)
  }

  /** The rows before paging: the order of the sort when it applies, and otherwise the
      one row order the model gives the table (the query itself has no ORDER BY). */
  function Ordered(rows: seq<Post>, filters: Filters, sortRows: seq<Post> -> seq<Post>): (r: seq<Post>)
    requires Permutes(sortRows)
    ensures multiset(r) == multiset(rows)
    ensures !SortApplies(filters) ==> r == rows
  {
    if SortApplies(filters) then sortRows(rows) else rows
  }

  /** The first unreadable author text among the clauses: the error PostgreSQL raises
      when it evaluates them. */
  function FirstBadAuthor(conds: seq<Condition>): (r: Option<string>)
    ensures r.None? <==> forall c | c in conds :: !BadAuthor(c)
    ensures r.Some? ==> AuthorIs(r.value) in conds && Atoi(r.value).None?
  {
    if conds == [] then None
    else if BadAuthor(conds[0]) then Some(conds[0].author)
    else FirstBadAuthor(conds[1..])
  }

  /** The database raises the cast error exactly for a non-empty author text that is not
      a 64-bit integer, and reports that text. */
  lemma SearchConditionsBadAuthor(name: string, description: string, author: string, postType: string, skills: seq<string>)
    ensures FirstBadAuthor(SearchConditions(name, description, author, postType, skills))
         == if author != "" && Atoi(author).None? then Some(author) else None
  {
    SearchConditionsMeanFilters(name, description, author, postType, skills);
  }

  /** The stored posts that satisfy the filters, in storage order: the reference the
      search is checked against. */
  function Matching(posts: seq<Post>, name: string, description: string, author: string, postType: string, skills: seq<string>): (r: seq<Post>)
    ensures |r| <= |posts|
  {
    if posts == [] then []
    else
      var rest := Matching(posts[1..], name, description, author, postType, skills);
      if SatisfiesFilters(posts[0], name, description, author, postType, skills) then [posts[0]] + rest else rest
  }

  /** The reference keeps exactly the stored posts that satisfy the filters. */
  lemma {:induction false} MatchingMembers(posts: seq<Post>, name: string, description: string, author: string, postType: string, skills: seq<string>)
    ensures forall p :: p in Matching(posts, name, description, author, postType, skills)
                    <==> p in posts && SatisfiesFilters(p, name, description, author, postType, skills)
  {
    if posts != [] {
      MatchingMembers(posts[1..], name, description, author, postType, skills);
      assert posts == [posts[0]] + posts[1..];
    }
  }

  /** The database's answer to the built clauses is the reference answer, row for row
      and in the same order. */
  lemma {:induction false} SelectIsMatching(posts: seq<Post>, name: string, description: string, author: string, postType: string, skills: seq<string>)
    ensures Select(posts, SearchConditions(name, description, author, postType, skills))
         == Matching(posts, name, description, author, postType, skills)
  {
    SearchConditionsMeanFilters(name, description, author, postType, skills);
    if posts != [] {
      SelectIsMatching(posts[1..], name, description, author, postType, skills);
    }
  }

  /** One page of search results and the metadata of the whole result. */
  datatype SearchPage = SearchPage(posts: seq<Post>, metadata: Metadata)

  /** What GetFilteredPosts returns for the stored posts. Paging assumes the validated
      filters (page and page size at least 1); `sortRows` is the ORDER BY of the safelisted
      key. */
  function SearchResult(posts: seq<Post>, name: string, description: string, author: string, postType: string,
                        skills: seq<string>, filters: Filters, sortRows: seq<Post> -> seq<Post>): (r: Result<SearchPage>)
    requires filters.page >= 1 && filters.pageSize >= 1
    requires Permutes(sortRows)
    ensures r.Err? <==> author != "" && Atoi(author).None?
    ensures r.Err? ==> r.error == InvalidBigint(author)
  {
    if author != "" && Atoi(author).None? then Err(InvalidBigint(author))
    else
      var matching := Matching(posts, name, description, author, postType, skills);
      var ordered := Ordered(matching, filters, sortRows);
      var page := Window(ordered, Offset(filters), filters.pageSize);
      Ok(SearchPage(page, CalculateMetadata(|matching|, filters.page, filters.pageSize)))
  }

  /** A successful search returns at most one page of stored posts that satisfy the
      filters, counts every match in the metadata, reports no metadata exactly when nothing
      matches, and without a sort returns the matches in storage order. */
  lemma SearchResultMeaning(posts: seq<Post>, name: string, description: string, author: string, postType: string,
                            skills: seq<string>, filters: Filters, sortRows: seq<Post> -> seq<Post>)
    requires filters.page >= 1 && filters.pageSize >= 1
    requires Permutes(sortRows)
    ensures var r := SearchResult(posts, name, description, author, postType, skills, filters, sortRows);
      r.Ok? ==>
      var matching := Matching(posts, name, description, author, postType, skills);
      && |r.value.posts| <= filters.pageSize
      && (forall p | p in r.value.posts :: p in posts && SatisfiesFilters(p, name, description, author, postType, skills))
      && (r.value.metadata == NoMetadata <==> matching == [])
      && (matching != [] ==> r.value.metadata.totalRecords == |matching| && r.value.metadata.currentPage == filters.page)
      && (!SortApplies(filters) ==> r.value.posts == Window(matching, Offset(filters), filters.pageSize))
      && (SortApplies(filters) ==> r.value.posts == Window(sortRows(matching), Offset(filters), filters.pageSize))
  {
    var r := SearchResult(posts, name, description, author, postType, skills, filters, sortRows);
    if r.Ok? {
      var matching := Matching(posts, name, description, author, postType, skills);
      var ordered := Ordered(matching, filters, sortRows);
      MatchingMembers(posts, name, description, author, postType, skills);
      forall p | p in r.value.posts ensures p in posts && SatisfiesFilters(p, name, description, author, postType, skills) {
        assert p in multiset(ordered);
      }
    }
  }
}
