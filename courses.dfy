/**
 * GET /api/courses: the published-course listing statement with its optional
 * category and search filters and its LIMIT/OFFSET. POST /api/courses: create
 * a course.
 */
module CoursesRoute {
  import opened Wrappers
  import opened Tables
  import opened Query

  const DEFAULT_LIMIT := 20
  const DEFAULT_OFFSET := 0

  /** The SQL text pieces of the listing statement. */
  datatype Fragment =
    | SelectPublished   // published courses with category, enrollment and lesson counts
    | CategoryIs        // AND category name equals the next placeholder
    | TitleLike         // AND (lower-cased title LIKE the placeholder
    | DescriptionLike   // OR lower-cased description LIKE the same placeholder
    | CloseLike         // closing parentheses of the search condition
    | GroupOrderLimit   // GROUP BY course, newest first, LIMIT
    | Offset            // OFFSET

  const SELECT_PUBLISHED: Token<Fragment> := Sql(SelectPublished)
  const CATEGORY_FILTER: Token<Fragment> := Sql(CategoryIs)
  const TITLE_LIKE: Token<Fragment> := Sql(TitleLike)
  const DESCRIPTION_LIKE: Token<Fragment> := Sql(DescriptionLike)
  const CLOSE_LIKE: Token<Fragment> := Sql(CloseLike)
  const GROUP_ORDER_LIMIT: Token<Fragment> := Sql(GroupOrderLimit)
  const OFFSET: Token<Fragment> := Sql(Offset)

  /**
   * `parseInt(value) || default`: None stands for an absent or unparsable value
   * (NaN); 0 also falls back to the default.
   */
  function ParsedOr(value: Option<int>, default: int): (r: int)
    ensures value.None? || value == Some(0) ==> r == default
    ensures value.Some? && value.value != 0 ==> r == value.value
  {
    if value.Some? && value.value != 0 then value.value else default
  }

  /** A query-string filter is applied when present and non-empty. */
  predicate Present(s: Option<string>) {
    s.Some? && s.value != ""
  }

  /** The search parameter: the term wrapped in % on both sides. */
  function SearchPattern(term: string): (p: string)
    ensures |p| == |term| + 2 && p[0] == '%' && p[|p| - 1] == '%' && p[1..|p| - 1] == term
  {
    "%" + term + "%"
  }

  /** The filter clauses, in the order the route appends them; the search clause uses one index twice. */
  function Filters(category: Option<string>, search: Option<string>): (r: seq<Token<Fragment>>)
    ensures Present(category) <==> CATEGORY_FILTER in r
    ensures Present(search) <==> TITLE_LIKE in r
    ensures |r| == (if Present(category) then 2 else 0) + (if Present(search) then 5 else 0)
  {
    (if Present(category) then [CATEGORY_FILTER, Placeholder(1)] else [])
    + (var k := if Present(category) then 2 else 1;
       if Present(search) then [TITLE_LIKE, Placeholder(k), DESCRIPTION_LIKE, Placeholder(k), CLOSE_LIKE] else [])
  }

  /**
   * The first half of the listing statement: the SELECT and the filters, with
   * one parameter per present filter, numbered from $1.
   */
  method FilteredSelect(category: Option<string>, search: Option<string>)
    returns (query: seq<Token<Fragment>>, params: seq<Value>)
    ensures Binds(query, params)
    ensures params ==
      (if Present(category) then [Text(category.value)] else [])
      + (if Present(search) then [Text(SearchPattern(search.value))] else [])
    ensures query == [SELECT_PUBLISHED] + Filters(category, search)
  {
    query := [SELECT_PUBLISHED];
    params := [];
    var paramIndex := 1;
    BindNone(query);

    if Present(category) {
      var clause := [CATEGORY_FILTER, Placeholder(paramIndex)];
      BindNext(query, params, clause, Text(category.value));
      query := query + clause;
      params := params + [Text(category.value)];
      paramIndex := paramIndex + 1;
    }

    if Present(search) {
      var clause := [TITLE_LIKE, Placeholder(paramIndex), DESCRIPTION_LIKE, Placeholder(paramIndex), CLOSE_LIKE];
      BindNext(query, params, clause, Text(SearchPattern(search.value)));
      query := query + clause;
      params := params + [Text(SearchPattern(search.value))];
      paramIndex := paramIndex + 1;
    }
  }

  /**
   * The listing statement. Each present filter adds one clause and one
   * parameter; placeholders run from $1 to the number of parameters; LIMIT and
   * OFFSET take the last two indices; the statement always ends with the
   * GROUP BY / ORDER BY / LIMIT / OFFSET suffix.
   */
  method CoursesQuery(category: Option<string>, search: Option<string>, limit: Option<int>, offset: Option<int>)
    returns (query: seq<Token<Fragment>>, params: seq<Value>)
    ensures Binds(query, params)
    ensures params ==
      (if Present(category) then [Text(category.value)] else [])
      + (if Present(search) then [Text(SearchPattern(search.value))] else [])
      + [Int(ParsedOr(limit, DEFAULT_LIMIT)), Int(ParsedOr(offset, DEFAULT_OFFSET))]
    ensures query == [SELECT_PUBLISHED] + Filters(category, search)
      + [GROUP_ORDER_LIMIT, Placeholder(|params| - 1), OFFSET, Placeholder(|params|)]
  {
    query, params := FilteredSelect(category, search);
    var paramIndex := |params| + 1;
    var limitValue, offsetValue := Int(ParsedOr(limit, DEFAULT_LIMIT)), Int(ParsedOr(offset, DEFAULT_OFFSET));
    BindNextTwo(query, params, GroupOrderLimit, Offset, limitValue, offsetValue);
    query := query + [GROUP_ORDER_LIMIT, Placeholder(paramIndex), OFFSET, Placeholder(paramIndex + 1)];
    params := params + [limitValue, offsetValue];
  }

  /** The JSON body of a course creation; a missing, null or empty string is not given. */
  datatype CourseRequest = CourseRequest(
    title: Option<string>,
    description: Option<string>,
    instructor: Option<string>,
    categoryId: Option<Id>,
    isPublished: Option<bool>)

  const MISSING_FIELDS := "Title and instructor are required"

  /** POST /api/courses: the new store and the response holding the new course's id and row. */
  function CreateCourse(t: Tables, req: CourseRequest): (r: (Tables, Response<(Id, Course)>))
    ensures r.1.Failure? <==> !Present(req.title) || !Present(req.instructor)
    ensures r.1.Failure? ==> r.0 == t && r.1 == Failure(BAD_REQUEST, MISSING_FIELDS)
    ensures r.1.Success? ==>
      var (id, course) := r.1.data;
      && r.1.status == CREATED
      && id == t.nextCourseId
      && course == Course(req.title.value, req.instructor.value, req.description, req.categoryId,
                          req.isPublished == Some(true))
      && r.0 == t.(courses := t.courses[id := course], nextCourseId := t.nextCourseId + 1)
  {
    if !Present(req.title) || !Present(req.instructor) then
      (t, Failure(BAD_REQUEST, MISSING_FIELDS))
    else
      var course := Course(req.title.value, req.instructor.value, req.description, req.categoryId,
                           req.isPublished.GetOr(false));
      var id := t.nextCourseId;
      (t.(courses := t.courses[id := course], nextCourseId := id + 1), Success(CREATED, (id, course)))
  }

  /**
   * Creating a course adds exactly one course, under an id no course had, and
   * keeps the store's rules; the other tables are untouched.
   */
  lemma CreateCourseAddsOne(t: Tables, req: CourseRequest)
    requires t.Valid()
    ensures var (t', resp) := CreateCourse(t, req);
      && t'.Valid()
      && (resp.Success? ==>
            && resp.data.0 !in t.courses
            && t'.courses.Keys == t.courses.Keys + {resp.data.0}
            && |t'.courses| == |t.courses| + 1
            && t'.enrollments == t.enrollments && t'.progress == t.progress
            && t'.certificates == t.certificates && t'.lessons == t.lessons)
  {
    var (t', resp) := CreateCourse(t, req);
    if resp.Success? {
      var id := resp.data.0;
      assert id !in t.courses;
      assert t'.courses.Keys == t.courses.Keys + {id};
      assert forall k :: k in t'.courses ==> 0 <= k < t'.nextCourseId;
    }
  }

  /** POST /api/courses against the live store. */
  method PostCourse(db: Database, req: CourseRequest) returns (resp: Response<(Id, Course)>)
    modifies db
    ensures (db.Snapshot(), resp) == CreateCourse(old(db.Snapshot()), req)
  {
    if !Present(req.title) || !Present(req.instructor) {
      return Failure(BAD_REQUEST, MISSING_FIELDS);
    }
    var course := Course(req.title.value, req.instructor.value, req.description, req.categoryId,
                         req.isPublished.GetOr(false));
    var id := db.nextCourseId;
    db.courses := db.courses[id := course];
    db.nextCourseId := id + 1;
    resp := Success(CREATED, (id, course));
  }
}
