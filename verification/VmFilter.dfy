/** Compiling a VM filter into a parameterised query, and what its pages add up to. */
module VmFilter {
  import opened Common
  import opened Lists
  import opened NameSearch

  datatype Filter = Filter(
    organization: string, project: string, node: string, status: string, search: string,
    page: int, perPage: int)

  datatype Row = Row(
    id: string, name: string, organization: string, project: Option<string>, node: Option<string>,
    status: string, createdAt: int)

  datatype Column = Organization | Project | NodeId | Status | Name

  /** Conditions refer to an argument by the number of its placeholder, counted from 1. */
  datatype Clause =
    | Always
    | Equals(column: Column, placeholder: nat)
    | Ilike(column: Column, placeholder: nat)

  datatype Arg = Text(text: string) | Number(number: int)

  /** The count query runs with `countArgs`, the list query with `args`. */
  datatype Query = Query(where: seq<Clause>, countArgs: seq<Arg>, args: seq<Arg>, limit: nat, offset: nat)

  // ---------------------------------------------------------------- what a query means

  /** NULL is None. */
  function Value(row: Row, c: Column): Option<string> {
    match c
    case Organization => Some(row.organization)
    case Project => row.project
    case NodeId => row.node
    case Status => Some(row.status)
    case Name => Some(row.name)
  }

  function TextAt(args: seq<Arg>, k: nat): Option<string> {
    if 1 <= k <= |args| && args[k - 1].Text? then Some(args[k - 1].text) else None
  }

  /** A comparison with NULL is not true, and selects nothing. */
  predicate Holds(c: Clause, args: seq<Arg>, row: Row, fold: Fold) {
    match c
    case Always => true
    case Equals(col, k) => TextAt(args, k).Some? && Value(row, col) == TextAt(args, k)
    case Ilike(col, k) =>
      && TextAt(args, k).Some? && Value(row, col).Some?
      && Like(TextAt(args, k).value, Value(row, col).value, fold)
  }

  predicate AllHold(where: seq<Clause>, args: seq<Arg>, row: Row, fold: Fold) {
    forall i :: 0 <= i < |where| ==> Holds(where[i], args, row, fold)
  }

  /** What a filter asks for: every non-empty field. */
  predicate Matches(f: Filter, row: Row, fold: Fold) {
    && (f.organization != "" ==> row.organization == f.organization)
    && (f.project != "" ==> row.project == Some(f.project))
    && (f.node != "" ==> row.node == Some(f.node))
    && (f.status != "" ==> row.status == f.status)
    && (f.search != "" ==> Like(Pattern(f.search), row.name, fold))
  }

  // ---------------------------------------------------------------- placeholders

  function Placeholder(c: Clause): seq<nat> {
    if c.Always? then [] else [c.placeholder]
  }

  function Placeholders(where: seq<Clause>): seq<nat> {
    if where == [] then [] else Placeholders(where[..|where| - 1]) + Placeholder(where[|where| - 1])
  }

  /** Read from left to right the placeholders are 1, 2, ..., n. */
  ghost predicate Numbered(ps: seq<nat>, n: nat) {
    |ps| == n && forall i :: 0 <= i < n ==> ps[i] == i + 1
  }

  ghost predicate Bound(where: seq<Clause>, args: seq<Arg>) {
    Numbered(Placeholders(where), |args|)
  }

  lemma PlaceholdersSnoc(where: seq<Clause>, c: Clause)
    ensures Placeholders(where + [c]) == Placeholders(where) + Placeholder(c)
  {
    assert (where + [c])[..|where|] == where;
  }

  lemma {:induction false} PlaceholderListed(where: seq<Clause>, i: nat)
    requires i < |where| && !where[i].Always?
    ensures where[i].placeholder in Placeholders(where)
  {
    if i < |where| - 1 {
      PlaceholderListed(where[..|where| - 1], i);
    }
  }

  /** Arguments added at the end do not change what the clauses before say. */
  lemma LaterArgsIgnored(where: seq<Clause>, args: seq<Arg>, more: seq<Arg>, row: Row, fold: Fold)
    requires Bound(where, args)
    ensures AllHold(where, args + more, row, fold) <==> AllHold(where, args, row, fold)
  {
    forall i | 0 <= i < |where|
      ensures Holds(where[i], args + more, row, fold) <==> Holds(where[i], args, row, fold)
    {
      if !where[i].Always? {
        PlaceholderListed(where, i);
        assert 1 <= where[i].placeholder <= |args|;
      }
    }
  }

  lemma OneMore(where: seq<Clause>, args: seq<Arg>, c: Clause, arg: Arg, row: Row, fold: Fold)
    requires Bound(where, args) && !c.Always? && c.placeholder == |args| + 1
    ensures AllHold(where + [c], args + [arg], row, fold) <==>
        AllHold(where, args, row, fold) && Holds(c, args + [arg], row, fold)
  {
    LaterArgsIgnored(where, args, [arg], row, fold);
    var longer := where + [c];
    assert longer[|where|] == c;
    assert forall i :: 0 <= i < |where| ==> longer[i] == where[i];
  }

  // ---------------------------------------------------------------- compiling

  datatype Draft = Draft(where: seq<Clause>, args: seq<Arg>, argIdx: nat)

  ghost predicate WellFormed(d: Draft) {
    d.argIdx == |d.args| + 1 && Bound(d.where, d.args)
  }

  /** `d` selects what `before` selects and, if `asked`, only rows whose column is `text`. */
  ghost predicate Narrows(d: Draft, before: Draft, column: Column, text: string, fold: Fold) {
    forall row :: AllHold(d.where, d.args, row, fold) <==>
      AllHold(before.where, before.args, row, fold) && (text != "" ==> Value(row, column) == Some(text))
  }

  method AddEquals(before: Draft, column: Column, text: string, ghost fold: Fold) returns (d: Draft)
    requires WellFormed(before)
    ensures WellFormed(d) && Narrows(d, before, column, text, fold)
  {
    d := before;
    if text != "" {
      var clause := Equals(column, d.argIdx);
      d := Draft(d.where + [clause], d.args + [Text(text)], d.argIdx + 1);
      PlaceholdersSnoc(before.where, clause);
      forall row
        ensures AllHold(d.where, d.args, row, fold) <==>
                AllHold(before.where, before.args, row, fold) && Value(row, column) == Some(text)
      {
        OneMore(before.where, before.args, clause, Text(text), row, fold);
      }
    }
  }

  method AddSearch(before: Draft, search: string, ghost fold: Fold) returns (d: Draft)
    requires WellFormed(before)
    ensures WellFormed(d)
    ensures forall row :: AllHold(d.where, d.args, row, fold) <==>
      AllHold(before.where, before.args, row, fold) && (search != "" ==> Like(Pattern(search), row.name, fold))
  {
    d := before;
    if search != "" {
      var clause := Ilike(Name, d.argIdx);
      var arg := Text("%" + search + "%");
      d := Draft(d.where + [clause], d.args + [arg], d.argIdx + 1);
      PlaceholdersSnoc(before.where, clause);
      forall row
        ensures AllHold(d.where, d.args, row, fold) <==>
                AllHold(before.where, before.args, row, fold) && Like(Pattern(search), row.name, fold)
      {
        OneMore(before.where, before.args, clause, arg, row, fold);
      }
    }
  }

  method CompileWhere(f: Filter, ghost fold: Fold) returns (d: Draft)
    ensures WellFormed(d)
    ensures forall row :: AllHold(d.where, d.args, row, fold) <==> Matches(f, row, fold)
  {
    d := Draft([Always], [], 1);
    assert Placeholders([Always]) == [];
    d := AddEquals(d, Organization, f.organization, fold);
    d := AddEquals(d, Project, f.project, fold);
    d := AddEquals(d, NodeId, f.node, fold);
    d := AddEquals(d, Status, f.status, fold);
    d := AddSearch(d, f.search, fold);
  }

  function PageOf(f: Filter): (r: nat)
    ensures f.page >= 1 ==> r == f.page
    ensures f.page < 1 ==> r == 1
  {
    if f.page < 1 then 1 else f.page
  }

  function PerPageOf(f: Filter): (r: nat)
    ensures f.perPage >= 1 ==> r == f.perPage
    ensures f.perPage < 1 ==> r == 20
  {
    if f.perPage < 1 then 20 else f.perPage
  }

  function NumberAt(args: seq<Arg>, k: nat): Option<int> {
    if 1 <= k <= |args| && args[k - 1].Number? then Some(args[k - 1].number) else None
  }

  /**
    The query answers the filter: both statements select the matching rows, every placeholder of
    each is bound to the argument in its place, and LIMIT and OFFSET cut out the asked page.
    */
  ghost predicate Compiles(f: Filter, q: Query, fold: Fold) {
    && (forall row :: AllHold(q.where, q.countArgs, row, fold) <==> Matches(f, row, fold))
    && (forall row :: AllHold(q.where, q.args, row, fold) <==> Matches(f, row, fold))
    && Numbered(Placeholders(q.where), |q.countArgs|)
    && Numbered(Placeholders(q.where) + [q.limit, q.offset], |q.args|)
    && NumberAt(q.args, q.limit) == Some(PerPageOf(f))
    && NumberAt(q.args, q.offset) == Some(Boundary(PageOf(f) - 1, PerPageOf(f)))
  }

  method List(f: Filter, ghost fold: Fold) returns (q: Query)
    ensures Compiles(f, q, fold)
  {
    var d := CompileWhere(f, fold);
    var page := f.page;
    if page < 1 {
      page := 1;
    }
    var perPage := f.perPage;
    if perPage < 1 {
      perPage := 20;
    }
    var offset := (page - 1) * perPage;
    BoundaryIsProduct(page - 1, perPage);
    var args := d.args + [Number(perPage), Number(offset)];
    q := Query(d.where, d.args, args, d.argIdx, d.argIdx + 1);
    forall row
      ensures AllHold(q.where, q.args, row, fold) <==> Matches(f, row, fold)
    {
      LaterArgsIgnored(d.where, d.args, [Number(perPage), Number(offset)], row, fold);
    }
  }

  // ---------------------------------------------------------------- answers

  function Newest(r: Row): int {
    -r.createdAt
  }

  function Selecting(where: seq<Clause>, args: seq<Arg>, fold: Fold): Row -> bool {
    (row: Row) => AllHold(where, args, row, fold)
  }

  function Matching(f: Filter, fold: Fold): Row -> bool {
    (row: Row) => Matches(f, row, fold)
  }

  /** LIMIT and OFFSET of the query, applied to `rows`. */
  function Cut(q: Query, rows: seq<Row>): seq<Row> {
    var limit, offset := NumberAt(q.args, q.limit), NumberAt(q.args, q.offset);
    if limit.Some? && limit.value >= 0 && offset.Some? && offset.value >= 0 then Slice(rows, offset.value, limit.value)
    else []
  }

  /** The list query over a table that is read in the order `rows`. */
  function Fetch(q: Query, rows: seq<Row>, fold: Fold): seq<Row> {
    Cut(q, Lists.Filter(rows, Selecting(q.where, q.args, fold)))
  }

  function Count(q: Query, rows: seq<Row>, fold: Fold): nat {
    |Lists.Filter(rows, Selecting(q.where, q.countArgs, fold))|
  }

  lemma {:induction false} SameFilter(rows: seq<Row>, p: Row -> bool, q: Row -> bool)
    requires forall r :: p(r) <==> q(r)
    ensures Lists.Filter(rows, p) == Lists.Filter(rows, q)
  {
    if rows != [] {
      SameFilter(rows[1..], p, q);
    }
  }

  lemma FetchIsPage(f: Filter, q: Query, rows: seq<Row>, fold: Fold)
    requires Compiles(f, q, fold)
    ensures Fetch(q, rows, fold) == Page(Lists.Filter(rows, Matching(f, fold)), PageOf(f), PerPageOf(f))
    ensures Count(q, rows, fold) == |Lists.Filter(rows, Matching(f, fold))|
  {
    SameFilter(rows, Selecting(q.where, q.args, fold), Matching(f, fold));
    SameFilter(rows, Selecting(q.where, q.countArgs, fold), Matching(f, fold));
  }

  /** Query k asks for page k of the same filter. */
  ghost predicate Paging(f: Filter, queries: nat -> Query, fold: Fold) {
    forall k :: k >= 1 ==> Compiles(f.(page := k), queries(k), fold)
  }

  /** Over a fixed order, the pages concatenate to all the matching rows in that order. */
  lemma PagesAreTheMatches(f: Filter, queries: nat -> Query, rows: seq<Row>, n: nat, fold: Fold)
    requires Paging(f, queries, fold)
    requires n * PerPageOf(f) >= Count(queries(1), rows, fold)
    ensures
      var pages := (k: nat) => Fetch(queries(k), rows, fold);
      Concat(pages, n) == Lists.Filter(rows, Matching(f, fold))
  {
    var pages := (k: nat) => Fetch(queries(k), rows, fold);
    var matches := Lists.Filter(rows, Matching(f, fold));
    forall k: nat | k >= 1
      ensures pages(k) == Page(matches, k, PerPageOf(f))
      ensures Count(queries(k), rows, fold) == |matches|
    {
      FetchIsPage(f.(page := k), queries(k), rows, fold);
      SameFilter(rows, Matching(f.(page := k), fold), Matching(f, fold));
    }
    BoundaryIsProduct(n, PerPageOf(f));
    PagesConcatenate(pages, matches, n, PerPageOf(f));
  }

  // ---------------------------------------------------------------- when creation times repeat

  /** A possible answer: ORDER BY created_at DESC leaves the order of ties open, anew for every query. */
  ghost predicate Answers(q: Query, table: seq<Row>, fold: Fold, out: seq<Row>) {
    exists a :: Reordered(a, Lists.Filter(table, Selecting(q.where, q.args, fold)), Newest) && out == Cut(q, a)
  }

  /** `s` is a full listing of the matches, newest first. */
  ghost predicate FullListing(f: Filter, table: seq<Row>, fold: Fold, s: seq<Row>) {
    multiset(s) == multiset(Lists.Filter(table, Matching(f, fold))) && NewestFirst(s)
  }

  ghost predicate NewestFirst(s: seq<Row>) {
    forall i, j :: 0 <= i < j < |s| ==> s[i].createdAt >= s[j].createdAt
  }

  lemma NewestFirstIffSorted(s: seq<Row>)
    ensures NewestFirst(s) <==> Sorted(s, Newest)
  {
    if NewestFirst(s) {
      forall i, j | 0 <= i < j < |s|
        ensures Newest(s[i]) <= Newest(s[j])
      {
      }
    }
    if Sorted(s, Newest) {
      forall i, j | 0 <= i < j < |s|
        ensures s[i].createdAt >= s[j].createdAt
      {
        assert Newest(s[i]) <= Newest(s[j]);
      }
    }
  }

  lemma AnswersIffPageOfSome(f: Filter, q: Query, table: seq<Row>, fold: Fold, s: seq<Row>, out: seq<Row>)
    requires Compiles(f, q, fold) && FullListing(f, table, fold, s)
    ensures Answers(q, table, fold, out) <==> PageOfSome(out, s, Newest, PageOf(f), PerPageOf(f))
  {
    SameFilter(table, Selecting(q.where, q.args, fold), Matching(f, fold));
    NewestFirstIffSorted(s);
    forall a
      ensures Reordered(a, Lists.Filter(table, Matching(f, fold)), Newest) <==> Reordered(a, s, Newest)
      ensures Cut(q, a) == Page(a, PageOf(f), PerPageOf(f))
    {
    }
  }

  ghost predicate AllAnswer(queries: nat -> Query, table: seq<Row>, fold: Fold, pages: nat -> seq<Row>) {
    forall k :: k >= 1 ==> Answers(queries(k), table, fold, pages(k))
  }

  lemma AllAnswerIff(f: Filter, queries: nat -> Query, table: seq<Row>, fold: Fold, s: seq<Row>, pages: nat -> seq<Row>)
    requires Paging(f, queries, fold) && FullListing(f, table, fold, s)
    ensures AllAnswer(queries, table, fold, pages) <==> PagesOfSome(pages, s, Newest, PerPageOf(f))
  {
    forall k: nat | k >= 1
      ensures Answers(queries(k), table, fold, pages(k)) <==> PageOfSome(pages(k), s, Newest, k, PerPageOf(f))
    {
      var g := f.(page := k);
      SameFilter(table, Matching(g, fold), Matching(f, fold));
      AnswersIffPageOfSome(g, queries(k), table, fold, s, pages(k));
    }
  }

  /**
    Fetched page by page, the matching VMs come out each once and newest first, however the database
    breaks ties, exactly when no page boundary separates two with the same creation time.
    */
  lemma PagesListAllIff(f: Filter, queries: nat -> Query, table: seq<Row>, fold: Fold, s: seq<Row>, n: nat)
    requires Paging(f, queries, fold) && FullListing(f, table, fold, s)
    requires DistinctElements(table) && n * PerPageOf(f) >= |s|
    ensures (forall pages ::
               AllAnswer(queries, table, fold, pages) ==> FullListing(f, table, fold, Concat(pages, n))) <==>
            !TieAcrossPages(s, Newest, PerPageOf(f))
  {
    forall t
      ensures FullListing(f, table, fold, t) <==> Reordered(t, s, Newest)
    {
      NewestFirstIffSorted(t);
      NewestFirstIffSorted(s);
    }
    FilterKeepsDistinct(table, Matching(f, fold));
    ReorderedDistinct(Lists.Filter(table, Matching(f, fold)), s);
    BoundaryIsProduct(n, PerPageOf(f));
    PagesMakeAnOrderIff(s, Newest, n, PerPageOf(f));
    forall pages: nat -> seq<Row>
      ensures AllAnswer(queries, table, fold, pages) <==> PagesOfSome(pages, s, Newest, PerPageOf(f))
    {
      AllAnswerIff(f, queries, table, fold, s, pages);
    }
  }
}
