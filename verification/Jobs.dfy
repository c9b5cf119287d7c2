/** The in-memory job store of the scheduler and its paged listing. */
module Jobs {
  import opened Common
  import opened Lists

  datatype Constraints = Constraints(
    preferredNode: string,
    requiredLabels: seq<string>,
    preferredLabels: seq<string>,
    avoidLabels: seq<string>,
    requireGpu: bool)

  datatype Job = Job(vm: string, node: string, priority: int, constraints: Option<Constraints>)

  type Table = map<string, Job>

  /** Every job is filed under its own VM. */
  ghost predicate Filed(jobs: Table) {
    forall vm :: vm in jobs ==> jobs[vm].vm == vm
  }

  predicate Before(a: Job, b: Job) {
    a.priority > b.priority
  }

  function Rank(j: Job): int {
    -j.priority
  }

  /** `s` lists the node's jobs, each once. */
  ghost predicate Collects(jobs: Table, node: string, s: seq<Job>) {
    DistinctElements(s) &&
    forall j :: j in s <==> j.vm in jobs && jobs[j.vm] == j && (node == "" || j.node == node)
  }

  /** A complete listing: the node's jobs, each once, by descending priority. */
  ghost predicate Listing(jobs: Table, node: string, s: seq<Job>) {
    Collects(jobs, node, s) && Descending(s)
  }

  ghost predicate Descending(s: seq<Job>) {
    forall i, j :: 0 <= i < j < |s| ==> s[i].priority >= s[j].priority
  }

  lemma DescendingIffSorted(s: seq<Job>)
    ensures Descending(s) <==> Sorted(s, Rank)
  {
    if Sorted(s, Rank) {
      forall i, j | 0 <= i < j < |s|
        ensures s[i].priority >= s[j].priority
      {
        assert Rank(s[i]) <= Rank(s[j]);
      }
    }
  }

  /** `out` is a page of some complete listing. */
  ghost predicate Shows(jobs: Table, node: string, page: nat, perPage: nat, out: seq<Job>)
    requires page >= 1
  {
    exists s :: Listing(jobs, node, s) && out == Page(s, page, perPage)
  }

  /** The keys in the order in which one `range` over the map meets them. */
  ghost predicate RangeOrder(jobs: Table, order: seq<string>) {
    DistinctElements(order) && forall vm :: vm in order <==> vm in jobs
  }

  class SchedulerRepository {
    var jobs: Table

    ghost predicate Valid()
      reads this
    {
      Filed(jobs)
    }

    constructor ()
      ensures Valid() && jobs == map[]
    {
      jobs := map[];
    }

    method Schedule(job: Job)
      requires Valid()
      modifies this
      ensures Valid() && jobs == old(jobs)[job.vm := job]
    {
      jobs := jobs[job.vm := job];
    }

    method GetByVmId(vm: string) returns (r: Option<Job>)
      requires Valid()
      ensures r.Some? <==> vm in jobs
      ensures r.Some? ==> r.value == jobs[vm] && r.value.vm == vm
    {
      if vm in jobs {
        return Some(jobs[vm]);
      }
      return None;
    }

    method Delete(vm: string) returns (found: bool)
      requires Valid()
      modifies this
      ensures Valid() && found == (vm in old(jobs))
      ensures jobs == old(jobs) - {vm}
    {
      if vm !in jobs {
        return false;
      }
      jobs := jobs - {vm};
      return true;
    }

    /** The loop over the map in List. */
    method Collect(node: string, order: seq<string>) returns (filtered: seq<Job>)
      requires Valid() && RangeOrder(jobs, order)
      ensures Collects(jobs, node, filtered)
    {
      filtered := [];
      for i := 0 to |order|
        invariant forall j :: j in filtered ==>
            j.vm in order[..i] && j.vm in jobs && jobs[j.vm] == j && (node == "" || j.node == node)
        invariant forall k :: 0 <= k < i && (node == "" || jobs[order[k]].node == node) ==> jobs[order[k]] in filtered
        invariant DistinctElements(filtered)
      {
        var job := jobs[order[i]];
        assert order[i] !in order[..i];
        if node == "" || job.node == node {
          filtered := filtered + [job];
        }
      }
    }

    /** A page below 1 would slice from a negative start and panic; the handler never sends one. */
    method List(node: string, page: nat, perPage: nat, order: seq<string>, sort: seq<Job> -> seq<Job>)
      returns (out: seq<Job>, total: nat)
      requires Valid() && page >= 1
      requires RangeOrder(jobs, order) && Sorts(sort, Before)
      ensures Shows(jobs, node, page, perPage, out)
      ensures forall s :: Collects(jobs, node, s) ==> total == |s|
    {
      var filtered := Collect(node, order);
      var sorted := sort(filtered);
      SortingLists(jobs, node, filtered, sorted);
      CollectsSameLength(jobs, node, sorted);
      total := |sorted|;
      var start := (page - 1) * perPage;
      BoundaryIsProduct(page - 1, perPage);
      if start >= total {
        return [], total;
      }
      var end := start + perPage;
      if end > total {
        end := total;
      }
      return sorted[start..end], total;
    }
  }

  lemma SortingLists(jobs: Table, node: string, filtered: seq<Job>, sorted: seq<Job>)
    requires Collects(jobs, node, filtered) && multiset(sorted) == multiset(filtered) && SortedBy(sorted, Before)
    ensures Listing(jobs, node, sorted)
  {
    ReorderedDistinct(filtered, sorted);
    forall j
      ensures j in sorted <==> j in filtered
    {
      SameElementsSameMembers(filtered, sorted, j);
    }
    forall i, j | 0 <= i < j < |sorted|
      ensures sorted[i].priority >= sorted[j].priority
    {
      assert !Before(sorted[j], sorted[i]);
    }
  }

  lemma CollectsSameLength(jobs: Table, node: string, t: seq<Job>)
    requires Collects(jobs, node, t)
    ensures forall s :: Collects(jobs, node, s) ==> multiset(s) == multiset(t) && |s| == |t|
  {
    forall s | Collects(jobs, node, s)
      ensures multiset(s) == multiset(t) && |s| == |t|
    {
      DistinctSameElements(s, t);
      assert |s| == |multiset(s)| == |multiset(t)| == |t|;
    }
  }

  /** Any two complete listings are sorted reorderings of each other. */
  lemma ListingIffReordered(jobs: Table, node: string, s: seq<Job>, t: seq<Job>)
    requires Listing(jobs, node, s)
    ensures Listing(jobs, node, t) <==> Reordered(t, s, Rank)
  {
    DescendingIffSorted(t);
    if Listing(jobs, node, t) {
      DistinctSameElements(t, s);
    }
    if Reordered(t, s, Rank) {
      ReorderedDistinct(s, t);
      forall j
        ensures j in t <==> j in s
      {
        SameElementsSameMembers(t, s, j);
      }
    }
  }

  lemma ShowsIffPageOfSome(jobs: Table, node: string, s: seq<Job>, page: nat, perPage: nat, out: seq<Job>)
    requires Listing(jobs, node, s) && page >= 1
    ensures Shows(jobs, node, page, perPage, out) <==> PageOfSome(out, s, Rank, page, perPage)
  {
    forall t
      ensures Listing(jobs, node, t) <==> Reordered(t, s, Rank)
    {
      ListingIffReordered(jobs, node, s, t);
    }
  }

  /** Page k of the answers `pages` came from request k. */
  ghost predicate Answers(jobs: Table, node: string, perPage: nat, pages: nat -> seq<Job>) {
    forall k :: k >= 1 ==> Shows(jobs, node, k, perPage, pages(k))
  }

  /**
    Fetched page by page, with a new map iteration order for every request, the jobs come out each
    once and by descending priority exactly when no page boundary separates equal priorities.
    */
  lemma PagesPartitionIff(jobs: Table, node: string, s: seq<Job>, n: nat, perPage: nat)
    requires Listing(jobs, node, s) && perPage > 0 && n * perPage >= |s|
    ensures (forall pages :: Answers(jobs, node, perPage, pages) ==> Listing(jobs, node, Concat(pages, n))) <==>
            !TieAcrossPages(s, Rank, perPage)
  {
    BoundaryIsProduct(n, perPage);
    DescendingIffSorted(s);
    PagesMakeAnOrderIff(s, Rank, n, perPage);
    forall pages: nat -> seq<Job>
      ensures Answers(jobs, node, perPage, pages) <==> PagesOfSome(pages, s, Rank, perPage)
      ensures Listing(jobs, node, Concat(pages, n)) <==> Reordered(Concat(pages, n), s, Rank)
    {
      forall k: nat | k >= 1
        ensures Shows(jobs, node, k, perPage, pages(k)) <==> PageOfSome(pages(k), s, Rank, k, perPage)
      {
        ShowsIffPageOfSome(jobs, node, s, k, perPage, pages(k));
      }
      ListingIffReordered(jobs, node, s, Concat(pages, n));
    }
  }

  ghost predicate DistinctPriorities(jobs: Table, node: string) {
    forall a, b :: a in jobs && b in jobs && a != b && jobs[a].priority == jobs[b].priority ==>
      node != "" && (jobs[a].node != node || jobs[b].node != node)
  }

  /** With different priorities the pages make up the one and only listing. */
  lemma DistinctPrioritiesPartition(
    jobs: Table, node: string, s: seq<Job>, pages: nat -> seq<Job>, n: nat, perPage: nat)
    requires Filed(jobs) && DistinctPriorities(jobs, node)
    requires Listing(jobs, node, s) && perPage > 0 && n * perPage >= |s|
    requires Answers(jobs, node, perPage, pages)
    ensures Concat(pages, n) == s
  {
    forall i, j | 0 <= i < j < |s|
      ensures Rank(s[i]) != Rank(s[j])
    {
      assert s[i] in s && s[j] in s && s[i] != s[j];
    }
    PagesPartitionIff(jobs, node, s, n, perPage);
    DescendingIffSorted(s);
    ListingIffReordered(jobs, node, s, Concat(pages, n));
    SortedOrderIsUnique(s, Concat(pages, n), Rank);
  }

  /** The bounds the handler puts on what the query string asked for. */
  method ListJobs(
    repo: SchedulerRepository, node: string, page: int, perPage: int, order: seq<string>, sort: seq<Job> -> seq<Job>)
    returns (out: seq<Job>, total: nat)
    requires repo.Valid() && RangeOrder(repo.jobs, order) && Sorts(sort, Before)
    ensures Shows(repo.jobs, node, if page < 1 then 1 else page, if 1 <= perPage <= 100 then perPage else 20, out)
    ensures |out| <= 100 && |out| <= total
    ensures forall s :: Collects(repo.jobs, node, s) ==> total == |s|
  {
    var p, n := page, perPage;
    if p < 1 {
      p := 1;
    }
    if n < 1 || n > 100 {
      n := 20;
    }
    out, total := repo.List(node, p, n, order, sort);
  }
}
