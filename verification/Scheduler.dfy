/** Choosing a node for a VM: filter by constraints, score, take the best. */
module Scheduler {
  import opened Common
  import opened Lists
  import opened Jobs

  datatype Node = Node(id: string, labels: map<string, string>, cpus: int, memory: int, gpus: int, running: int)

  datatype Error =
    | AlreadyScheduled(node: string)
    | NoRegistry
    | RegistryFailed
    | NoMatch

  // ---------------------------------------------------------------- labels

  /** strings.SplitN(label, "=", 2), the second part "" when there is none. */
  function Cut(text: string): (string, string) {
    if text == "" then ("", "")
    else if text[0] == '=' then ("", text[1..])
    else
      var (k, v) := Cut(text[1..]);
      ([text[0]] + k, v)
  }

  /** A label without '=' is a key; otherwise the key is what comes before the first '='. */
  lemma {:induction false} CutSplits(text: string, key: string, val: string)
    requires '=' !in key
    ensures text == key + "=" + val ==> Cut(text) == (key, val)
    ensures text == key ==> Cut(text) == (key, "")
  {
    if key == "" {
      assert text == "" + "=" + val ==> text[1..] == val;
    } else if text == key + "=" + val || text == key {
      assert text[0] == key[0] && key == [key[0]] + key[1..];
      CutSplits(text[1..], key[1..], val);
      assert text == key + "=" + val ==> text[1..] == key[1..] + "=" + val;
    }
  }

  /** A label asks for a key, and for its value too when it names one. */
  predicate Carries(labels: map<string, string>, text: string) {
    var (key, val) := Cut(text);
    key in labels && (val == "" || labels[key] == val)
  }

  /** What a label text asks of a node: `key=value` the key with that value, `key=` and `key` just the key,
      the key being what comes before the first `=`. */
  ghost predicate Shows(labels: map<string, string>, text: string) {
    && ('=' !in text ==> text in labels)
    && (forall key, val :: '=' !in key && text == key + "=" + val ==>
          key in labels && (val != "" ==> labels[key] == val))
  }

  /** Every text with `=` has a part before the first one and a part after it. */
  lemma {:induction false} FirstEquals(text: string) returns (key: string, val: string)
    requires '=' in text
    ensures '=' !in key && text == key + "=" + val
  {
    if text[0] == '=' {
      key, val := "", text[1..];
    } else {
      var k, v := FirstEquals(text[1..]);
      key, val := [text[0]] + k, v;
    }
  }

  /** The split by `Cut` and the comparison of values amount to that. */
  lemma CarriesIff(labels: map<string, string>, text: string)
    ensures Carries(labels, text) <==> Shows(labels, text)
  {
    if '=' !in text {
      CutSplits(text, text, "");
    } else {
      var k, v := FirstEquals(text);
      CutSplits(text, k, v);
      forall key, val | '=' !in key && text == key + "=" + val
        ensures key == k && val == v
      {
        CutSplits(text, key, val);
      }
    }
  }

  lemma AllCarriesIff(labels: map<string, string>, texts: seq<string>)
    ensures forall l :: l in texts ==> (Carries(labels, l) <==> Shows(labels, l))
  {
    forall l | l in texts
      ensures Carries(labels, l) <==> Shows(labels, l)
    {
      CarriesIff(labels, l);
    }
  }

  /** The constraints in terms of the label texts. */
  ghost predicate Meets(n: Node, c: Constraints) {
    && (forall l :: l in c.requiredLabels ==> Shows(n.labels, l))
    && (forall l :: l in c.avoidLabels ==> !Shows(n.labels, l))
    && (c.requireGpu ==> n.gpus > 0)
  }

  lemma EligibleIffMeets(n: Node, c: Constraints)
    ensures Eligible(n, c) <==> Meets(n, c)
  {
    AllCarriesIff(n.labels, c.requiredLabels);
    AllCarriesIff(n.labels, c.avoidLabels);
  }

  /** Every required label, no label to avoid, a GPU when one is asked for. */
  predicate Eligible(n: Node, c: Constraints) {
    && (forall l :: l in c.requiredLabels ==> Carries(n.labels, l))
    && (forall l :: l in c.avoidLabels ==> !Carries(n.labels, l))
    && (c.requireGpu ==> n.gpus > 0)
  }

  method NodeMatchesConstraints(n: Node, c: Constraints) returns (ok: bool)
    ensures ok <==> Eligible(n, c)
    ensures ok <==> Meets(n, c)
  {
    EligibleIffMeets(n, c);
    for i := 0 to |c.requiredLabels|
      invariant forall j :: 0 <= j < i ==> Carries(n.labels, c.requiredLabels[j])
    {
      var (key, val) := Cut(c.requiredLabels[i]);
      if key !in n.labels || (val != "" && n.labels[key] != val) {
        assert !Carries(n.labels, c.requiredLabels[i]);
        return false;
      }
    }
    for i := 0 to |c.avoidLabels|
      invariant forall j :: 0 <= j < i ==> !Carries(n.labels, c.avoidLabels[j])
    {
      var (key, val) := Cut(c.avoidLabels[i]);
      if key in n.labels && (val == "" || n.labels[key] == val) {
        assert Carries(n.labels, c.avoidLabels[i]);
        return false;
      }
    }
    if c.requireGpu && n.gpus <= 0 {
      return false;
    }
    return true;
  }

  // ---------------------------------------------------------------- filtering

  ghost predicate FirstNamed(nodes: seq<Node>, id: string, n: Node) {
    exists i :: 0 <= i < |nodes| && nodes[i] == n && n.id == id && forall j :: 0 <= j < i ==> nodes[j].id != id
  }

  /** The nodes a request may be placed on. A named node is taken whatever the other constraints say. */
  ghost predicate Qualifies(nodes: seq<Node>, c: Option<Constraints>, n: Node) {
    match c
    case None => n in nodes
    case Some(c) =>
      if c.preferredNode != "" then FirstNamed(nodes, c.preferredNode, n) else n in nodes && Eligible(n, c)
  }

  method FindNamed(nodes: seq<Node>, id: string) returns (result: seq<Node>)
    ensures forall n :: n in result <==> FirstNamed(nodes, id, n)
  {
    for i := 0 to |nodes|
      invariant forall j :: 0 <= j < i ==> nodes[j].id != id
    {
      if nodes[i].id == id {
        assert FirstNamed(nodes, id, nodes[i]);
        return [nodes[i]];
      }
    }
    return [];
  }

  method FilterNodes(nodes: seq<Node>, constraints: Option<Constraints>) returns (result: seq<Node>)
    ensures forall n :: n in result <==> Qualifies(nodes, constraints, n)
  {
    if constraints.None? {
      return nodes;
    }
    var c := constraints.value;
    if c.preferredNode != "" {
      result := FindNamed(nodes, c.preferredNode);
      return;
    }
    result := [];
    for i := 0 to |nodes|
      invariant forall n :: n in result <==> n in nodes[..i] && Eligible(n, c)
    {
      var ok := NodeMatchesConstraints(nodes[i], c);
      assert nodes[..i + 1] == nodes[..i] + [nodes[i]];
      if ok {
        result := result + [nodes[i]];
      }
    }
    assert nodes[..|nodes|] == nodes;
  }

  // ---------------------------------------------------------------- scoring

  function LabelScore(labels: map<string, string>, preferred: seq<string>): real {
    if preferred == [] then 0.0
    else
      var last := |preferred| - 1;
      LabelScore(labels, preferred[..last]) + (if Carries(labels, preferred[last]) then 25.0 else 0.0)
  }

  function ResourceScore(n: Node): real {
    (if n.cpus > 0 then n.cpus as real * 10.0 else 0.0)
    + (if n.memory > 0 then n.memory as real / 1048576.0 else 0.0)
    + (if n.running >= 0 then (100 - n.running) as real * 5.0 else 0.0)
    + (if n.gpus > 0 then n.gpus as real * 50.0 else 0.0)
  }

  function Preferred(constraints: Option<Constraints>): seq<string> {
    if constraints.Some? then constraints.value.preferredLabels else []
  }

  function Score(n: Node, constraints: Option<Constraints>): real {
    ResourceScore(n) + LabelScore(n.labels, Preferred(constraints))
  }

  /** How many of the texts the node shows, repetitions counted. */
  ghost function Shown(labels: map<string, string>, texts: seq<string>): nat {
    |Filter(texts, (l: string) => Shows(labels, l))|
  }

  lemma {:induction false} LabelScoreCounts(labels: map<string, string>, texts: seq<string>)
    ensures LabelScore(labels, texts) == 25.0 * Shown(labels, texts) as real
  {
    if texts != [] {
      var front, last := texts[..|texts| - 1], texts[|texts| - 1];
      LabelScoreCounts(labels, front);
      CarriesIff(labels, last);
      assert texts == front + [last];
      FilterSnoc(front, last, (l: string) => Shows(labels, l));
    }
  }

  function Positive(x: int): int {
    if x > 0 then x else 0
  }

  /** Ten points a CPU, one a MiB, fifty a GPU, five for every VM short of a hundred (less than nothing
      above that), twenty-five for every preferred label. */
  method CalculateScore(n: Node, constraints: Option<Constraints>) returns (score: real)
    ensures score == Score(n, constraints)
    ensures score ==
            10.0 * Positive(n.cpus) as real + Positive(n.memory) as real / 1048576.0 + 50.0 * Positive(n.gpus) as real
            + (if n.running >= 0 then 5.0 * (100 - n.running) as real else 0.0)
            + 25.0 * Shown(n.labels, if constraints.Some? then constraints.value.preferredLabels else []) as real
  {
    LabelScoreCounts(n.labels, Preferred(constraints));
    score := 0.0;
    if n.cpus > 0 {
      score := score + n.cpus as real * 10.0;
    }
    if n.memory > 0 {
      score := score + n.memory as real / 1048576.0;
    }
    if n.running >= 0 {
      score := score + (100 - n.running) as real * 5.0;
    }
    if n.gpus > 0 {
      score := score + n.gpus as real * 50.0;
    }
    if constraints.Some? && |constraints.value.preferredLabels| > 0 {
      var preferred := constraints.value.preferredLabels;
      for i := 0 to |preferred|
        invariant score == ResourceScore(n) + LabelScore(n.labels, preferred[..i])
      {
        assert preferred[..i + 1][..i] == preferred[..i];
        var (key, val) := Cut(preferred[i]);
        if key in n.labels && (val == "" || n.labels[key] == val) {
          score := score + 25.0;
        }
      }
      assert preferred[..|preferred|] == preferred;
    }
  }

  /** At least as much of everything, no more VMs, and every preferred label the other carries. */
  ghost predicate Dominates(b: Node, a: Node, preferred: seq<string>) {
    && b.cpus >= a.cpus && b.memory >= a.memory && b.gpus >= a.gpus
    && 0 <= b.running <= a.running
    && forall l :: l in preferred && Carries(a.labels, l) ==> Carries(b.labels, l)
  }

  lemma {:induction false} LabelScoreMonotone(a: map<string, string>, b: map<string, string>, preferred: seq<string>)
    requires forall l :: l in preferred && Carries(a, l) ==> Carries(b, l)
    ensures LabelScore(a, preferred) <= LabelScore(b, preferred)
  {
    if preferred != [] {
      LabelScoreMonotone(a, b, preferred[..|preferred| - 1]);
    }
  }

  lemma ResourceScoreMonotone(a: Node, b: Node)
    requires b.cpus >= a.cpus && b.memory >= a.memory && b.gpus >= a.gpus && 0 <= b.running <= a.running
    ensures ResourceScore(a) <= ResourceScore(b)
    ensures b.running < a.running ==> ResourceScore(a) < ResourceScore(b)
  {
  }

  /** The score never ranks a node above one that is better in every respect. */
  lemma ScoreRespectsDominance(a: Node, b: Node, constraints: Option<Constraints>)
    requires Dominates(b, a, Preferred(constraints))
    ensures Score(a, constraints) <= Score(b, constraints)
    ensures b.running < a.running ==> Score(a, constraints) < Score(b, constraints)
  {
    LabelScoreMonotone(a.labels, b.labels, Preferred(constraints));
    ResourceScoreMonotone(a, b);
  }

  datatype Scored = Scored(node: Node, score: real)

  predicate Higher(a: Scored, b: Scored) {
    a.score > b.score
  }

  method ScoreNodes(nodes: seq<Node>, constraints: Option<Constraints>) returns (result: seq<Scored>)
    ensures |result| == |nodes|
    ensures forall i :: 0 <= i < |nodes| ==> result[i] == Scored(nodes[i], Score(nodes[i], constraints))
  {
    result := [];
    for i := 0 to |nodes|
      invariant |result| == i
      invariant forall j :: 0 <= j < i ==> result[j] == Scored(nodes[j], Score(nodes[j], constraints))
    {
      var score := CalculateScore(nodes[i], constraints);
      result := result + [Scored(nodes[i], score)];
    }
  }

  // ---------------------------------------------------------------- scheduling

  /** A node of greatest score among those that qualify. */
  ghost predicate Best(nodes: seq<Node>, c: Option<Constraints>, n: Node) {
    Qualifies(nodes, c, n) && forall m :: Qualifies(nodes, c, m) ==> Score(m, c) <= Score(n, c)
  }

  /** Whatever way ties fall, the head of the sorted list is a best node. */
  lemma HeadIsBest(
    nodes: seq<Node>, c: Option<Constraints>, candidates: seq<Node>, scored: seq<Scored>, sorted: seq<Scored>)
    requires forall n :: n in candidates <==> Qualifies(nodes, c, n)
    requires |scored| == |candidates| > 0
    requires forall i :: 0 <= i < |candidates| ==> scored[i] == Scored(candidates[i], Score(candidates[i], c))
    requires multiset(sorted) == multiset(scored) && SortedBy(sorted, Higher)
    ensures |sorted| > 0 && Best(nodes, c, sorted[0].node)
  {
    assert |sorted| == |multiset(sorted)| == |multiset(scored)| == |scored|;
    SameElementsSameMembers(sorted, scored, sorted[0]);
    forall m | Qualifies(nodes, c, m)
      ensures Score(m, c) <= Score(sorted[0].node, c)
    {
      assert m in candidates;
      var i :| 0 <= i < |candidates| && candidates[i] == m;
      SameElementsSameMembers(sorted, scored, scored[i]);
      var j :| 0 <= j < |sorted| && sorted[j] == scored[i];
      assert j > 0 ==> !Higher(sorted[j], sorted[0]);
    }
  }

  /** The node meets the constraints, unless it was asked for by name. */
  ghost predicate MeetsOrNamed(n: Node, constraints: Option<Constraints>) {
    constraints.Some? ==>
      var c := constraints.value;
      if c.preferredNode != "" then n.id == c.preferredNode else Meets(n, c)
  }

  lemma BestMeetsOrIsNamed(nodes: seq<Node>, constraints: Option<Constraints>, n: Node)
    requires Best(nodes, constraints, n)
    ensures n in nodes && MeetsOrNamed(n, constraints)
  {
    if constraints.Some? {
      EligibleIffMeets(n, constraints.value);
    }
  }

  /** Schedule; `registry` is what GetAvailableNodes answers, None when there is no registry. */
  method Schedule(
    repo: SchedulerRepository, vm: string, constraints: Option<Constraints>, priority: int,
    registry: Option<Result<seq<Node>, ()>>, sort: seq<Scored> -> seq<Scored>) returns (r: Result<string, Error>)
    requires repo.Valid() && Sorts(sort, Higher)
    modifies repo
    ensures repo.Valid()
    ensures r.Ok? ==> repo.jobs == old(repo.jobs)[vm := Job(vm, r.value, priority, constraints)]
    ensures r.Err? ==> repo.jobs == old(repo.jobs)
    ensures r.Ok? ==> vm !in old(repo.jobs) && registry.Some? && registry.value.Ok?
    ensures r.Ok? ==> exists n :: Best(registry.value.value, constraints, n) && n.id == r.value
    ensures r.Ok? ==>
              exists n :: n in registry.value.value && n.id == r.value && MeetsOrNamed(n, constraints)
    ensures r.Err? ==>
      match r.error
      case AlreadyScheduled(node) => vm in repo.jobs && node == repo.jobs[vm].node
      case NoRegistry => vm !in repo.jobs && registry.None?
      case RegistryFailed => vm !in repo.jobs && registry.Some? && registry.value.Err?
      case NoMatch =>
        && vm !in repo.jobs && registry.Some? && registry.value.Ok?
        && forall n :: !Qualifies(registry.value.value, constraints, n)
  {
    var existing := repo.GetByVmId(vm);
    if existing.Some? {
      return Err(AlreadyScheduled(existing.value.node));
    }
    if registry.None? {
      return Err(NoRegistry);
    }
    if registry.value.Err? {
      return Err(RegistryFailed);
    }
    var nodes := registry.value.value;
    var candidates := FilterNodes(nodes, constraints);
    if |candidates| == 0 {
      assert forall n :: n !in candidates;
      return Err(NoMatch);
    }
    var scored := ScoreNodes(candidates, constraints);
    var sorted := sort(scored);
    HeadIsBest(nodes, constraints, candidates, scored, sorted);
    var best := sorted[0];
    BestMeetsOrIsNamed(nodes, constraints, best.node);
    repo.Schedule(Job(vm, best.node.id, priority, constraints));
    return Ok(best.node.id);
  }

  /** A named node is the only possible choice, and is chosen exactly when the registry lists it. */
  lemma NamedNodeOrNone(nodes: seq<Node>, c: Constraints, n: Node)
    requires c.preferredNode != ""
    ensures Best(nodes, Some(c), n) ==> n.id == c.preferredNode
    ensures (exists m :: Best(nodes, Some(c), m)) <==> (exists m :: m in nodes && m.id == c.preferredNode)
  {
    if m :| m in nodes && m.id == c.preferredNode {
      var i := FirstIndex(nodes, c.preferredNode);
      assert FirstNamed(nodes, c.preferredNode, nodes[i]);
      forall k | Qualifies(nodes, Some(c), k)
        ensures k == nodes[i]
      {
      }
      assert Best(nodes, Some(c), nodes[i]);
    }
  }

  /** Every possible choice meets the constraints exactly when no node is named or the named one does. */
  lemma ChoiceIsEligibleIff(nodes: seq<Node>, c: Constraints)
    ensures (forall n :: Best(nodes, Some(c), n) ==> Eligible(n, c)) <==>
            c.preferredNode == "" || forall n :: FirstNamed(nodes, c.preferredNode, n) ==> Eligible(n, c)
  {
    if c.preferredNode != "" {
      forall n | FirstNamed(nodes, c.preferredNode, n)
        ensures Best(nodes, Some(c), n)
      {
        OnlyOneIsFirst(nodes, c.preferredNode, n);
      }
    }
  }

  lemma OnlyOneIsFirst(nodes: seq<Node>, id: string, n: Node)
    requires FirstNamed(nodes, id, n)
    ensures forall m :: FirstNamed(nodes, id, m) ==> m == n
  {
  }

  /** A node that lacks the required label and the GPU and has the label to avoid is chosen because it is named. */
  lemma NamedNodeMayViolateConstraints()
    ensures
      var n := Node("n1", map["zone" := "west"], 1, 0, 0, 0);
      var c := Constraints("n1", ["disk=ssd"], [], ["zone=west"], true);
      Best([n], Some(c), n) && !Eligible(n, c)
  {
    var n := Node("n1", map["zone" := "west"], 1, 0, 0, 0);
    var c := Constraints("n1", ["disk=ssd"], [], ["zone=west"], true);
    assert FirstNamed([n], "n1", [n][0]);
    OnlyOneIsFirst([n], "n1", n);
  }

  lemma FirstIndex(nodes: seq<Node>, id: string) returns (i: nat)
    requires exists m :: m in nodes && m.id == id
    ensures i < |nodes| && nodes[i].id == id && forall j :: 0 <= j < i ==> nodes[j].id != id
  {
    i := 0;
    while nodes[i].id != id
      invariant i < |nodes| && forall j :: 0 <= j < i ==> nodes[j].id != id
      decreases |nodes| - i
    {
      i := i + 1;
    }
  }

  /** Among qualifying nodes, one with fewer VMs and as much of all else excludes the other. */
  lemma DominatedNodeIsNotChosen(nodes: seq<Node>, c: Option<Constraints>, a: Node, b: Node)
    requires Qualifies(nodes, c, b) && Dominates(b, a, Preferred(c)) && b.running < a.running
    ensures !Best(nodes, c, a)
  {
    ScoreRespectsDominance(a, b, c);
  }
}
