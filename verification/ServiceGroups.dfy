/** Service groups: a parent graph that creation and re-parenting must keep acyclic, with a bounded walk. */
module ServiceGroups {
  import opened Wrappers

  type GroupId = nat

  /** Each group's parent, None for a root. */
  type Graph = map<GroupId, Option<GroupId>>

  const MAX_DEPTH: nat := 32

  datatype Refusal = GroupNotFound | GroupCycle

  datatype Store = Store(graph: Graph, nextId: GroupId)

  /** The walk with `budget` lookups left: None accepts. */
  function Walk(g: Graph, moved: GroupId, cur: GroupId, budget: nat): Option<Refusal>
    decreases budget
  {
    if budget == 0 then Some(GroupCycle)
    else if cur == moved then Some(GroupCycle)
    else if cur !in g then Some(GroupNotFound)
    else if g[cur].None? then None
    else Walk(g, moved, g[cur].value, budget - 1)
  }

  function CreateTx(st: Store, parent: Option<GroupId>): Result<Store, Refusal> {
    var created := Store(st.graph[st.nextId := parent], st.nextId + 1);
    if parent.None? then Ok(created)
    else if parent.value !in st.graph then Err(GroupNotFound)
    else
      match Walk(st.graph, st.nextId, parent.value, MAX_DEPTH)
      case Some(refusal) => Err(refusal)
      case None => Ok(created)
  }

  function MoveTx(st: Store, group: GroupId, parent: Option<GroupId>): Result<Store, Refusal> {
    var moved := st.(graph := st.graph[group := parent]);
    if group !in st.graph then Err(GroupNotFound)
    else if parent.None? then Ok(moved)
    else if parent.value == group then Err(GroupCycle)
    else if parent.value !in st.graph then Err(GroupNotFound)
    else
      match Walk(st.graph, group, parent.value, MAX_DEPTH)
      case Some(refusal) => Err(refusal)
      case None => Ok(moved)
  }

  class ServiceGroupService {
    var graph: Graph
    var nextId: GroupId

    constructor ()
      ensures View() == Store(map[], 0)
    {
      graph, nextId := map[], 0;
    }

    function View(): Store
      reads this
    {
      Store(graph, nextId)
    }

    /** Walks up from the candidate parent, one lookup per ancestor. */
    method CheckNoCycle(moved: GroupId, candidate: GroupId) returns (refusal: Option<Refusal>)
      ensures refusal == Walk(graph, moved, candidate, MAX_DEPTH)
    {
      var cur := candidate;
      for i := 0 to MAX_DEPTH
        invariant Walk(graph, moved, cur, MAX_DEPTH - i) == Walk(graph, moved, candidate, MAX_DEPTH)
      {
        if cur == moved {
          return Some(GroupCycle);
        }
        if cur !in graph {
          return Some(GroupNotFound);
        }
        if graph[cur].None? {
          return None;
        }
        cur := graph[cur].value;
      }
      return Some(GroupCycle);
    }

    method CreateServiceGroup(parent: Option<GroupId>) returns (r: Result<GroupId, Refusal>)
      modifies this
      ensures match CreateTx(old(View()), parent)
        case Ok(st) => r == Ok(old(nextId)) && View() == st
        case Err(e) => r == Err(e) && View() == old(View())
    {
      if parent.Some? {
        if parent.value !in graph {
          return Err(GroupNotFound);
        }
        var refusal := CheckNoCycle(nextId, parent.value);
        if refusal.Some? {
          return Err(refusal.value);
        }
      }
      graph := graph[nextId := parent];
      nextId := nextId + 1;
      return Ok(nextId - 1);
    }

    method UpdateServiceGroupParent(group: GroupId, parent: Option<GroupId>) returns (refusal: Option<Refusal>)
      modifies this
      ensures match MoveTx(old(View()), group, parent)
        case Ok(st) => refusal == None && View() == st
        case Err(e) => refusal == Some(e) && View() == old(View())
    {
      if group !in graph {
        return Some(GroupNotFound);
      }
      if parent.Some? {
        if parent.value == group {
          return Some(GroupCycle);
        }
        if parent.value !in graph {
          return Some(GroupNotFound);
        }
        refusal := CheckNoCycle(group, parent.value);
        if refusal.Some? {
          return;
        }
      }
      graph := graph[group := parent];
      return None;
    }
  }

  // --- ancestors ------------------------------------------------------------------------------------------

  /** The k-th ancestor; the 0-th is the group itself. */
  function Up(g: Graph, x: GroupId, k: nat): Option<GroupId> {
    if k == 0 then Some(x)
    else
      match Up(g, x, k - 1)
      case None => None
      case Some(y) => if y in g then g[y] else None
  }

  ghost predicate Acyclic(g: Graph) {
    forall x: GroupId, k: nat | k >= 1 :: Up(g, x, k) != Some(x)
  }

  ghost predicate NoDangling(g: Graph) {
    forall x | x in g && g[x].Some? :: g[x].value in g
  }

  /** The ancestor chain of x, itself included, has at most n groups. */
  ghost predicate ChainAtMost(g: Graph, x: GroupId, n: nat) {
    Up(g, x, n) == None
  }

  ghost predicate OnChain(g: Graph, x: GroupId, y: GroupId) {
    exists k: nat :: Up(g, x, k) == Some(y)
  }

  lemma {:induction false} UpSum(g: Graph, x: GroupId, j: nat, k: nat)
    ensures Up(g, x, j + k) == if Up(g, x, j).None? then None else Up(g, Up(g, x, j).value, k)
  {
    if k > 0 { UpSum(g, x, j, k - 1); }
  }

  lemma {:induction false} UpEnds(g: Graph, x: GroupId, j: nat, k: nat)
    requires j <= k && Up(g, x, j) == None
    ensures Up(g, x, k) == None
  {
    UpSum(g, x, j, k - j);
  }

  lemma {:induction false} UpStored(g: Graph, x: GroupId, k: nat)
    requires NoDangling(g) && x in g && Up(g, x, k).Some?
    ensures Up(g, x, k).value in g
  {
    if k > 0 {
      if Up(g, x, k - 1).Some? { UpStored(g, x, k - 1); }
    }
  }

  // --- the check is exact -----------------------------------------------------------------------------------

  /** None of the first n groups of the chain of x is y. */
  ghost predicate Avoids(g: Graph, x: GroupId, y: GroupId, n: nat) {
    forall k: nat | k < n :: Up(g, x, k) != Some(y)
  }

  lemma {:induction false} ChainShift(g: Graph, x: GroupId, next: GroupId, y: GroupId, n: nat)
    requires x in g && g[x] == Some(next) && x != y && n > 0
    ensures Up(g, x, n) == Up(g, next, n - 1)
    ensures Avoids(g, x, y, n) <==> Avoids(g, next, y, n - 1)
  {
    assert Up(g, x, 1) == Some(next);
    UpSum(g, x, 1, n - 1);
    if Avoids(g, x, y, n) {
      forall k: nat | k < n - 1 ensures Up(g, next, k) != Some(y) {
        UpSum(g, x, 1, k);
      }
    }
    if Avoids(g, next, y, n - 1) {
      forall k: nat | k < n ensures Up(g, x, k) != Some(y) {
        if k > 0 { UpSum(g, x, 1, k - 1); }
      }
    }
  }

  /** Accepting means the chain ends within the budget before meeting the moved group. */
  lemma {:induction false} WalkAccepts(g: Graph, moved: GroupId, cur: GroupId, budget: nat)
    requires NoDangling(g) && cur in g
    ensures Walk(g, moved, cur, budget) == None <==> (ChainAtMost(g, cur, budget) && Avoids(g, cur, moved, budget))
    ensures Walk(g, moved, cur, budget) != Some(GroupNotFound)
    decreases budget
  {
    if budget > 0 {
      if cur == moved {
        assert Up(g, cur, 0) == Some(moved);
      } else if g[cur].Some? {
        WalkAccepts(g, moved, g[cur].value, budget - 1);
        ChainShift(g, cur, g[cur].value, moved, budget);
      } else {
        RootChain(g, cur, moved, budget);
      }
    }
  }

  lemma {:induction false} RootChain(g: Graph, x: GroupId, y: GroupId, n: nat)
    requires x in g && g[x].None? && x != y && n > 0
    ensures ChainAtMost(g, x, n) && Avoids(g, x, y, n)
  {
    assert Up(g, x, 1) == None;
    UpEnds(g, x, 1, n);
    forall k: nat | k < n ensures Up(g, x, k) != Some(y) {
      if k > 0 { UpEnds(g, x, 1, k); }
    }
  }

  /**
    With no dangling parent, the check accepts a candidate iff its ancestor chain has at most 32 groups
    and does not contain the moved group; otherwise it reports a cycle.
  */
  lemma {:induction false} CheckIsExact(g: Graph, moved: GroupId, candidate: GroupId)
    requires NoDangling(g) && candidate in g
    ensures Walk(g, moved, candidate, MAX_DEPTH) == None <==>
      ChainAtMost(g, candidate, MAX_DEPTH) && !OnChain(g, candidate, moved)
    ensures Walk(g, moved, candidate, MAX_DEPTH) != Some(GroupNotFound)
  {
    WalkAccepts(g, moved, candidate, MAX_DEPTH);
    if ChainAtMost(g, candidate, MAX_DEPTH) { AvoidsAll(g, candidate, moved, MAX_DEPTH); }
  }

  lemma {:induction false} AvoidsAll(g: Graph, x: GroupId, y: GroupId, n: nat)
    requires ChainAtMost(g, x, n)
    ensures Avoids(g, x, y, n) <==> !OnChain(g, x, y)
  {
    if Avoids(g, x, y, n) {
      forall k: nat ensures Up(g, x, k) != Some(y) {
        if k >= n { UpEnds(g, x, n, k); }
      }
    }
  }

  // --- runs stay acyclic -------------------------------------------------------------------------------------

  lemma {:induction false} UnchangedChain(g: Graph, g': Graph, moved: GroupId, x: GroupId, k: nat)
    requires forall y | y != moved :: (y in g <==> y in g') && (y in g ==> g[y] == g'[y])
    requires forall j: nat | j < k :: Up(g, x, j) != Some(moved)
    ensures Up(g', x, k) == Up(g, x, k)
  {
    if k > 0 {
      UnchangedChain(g, g', moved, x, k - 1);
    }
  }

  /** Hanging a group under a parent whose chain does not contain it closes no cycle. */
  lemma {:induction false} AttachKeepsAcyclic(g: Graph, moved: GroupId, parent: GroupId)
    requires Acyclic(g) && parent in g && !OnChain(g, parent, moved)
    ensures Acyclic(g[moved := Some(parent)])
  {
    var g' := g[moved := Some(parent)];
    forall k: nat ensures Up(g', moved, k + 1) == Up(g, parent, k) {
      UnchangedChain(g, g', moved, parent, k);
      assert Up(g', moved, 1) == Some(parent);
      UpSum(g', moved, 1, k);
    }
    NotOwnAncestor(g, g', moved, parent);
    forall x: GroupId, k: nat | k >= 1 ensures Up(g', x, k) != Some(x) {
      NoCycleThrough(g, g', moved, x, k);
    }
  }

  lemma {:induction false} NotOwnAncestor(g: Graph, g': Graph, moved: GroupId, parent: GroupId)
    requires !OnChain(g, parent, moved)
    requires forall k: nat :: Up(g', moved, k + 1) == Up(g, parent, k)
    ensures forall k: nat | k >= 1 :: Up(g', moved, k) != Some(moved)
  {
    forall k: nat | k >= 1 ensures Up(g', moved, k) != Some(moved) {
      assert Up(g', moved, (k - 1) + 1) == Up(g, parent, k - 1);
    }
  }

  lemma {:induction false} NoCycleThrough(g: Graph, g': Graph, moved: GroupId, x: GroupId, k: nat)
    requires Acyclic(g) && k >= 1
    requires forall y | y != moved :: (y in g <==> y in g') && (y in g ==> g[y] == g'[y])
    requires forall j: nat | j >= 1 :: Up(g', moved, j) != Some(moved)
    ensures Up(g', x, k) != Some(x)
  {
    if j: nat :| j < k && Up(g', x, j) == Some(moved) {
      UpSum(g', x, j, k);
      UpSum(g', x, k, j);
      assert Up(g', x, j + k) == Up(g', moved, k);
    } else {
      UnchangedChain(g', g, moved, x, k);
    }
  }

  /** A root, old or new, closes no cycle either. */
  lemma {:induction false} RootKeepsAcyclic(g: Graph, moved: GroupId)
    requires Acyclic(g)
    ensures Acyclic(g[moved := None])
  {
    var g' := g[moved := None];
    forall k: nat | k >= 1 ensures Up(g', moved, k) == None {
      assert Up(g', moved, 1) == None;
      UpEnds(g', moved, 1, k);
    }
    forall x: GroupId, k: nat | k >= 1 ensures Up(g', x, k) != Some(x) {
      NoCycleThrough(g, g', moved, x, k);
    }
  }

  datatype Step = Create(parent: Option<GroupId>) | Move(group: GroupId, target: Option<GroupId>)

  /** A refused operation changes nothing. */
  function Apply(st: Store, s: Step): Store {
    var r := match s
      case Create(parent) => CreateTx(st, parent)
      case Move(group, target) => MoveTx(st, group, target);
    if r.Ok? then r.value else st
  }

  function RunAll(st: Store, steps: seq<Step>): Store {
    if steps == [] then st else Apply(RunAll(st, steps[..|steps| - 1]), steps[|steps| - 1])
  }

  ghost predicate Sound(st: Store) {
    Acyclic(st.graph) && NoDangling(st.graph) && forall x | x in st.graph :: x < st.nextId
  }

  lemma {:induction false} ApplyKeeps(st: Store, s: Step)
    requires Sound(st)
    ensures Sound(Apply(st, s))
  {
    match s {
      case Create(parent) =>
        if parent.None? {
          RootKeepsAcyclic(st.graph, st.nextId);
        } else if parent.value in st.graph {
          AttachStep(st.graph, st.nextId, parent.value);
        }
      case Move(group, target) =>
        if target.None? {
          RootKeepsAcyclic(st.graph, group);
        } else if target.value in st.graph {
          AttachStep(st.graph, group, target.value);
        }
    }
  }

  lemma {:induction false} AttachStep(g: Graph, moved: GroupId, parent: GroupId)
    requires Acyclic(g) && NoDangling(g) && parent in g
    ensures Walk(g, moved, parent, MAX_DEPTH) == None ==> Acyclic(g[moved := Some(parent)])
  {
    CheckIsExact(g, moved, parent);
    if Walk(g, moved, parent, MAX_DEPTH) == None {
      AttachKeepsAcyclic(g, moved, parent);
    }
  }

  /** Every serial sequence of creations and re-parentings leaves an acyclic graph with no dangling parent. */
  lemma {:induction false} RunsStayAcyclic(steps: seq<Step>)
    ensures Sound(RunAll(Store(map[], 0), steps))
  {
    if steps == [] {
      forall x: GroupId, k: nat | k >= 1 ensures Up(map[], x, k) != Some(x) {
        assert Up(map[], x, 1) == None;
        UpEnds(map[], x, 1, k);
      }
    } else {
      RunsStayAcyclic(steps[..|steps| - 1]);
      ApplyKeeps(RunAll(Store(map[], 0), steps[..|steps| - 1]), steps[|steps| - 1]);
    }
  }

  // --- what each operation accepts and does ----------------------------------------------------------------------

  /** A parent the moved group may hang under: stored, with at most 32 groups on its chain, none of them that group. */
  ghost predicate MayHold(g: Graph, parent: GroupId, moved: GroupId) {
    parent in g && ChainAtMost(g, parent, 32) && !OnChain(g, parent, moved)
  }

  /** A move is accepted iff the group exists and its new parent, if any, may hold it; only that edge changes. */
  lemma {:induction false} MoveExact(st: Store, group: GroupId, parent: Option<GroupId>)
    requires NoDangling(st.graph)
    ensures match MoveTx(st, group, parent)
      case Ok(st') =>
        && group in st.graph && (parent.Some? ==> MayHold(st.graph, parent.value, group))
        && st'.nextId == st.nextId && st'.graph.Keys == st.graph.Keys && st'.graph[group] == parent
        && forall x | x in st.graph && x != group :: st'.graph[x] == st.graph[x]
      case Err(GroupNotFound) =>
        group !in st.graph || (parent.Some? && parent.value != group && parent.value !in st.graph)
      case Err(GroupCycle) =>
        && group in st.graph && parent.Some? && (parent.value == group || parent.value in st.graph)
        && !MayHold(st.graph, parent.value, group)
  {
    if parent.Some? {
      if parent.value == group {
        assert Up(st.graph, group, 0) == Some(group);
      } else if parent.value in st.graph {
        CheckIsExact(st.graph, group, parent.value);
      }
    }
  }

  /** A creation is accepted iff its parent, if any, is stored with at most 32 groups on its chain. */
  lemma {:induction false} CreateExact(st: Store, parent: Option<GroupId>)
    requires Sound(st)
    ensures match CreateTx(st, parent)
      case Ok(st') =>
        && (parent.Some? ==> parent.value in st.graph && ChainAtMost(st.graph, parent.value, 32))
        && st.nextId !in st.graph && st'.nextId == st.nextId + 1 && st'.graph == st.graph[st.nextId := parent]
      case Err(GroupNotFound) => parent.Some? && parent.value !in st.graph
      case Err(GroupCycle) =>
        parent.Some? && parent.value in st.graph && !ChainAtMost(st.graph, parent.value, 32)
  {
    if parent.Some? && parent.value in st.graph {
      CheckIsExact(st.graph, st.nextId, parent.value);
      forall k: nat ensures Up(st.graph, parent.value, k) != Some(st.nextId) {
        if Up(st.graph, parent.value, k).Some? { UpStored(st.graph, parent.value, k); }
      }
    }
  }

  // --- depth ------------------------------------------------------------------------------------------------------

  /** Every ancestor chain has at most 32 groups. */
  ghost predicate Shallow(g: Graph) {
    forall x | x in g :: ChainAtMost(g, x, MAX_DEPTH)
  }

  /** Above x at height k stands the moved group; below the new parent there is room for k + 1 more groups. */
  ghost predicate HasRoom(g: Graph, parent: GroupId, k: nat) {
    k + 1 <= MAX_DEPTH && ChainAtMost(g, parent, MAX_DEPTH - (k + 1))
  }

  /** The parent's chain and the moved group's subtree together are at most 32 deep. */
  ghost predicate SubtreeFits(g: Graph, moved: GroupId, parent: GroupId) {
    forall x: GroupId, k: nat | Up(g, x, k) == Some(moved) :: HasRoom(g, parent, k)
  }

  /** What an operation must satisfy to keep every chain within the limit. */
  ghost predicate Fits(st: Store, s: Step) {
    match s
    case Create(None) => true
    case Create(Some(parent)) => CreateTx(st, Some(parent)).Ok? ==> ChainAtMost(st.graph, parent, MAX_DEPTH - 1)
    case Move(group, None) => true
    case Move(group, Some(parent)) => MoveTx(st, group, Some(parent)).Ok? ==> SubtreeFits(st.graph, group, parent)
  }

  ghost predicate Rehung(g: Graph, g': Graph, moved: GroupId) {
    forall y | y != moved :: (y in g <==> y in g') && (y in g ==> g[y] == g'[y])
  }

  /** Up to the moved group a chain is as before. */
  lemma {:induction false} ChainToMoved(g: Graph, g': Graph, moved: GroupId, x: GroupId, k: nat)
    requires Acyclic(g) && Rehung(g, g', moved) && Up(g, x, k) == Some(moved)
    ensures Up(g', x, k) == Some(moved)
  {
    forall j: nat | j < k ensures Up(g, x, j) != Some(moved) {
      if Up(g, x, j) == Some(moved) {
        UpSum(g, x, j, k - j);
      }
    }
    UnchangedChain(g, g', moved, x, k);
  }

  /** From the moved group on it is the new parent's. */
  lemma {:induction false} ChainPastMoved(
      g: Graph, g': Graph, moved: GroupId, parent: GroupId, x: GroupId, k: nat, m: nat)
    requires Acyclic(g) && !OnChain(g, parent, moved) && g' == g[moved := Some(parent)] && Up(g, x, k) == Some(moved)
    ensures Up(g', x, k + 1 + m) == Up(g, parent, m)
  {
    ChainToMoved(g, g', moved, x, k);
    UnchangedChain(g, g', moved, parent, m);
    assert Up(g', moved, 1) == Some(parent);
    UpSum(g', moved, 1, m);
    UpSum(g', x, k, 1 + m);
  }

  lemma {:induction false} BelowLimit(g: Graph, x: GroupId, k: nat, y: GroupId)
    requires Shallow(g) && y in g && Up(g, x, k) == Some(y)
    ensures x in g && k < MAX_DEPTH
  {
    if x !in g {
      if k > 0 {
        assert Up(g, x, 1) == None;
        UpEnds(g, x, 1, k);
      }
    } else if k >= MAX_DEPTH {
      assert ChainAtMost(g, x, MAX_DEPTH);
      UpEnds(g, x, MAX_DEPTH, k);
    }
  }

  lemma {:induction false} AttachKeepsDepthIff(g: Graph, g': Graph, moved: GroupId, parent: GroupId)
    requires Acyclic(g) && Shallow(g) && moved in g && !OnChain(g, parent, moved) && g' == g[moved := Some(parent)]
    ensures Shallow(g') <==> SubtreeFits(g, moved, parent)
  {
    if Shallow(g') {
      forall x: GroupId, k: nat | Up(g, x, k) == Some(moved) ensures HasRoom(g, parent, k) {
        BelowLimit(g, x, k, moved);
        ChainPastMoved(g, g', moved, parent, x, k, MAX_DEPTH - (k + 1));
        assert ChainAtMost(g', x, MAX_DEPTH);
      }
    }
    if SubtreeFits(g, moved, parent) {
      forall x | x in g' ensures ChainAtMost(g', x, MAX_DEPTH) {
        if k: nat :| Up(g, x, k) == Some(moved) {
          assert HasRoom(g, parent, k);
          ChainPastMoved(g, g', moved, parent, x, k, MAX_DEPTH - (k + 1));
        } else {
          UnchangedChain(g, g', moved, x, MAX_DEPTH);
          assert ChainAtMost(g, x, MAX_DEPTH);
        }
      }
    }
  }

  lemma {:induction false} CutKeepsDepth(g: Graph, moved: GroupId)
    requires Acyclic(g) && Shallow(g)
    ensures Shallow(g[moved := None])
  {
    var g' := g[moved := None];
    assert Up(g', moved, 1) == None;
    forall x | x in g' ensures ChainAtMost(g', x, MAX_DEPTH) {
      if x == moved {
        UpEnds(g', moved, 1, MAX_DEPTH);
      } else if k: nat :| k < MAX_DEPTH && Up(g, x, k) == Some(moved) {
        ChainToMoved(g, g', moved, x, k);
        UpSum(g', x, k, 1);
        UpEnds(g', x, k + 1, MAX_DEPTH);
      } else {
        UnchangedChain(g, g', moved, x, MAX_DEPTH);
        assert ChainAtMost(g, x, MAX_DEPTH);
      }
    }
  }

  lemma {:induction false} CreateKeepsDepthIff(g: Graph, g': Graph, added: GroupId, parent: GroupId)
    requires NoDangling(g) && Shallow(g) && added !in g && parent in g && g' == g[added := Some(parent)]
    ensures Shallow(g') <==> ChainAtMost(g, parent, MAX_DEPTH - 1)
  {
    forall x: GroupId, k: nat | x in g ensures Up(g', x, k) == Up(g, x, k) {
      forall j: nat | j < k ensures Up(g, x, j) != Some(added) {
        if Up(g, x, j).Some? { UpStored(g, x, j); }
      }
      UnchangedChain(g, g', added, x, k);
    }
    assert Up(g', added, 1) == Some(parent);
    UpSum(g', added, 1, MAX_DEPTH - 1);
    assert ChainAtMost(g', added, MAX_DEPTH) <==> ChainAtMost(g, parent, MAX_DEPTH - 1);
    forall x | x in g ensures ChainAtMost(g', x, MAX_DEPTH) {
      assert ChainAtMost(g, x, MAX_DEPTH);
    }
  }

  /**
    When every chain has at most 32 groups, an operation keeps it so iff it is refused, makes a root, hangs a
    new group under a chain of at most 31, or moves a group whose subtree fits under its new parent.
  */
  lemma {:induction false} StepKeepsDepthIff(st: Store, s: Step)
    requires Sound(st) && Shallow(st.graph)
    ensures Shallow(Apply(st, s).graph) <==> Fits(st, s)
  {
    match s {
      case Create(None) => CutKeepsDepth(st.graph, st.nextId);
      case Create(Some(parent)) =>
        if CreateTx(st, Some(parent)).Ok? {
          CreateKeepsDepthIff(st.graph, Apply(st, s).graph, st.nextId, parent);
        }
      case Move(group, None) => CutKeepsDepth(st.graph, group);
      case Move(group, Some(parent)) =>
        if MoveTx(st, group, Some(parent)).Ok? {
          CheckIsExact(st.graph, group, parent);
          AttachKeepsDepthIff(st.graph, Apply(st, s).graph, group, parent);
        }
    }
  }

  /** The store after the first n steps. */
  function After(steps: seq<Step>, n: nat): Store
    requires n <= |steps|
  {
    RunAll(Store(map[], 0), steps[..n])
  }

  lemma {:induction false} AfterNext(steps: seq<Step>, n: nat, n': nat)
    requires n' == n + 1 <= |steps|
    ensures After(steps, n') == Apply(After(steps, n), steps[n]) && Sound(After(steps, n))
  {
    assert steps[..n'][..n] == steps[..n];
    RunsStayAcyclic(steps[..n]);
  }

  lemma {:induction false} FittingStepsStayShallow(steps: seq<Step>, n: nat)
    requires n <= |steps| && forall i | 0 <= i < n :: Fits(After(steps, i), steps[i])
    ensures Shallow(After(steps, n).graph)
  {
    if n > 0 {
      FittingStepsStayShallow(steps, n - 1);
      AfterNext(steps, n - 1, n);
      StepKeepsDepthIff(After(steps, n - 1), steps[n - 1]);
    }
  }

  /** A serial sequence keeps every chain within 32 groups throughout iff each of its steps fits when it happens. */
  lemma {:induction false} RunsStayShallowIff(steps: seq<Step>)
    ensures (forall n | 0 <= n <= |steps| :: Shallow(After(steps, n).graph))
      <==> (forall i | 0 <= i < |steps| :: Fits(After(steps, i), steps[i]))
  {
    if forall n | 0 <= n <= |steps| :: Shallow(After(steps, n).graph) {
      forall i | 0 <= i < |steps| ensures Fits(After(steps, i), steps[i]) {
        AfterNext(steps, i, i + 1);
        assert Shallow(After(steps, i).graph) && Shallow(After(steps, i + 1).graph);
        StepKeepsDepthIff(After(steps, i), steps[i]);
      }
    }
    if forall i | 0 <= i < |steps| :: Fits(After(steps, i), steps[i]) {
      forall n | 0 <= n <= |steps| ensures Shallow(After(steps, n).graph) {
        FittingStepsStayShallow(steps, n);
      }
    }
  }

  // --- a run that gets too deep ---------------------------------------------------------------------------------

  /** n groups in one chain, 0 the root and n - 1 at the bottom. */
  ghost predicate Line(st: Store, n: nat) {
    && st.nextId == n && (forall x: GroupId :: x in st.graph <==> x < n)
    && forall x | x in st.graph :: st.graph[x] == if x == 0 then None else Some(x - 1)
  }

  function LineSteps(n: nat): seq<Step> {
    if n == 0 then [] else LineSteps(n - 1) + [Create(if n == 1 then None else Some(n - 2))]
  }

  lemma {:induction false} WalkToRoot(g: Graph, moved: GroupId, cur: GroupId, budget: nat)
    requires cur < moved && budget >= cur + 1
    requires forall x: GroupId | x <= cur :: x in g && g[x] == if x == 0 then None else Some(x - 1)
    ensures Walk(g, moved, cur, budget) == None
    decreases cur
  {
    if cur > 0 { WalkToRoot(g, moved, cur - 1, budget - 1); }
  }

  lemma {:induction false} RunAllNext(start: Store, steps: seq<Step>, s: Step)
    ensures RunAll(start, steps + [s]) == Apply(RunAll(start, steps), s)
  {
    assert (steps + [s])[..|steps|] == steps;
  }

  lemma {:induction false} LineWalk(g: Graph, m: nat, budget: nat)
    requires 0 < m <= budget && forall x: GroupId | x < m :: x in g && g[x] == if x == 0 then None else Some(x - 1)
    ensures m - 1 in g && Walk(g, m, m - 1, budget) == None
  {
    WalkToRoot(g, m, m - 1, budget);
  }

  lemma {:induction false} CreateAccepted(st: Store, parent: Option<GroupId>)
    requires parent.Some? ==> parent.value in st.graph
    requires parent.Some? ==> Walk(st.graph, st.nextId, parent.value, MAX_DEPTH) == None
    ensures CreateTx(st, parent) == Ok(Store(st.graph[st.nextId := parent], st.nextId + 1))
  {
  }

  lemma {:induction false} LineNext(st: Store, m: nat, parent: Option<GroupId>, next: Store)
    requires Line(st, m) && parent == if m == 0 then None else Some(m - 1)
    requires next.graph == st.graph[m := parent] && next.nextId == m + 1
    ensures Line(next, m + 1)
  {
  }

  lemma {:induction false} LineGrows(start: Store, n: nat, st: Store)
    requires Line(start, 0) && n <= MAX_DEPTH && st == RunAll(start, LineSteps(n))
    ensures Line(st, n)
  {
    if n > 0 {
      var m, before := n - 1, RunAll(start, LineSteps(n - 1));
      var parent: Option<GroupId> := if m == 0 then None else Some(m - 1);
      LineGrows(start, m, before);
      if m > 0 { LineWalk(before.graph, m, MAX_DEPTH); }
      CreateAccepted(before, parent);
      RunAllNext(start, LineSteps(m), Create(parent));
      LineNext(before, m, parent, st);
    }
  }

  lemma {:induction false} ChainUp(g: Graph, x: GroupId, k: nat)
    requires k <= x && forall y: GroupId | 0 < y <= x :: y in g && g[y] == Some(y - 1)
    ensures Up(g, x, k) == Some(x - k)
  {
    if k > 0 { ChainUp(g, x, k - 1); }
  }

  /** A line of 32 groups, and a root 32 with a child 33. */
  ghost predicate TwoTrees(g: Graph) {
    && (forall x: GroupId :: x in g <==> x < MAX_DEPTH + 2)
    && forall x | x in g :: g[x] == if x == 0 || x == MAX_DEPTH then None else Some(x - 1)
  }

  lemma {:induction false} TwoTreesFit(g: Graph)
    requires TwoTrees(g)
    ensures Shallow(g)
  {
    forall x | x in g ensures ChainAtMost(g, x, MAX_DEPTH) {
      if x < MAX_DEPTH {
        ChainUp(g, x, x);
        assert Up(g, x, x + 1) == None;
        UpEnds(g, x, x + 1, MAX_DEPTH);
      } else {
        assert Up(g, MAX_DEPTH, 1) == None;
        if x == MAX_DEPTH {
          UpEnds(g, MAX_DEPTH, 1, MAX_DEPTH);
        } else {
          assert Up(g, x, 1) == Some(MAX_DEPTH);
          UpSum(g, x, 1, 1);
          UpEnds(g, x, 2, MAX_DEPTH);
        }
      }
    }
  }

  lemma {:induction false} TwoTreesReached() returns (steps: seq<Step>, st: Store)
    ensures st == RunAll(Store(map[], 0), steps) && TwoTrees(st.graph)
  {
    var start, line := Store(map[], 0), LineSteps(MAX_DEPTH);
    LineGrows(start, MAX_DEPTH, RunAll(start, line));
    RunAllNext(start, line, Create(None));
    steps := line + [Create(None)];
    var mid := RunAll(start, steps);
    RunAllNext(start, steps, Create(Some(MAX_DEPTH)));
    assert Walk(mid.graph, MAX_DEPTH + 1, MAX_DEPTH, MAX_DEPTH) == None;
    steps := steps + [Create(Some(MAX_DEPTH))];
    st := RunAll(start, steps);
  }

  /**
    The limit is not kept: from the empty store a sequence of accepted operations reaches 34 groups in chains of
    at most 32, and one more accepted move, which carries a subtree along, puts 34 groups in one chain.
  */
  lemma {:induction false} MoveCanExceedDepth()
    returns (steps: seq<Step>, st: Store, group: GroupId, parent: GroupId, deep: GroupId)
    ensures st == RunAll(Store(map[], 0), steps) && Shallow(st.graph)
    ensures MoveTx(st, group, Some(parent)).Ok? && deep in st.graph
    ensures !ChainAtMost(MoveTx(st, group, Some(parent)).value.graph, deep, MAX_DEPTH)
  {
    steps, st := TwoTreesReached();
    group, parent, deep := MAX_DEPTH, MAX_DEPTH - 1, MAX_DEPTH + 1;
    TwoTreesFit(st.graph);
    WalkToRoot(st.graph, group, parent, MAX_DEPTH);
    ChainUp(st.graph[group := Some(parent)], deep, MAX_DEPTH);
  }
}
