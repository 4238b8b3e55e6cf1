/**
 * The evidence records of a root-cause investigation, the dependence relation between two of
 * them, and the number of independent signals (src/core/investigation.py:39-240).
 */
module EvidenceModel {
  import opened Basics
  import opened UnionFindForest

  /** The value of `causal_layer`: empty, one of the five known names, or any other string. */
  datatype Layer = Unset | Change | Mechanism | Impact | Temporal | Elimination | Unknown(name: string)

  datatype Evidence = Evidence(
    sourceAgent: string,
    signalType: string,
    timestamp: string,
    signalSubtype: string,
    causalLayer: Layer,
    faultDomain: string,
    derivationSource: Option<string>,
    contradictsHypothesis: bool,
    contradictionExplained: bool,
    traceId: Option<string>,
    id: string
  )

  const DERIVATION_PAIRS: set<(string, string)> := {
    ("OOMKill", "pod_restart"),
    ("error_rate_spike", "error_log"),
    ("error_rate_spike", "error_trace"),
    ("error_log", "error_trace"),
    ("latency_spike", "slow_trace"),
    ("memory_growth", "OOMKill"),
    ("node_NotReady", "pod_eviction"),
    ("node_MemoryPressure", "OOMKill"),
    ("cpu_throttle", "latency_spike")
  }

  /** A non-empty optional string, the source's test `if x`. */
  predicate Truthy(s: Option<string>) { s.Some? && s.value != "" }

  predicate AreDerived(a: Evidence, b: Evidence)
  {
    || (Truthy(b.derivationSource) && b.derivationSource.value == a.id)
    || (Truthy(a.derivationSource) && a.derivationSource.value == b.id)
    || (Truthy(a.traceId) && Truthy(b.traceId) && a.traceId == b.traceId)
    || ( && ( || (a.signalSubtype, b.signalSubtype) in DERIVATION_PAIRS
              || (b.signalSubtype, a.signalSubtype) in DERIVATION_PAIRS)
         && (a.faultDomain == "" || b.faultDomain == "" || a.faultDomain == b.faultDomain))
  }

  predicate SameLayerAndDomain(a: Evidence, b: Evidence)
  {
    && a.causalLayer != Unset && a.causalLayer == b.causalLayer
    && a.faultDomain != "" && a.faultDomain == b.faultDomain
  }

  /** One record names the other as its source, or both carry one trace. */
  predicate Linked(a: Evidence, b: Evidence)
  {
    || (a.id != "" && b.derivationSource == Some(a.id))
    || (b.id != "" && a.derivationSource == Some(b.id))
    || (a.traceId.Some? && a.traceId.value != "" && a.traceId == b.traceId)
  }

  /** The subtype of one derives from that of the other. */
  predicate Listed(a: Evidence, b: Evidence)
  {
    (a.signalSubtype, b.signalSubtype) in DERIVATION_PAIRS || (b.signalSubtype, a.signalSubtype) in DERIVATION_PAIRS
  }

  /** The two records do not count as independent signals. */
  predicate Dependent(a: Evidence, b: Evidence)
  {
    || Linked(a, b)
    || (Listed(a, b) && (a.faultDomain == "" || b.faultDomain == "" || a.faultDomain == b.faultDomain))
    || (a.faultDomain == b.faultDomain != "" && a.causalLayer == b.causalLayer != Unset)
  }

  /** The nine pairs of subtypes of which the second derives from the first. */
  lemma ListedPairs(first: string, second: string)
    ensures (first, second) in DERIVATION_PAIRS <==>
      || (first == "OOMKill" && second == "pod_restart")
      || (first == "error_rate_spike" && (second == "error_log" || second == "error_trace"))
      || (first == "error_log" && second == "error_trace")
      || (first == "latency_spike" && second == "slow_trace")
      || (first in {"memory_growth", "node_MemoryPressure"} && second == "OOMKill")
      || (first == "node_NotReady" && second == "pod_eviction")
      || (first == "cpu_throttle" && second == "latency_spike")
  {
  }

  /** When two records depend on each other, by their fields: always if one is derived from the other
      or they share a trace; else never in two different domains; where a domain is missing exactly
      if their subtypes are listed; and in one domain also if their layers agree. The relation is
      symmetric. */
  lemma IndependenceRules(a: Evidence, b: Evidence, linked: bool, listed: bool)
    requires linked <==>
      || (a.id != "" && b.derivationSource == Some(a.id)) || (b.id != "" && a.derivationSource == Some(b.id))
      || (a.traceId == b.traceId && a.traceId != None && a.traceId != Some(""))
    requires listed <==>
      || (a.signalSubtype, b.signalSubtype) in DERIVATION_PAIRS
      || (b.signalSubtype, a.signalSubtype) in DERIVATION_PAIRS
    ensures linked ==> Dependent(a, b)
    ensures !linked && a.faultDomain == "" && b.faultDomain == "" ==> (Dependent(a, b) <==> listed)
    ensures !linked && a.faultDomain == "" && b.faultDomain != "" ==> (Dependent(a, b) <==> listed)
    ensures !linked && a.faultDomain != "" && b.faultDomain == "" ==> (Dependent(a, b) <==> listed)
    ensures !linked && a.faultDomain != "" && b.faultDomain != "" && a.faultDomain != b.faultDomain ==> !Dependent(a, b)
    ensures !linked && a.faultDomain != "" && a.faultDomain == b.faultDomain ==>
      (Dependent(a, b) <==> listed || (a.causalLayer == b.causalLayer && a.causalLayer != Unset))
    ensures Dependent(a, b) <==> Dependent(b, a)
  {
  }

  lemma DependentIsSymmetric(a: Evidence, b: Evidence)
    ensures Dependent(a, b) <==> Dependent(b, a)
  {
  }

  // ----- connected components of the dependence relation -----

  ghost predicate IsPath(ev: seq<Evidence>, path: seq<nat>)
  {
    && path != []
    && (forall k :: 0 <= k < |path| ==> path[k] < |ev|)
    && (forall k {:trigger path[k]} :: 0 <= k < |path| - 1 ==> Dependent(ev[path[k]], ev[path[k + 1]]))
  }

  ghost predicate Joins(ev: seq<Evidence>, path: seq<nat>, i: nat, j: nat)
  {
    IsPath(ev, path) && path[0] == i && path[|path| - 1] == j
  }

  /** `i` and `j` are linked by a chain of dependent records. */
  ghost predicate Connected(ev: seq<Evidence>, i: nat, j: nat)
  {
    exists path :: Joins(ev, path, i, j)
  }

  ghost function Component(ev: seq<Evidence>, i: nat): set<nat>
  {
    set j: nat | j < |ev| && Connected(ev, i, j)
  }

  ghost function Components(ev: seq<Evidence>): set<set<nat>>
  {
    set i: nat | i < |ev| :: Component(ev, i)
  }

  lemma ConnectedReflexive(ev: seq<Evidence>, i: nat)
    requires i < |ev|
    ensures Connected(ev, i, i)
  {
    assert Joins(ev, [i], i, i);
  }

  lemma ConnectedStep(ev: seq<Evidence>, i: nat, j: nat)
    requires i < |ev| && j < |ev| && Dependent(ev[i], ev[j])
    ensures Connected(ev, i, j)
  {
    assert Joins(ev, [i, j], i, j);
  }

  lemma ConnectedTransitive(ev: seq<Evidence>, i: nat, j: nat, k: nat)
    requires Connected(ev, i, j) && Connected(ev, j, k)
    ensures Connected(ev, i, k)
  {
    var p :| Joins(ev, p, i, j);
    var q :| Joins(ev, q, j, k);
    var path := p + q[1..];
    forall m | 0 <= m < |path| - 1
      ensures Dependent(ev[path[m]], ev[path[m + 1]])
    {
      if m < |p| - 1 {
        assert path[m] == p[m] && path[m + 1] == p[m + 1];
      } else {
        assert path[m] == q[m - |p| + 1] && path[m + 1] == q[m - |p| + 2];
      }
    }
    assert Joins(ev, path, i, k);
  }

  lemma {:induction false} PathLeadsBack(ev: seq<Evidence>, path: seq<nat>, k: nat)
    requires IsPath(ev, path) && k < |path|
    ensures Connected(ev, path[k], path[0])
  {
    if k == 0 {
      ConnectedReflexive(ev, path[0]);
    } else {
      PathLeadsBack(ev, path, k - 1);
      assert Dependent(ev[path[k - 1]], ev[path[k - 1 + 1]]);
      DependentIsSymmetric(ev[path[k - 1]], ev[path[k]]);
      ConnectedStep(ev, path[k], path[k - 1]);
      ConnectedTransitive(ev, path[k], path[k - 1], path[0]);
    }
  }

  lemma ConnectedSymmetric(ev: seq<Evidence>, i: nat, j: nat)
    requires Connected(ev, i, j)
    ensures Connected(ev, j, i)
  {
    var path :| Joins(ev, path, i, j);
    PathLeadsBack(ev, path, |path| - 1);
  }

  // ----- what the forest knows while the pairs are scanned -----

  /** Records that share a representative are connected. */
  ghost predicate Sound(ev: seq<Evidence>, root: seq<nat>)
  {
    && |root| == |ev|
    && forall a: nat, b: nat {:trigger Connected(ev, a, b)} :: a < |ev| && b < |ev| && root[a] == root[b] ==>
      Connected(ev, a, b)
  }

  /** Every dependent pair that lies before (i, j) in scanning order shares a representative. */
  ghost predicate Scanned(ev: seq<Evidence>, root: seq<nat>, i: nat, j: nat)
  {
    && |root| == |ev|
    && forall a: nat, b: nat :: a < b < |ev| && (a < i || (a == i && b < j)) && Dependent(ev[a], ev[b])
         ==> root[a] == root[b]
  }

  lemma MergeIsSound(ev: seq<Evidence>, root: seq<nat>, i: nat, j: nat)
    requires Sound(ev, root)
    requires i < |ev| && j < |ev| && Dependent(ev[i], ev[j])
    ensures Sound(ev, Merged(root, i, j))
  {
    var merged := Merged(root, i, j);
    forall a: nat, b: nat | a < |ev| && b < |ev| && merged[a] == merged[b]
      ensures Connected(ev, a, b)
    {
      ConnectedStep(ev, i, j);
      ConnectedSymmetric(ev, i, j);
      if root[a] == root[b] {
      } else if root[a] == root[i] {
        ConnectedTransitive(ev, a, i, j);
        ConnectedTransitive(ev, a, j, b);
      } else {
        ConnectedTransitive(ev, a, j, i);
        ConnectedTransitive(ev, a, i, b);
      }
    }
  }

  /** When every pair is scanned, a chain of dependent records never leaves a class. */
  lemma {:induction false} PathKeepsRoot(ev: seq<Evidence>, root: seq<nat>, path: seq<nat>, k: nat)
    requires Scanned(ev, root, |ev|, 0)
    requires IsPath(ev, path) && k < |path|
    ensures root[path[k]] == root[path[0]]
  {
    if k == 0 {
    } else {
      PathKeepsRoot(ev, root, path, k - 1);
      var a, b := path[k - 1], path[k];
      assert Dependent(ev[path[k - 1]], ev[path[k - 1 + 1]]);
      DependentIsSymmetric(ev[a], ev[b]);
    }
  }

  lemma RootsAreComponents(ev: seq<Evidence>, root: seq<nat>, i: nat, j: nat)
    requires Sound(ev, root) && Scanned(ev, root, |ev|, 0)
    requires i < |ev| && j < |ev|
    ensures root[i] == root[j] <==> Connected(ev, i, j)
  {
    if Connected(ev, i, j) {
      var path :| Joins(ev, path, i, j);
      PathKeepsRoot(ev, root, path, |path| - 1);
    }
  }

  /** One representative per component. */
  lemma RootCount(ev: seq<Evidence>, root: seq<nat>, roots: set<nat>)
    requires Sound(ev, root) && Scanned(ev, root, |ev|, 0)
    requires forall i :: 0 <= i < |ev| ==> root[i] < |ev| && root[root[i]] == root[i]
    requires roots == set i | 0 <= i < |ev| :: root[i]
    ensures |roots| == |Components(ev)|
  {
    forall x, y | x in roots && y in roots && Component(ev, x) == Component(ev, y)
      ensures x == y
    {
      ConnectedReflexive(ev, y);
      assert y in Component(ev, x);
      RootsAreComponents(ev, root, x, y);
    }
    forall c | c in Components(ev)
      ensures exists r :: r in roots && Component(ev, r) == c
    {
      var i: nat :| i < |ev| && c == Component(ev, i);
      assert root[i] in roots;
      forall j: nat | j < |ev|
        ensures Connected(ev, root[i], j) == Connected(ev, i, j)
      {
        RootsAreComponents(ev, root, i, j);
        RootsAreComponents(ev, root, root[i], j);
      }
      assert Component(ev, root[i]) == c;
    }
    ImageSize(roots, Components(ev), r => Component(ev, r));
  }

  /** `count_independent`: the number of connected components of the dependence relation. */
  method CountIndependent(evidences: seq<Evidence>) returns (count: nat)
    ensures count == |Components(evidences)|
  {
    if evidences == [] {
      return 0;
    }
    var n := |evidences|;
    var forest := new UnionFind(n);
    forall a: nat | a < n ensures Connected(evidences, a, a) {
      ConnectedReflexive(evidences, a);
    }
    for i := 0 to n
      invariant fresh(forest) && fresh(forest.parent)
      invariant forest.Valid() && forest.parent.Length == n
      invariant Sound(evidences, forest.root) && Scanned(evidences, forest.root, i, 0)
    {
      for j := i + 1 to n
        invariant fresh(forest) && fresh(forest.parent)
        invariant forest.Valid() && forest.parent.Length == n
        invariant Sound(evidences, forest.root) && Scanned(evidences, forest.root, i, j)
      {
        var a, b := evidences[i], evidences[j];
        if AreDerived(a, b) || SameLayerAndDomain(a, b) {
          MergeIsSound(evidences, forest.root, i, j);
          forest.Union(i, j);
        }
      }
    }
    var roots: set<nat> := {};
    for i := 0 to n
      invariant fresh(forest) && fresh(forest.parent)
      invariant forest.Valid() && forest.parent.Length == n
      invariant Sound(evidences, forest.root) && Scanned(evidences, forest.root, n, 0)
      invariant roots == set k | 0 <= k < i :: forest.root[k]
    {
      var r := forest.Find(i);
      roots := roots + {r};
    }
    forall i: nat | i < n
      ensures forest.root[i] < n && forest.root[forest.root[i]] == forest.root[i]
    {
      assert Placed(forest.parent[..], forest.root, forest.rank, i);
      assert Placed(forest.parent[..], forest.root, forest.rank, forest.root[i]);
    }
    RootCount(evidences, forest.root, roots);
    return |roots|;
  }

  lemma CountRoots(ev: seq<Evidence>, root: seq<nat>, roots: set<nat>)
    requires Sound(ev, root) && Scanned(ev, root, |ev|, 0)
    requires forall i :: 0 <= i < |ev| ==> root[i] in roots
    requires forall r :: r in roots ==> r < |ev| && root[r] == r
    ensures |Components(ev)| == |roots|
  {
    assert roots == set i | 0 <= i < |ev| :: root[i] by {
      assert forall r :: r in roots ==> root[r] == r && 0 <= r < |ev|;
    }
    RootCount(ev, root, roots);
  }

  /** Records of which no two depend on each other are as many signals as records. */
  lemma IndependentRecords(ev: seq<Evidence>)
    requires forall i: nat, j: nat :: i < j < |ev| ==> !Dependent(ev[i], ev[j])
    ensures |Components(ev)| == |ev|
  {
    forall i: nat | i < |ev|
      ensures Connected(ev, i, i)
    {
      ConnectedReflexive(ev, i);
    }
    CountRoots(ev, seq(|ev|, (i: nat) => i), Below(|ev|));
  }

  ghost function Below(n: nat): (numbers: set<nat>)
    ensures |numbers| == n && forall i: nat :: i in numbers <==> i < n
  {
    if n == 0 then {} else Below(n - 1) + {n - 1}
  }

  /** Records with no source, no trace, no subtype and no fault domain, such as an agent's answer is
      parsed into, are each a signal of their own, even where they are alike. */
  lemma ParsedRecords(ev: seq<Evidence>)
    requires forall e :: e in ev ==>
      e.derivationSource == None && e.traceId == None && e.signalSubtype == "" && e.faultDomain == ""
    ensures |Components(ev)| == |ev|
  {
    ListedPairs("", "");
    IndependentRecords(ev);
  }

  /** More evidence can mean fewer signals. Two records of different fault domains are independent,
      until a record without a domain, whose subtype derives from or to both, makes them one. */
  lemma MissingDomainJoins(a: Evidence, b: Evidence, c: Evidence)
    requires !Dependent(a, b) && c.faultDomain == "" && Listed(a, c) && Listed(c, b)
    ensures |Components([a, b])| == 2 && |Components([a, b, c])| == 1
  {
    var two, three := [a, b], [a, b, c];
    ConnectedReflexive(two, 0);
    ConnectedReflexive(two, 1);
    CountRoots(two, [0, 1], {0, 1});
    DependentIsSymmetric(b, c);
    forall i: nat | i < 3
      ensures Connected(three, i, 2)
    {
      if i < 2 {
        ConnectedStep(three, i, 2);
      } else {
        ConnectedReflexive(three, 2);
      }
    }
    forall i: nat, j: nat | i < 3 && j < 3
      ensures Connected(three, i, j)
    {
      ConnectedSymmetric(three, j, 2);
      ConnectedTransitive(three, i, 2, j);
    }
    CountRoots(three, [0, 0, 0], {0});
  }

  /** Three independent records are three signals, and two once a further one joins two of them. */
  lemma ThreeThenTwo(a: Evidence, b: Evidence, c: Evidence, e: Evidence)
    requires !Dependent(a, b) && !Dependent(a, c) && !Dependent(b, c)
    requires Dependent(a, e) && Dependent(b, e) && !Dependent(c, e)
    ensures |Components([a, b, c])| == 3 && |Components([a, b, c, e])| == 2
  {
    var three, four := [a, b, c], [a, b, c, e];
    ConnectedReflexive(three, 0);
    ConnectedReflexive(three, 1);
    ConnectedReflexive(three, 2);
    CountRoots(three, [0, 1, 2], {0, 1, 2});
    ConnectedStep(four, 0, 3);
    ConnectedStep(four, 1, 3);
    ConnectedReflexive(four, 3);
    forall i: nat, j: nat | i in {0, 1, 3} && j in {0, 1, 3}
      ensures Connected(four, i, j)
    {
      ConnectedSymmetric(four, j, 3);
      ConnectedTransitive(four, i, 3, j);
    }
    ConnectedReflexive(four, 2);
    CountRoots(four, [0, 0, 2, 0], {0, 2});
  }

  // ----- the order in which evidence arrives does not matter -----

  /** `b` lists the records of `a` in another order: p and q are mutually inverse. */
  ghost predicate Reordering(a: seq<Evidence>, b: seq<Evidence>, p: seq<nat>, q: seq<nat>)
  {
    && |a| == |b| == |p| == |q|
    && (forall i :: 0 <= i < |p| ==> p[i] < |a| && b[i] == a[p[i]])
    && (forall i :: 0 <= i < |q| ==> q[i] < |a|)
    && (forall i {:trigger p[i]} :: 0 <= i < |p| ==> q[p[i]] == i)
    && (forall i {:trigger q[i]} :: 0 <= i < |q| ==> p[q[i]] == i)
  }

  /** The records indexed by `c`, each moved to its new place. */
  ghost function Image(q: seq<nat>, c: set<nat>): set<nat>
  {
    set j | j in c && j < |q| :: q[j]
  }

  /** Puts the last record of the first list at place `k` of the second. */
  lemma ReorderingExtends(a: seq<Evidence>, b: seq<Evidence>, p: seq<nat>, q: seq<nat>, last: Evidence, k: nat)
      returns (p': seq<nat>, q': seq<nat>)
    requires Reordering(a, b, p, q) && k <= |b|
    ensures Reordering(a + [last], b[..k] + [last] + b[k..], p', q')
  {
    var n := |a|;
    p' := p[..k] + [n] + p[k..];
    q' := seq(n + 1, i requires 0 <= i <= n => if i == n then k else if q[i] < k then q[i] else q[i] + 1);
    var b' := b[..k] + [last] + b[k..];
    forall i | 0 <= i <= n
      ensures p'[i] <= n && b'[i] == (a + [last])[p'[i]] && q'[p'[i]] == i
    {
      if i != k {
        var before := if i < k then i else i - 1;
        assert p'[i] == p[before] && b'[i] == b[before] && q[p[before]] == before;
      }
    }
    forall i | 0 <= i <= n
      ensures q'[i] <= n && p'[q'[i]] == i
    {
      if i < n {
        assert p[q[i]] == i;
      }
    }
  }

  /** Finds the last record of the first list in the second. */
  lemma LocateLast(a: seq<Evidence>, b: seq<Evidence>) returns (k: nat)
    requires a != [] && multiset(a) == multiset(b)
    ensures k < |b| && b[k] == a[|a| - 1]
    ensures multiset(a[..|a| - 1]) == multiset(b[..k] + b[k + 1..])
  {
    var last := a[|a| - 1];
    assert a == a[..|a| - 1] + [last];
    assert last in multiset(b);
    k :| 0 <= k < |b| && b[k] == last;
    assert b == b[..k] + [last] + b[k + 1..];
    var x, y := multiset(a[..|a| - 1]), multiset(b[..k] + b[k + 1..]);
    assert x + multiset{last} == multiset(a);
    assert y + multiset{last} == multiset(b);
    assert x == (x + multiset{last}) - multiset{last};
    assert y == (y + multiset{last}) - multiset{last};
  }

  lemma {:induction false} ReorderingExists(a: seq<Evidence>, b: seq<Evidence>) returns (p: seq<nat>, q: seq<nat>)
    requires multiset(a) == multiset(b)
    ensures Reordering(a, b, p, q)
    decreases |a|
  {
    if a == [] {
      assert |multiset(b)| == 0;
      p, q := [], [];
    } else {
      var k := LocateLast(a, b);
      var rest, others := a[..|a| - 1], b[..k] + b[k + 1..];
      p, q := ReorderingExists(rest, others);
      p, q := ReorderingExtends(rest, others, p, q, b[k], k);
      assert rest + [b[k]] == a;
      assert others[..k] + [b[k]] + others[k..] == b;
    }
  }

  lemma ReorderingKeepsRecord(a: seq<Evidence>, b: seq<Evidence>, p: seq<nat>, q: seq<nat>, i: nat)
    requires Reordering(a, b, p, q) && i < |a|
    ensures q[i] < |b| && b[q[i]] == a[i]
  {
    assert p[q[i]] == i;
  }

  lemma ReorderingKeepsDependence(a: seq<Evidence>, b: seq<Evidence>, p: seq<nat>, q: seq<nat>, i: nat, j: nat)
    requires Reordering(a, b, p, q) && i < |a| && j < |a| && Dependent(a[i], a[j])
    ensures q[i] < |b| && q[j] < |b| && Dependent(b[q[i]], b[q[j]])
  {
    ReorderingKeepsRecord(a, b, p, q, i);
    ReorderingKeepsRecord(a, b, p, q, j);
  }

  function Moved(path: seq<nat>, q: seq<nat>): (moved: seq<nat>)
    requires forall k :: 0 <= k < |path| ==> path[k] < |q|
    ensures |moved| == |path| && forall k :: 0 <= k < |path| ==> moved[k] == q[path[k]]
  {
    seq(|path|, k requires 0 <= k < |path| => q[path[k]])
  }

  lemma ReorderingMovesPath(a: seq<Evidence>, b: seq<Evidence>, p: seq<nat>, q: seq<nat>, path: seq<nat>)
    requires Reordering(a, b, p, q) && IsPath(a, path)
    ensures IsPath(b, Moved(path, q))
  {
    var moved := Moved(path, q);
    forall k | 0 <= k < |moved| - 1
      ensures Dependent(b[moved[k]], b[moved[k + 1]])
    {
      var i, j := path[k], path[k + 1];
      assert Dependent(a[path[k]], a[path[k + 1]]);
      ReorderingKeepsDependence(a, b, p, q, i, j);
    }
  }

  lemma ReorderingKeepsConnection(a: seq<Evidence>, b: seq<Evidence>, p: seq<nat>, q: seq<nat>, i: nat, j: nat)
    requires Reordering(a, b, p, q)
    requires i < |a| && j < |a| && Connected(a, i, j)
    ensures Connected(b, q[i], q[j])
  {
    var path :| Joins(a, path, i, j);
    ReorderingMovesPath(a, b, p, q, path);
    assert Joins(b, Moved(path, q), q[i], q[j]);
  }

  lemma ReorderingInverse(a: seq<Evidence>, b: seq<Evidence>, p: seq<nat>, q: seq<nat>)
    requires Reordering(a, b, p, q)
    ensures Reordering(b, a, q, p)
  {
  }

  lemma ReorderingMovesComponent(a: seq<Evidence>, b: seq<Evidence>, p: seq<nat>, q: seq<nat>, i: nat)
    requires Reordering(a, b, p, q) && i < |a|
    ensures Image(q, Component(a, i)) == Component(b, q[i])
  {
    ReorderingInverse(a, b, p, q);
    forall j: nat | j < |a|
      ensures Connected(a, i, j) == Connected(b, q[i], q[j])
    {
      if Connected(a, i, j) {
        ReorderingKeepsConnection(a, b, p, q, i, j);
      }
      if Connected(b, q[i], q[j]) {
        ReorderingKeepsConnection(b, a, q, p, q[i], q[j]);
      }
    }
    forall m | m in Component(b, q[i])
      ensures m in Image(q, Component(a, i))
    {
      assert m == q[p[m]] && p[m] in Component(a, i);
    }
  }

  /** The number of independent signals is the same for every order of the evidence. */
  lemma CountIgnoresOrder(a: seq<Evidence>, b: seq<Evidence>)
    requires multiset(a) == multiset(b)
    ensures |Components(a)| == |Components(b)|
  {
    var p, q := ReorderingExists(a, b);
    forall c | c in Components(a)
      ensures Image(q, c) in Components(b)
    {
      var i: nat :| i < |a| && c == Component(a, i);
      ReorderingMovesComponent(a, b, p, q, i);
    }
    forall c, d | c in Components(a) && d in Components(a) && Image(q, c) == Image(q, d)
      ensures c == d
    {
      ImageReflects(p, q, c, d);
      ImageReflects(p, q, d, c);
    }
    forall z | z in Components(b)
      ensures exists c :: c in Components(a) && Image(q, c) == z
    {
      var m: nat :| m < |b| && z == Component(b, m);
      ReorderingMovesComponent(a, b, p, q, p[m]);
      assert Component(a, p[m]) in Components(a);
    }
    ImageSize(Components(a), Components(b), c => Image(q, c));
  }

  lemma ImageReflects(p: seq<nat>, q: seq<nat>, c: set<nat>, d: set<nat>)
    requires |p| == |q| && forall i :: 0 <= i < |q| ==> q[i] < |p| && p[q[i]] == i
    requires forall j :: j in c ==> j < |q|
    requires Image(q, c) <= Image(q, d)
    ensures c <= d
  {
    forall j | j in c
      ensures j in d
    {
      assert q[j] in Image(q, c);
      var k :| k in d && k < |q| && q[k] == q[j];
      assert p[q[k]] == k;
    }
  }
}
