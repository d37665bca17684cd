/** Adding a control dependency on an init op to a GraphDef: the worklist that finds what the init op
    depends on, and the rewrite of every other node. */
module GraphRewrite {
  import opened Options

  /** A node and its input references: `name`, `name:index` or `^name`. */
  datatype Node = Node(name: string, inputs: seq<string>)

  type Graph = seq<Node>

  type InputMap = map<string, set<string>>

  function UpToColon(s: string): string {
    if s == "" || s[0] == ':' then "" else [s[0]] + UpToColon(s[1..])
  }

  /** The node a reference is to: no leading caret, nothing from the first colon on. */
  function BareName(s: string): string {
    if s != "" && s[0] == '^' then UpToColon(s[1..]) else UpToColon(s)
  }

  function ControlInput(name: string): string { ['^'] + name }

  /** A name that TensorFlow accepts for a node, as far as references are concerned. */
  predicate NodeName(s: string) { s != "" && s[0] != '^' && ':' !in s }

  lemma {:induction false} UpToColonId(s: string)
    requires ':' !in s
    ensures UpToColon(s) == s
  {
    if s != "" { UpToColonId(s[1..]); }
  }

  lemma NamesAreBare(s: string)
    requires NodeName(s)
    ensures BareName(s) == s && BareName(ControlInput(s)) == s
  {
    UpToColonId(s);
    assert ControlInput(s)[1..] == s;
  }

  lemma {:induction false} UpToColonStops(n: string, k: string)
    requires ':' !in n
    ensures UpToColon(n + ":" + k) == n
  {
    if n != "" {
      assert (n + ":" + k)[1..] == n[1..] + ":" + k;
      UpToColonStops(n[1..], k);
      assert n == [n[0]] + n[1..];
    } else {
      assert (n + ":" + k)[0] == ':';
    }
  }

  lemma {:induction false} UpToColonSplits(s: string)
    ensures ':' !in UpToColon(s)
    ensures s == UpToColon(s) || UpToColon(s) + ":" <= s
  {
    if s != "" && s[0] != ':' {
      UpToColonSplits(s[1..]);
      assert s == [s[0]] + s[1..];
    }
  }

  /** A reference is to node `n` exactly if it is the name, an output of the node, or one of these behind a caret. */
  ghost predicate RefersTo(ref: string, n: string) { ref == n || n + ":" <= ref }

  lemma BareNameExactly(ref: string, n: string)
    requires NodeName(n)
    ensures BareName(ref) == n <==> RefersTo(ref, n) || (ref != "" && ref[0] == '^' && RefersTo(ref[1..], n))
  {
    PlainNameExactly(ref, n);
    if ref != "" && ref[0] == '^' {
      PlainNameExactly(ref[1..], n);
      assert ref[0] != n[0];
    }
  }

  lemma PlainNameExactly(ref: string, n: string)
    requires ':' !in n
    ensures UpToColon(ref) == n <==> RefersTo(ref, n)
  {
    UpToColonSplits(ref);
    UpToColonId(n);
    if n + ":" <= ref {
      assert ref == n + ":" + ref[|n| + 1..];
      UpToColonStops(n, ref[|n| + 1..]);
    }
  }

  /** An output of a node refers to it. */
  lemma OutputsAreBare(n: string, k: string)
    requires NodeName(n)
    ensures BareName(n + ":" + k) == n && BareName(ControlInput(n + ":" + k)) == n
  {
    UpToColonStops(n, k);
    assert (n + ":" + k)[0] == n[0];
    assert ControlInput(n + ":" + k)[1..] == n + ":" + k;
  }

  function BareInputs(n: Node): set<string> {
    set x | x in n.inputs :: BareName(x)
  }

  /** Names to the names of their inputs; of several nodes with one name the last counts. */
  function InputsOf(g: Graph): InputMap {
    if g == [] then map[] else InputsOf(g[..|g| - 1])[g[|g| - 1].name := BareInputs(g[|g| - 1])]
  }

  predicate UniqueNames(g: Graph) {
    forall i, j | 0 <= i < j < |g| :: g[i].name != g[j].name
  }

  lemma {:induction false} InputsOfNode(g: Graph, i: nat)
    requires i < |g| && UniqueNames(g)
    ensures g[i].name in InputsOf(g) && InputsOf(g)[g[i].name] == BareInputs(g[i])
  {
    if i < |g| - 1 { InputsOfNode(g[..|g| - 1], i); }
  }

  lemma {:induction false} InputsOfKeys(g: Graph)
    ensures InputsOf(g).Keys == set n | n in g :: n.name
  {
    if g != [] {
      InputsOfKeys(g[..|g| - 1]);
      assert g == g[..|g| - 1] + [g[|g| - 1]];
    }
  }

  // ---------------------------------------------------------------- walks along inputs

  ghost predicate IsWalk(m: InputMap, p: seq<string>) {
    && p != []
    && forall i | 0 <= i < |p| - 1 :: p[i] in m && p[i + 1] in m[p[i]]
  }

  /** `to` is `from` itself or something it depends on, directly or not. */
  ghost predicate Reaches(m: InputMap, from: string, to: string) {
    exists p :: IsWalk(m, p) && p[0] == from && p[|p| - 1] == to
  }

  ghost predicate Acyclic(m: InputMap) {
    forall p | IsWalk(m, p) && |p| > 1 :: p[0] != p[|p| - 1]
  }

  ghost predicate ClosedUnder(m: InputMap, s: set<string>) {
    s <= m.Keys && forall x | x in s :: m[x] <= s
  }

  lemma {:induction false} WalkStaysIn(m: InputMap, s: set<string>, p: seq<string>, i: nat)
    requires ClosedUnder(m, s) && IsWalk(m, p) && p[0] in s && i < |p|
    ensures p[i] in s
  {
    if i > 0 { WalkStaysIn(m, s, p, i - 1); }
  }

  lemma ExtendReach(m: InputMap, from: string, via: string, to: string)
    requires Reaches(m, from, via) && via in m && to in m[via]
    ensures Reaches(m, from, to)
  {
    var p :| IsWalk(m, p) && p[0] == from && p[|p| - 1] == via;
    assert IsWalk(m, p + [to]);
  }

  /** The names that some name in `s` has as inputs. */
  function InputsOfAll(m: InputMap, s: set<string>): set<string>
    requires s <= m.Keys
  {
    set x, y | x in s && y in m[x] :: y
  }

  /** The worklist: the proper dependencies of a node, or None for the KeyError raised when a name
      met on the way is not a node.  It raises it exactly when such a name can be reached. */
  method GetDepsForGraphNode(g: Graph, nodeName: string) returns (deps: Option<set<string>>)
    ensures deps.Some? <==> forall x | Reaches(InputsOf(g), nodeName, x) :: x in InputsOf(g)
    ensures deps.Some? ==> forall x :: x in deps.value <==> x != nodeName && Reaches(InputsOf(g), nodeName, x)
    ensures deps.Some? ==> ClosedUnder(InputsOf(g), deps.value + {nodeName})
  {
    var m: InputMap := map[];
    for i := 0 to |g|
      invariant m == InputsOf(g[..i])
    {
      assert g[..i + 1][..i] == g[..i];
      m := m[g[i].name := BareInputs(g[i])];
    }
    assert g[..|g|] == g;
    var dependencies: set<string>, toProcess := {}, {nodeName};
    assert IsWalk(m, [nodeName]);
    while toProcess != {}
      invariant nodeName in dependencies + toProcess && dependencies <= m.Keys
      invariant dependencies !! toProcess
      invariant forall x | x in dependencies :: m[x] <= dependencies + toProcess
      invariant forall x | x in dependencies + toProcess :: Reaches(m, nodeName, x)
      decreases m.Keys - dependencies
    {
      if !(toProcess <= m.Keys) {
        assert exists x :: x in toProcess && x !in m.Keys;
        return None;
      }
      var more := InputsOfAll(m, toProcess);
      forall y | y in more ensures Reaches(m, nodeName, y) {
        var x :| x in toProcess && y in m[x];
        ExtendReach(m, nodeName, x, y);
      }
      ghost var before := dependencies;
      dependencies := dependencies + toProcess;
      assert exists x :: x in toProcess;
      assert before < dependencies;
      toProcess := more - dependencies;
    }
    forall x | Reaches(m, nodeName, x) ensures x in dependencies {
      var p :| IsWalk(m, p) && p[0] == nodeName && p[|p| - 1] == x;
      WalkStaysIn(m, dependencies, p, |p| - 1);
    }
    deps := Some(dependencies - {nodeName});
    assert deps.value + {nodeName} == dependencies;
  }

  // ---------------------------------------------------------------- the rewrite

  /** A node that has to wait for the init op: neither the init op nor something it depends on. */
  ghost predicate Follows(m: InputMap, init: string, x: string) { !Reaches(m, init, x) }

  /** `g'` is `g` with the control input appended to each node that has to wait and lacks it. */
  ghost predicate RewriteOf(g: Graph, g': Graph, init: string) {
    && |g'| == |g|
    && forall i | 0 <= i < |g| ::
         && g'[i].name == g[i].name
         && g'[i].inputs
            == g[i].inputs + (if Follows(InputsOf(g), init, g[i].name) && ControlInput(init) !in g[i].inputs
                              then [ControlInput(init)] else [])
  }

  /** None for the KeyError of the worklist. */
  method AddControlDepsForInitOp(g: Graph, initOp: string) returns (r: Option<Graph>)
    ensures r.Some? <==> forall x | Reaches(InputsOf(g), BareName(initOp), x) :: x in InputsOf(g)
    ensures r.Some? ==> RewriteOf(g, r.value, BareName(initOp))
  {
    var init := BareName(initOp);
    var control := ControlInput(init);
    var found := GetDepsForGraphNode(g, init);
    if found.None? { return None; }
    var deps := found.value + {init};
    assert IsWalk(InputsOf(g), [init]);
    var nodes := g;
    for i := 0 to |g|
      invariant |nodes| == |g|
      invariant forall j | 0 <= j < i ::
                  nodes[j] == Node(g[j].name, g[j].inputs +
                    if g[j].name !in deps && control !in g[j].inputs then [control] else [])
      invariant forall j | i <= j < |g| :: nodes[j] == g[j]
    {
      if nodes[i].name !in deps && control !in nodes[i].inputs {
        nodes := nodes[i := nodes[i].(inputs := nodes[i].inputs + [control])];
      } else {
        assert nodes[i].inputs == nodes[i].inputs + [];
      }
    }
    assert forall x :: x in deps <==> !Follows(InputsOf(g), init, x);
    r := Some(nodes);
  }

  /** Every node keeps its name and its inputs, in their order, and gains at most the control input, at the end. */
  lemma RewriteKeepsInputs(g: Graph, g': Graph, init: string, i: nat)
    requires RewriteOf(g, g', init) && i < |g|
    ensures |g'| == |g| && g'[i].name == g[i].name && g[i].inputs <= g'[i].inputs
    ensures g'[i].inputs == g[i].inputs || g'[i].inputs == g[i].inputs + [['^'] + init]
    ensures ['^'] + init in g'[i].inputs <==> ['^'] + init in g[i].inputs || !Reaches(InputsOf(g), init, g[i].name)
  {
  }

  /** In terms of names, the rewrite makes the init op an input of each node that has to wait. */
  lemma InputsOfRewritten(g: Graph, g': Graph, init: string, i: nat)
    requires UniqueNames(g) && NodeName(init) && RewriteOf(g, g', init) && i < |g|
    ensures UniqueNames(g') && g[i].name in InputsOf(g) && g[i].name in InputsOf(g')
    ensures InputsOf(g')[g[i].name]
            == InputsOf(g)[g[i].name] + if Follows(InputsOf(g), init, g[i].name) then {init} else {}
  {
    var n, n' := g[i], g'[i];
    InputsOfNode(g, i);
    assert UniqueNames(g');
    InputsOfNode(g', i);
    NamesAreBare(init);
    if Follows(InputsOf(g), init, n.name) && ControlInput(init) !in n.inputs {
      assert forall x :: x in n'.inputs <==> x in n.inputs || x == ControlInput(init);
    } else {
      assert n'.inputs == n.inputs;
      assert Follows(InputsOf(g), init, n.name) ==> BareName(ControlInput(init)) in BareInputs(n);
    }
  }

  lemma {:induction false} KeysFollowNames(g: Graph, g': Graph)
    requires |g| == |g'| && forall i | 0 <= i < |g| :: g'[i].name == g[i].name
    ensures InputsOf(g').Keys == InputsOf(g).Keys
  {
    if g != [] { KeysFollowNames(g[..|g| - 1], g'[..|g'| - 1]); }
  }

  lemma RewrittenMap(g: Graph, g': Graph, init: string)
    requires UniqueNames(g) && NodeName(init) && RewriteOf(g, g', init)
    ensures UniqueNames(g') && InputsOf(g').Keys == InputsOf(g).Keys
    ensures forall x | x in InputsOf(g) ::
              InputsOf(g')[x] == InputsOf(g)[x] + if Follows(InputsOf(g), init, x) then {init} else {}
  {
    KeysFollowNames(g, g');
    forall x | x in InputsOf(g)
      ensures InputsOf(g')[x] == InputsOf(g)[x] + if Follows(InputsOf(g), init, x) then {init} else {}
    {
      InputsOfKeys(g);
      var n :| n in g && n.name == x;
      var i :| 0 <= i < |g| && g[i] == n;
      InputsOfRewritten(g, g', init, i);
    }
  }

  /** Along a closed walk of the rewritten graph no added edge is used. */
  lemma ClosedWalkIsOld(m: InputMap, m': InputMap, init: string, p: seq<string>)
    requires m'.Keys == m.Keys
    requires forall x | x in m :: m'[x] == m[x] + if Follows(m, init, x) then {init} else {}
    requires IsWalk(m', p) && p[0] == p[|p| - 1]
    ensures IsWalk(m, p)
  {
    forall i | 0 <= i < |p| - 1 ensures p[i + 1] in m[p[i]] {
      if Follows(m, init, p[i]) && p[i + 1] == init {
        // From the init op only its own dependencies are reached, so the walk cannot close.
        assert IsWalk(m, [init]);
        TailReached(m, m', init, p, i + 1, |p| - 1);
        HeadReached(m, m', init, p, i);
      }
    }
  }

  /** Once a walk is at something the init op depends on, it stays among such things. */
  lemma {:induction false} TailReached(m: InputMap, m': InputMap, init: string, p: seq<string>, i: nat, j: nat)
    requires m'.Keys == m.Keys
    requires forall x | x in m :: m'[x] == m[x] + if Follows(m, init, x) then {init} else {}
    requires IsWalk(m', p) && i <= j < |p| && Reaches(m, init, p[i])
    ensures Reaches(m, init, p[j])
    decreases j - i
  {
    if i < j {
      ExtendReach(m, init, p[i], p[i + 1]);
      TailReached(m, m', init, p, i + 1, j);
    }
  }

  lemma HeadReached(m: InputMap, m': InputMap, init: string, p: seq<string>, j: nat)
    requires m'.Keys == m.Keys
    requires forall x | x in m :: m'[x] == m[x] + if Follows(m, init, x) then {init} else {}
    requires IsWalk(m', p) && j < |p| && Reaches(m, init, p[0])
    ensures Reaches(m, init, p[j])
  {
    TailReached(m, m', init, p, 0, j);
  }

  /** The rewrite introduces no cycle, and removes none. */
  lemma RewriteKeepsAcyclicity(g: Graph, g': Graph, init: string)
    requires UniqueNames(g) && NodeName(init) && RewriteOf(g, g', init)
    ensures Acyclic(InputsOf(g')) <==> Acyclic(InputsOf(g))
  {
    var m, m' := InputsOf(g), InputsOf(g');
    RewrittenMap(g, g', init);
    forall p | IsWalk(m', p) && |p| > 1 && p[0] == p[|p| - 1] ensures IsWalk(m, p) {
      ClosedWalkIsOld(m, m', init, p);
    }
    forall p | IsWalk(m, p) ensures IsWalk(m', p) {
    }
  }

  /** The init op depends on the same nodes before and after. */
  lemma InitDependsOnTheSame(g: Graph, g': Graph, init: string, x: string)
    requires UniqueNames(g) && NodeName(init) && RewriteOf(g, g', init)
    ensures Reaches(InputsOf(g'), init, x) <==> Reaches(InputsOf(g), init, x)
  {
    var m, m' := InputsOf(g), InputsOf(g');
    RewrittenMap(g, g', init);
    if Reaches(m', init, x) {
      var p :| IsWalk(m', p) && p[0] == init && p[|p| - 1] == x;
      assert IsWalk(m, [init]);
      HeadReached(m, m', init, p, |p| - 1);
    }
    if Reaches(m, init, x) {
      var p :| IsWalk(m, p) && p[0] == init && p[|p| - 1] == x;
      assert IsWalk(m', p);
    }
  }

  /** A second application changes nothing. */
  lemma RewriteIsIdempotent(g: Graph, g': Graph, g'': Graph, init: string)
    requires UniqueNames(g) && NodeName(init) && RewriteOf(g, g', init) && RewriteOf(g', g'', init)
    ensures g'' == g'
  {
    forall i | 0 <= i < |g| ensures g''[i] == g'[i] {
      InitDependsOnTheSame(g, g', init, g[i].name);
      assert Follows(InputsOf(g'), init, g'[i].name) ==> ControlInput(init) in g'[i].inputs;
    }
  }

  // ---------------------------------------------------------------- topological orders

  /** Each element's inputs are in `base` or earlier in the list. */
  ghost predicate Sorted(m: InputMap, base: set<string>, order: seq<string>) {
    forall i | 0 <= i < |order| :: order[i] in m && m[order[i]] <= base + Elements(order[..i])
  }

  function Elements(order: seq<string>): set<string> { set x | x in order }

  ghost predicate Distinct(order: seq<string>) {
    forall i, j | 0 <= i < j < |order| :: order[i] != order[j]
  }

  /** An execution order: every node once, after all its inputs. */
  ghost predicate IsOrder(m: InputMap, order: seq<string>) {
    Elements(order) == m.Keys && Distinct(order) && Sorted(m, {}, order)
  }

  function Keep(order: seq<string>, s: set<string>): seq<string> {
    if order == [] then []
    else Keep(order[..|order| - 1], s) + if order[|order| - 1] in s then [order[|order| - 1]] else []
  }

  /** In every execution order of the rewritten graph the init op comes before each node that is not
      one of its dependencies. */
  lemma InitComesFirst(g: Graph, g': Graph, init: string, order: seq<string>, j: nat)
    requires UniqueNames(g) && NodeName(init) && RewriteOf(g, g', init)
    requires IsOrder(InputsOf(g'), order) && j < |order| && Follows(InputsOf(g), init, order[j])
    ensures exists i :: 0 <= i < j && order[i] == init
  {
    RewrittenMap(g, g', init);
    assert init in InputsOf(g')[order[j]];
    assert init in Elements(order[..j]);
  }

  lemma {:induction false} KeepElements(order: seq<string>, s: set<string>)
    requires Distinct(order)
    ensures Elements(Keep(order, s)) == Elements(order) * s && Distinct(Keep(order, s))
  {
    if order != [] {
      var p := order[..|order| - 1];
      var last, k := order[|order| - 1], Keep(p, s);
      KeepElements(p, s);
      ElementsSnoc(p, last);
      ElementsSnoc(k, last);
      assert order == p + [last];
      assert Keep(order, s) == if last in s then k + [last] else k;
      assert last !in Elements(p);
      assert forall i | 0 <= i < |k| :: k[i] in Elements(k);
    }
  }

  lemma ElementsSnoc(a: seq<string>, x: string)
    ensures Elements(a + [x]) == Elements(a) + {x}
  {
    assert forall y :: y in a + [x] <==> y in a || y == x;
  }

  /** Leaving out elements keeps a list sorted, as long as inputs are left out only if in the base. */
  lemma {:induction false} KeepSorted(m: InputMap, m': InputMap, order: seq<string>, s: set<string>, base: set<string>)
    requires Sorted(m, {}, order) && Distinct(order)
    requires forall x | x in order && x in s :: x in m' && m'[x] <= m[x] + base && m[x] <= s + base
    ensures Sorted(m', base, Keep(order, s))
  {
    if order != [] {
      var p, last := order[..|order| - 1], order[|order| - 1];
      forall i | 0 <= i < |p| ensures p[i] in m && m[p[i]] <= Elements(p[..i]) {
        assert p[..i] == order[..i];
      }
      KeepSorted(m, m', p, s, base);
      KeepElements(p, s);
      var k := Keep(p, s);
      if last in s {
        assert order[..|order| - 1] == p;
        assert m[last] <= Elements(p);
        assert m'[last] <= base + Elements(k);
        SortedSnoc(m', base, k, last);
        assert Keep(order, s) == k + [last];
      } else {
        assert Keep(order, s) == k;
      }
    }
  }

  lemma SortedSnoc(m: InputMap, base: set<string>, a: seq<string>, x: string)
    requires Sorted(m, base, a) && x in m && m[x] <= base + Elements(a)
    ensures Sorted(m, base, a + [x])
  {
    var c := a + [x];
    forall i | 0 <= i < |c| ensures c[i] in m && m[c[i]] <= base + Elements(c[..i]) {
      assert c[..i] == a[..i];
    }
  }

  /** Such an order exists whenever the graph had one: first what the init op depends on, then the
      init op, then the rest, each in the old order. */
  lemma RewrittenOrder(g: Graph, g': Graph, init: string, order: seq<string>)
    returns (order': seq<string>)
    requires UniqueNames(g) && NodeName(init) && RewriteOf(g, g', init)
    requires init in InputsOf(g) && IsOrder(InputsOf(g), order)
    ensures IsOrder(InputsOf(g'), order')
  {
    var m, m' := InputsOf(g), InputsOf(g');
    RewrittenMap(g, g', init);
    var first := set x | x in order && Reaches(m, init, x);
    var rest := Elements(order) - first;
    SplitOrder(m, init, order, first);
    KeepSorted(m, m', order, first, {});
    KeepSorted(m, m', order, rest, first);
    KeepElements(order, first);
    KeepElements(order, rest);
    order' := Keep(order, first) + Keep(order, rest);
    ConcatOrder(m', Keep(order, first), Keep(order, rest));
  }

  lemma SplitOrder(m: InputMap, init: string, order: seq<string>, first: set<string>)
    requires IsOrder(m, order) && init in m && first == set x | x in order && Reaches(m, init, x)
    ensures init in first && Sorted(m, {}, order) && Distinct(order) && Elements(order) == m.Keys
    ensures forall x | x in first :: m[x] <= first
    ensures forall x | x in order :: m[x] <= Elements(order)
  {
    assert IsWalk(m, [init]);
    forall x | x in order ensures m[x] <= Elements(order) {
      InputsInOrder(m, order, x);
    }
    forall x, y | x in first && y in m[x] ensures y in first {
      ExtendReach(m, init, x, y);
    }
  }

  lemma InputsInOrder(m: InputMap, order: seq<string>, x: string)
    requires IsOrder(m, order) && x in order
    ensures m[x] <= Elements(order)
  {
    var i :| 0 <= i < |order| && order[i] == x;
    assert forall y | y in order[..i] :: y in order;
  }

  lemma ElementsConcat(a: seq<string>, b: seq<string>)
    ensures Elements(a + b) == Elements(a) + Elements(b)
  {
    assert forall x :: x in a + b <==> x in a || x in b;
  }

  lemma DistinctConcat(a: seq<string>, b: seq<string>)
    requires Distinct(a) && Distinct(b) && Elements(a) !! Elements(b)
    ensures Distinct(a + b)
  {
    var c := a + b;
    forall i, j | 0 <= i < j < |c| ensures c[i] != c[j] {
      if i < |a| <= j {
        assert c[i] in Elements(a) && c[j] in Elements(b);
      }
    }
  }

  lemma SortedConcat(m: InputMap, a: seq<string>, b: seq<string>, i: nat)
    requires Sorted(m, {}, a) && Sorted(m, Elements(a), b) && i < |a + b|
    ensures (a + b)[i] in m && m[(a + b)[i]] <= Elements((a + b)[..i])
  {
    var c := a + b;
    if i < |a| {
      assert c[..i] == a[..i] && c[i] == a[i];
    } else {
      assert c[..i] == a + b[..i - |a|] && c[i] == b[i - |a|];
      ElementsConcat(a, b[..i - |a|]);
    }
  }

  lemma ConcatOrder(m: InputMap, a: seq<string>, b: seq<string>)
    requires Sorted(m, {}, a) && Sorted(m, Elements(a), b) && Distinct(a) && Distinct(b)
    requires Elements(a) !! Elements(b) && Elements(a) + Elements(b) == m.Keys
    ensures IsOrder(m, a + b)
  {
    ElementsConcat(a, b);
    DistinctConcat(a, b);
    forall i: nat | i < |a + b| { SortedConcat(m, a, b, i); }
  }
}
