/** Merging securely aggregated updates into accumulators: plain addition for the leaves of bitwidth and
    max-input sums, addition modulo the leaf's own modulus for the leaves of modular sums.  A leaf stands
    for one entry of its tensor: the operations act entrywise. */
module SecureSum {

  /** The leaves of an update: first the plainly added ones, then one per modulus. */
  datatype Layout = Layout(simple: nat, moduli: seq<int>)

  ghost predicate LayoutValid(l: Layout) { forall i | 0 <= i < |l.moduli| :: l.moduli[i] > 0 }

  function Width(l: Layout): nat { l.simple + |l.moduli| }

  /** floormod for a positive modulus. */
  function FloorMod(x: int, m: int): (r: int)
    requires m > 0
    ensures 0 <= r < m
  {
    x % m
  }

  lemma Quotient(x: int, m: int) returns (k: int)
    requires m > 0
    ensures x == k * m + FloorMod(x, m)
  {
    k := x / m;
  }

  /** `r` is what is left of `x` when `m` is taken away as often as needed. */
  ghost predicate IsRemainder(r: int, x: int, m: int) { 0 <= r < m && exists k :: x == k * m + r }

  lemma FloorModIsRemainder(x: int, m: int)
    requires m > 0
    ensures IsRemainder(FloorMod(x, m), x, m)
  {
    var k := Quotient(x, m);
  }

  /** What accumulator `i` holds of a sum `x`. */
  function Reduced(l: Layout, i: nat, x: int): int
    requires LayoutValid(l) && i < Width(l)
  {
    if i < l.simple then x else FloorMod(x, l.moduli[i - l.simple])
  }

  function Merged(l: Layout, variables: seq<int>, tensors: seq<int>): seq<int>
    requires LayoutValid(l) && |variables| == |tensors| == Width(l)
  {
    seq(Width(l), i requires 0 <= i < Width(l) => Reduced(l, i, variables[i] + tensors[i]))
  }

  /** The merge in place; false stands for the ValueErrors, which leave the variables alone. */
  method MergeSecaggVars(numSimple: nat, numModular: nat, moduli: seq<int>, variables: array<int>, tensors: seq<int>)
    returns (ok: bool)
    requires LayoutValid(Layout(numSimple, moduli))
    modifies variables
    ensures ok <==> variables.Length == |tensors| == numSimple + numModular && numModular == |moduli|
    ensures ok ==> variables[..] == Merged(Layout(numSimple, moduli), old(variables[..]), tensors)
    ensures ok ==> forall i | 0 <= i < numSimple :: variables[i] == old(variables[i]) + tensors[i]
    ensures ok ==> forall k | 0 <= k < |moduli| ::
              IsRemainder(variables[numSimple + k], old(variables[numSimple + k]) + tensors[numSimple + k], moduli[k])
    ensures !ok ==> variables[..] == old(variables[..])
  {
    if variables.Length != |tensors| { return false; }
    if numSimple + numModular != variables.Length { return false; }
    if numModular != |moduli| { return false; }
    for i := 0 to numSimple
      invariant forall j | 0 <= j < i :: variables[j] == old(variables[j]) + tensors[j]
      invariant forall j | i <= j < variables.Length :: variables[j] == old(variables[j])
    {
      variables[i] := variables[i] + tensors[i];
    }
    for k := 0 to |moduli|
      invariant forall j | 0 <= j < numSimple :: variables[j] == old(variables[j]) + tensors[j]
      invariant forall j | numSimple <= j < numSimple + k ::
                  variables[j] == FloorMod(old(variables[j]) + tensors[j], moduli[j - numSimple])
      invariant forall j | numSimple + k <= j < variables.Length :: variables[j] == old(variables[j])
    {
      variables[numSimple + k] := FloorMod(variables[numSimple + k] + tensors[numSimple + k], moduli[k]);
    }
    forall k | 0 <= k < |moduli|
      ensures IsRemainder(variables[numSimple + k], old(variables[numSimple + k]) + tensors[numSimple + k], moduli[k])
    {
      FloorModIsRemainder(old(variables[numSimple + k]) + tensors[numSimple + k], moduli[k]);
    }
    ok := true;
  }

  // ---------------------------------------------------------------- any order, any nesting

  /** How updates are merged: one update, or a round that merges the results of its parts, in order, into
      accumulators that start at zero. */
  datatype Plan = Update(values: seq<int>) | Round(parts: seq<Plan>)

  ghost predicate PlanValid(l: Layout, p: Plan) {
    match p
    case Update(values) => |values| == Width(l)
    case Round(parts) => forall q | q in parts :: PlanValid(l, q)
  }

  function Result(l: Layout, p: Plan): (r: seq<int>)
    requires LayoutValid(l) && PlanValid(l, p)
    ensures |r| == Width(l)
    decreases p, 1
  {
    match p
    case Update(values) => values
    case Round(parts) => ResultOfAll(l, parts)
  }

  function ResultOfAll(l: Layout, parts: seq<Plan>): (r: seq<int>)
    requires LayoutValid(l) && forall q | q in parts :: PlanValid(l, q)
    ensures |r| == Width(l)
    decreases parts, 0
  {
    if parts == [] then seq(Width(l), i => 0)
    else Merged(l, ResultOfAll(l, parts[..|parts| - 1]), Result(l, parts[|parts| - 1]))
  }

  /** The updates that a plan merges. */
  function Leaves(p: Plan): seq<seq<int>>
    decreases p, 1
  {
    match p
    case Update(values) => [values]
    case Round(parts) => LeavesOfAll(parts)
  }

  function LeavesOfAll(parts: seq<Plan>): seq<seq<int>>
    decreases parts, 0
  {
    if parts == [] then [] else LeavesOfAll(parts[..|parts| - 1]) + Leaves(parts[|parts| - 1])
  }

  function SumAt(us: seq<seq<int>>, i: nat): int
    requires forall u | u in us :: i < |u|
  {
    if us == [] then 0 else SumAt(us[..|us| - 1], i) + us[|us| - 1][i]
  }

  lemma {:induction false} SumAtConcat(a: seq<seq<int>>, b: seq<seq<int>>, i: nat)
    requires forall u | u in a + b :: i < |u|
    ensures (forall u | u in a :: i < |u|) && (forall u | u in b :: i < |u|)
    ensures SumAt(a + b, i) == SumAt(a, i) + SumAt(b, i)
  {
    assert forall u | u in a :: u in a + b;
    assert forall u | u in b :: u in a + b;
    if b == [] {
      assert a + b == a;
    } else {
      assert (a + b)[..|a + b| - 1] == a + b[..|b| - 1];
      assert forall u | u in a + b[..|b| - 1] :: u in a + b;
      SumAtConcat(a, b[..|b| - 1], i);
    }
  }

  lemma MultipleIsFar(k: int, m: int)
    requires m > 0 && k != 0
    ensures k * m >= m || k * m <= -m
  {}

  lemma ModUnique(x: int, q: int, r: int, m: int)
    requires 0 <= r < m && x == q * m + r
    ensures FloorMod(x, m) == r
  {
    var p := Quotient(x, m);
    assert (p - q) * m == p * m - q * m;
    if p != q { MultipleIsFar(p - q, m); }
  }

  lemma ModAdd(x: int, y: int, m: int)
    requires m > 0
    ensures FloorMod(FloorMod(x, m) + y, m) == FloorMod(x + y, m)
  {
    var p := Quotient(x, m);
    var q := Quotient(x + y, m);
    assert FloorMod(x, m) + y == (q - p) * m + FloorMod(x + y, m);
    ModUnique(FloorMod(x, m) + y, q - p, FloorMod(x + y, m), m);
  }

  /** A sum may be reduced at any time. */
  lemma ReducedAdd(l: Layout, i: nat, x: int, y: int)
    requires LayoutValid(l) && i < Width(l)
    ensures Reduced(l, i, Reduced(l, i, x) + y) == Reduced(l, i, x + y)
  {
    if i >= l.simple { ModAdd(x, y, l.moduli[i - l.simple]); }
  }

  lemma {:induction false} LeavesWide(l: Layout, p: Plan)
    requires PlanValid(l, p)
    ensures forall u | u in Leaves(p) :: |u| == Width(l)
    decreases p, 1
  {
    if p.Round? { LeavesWideAll(l, p.parts); }
  }

  lemma {:induction false} LeavesWideAll(l: Layout, parts: seq<Plan>)
    requires forall q | q in parts :: PlanValid(l, q)
    ensures forall u | u in LeavesOfAll(parts) :: |u| == Width(l)
    decreases parts, 0
  {
    if parts != [] {
      LeavesWideAll(l, parts[..|parts| - 1]);
      LeavesWide(l, parts[|parts| - 1]);
    }
  }

  lemma {:induction false} LastMerge(l: Layout, parts: seq<Plan>, i: nat)
    requires LayoutValid(l) && i < Width(l) && parts != [] && forall q | q in parts :: PlanValid(l, q)
    ensures ResultOfAll(l, parts)[i] ==
            Reduced(l, i, ResultOfAll(l, parts[..|parts| - 1])[i] + Result(l, parts[|parts| - 1])[i])
  {}

  lemma {:induction false} LeavesOfLast(parts: seq<Plan>, i: nat)
    requires parts != [] && (forall u | u in LeavesOfAll(parts[..|parts| - 1]) :: i < |u|)
    requires forall u | u in Leaves(parts[|parts| - 1]) :: i < |u|
    ensures forall u | u in LeavesOfAll(parts) :: i < |u|
    ensures SumAt(LeavesOfAll(parts), i) ==
            SumAt(LeavesOfAll(parts[..|parts| - 1]), i) + SumAt(Leaves(parts[|parts| - 1]), i)
  {
    var a, b := LeavesOfAll(parts[..|parts| - 1]), Leaves(parts[|parts| - 1]);
    assert LeavesOfAll(parts) == a + b;
    SumAtConcat(a, b, i);
  }

  /** Accumulator `i` of a round holds the reduced sum of the updates. */
  ghost predicate HoldsSum(l: Layout, parts: seq<Plan>, i: nat)
    requires LayoutValid(l) && i < Width(l) && forall q | q in parts :: PlanValid(l, q)
  {
    (forall u | u in LeavesOfAll(parts) :: i < |u|) &&
    ResultOfAll(l, parts)[i] == Reduced(l, i, SumAt(LeavesOfAll(parts), i))
  }

  lemma {:induction false} EmptyHoldsSum(l: Layout, i: nat)
    requires LayoutValid(l) && i < Width(l)
    ensures HoldsSum(l, [], i)
  {
    if i >= l.simple { ModUnique(0, 0, 0, l.moduli[i - l.simple]); }
  }

  lemma {:induction false} RoundStep(l: Layout, parts: seq<Plan>, i: nat)
    requires LayoutValid(l) && i < Width(l) && parts != [] && forall q | q in parts :: PlanValid(l, q)
    requires HoldsSum(l, parts[..|parts| - 1], i)
    requires forall u | u in Leaves(parts[|parts| - 1]) :: i < |u|
    requires Reduced(l, i, Result(l, parts[|parts| - 1])[i]) == Reduced(l, i, SumAt(Leaves(parts[|parts| - 1]), i))
    ensures HoldsSum(l, parts, i)
  {
    var before, last := parts[..|parts| - 1], parts[|parts| - 1];
    var x, y := SumAt(LeavesOfAll(before), i), SumAt(Leaves(last), i);
    var a, b := ResultOfAll(l, before)[i], Result(l, last)[i];
    assert ResultOfAll(l, parts)[i] == Reduced(l, i, a + b) by { LastMerge(l, parts, i); }
    assert Reduced(l, i, a + b) == Reduced(l, i, x + y) by { MergeAddsSums(l, i, a, b, x, y); }
    LeavesOfLast(parts, i);
  }

  /** Whatever the order and the nesting, a round holds the sum of its updates: exactly in a simple leaf,
      reduced by the leaf's own modulus in a modular one. */
  lemma {:induction false} RoundHoldsSum(l: Layout, parts: seq<Plan>, i: nat)
    requires LayoutValid(l) && i < Width(l) && forall q | q in parts :: PlanValid(l, q)
    ensures HoldsSum(l, parts, i)
    decreases parts, 0
  {
    if parts == [] {
      EmptyHoldsSum(l, i);
    } else {
      RoundHoldsSum(l, parts[..|parts| - 1], i);
      PlanHoldsSum(l, parts[|parts| - 1], i);
      RoundStep(l, parts, i);
    }
  }

  lemma {:induction false} PlanHoldsSum(l: Layout, p: Plan, i: nat)
    requires LayoutValid(l) && i < Width(l) && PlanValid(l, p)
    ensures forall u | u in Leaves(p) :: i < |u|
    ensures Reduced(l, i, Result(l, p)[i]) == Reduced(l, i, SumAt(Leaves(p), i))
    decreases p, 1
  {
    LeavesWide(l, p);
    match p
    case Update(values) => assert Leaves(p) == [values] && [values][..0] == [];
    case Round(parts) =>
      RoundHoldsSum(l, parts, i);
      ReducedAdd(l, i, SumAt(LeavesOfAll(parts), i), 0);
  }

  /** The same in plain terms: a simple leaf holds the sum of its entry in every update, and a modular leaf the
      remainder of that sum by the modulus in its own position. */
  lemma RoundHoldsExactly(l: Layout, parts: seq<Plan>, i: nat)
    requires LayoutValid(l) && i < Width(l) && forall q | q in parts :: PlanValid(l, q)
    ensures forall u | u in LeavesOfAll(parts) :: i < |u|
    ensures i < l.simple ==> ResultOfAll(l, parts)[i] == SumAt(LeavesOfAll(parts), i)
    ensures i >= l.simple ==>
              IsRemainder(ResultOfAll(l, parts)[i], SumAt(LeavesOfAll(parts), i), l.moduli[i - l.simple])
  {
    RoundHoldsSum(l, parts, i);
    if i >= l.simple { FloorModIsRemainder(SumAt(LeavesOfAll(parts), i), l.moduli[i - l.simple]); }
  }

  /** The updates of a plan are all its updates, once each and in order. */
  lemma {:induction false} LeavesOfConcat(a: seq<Plan>, b: seq<Plan>)
    ensures LeavesOfAll(a + b) == LeavesOfAll(a) + LeavesOfAll(b)
  {
    if b == [] {
      assert a + b == a;
    } else {
      assert (a + b)[..|a + b| - 1] == a + b[..|b| - 1];
      LeavesOfConcat(a, b[..|b| - 1]);
    }
  }

  lemma {:induction false} LeavesOfOne(p: Plan)
    ensures LeavesOfAll([]) == [] && LeavesOfAll([p]) == Leaves(p)
  {
    assert [p][..0] == [];
  }

  lemma {:induction false} SumOfOne(u: seq<int>, i: nat)
    requires i < |u|
    ensures SumAt([], i) == 0 && SumAt([u], i) == u[i]
  {
    assert [u][..0] == [];
  }

  lemma MergeAddsSums(l: Layout, i: nat, a: int, b: int, x: int, y: int)
    requires LayoutValid(l) && i < Width(l) && a == Reduced(l, i, x) && Reduced(l, i, b) == Reduced(l, i, y)
    ensures Reduced(l, i, a + b) == Reduced(l, i, x + y)
  {
    calc {
      Reduced(l, i, a + b);
    ==  { ReducedAdd(l, i, x, b); }
      Reduced(l, i, b + x);
    ==  { ReducedAdd(l, i, b, x); }
      Reduced(l, i, Reduced(l, i, y) + x);
    ==  { ReducedAdd(l, i, y, x); }
      Reduced(l, i, x + y);
    }
  }

  // ---------------------------------------------------------------- independence of the grouping

  function Without<T>(s: seq<T>, k: nat): (r: seq<T>)
    requires k < |s|
    ensures multiset(r) == multiset(s) - multiset{s[k]}
    ensures forall u | u in r :: u in s
  {
    assert s == s[..k] + [s[k]] + s[k + 1..];
    s[..k] + s[k + 1..]
  }

  lemma SumAtWithout(us: seq<seq<int>>, k: nat, i: nat)
    requires k < |us| && forall u | u in us :: i < |u|
    ensures SumAt(us, i) == SumAt(Without(us, k), i) + us[k][i]
  {
    assert us == us[..k + 1] + us[k + 1..] && us[..k + 1][..k] == us[..k];
    SumAtConcat(us[..k + 1], us[k + 1..], i);
    assert Without(us, k) == us[..k] + us[k + 1..];
    SumAtConcat(us[..k], us[k + 1..], i);
  }

  lemma {:induction false} SumAtPermutes(a: seq<seq<int>>, b: seq<seq<int>>, i: nat)
    requires multiset(a) == multiset(b)
    requires (forall u | u in a :: i < |u|) && forall u | u in b :: i < |u|
    ensures SumAt(a, i) == SumAt(b, i)
    decreases |a|
  {
    assert |multiset(a)| == |a| && |multiset(b)| == |b|;
    if a != [] {
      assert a[0] in multiset(b);
      var k :| 0 <= k < |b| && b[k] == a[0];
      SumAtWithout(a, 0, i);
      SumAtWithout(b, k, i);
      SumAtPermutes(Without(a, 0), Without(b, k), i);
    }
  }

  /** Rounds over the same updates, in any order and however nested, leave the same accumulators. */
  lemma GroupingDoesNotMatter(l: Layout, p: seq<Plan>, q: seq<Plan>)
    requires LayoutValid(l) && PlanValid(l, Round(p)) && PlanValid(l, Round(q))
    requires multiset(LeavesOfAll(p)) == multiset(LeavesOfAll(q))
    ensures Result(l, Round(p)) == Result(l, Round(q))
  {
    forall i: nat | i < Width(l) ensures Result(l, Round(p))[i] == Result(l, Round(q))[i] {
      RoundHoldsSum(l, p, i);
      RoundHoldsSum(l, q, i);
      SumAtPermutes(LeavesOfAll(p), LeavesOfAll(q), i);
    }
  }

  // ---------------------------------------------------------------- the modulus of a max-input sum

  function Sum(inputs: seq<int>): int {
    if inputs == [] then 0 else Sum(inputs[..|inputs| - 1]) + inputs[|inputs| - 1]
  }

  ghost predicate Shard(inputs: seq<int>, maxInput: nat, shardSize: nat) {
    |inputs| <= shardSize && forall i | 0 <= i < |inputs| :: 0 <= inputs[i] <= maxInput
  }

  /** The modulus that a client uses for one shard: the aggregand carries the base, the server the size. */
  function ShardModulus(maxInput: nat, shardSize: nat): nat { (maxInput + 1) * shardSize }

  lemma {:induction false} SumBounded(inputs: seq<int>, maxInput: nat)
    requires forall i | 0 <= i < |inputs| :: 0 <= inputs[i] <= maxInput
    ensures 0 <= Sum(inputs) <= maxInput * |inputs|
  {
    if inputs != [] {
      SumBounded(inputs[..|inputs| - 1], maxInput);
      assert maxInput * |inputs| == maxInput * (|inputs| - 1) + maxInput;
    }
  }

  lemma {:induction false} SumOfCopies(x: int, n: nat)
    ensures Sum(seq(n, i => x)) == x * n
  {
    if n > 0 {
      assert seq(n, i => x)[..n - 1] == seq(n - 1, i => x);
      SumOfCopies(x, n - 1);
      assert x * n == x * (n - 1) + x;
    }
  }

  lemma MulGrows(a: nat, x: nat, y: nat)
    requires x <= y
    ensures a * x <= a * y
  {}

  /** A modulus recovers the sum of every shard exactly when it exceeds the largest such sum. */
  lemma NoWrapExactly(maxInput: nat, shardSize: nat, modulus: int)
    requires modulus > 0
    ensures (forall inputs | Shard(inputs, maxInput, shardSize) :: FloorMod(Sum(inputs), modulus) == Sum(inputs))
       <==> modulus > maxInput * shardSize
  {
    if modulus > maxInput * shardSize {
      forall inputs | Shard(inputs, maxInput, shardSize)
        ensures FloorMod(Sum(inputs), modulus) == Sum(inputs)
      {
        SumBounded(inputs, maxInput);
        MulGrows(maxInput, |inputs|, shardSize);
        ModUnique(Sum(inputs), 0, Sum(inputs), modulus);
      }
    } else {
      var full := seq(shardSize, i => maxInput as int);
      SumOfCopies(maxInput, shardSize);
      assert Shard(full, maxInput, shardSize) && FloorMod(Sum(full), modulus) != Sum(full);
    }
  }

  /** The chosen modulus never wraps; the one without the extra unit wraps, for a full shard of maximal
      inputs, unless it is zero. */
  lemma ShardModulusIsSafe(maxInput: nat, shardSize: nat, inputs: seq<int>)
    requires shardSize > 0 && Shard(inputs, maxInput, shardSize)
    ensures FloorMod(Sum(inputs), ShardModulus(maxInput, shardSize)) == Sum(inputs)
    ensures maxInput > 0 ==> FloorMod(Sum(seq(shardSize, i => maxInput as int)), maxInput * shardSize) == 0
  {
    assert (maxInput + 1) * shardSize == maxInput * shardSize + shardSize;
    NoWrapExactly(maxInput, shardSize, ShardModulus(maxInput, shardSize));
    SumOfCopies(maxInput, shardSize);
    if maxInput > 0 {
      ModUnique(maxInput * shardSize, 1, 0, maxInput * shardSize);
    }
  }

  /** The base modulus is the least that keeps single inputs apart, and a shard multiplies it by its size. */
  lemma BaseModulusIsLeast(maxInput: nat, shardSize: nat, modulus: int)
    requires modulus > 0
    ensures (forall inputs | Shard(inputs, maxInput, 1) :: FloorMod(Sum(inputs), modulus) == Sum(inputs))
       <==> modulus >= ShardModulus(maxInput, 1)
    ensures ShardModulus(maxInput, shardSize) == shardSize * ShardModulus(maxInput, 1)
  {
    NoWrapExactly(maxInput, 1, modulus);
  }
}
