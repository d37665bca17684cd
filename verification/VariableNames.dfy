/** The names and specifications of the tensors of a structured type: flattening with '/'-joined names, naming by
    selection path, and the grouping of flattened outputs. */
module VariableNames {
  import opened Options

  datatype Field = Field(name: Option<string>, value: Type)

  /** A tensor stands for its shape and element type. */
  datatype Type = Tensor(info: int) | Federated(member: Type) | Struct(fields: seq<Field>)

  datatype Spec = Spec(info: int, name: string)

  // ---------------------------------------------------------------- decimal numerals

  function Digit(d: nat): char
    requires d < 10
  {
    "0123456789"[d]
  }

  function Digits(n: nat): (s: string)
    ensures s != [] && SlashFree(s)
  {
    if n < 10 then [Digit(n)] else Digits(n / 10) + [Digit(n % 10)]
  }

  predicate SlashFree(s: string) { forall i | 0 <= i < |s| :: s[i] != '/' }

  /** The number that a decimal numeral stands for. */
  function ValueOf(s: string): nat
    requires forall i | 0 <= i < |s| :: '0' <= s[i] <= '9'
  {
    if s == "" then 0 else 10 * ValueOf(s[..|s| - 1]) + (s[|s| - 1] as int - '0' as int)
  }

  lemma DigitIsDecimal(d: nat)
    requires d < 10
    ensures '0' <= Digit(d) <= '9' && Digit(d) as int - '0' as int == d
  {
  }

  /** A numeral is decimal, without leading zeros, and stands for its number. */
  lemma {:induction false} DigitsRoundTrip(n: nat)
    ensures forall i | 0 <= i < |Digits(n)| :: '0' <= Digits(n)[i] <= '9'
    ensures ValueOf(Digits(n)) == n && (n > 0 ==> Digits(n)[0] != '0') && (n < 10 ==> |Digits(n)| == 1)
  {
    DigitIsDecimal(n % 10);
    if n < 10 {
      assert [Digit(n)][..0] == "";
    } else {
      var s := Digits(n / 10);
      DigitsRoundTrip(n / 10);
      assert Digits(n) == s + [Digit(n % 10)] && Digits(n)[..|s|] == s;
    }
  }

  lemma DigitsInjective(m: nat, n: nat)
    requires Digits(m) == Digits(n)
    ensures m == n
  {
    DigitsRoundTrip(m);
    DigitsRoundTrip(n);
  }

  // ---------------------------------------------------------------- flattening

  function FieldName(f: Field, index: nat): string {
    if f.name.Some? && f.name.value != "" then f.name.value else Digits(index)
  }

  /** The names of the leaves, in order. */
  function Names(t: Type, name: string): seq<string>
    decreases t, 1
  {
    match t
    case Tensor(_) => [name]
    case Federated(member) => Names(member, name)
    case Struct(fields) => FieldNames(fields, name)
  }

  function FieldNames(fields: seq<Field>, name: string): seq<string>
    decreases fields, 0
  {
    if fields == [] then []
    else
      var n := |fields| - 1;
      assert (fields decreases to fields[n]);
      FieldNames(fields[..n], name) + Names(fields[n].value, name + "/" + FieldName(fields[n], n))
  }

  /** The specifications of the leaves, in order. */
  function Specs(t: Type, name: string): seq<Spec>
    decreases t, 1
  {
    match t
    case Tensor(info) => [Spec(info, name)]
    case Federated(member) => Specs(member, name)
    case Struct(fields) => FieldSpecs(fields, name)
  }

  function FieldSpecs(fields: seq<Field>, name: string): seq<Spec>
    decreases fields, 0
  {
    if fields == [] then []
    else
      var n := |fields| - 1;
      assert (fields decreases to fields[n]);
      FieldSpecs(fields[..n], name) + Specs(fields[n].value, name + "/" + FieldName(fields[n], n))
  }

  /** A leaf: the field names that lead to it, and its tensor. */
  datatype Leaf = Leaf(path: seq<string>, info: int)

  function Under(c: string, leaves: seq<Leaf>): seq<Leaf> {
    seq(|leaves|, i requires 0 <= i < |leaves| => Leaf([c] + leaves[i].path, leaves[i].info))
  }

  /** The reference: the leaves themselves, with no joining of names. */
  function Leaves(t: Type): seq<Leaf>
    decreases t, 1
  {
    match t
    case Tensor(info) => [Leaf([], info)]
    case Federated(member) => Leaves(member)
    case Struct(fields) => FieldLeaves(fields)
  }

  function FieldLeaves(fields: seq<Field>): seq<Leaf>
    decreases fields, 0
  {
    if fields == [] then []
    else
      var n := |fields| - 1;
      assert (fields decreases to fields[n]);
      FieldLeaves(fields[..n]) + Under(FieldName(fields[n], n), Leaves(fields[n].value))
  }

  /** Every name of the path, preceded by a slash. */
  function Slashed(path: seq<string>): string {
    if path == [] then "" else "/" + path[0] + Slashed(path[1..])
  }

  ghost predicate NamesOf(names: seq<string>, leaves: seq<Leaf>, name: string) {
    |names| == |leaves| && forall i | 0 <= i < |names| :: names[i] == name + Slashed(leaves[i].path)
  }

  ghost predicate SpecsOf(specs: seq<Spec>, leaves: seq<Leaf>, name: string) {
    |specs| == |leaves| &&
    forall i | 0 <= i < |specs| :: specs[i] == Spec(leaves[i].info, name + Slashed(leaves[i].path))
  }

  lemma SlashedUnder(name: string, c: string, path: seq<string>)
    ensures name + Slashed([c] + path) == (name + "/" + c) + Slashed(path)
  {
    assert ([c] + path)[1..] == path;
  }

  lemma NamesUnder(names: seq<string>, leaves: seq<Leaf>, name: string, c: string)
    requires NamesOf(names, leaves, name + "/" + c)
    ensures NamesOf(names, Under(c, leaves), name)
  {
    forall i | 0 <= i < |leaves| ensures names[i] == name + Slashed(Under(c, leaves)[i].path) {
      SlashedUnder(name, c, leaves[i].path);
    }
  }

  lemma SpecsUnder(specs: seq<Spec>, leaves: seq<Leaf>, name: string, c: string)
    requires SpecsOf(specs, leaves, name + "/" + c)
    ensures SpecsOf(specs, Under(c, leaves), name)
  {
    forall i | 0 <= i < |leaves|
      ensures specs[i] == Spec(leaves[i].info, name + Slashed(Under(c, leaves)[i].path))
    {
      SlashedUnder(name, c, leaves[i].path);
    }
  }

  /** Names and specifications list the same leaves, position by position. */
  lemma {:induction false} FlattenedAlike(t: Type, name: string)
    ensures NamesOf(Names(t, name), Leaves(t), name) && SpecsOf(Specs(t, name), Leaves(t), name)
    decreases t, 1
  {
    match t
    case Tensor(_) =>
    case Federated(member) => FlattenedAlike(member, name);
    case Struct(fields) => FieldsFlattenedAlike(fields, name);
  }

  lemma {:induction false} FieldsFlattenedAlike(fields: seq<Field>, name: string)
    ensures NamesOf(FieldNames(fields, name), FieldLeaves(fields), name)
    ensures SpecsOf(FieldSpecs(fields, name), FieldLeaves(fields), name)
    decreases fields, 0
  {
    if fields != [] {
      var n := |fields| - 1;
      var c := FieldName(fields[n], n);
      FieldsFlattenedAlike(fields[..n], name);
      assert (fields decreases to fields[n]);
      FlattenedAlike(fields[n].value, name + "/" + c);
      NamesUnder(Names(fields[n].value, name + "/" + c), Leaves(fields[n].value), name, c);
      SpecsUnder(Specs(fields[n].value, name + "/" + c), Leaves(fields[n].value), name, c);
    }
  }

  // ---------------------------------------------------------------- unique decodability

  ghost predicate AllSlashFree(path: seq<string>) { forall i | 0 <= i < |path| :: SlashFree(path[i]) }

  /** Up to the first slash: two texts agree only if their parts do. */
  lemma HeadsAgree(a: string, x: string, b: string, y: string)
    requires SlashFree(a) && SlashFree(b) && (x == [] || x[0] == '/') && (y == [] || y[0] == '/')
    requires a + x == b + y
    ensures a == b && x == y
  {
    assert |a| < |a + x| ==> (a + x)[|a|] == '/';
    assert |b| < |b + y| ==> (b + y)[|b|] == '/';
    assert forall i | 0 <= i < |a| :: (a + x)[i] == a[i];
    assert forall i | 0 <= i < |b| :: (b + y)[i] == b[i];
    assert a == (a + x)[..|a|] && b == (b + y)[..|b|];
    assert x == (a + x)[|a|..] && y == (b + y)[|b|..];
  }

  lemma {:induction false} SlashedInjective(p: seq<string>, q: seq<string>)
    requires AllSlashFree(p) && AllSlashFree(q) && Slashed(p) == Slashed(q)
    ensures p == q
  {
    if p != [] && q != [] {
      assert p[0] + Slashed(p[1..]) == Slashed(p)[1..];
      assert q[0] + Slashed(q[1..]) == Slashed(q)[1..];
      HeadsAgree(p[0], Slashed(p[1..]), q[0], Slashed(q[1..]));
      SlashedInjective(p[1..], q[1..]);
      assert p == [p[0]] + p[1..] && q == [q[0]] + q[1..];
    }
  }

  /** The names that fields must have: free of slashes, and different from the names of the siblings, an unnamed
      sibling counting with its index. */
  ghost predicate WellNamed(t: Type)
    decreases t, 1
  {
    match t
    case Tensor(_) => true
    case Federated(member) => WellNamed(member)
    case Struct(fields) => FieldsWellNamed(fields)
  }

  ghost predicate FieldsWellNamed(fields: seq<Field>)
    decreases fields, 0
  {
    (forall i | 0 <= i < |fields| :: assert (fields decreases to fields[i]); WellNamed(fields[i].value)) &&
    (forall i | 0 <= i < |fields| && Named(fields[i]) :: SlashFree(fields[i].name.value)) &&
    (forall i, j | 0 <= i < |fields| && 0 <= j < |fields| && i != j && Named(fields[i]) ::
       fields[i].name.value != FieldName(fields[j], j))
  }

  predicate Named(f: Field) { f.name.Some? && f.name.value != "" }

  lemma SiblingsDiffer(fields: seq<Field>, i: nat, j: nat)
    requires FieldsWellNamed(fields) && i < |fields| && j < |fields| && i != j
    ensures FieldName(fields[i], i) != FieldName(fields[j], j) && SlashFree(FieldName(fields[i], i))
  {
    if !Named(fields[i]) && !Named(fields[j]) {
      if Digits(i) == Digits(j) { DigitsInjective(i, j); }
    }
  }

  ghost predicate DistinctPaths(leaves: seq<Leaf>) {
    (forall i | 0 <= i < |leaves| :: AllSlashFree(leaves[i].path)) &&
    (forall i, j | 0 <= i < j < |leaves| :: leaves[i].path != leaves[j].path)
  }

  ghost predicate HeadedBefore(leaves: seq<Leaf>, fields: seq<Field>) {
    forall i | 0 <= i < |leaves| :: leaves[i].path != [] &&
      exists j | 0 <= j < |fields| :: leaves[i].path[0] == FieldName(fields[j], j)
  }

  lemma {:induction false} PathsDiffer(t: Type)
    requires WellNamed(t)
    ensures DistinctPaths(Leaves(t))
    decreases t, 1
  {
    match t
    case Tensor(_) =>
    case Federated(member) => PathsDiffer(member);
    case Struct(fields) => FieldPathsDiffer(fields);
  }

  lemma {:induction false} FieldPathsDiffer(fields: seq<Field>)
    requires FieldsWellNamed(fields)
    ensures DistinctPaths(FieldLeaves(fields)) && HeadedBefore(FieldLeaves(fields), fields)
    decreases fields, 0
  {
    if fields != [] {
      var n := |fields| - 1;
      FieldPathsDiffer(fields[..n]);
      assert (fields decreases to fields[n]);
      PathsDiffer(fields[n].value);
      forall j: nat | j < n { SiblingsDiffer(fields, n, j); }
      if n == 0 { assert SlashFree(FieldName(fields[n], n)); }
      AppendUnder(FieldLeaves(fields[..n]), FieldName(fields[n], n), Leaves(fields[n].value), fields);
    }
  }

  lemma AppendUnder(before: seq<Leaf>, c: string, leaves: seq<Leaf>, fields: seq<Field>)
    requires fields != [] && var n := |fields| - 1; c == FieldName(fields[n], n) && HeadedBefore(before, fields[..n])
    requires forall j | 0 <= j < |fields| - 1 :: FieldName(fields[j], j) != c
    requires SlashFree(c) && DistinctPaths(before) && DistinctPaths(leaves)
    ensures DistinctPaths(before + Under(c, leaves)) && HeadedBefore(before + Under(c, leaves), fields)
  {
    var all := before + Under(c, leaves);
    forall i | 0 <= i < |before| ensures before[i].path[0] != c {
      var j :| 0 <= j < |fields| - 1 && before[i].path[0] == FieldName(fields[..|fields| - 1][j], j);
    }
    forall i, j | |before| <= i < j < |all| ensures all[i].path != all[j].path {
      assert all[i].path[1..] == leaves[i - |before|].path && all[j].path[1..] == leaves[j - |before|].path;
    }
    forall i | 0 <= i < |all|
      ensures all[i].path != [] && exists j | 0 <= j < |fields| :: all[i].path[0] == FieldName(fields[j], j)
    {
      if i < |before| {
        var j :| 0 <= j < |fields| - 1 && all[i].path[0] == FieldName(fields[..|fields| - 1][j], j);
        assert all[i].path[0] == FieldName(fields[j], j);
      }
    }
  }

  /** Different leaves have different names. */
  lemma NamesAreDistinct(t: Type, name: string, i: nat, j: nat)
    requires WellNamed(t) && i < j < |Names(t, name)|
    ensures Names(t, name)[i] != Names(t, name)[j]
  {
    FlattenedAlike(t, name);
    PathsDiffer(t);
    if Names(t, name)[i] == Names(t, name)[j] {
      var p, q := Leaves(t)[i].path, Leaves(t)[j].path;
      assert Slashed(p) == (name + Slashed(p))[|name|..] && Slashed(q) == (name + Slashed(q))[|name|..];
      SlashedInjective(p, q);
    }
  }

  lemma OneMoreField(fields: seq<Field>, f: Field, name: string)
    ensures FieldNames(fields + [f], name) ==
            FieldNames(fields, name) + Names(f.value, name + "/" + FieldName(f, |fields|))
  {
    assert (fields + [f])[..|fields|] == fields;
  }

  lemma TwoFields(f: Field, g: Field, name: string)
    ensures Names(Struct([f, g]), name) ==
            Names(f.value, name + "/" + FieldName(f, 0)) + Names(g.value, name + "/" + FieldName(g, 1))
  {
    OneMoreField([], f, name);
    OneMoreField([f], g, name);
    assert [] + [f] == [f] && [f] + [g] == [f, g] && FieldNames([], name) == [];
  }

  lemma OneField(f: Field, name: string)
    ensures Names(Struct([f]), name) == Names(f.value, name + "/" + FieldName(f, 0))
  {
    OneMoreField([], f, name);
    assert [] + [f] == [f] && FieldNames([], name) == [];
  }

  /** A name that looks like the index of an unnamed sibling collides with it. */
  lemma IndexNameCollides(x: int, y: int, name: string)
    ensures var t := Struct([Field(None, Tensor(x)), Field(Some("0"), Tensor(y))]);
            Names(t, name) == [name + "/0", name + "/0"] && !WellNamed(t)
  {
    var f, g := Field(None, Tensor(x)), Field(Some("0"), Tensor(y));
    TwoFields(f, g, name);
    assert FieldName(f, 0) == "0" && FieldName(g, 1) == "0" && name + "/" + "0" == name + "/0";
    assert !FieldsWellNamed([f, g]) by { assert Named([f, g][1]) && FieldName([f, g][0], 0) == "0"; }
  }

  /** A name with a slash collides with a nested field. */
  lemma SlashedNameCollides(x: int, y: int, name: string)
    ensures var t := Struct([Field(Some("a/b"), Tensor(x)), Field(Some("a"), Struct([Field(Some("b"), Tensor(y))]))]);
            Names(t, name) == [name + "/a/b", name + "/a/b"] && !WellNamed(t)
  {
    var inner := Field(Some("b"), Tensor(y));
    var f, g := Field(Some("a/b"), Tensor(x)), Field(Some("a"), Struct([inner]));
    TwoFields(f, g, name);
    OneField(inner, name + "/" + "a");
    assert name + "/" + "a" + "/" + "b" == name + "/a/b" && name + "/" + "a/b" == name + "/a/b";
    assert !FieldsWellNamed([f, g]) by { assert Named([f, g][0]) && "a/b"[1] == '/'; }
  }

  /** The name of a field is its own, or its index if it has none or an empty one. */
  lemma FieldNameExactly(f: Field, index: nat, name: string, info: int)
    ensures f.name.Some? && f.name.value != "" ==> FieldName(f, index) == f.name.value
    ensures f.name.None? || f.name.value == "" ==>
              && FieldName(f, index) != ""
              && (forall i | 0 <= i < |FieldName(f, index)| :: '0' <= FieldName(f, index)[i] <= '9')
              && ValueOf(FieldName(f, index)) == index
    ensures Names(Tensor(info), name) == [name]
  {
    DigitsRoundTrip(index);
  }

  // ---------------------------------------------------------------- shared names of secure tensors

  /** The name under which client and server exchange one secure tensor. */
  function SharedName(name: string): string { "sidechannel_" + name + ":0" }

  function SharedNames(intrinsic: string, t: Type): seq<string> {
    var names := Names(t, UpdateName(intrinsic));
    seq(|names|, i requires 0 <= i < |names| => SharedName(names[i]))
  }

  const BITWIDTH := "federated_secure_sum_bitwidth"
  const MAX_INPUT := "federated_secure_sum"
  const MODULAR := "federated_secure_modular_sum"

  lemma SharedNameInjective(a: string, b: string)
    requires SharedName(a) == SharedName(b)
    ensures a == b
  {
    assert a == SharedName(a)[12..|SharedName(a)| - 2] && b == SharedName(b)[12..|SharedName(b)| - 2];
  }

  function UpdateName(intrinsic: string): string { "secagg_" + intrinsic + "_update" }

  lemma UpdateNamesDiffer(a: string, b: string)
    requires SlashFree(a) && SlashFree(b)
    ensures SlashFree(UpdateName(a)) && SlashFree(UpdateName(b))
    ensures UpdateName(a) == UpdateName(b) ==> a == b
  {
    var x, y := UpdateName(a), UpdateName(b);
    assert a == x[7..|x| - 7] && b == y[7..|y| - 7];
  }

  lemma IntrinsicsDiffer(a: string, t: Type, i: nat, b: string, u: Type, j: nat)
    requires SlashFree(a) && SlashFree(b) && a != b
    requires i < |Names(t, UpdateName(a))| && j < |Names(u, UpdateName(b))|
    ensures Names(t, UpdateName(a))[i] != Names(u, UpdateName(b))[j]
  {
    var x, y := UpdateName(a), UpdateName(b);
    UpdateNamesDiffer(a, b);
    FlattenedAlike(t, x);
    FlattenedAlike(u, y);
    if Names(t, x)[i] == Names(u, y)[j] {
      HeadsAgree(x, Slashed(Leaves(t)[i].path), y, Slashed(Leaves(u)[j].path));
    }
  }

  /** No two secure tensors, of one intrinsic or of two, share a name. */
  lemma SharedNamesDiffer(a: string, t: Type, i: nat, b: string, u: Type, j: nat)
    requires WellNamed(t) && WellNamed(u) && SlashFree(a) && SlashFree(b)
    requires i < |SharedNames(a, t)| && j < |SharedNames(b, u)|
    requires a != b || (t == u && i != j)
    ensures SharedNames(a, t)[i] != SharedNames(b, u)[j]
  {
    if a != b {
      IntrinsicsDiffer(a, t, i, b, u, j);
    } else if i < j {
      NamesAreDistinct(t, UpdateName(a), i, j);
    } else {
      NamesAreDistinct(t, UpdateName(a), j, i);
    }
    if SharedNames(a, t)[i] == SharedNames(b, u)[j] {
      SharedNameInjective(Names(t, UpdateName(a))[i], Names(u, UpdateName(b))[j]);
    }
  }

  /** The list of names on either side: bitwidth sums, then max-input sums, then modular sums. */
  function AllSharedNames(bitwidth: Type, maxInput: Type, modular: Type): seq<string> {
    SharedNames(BITWIDTH, bitwidth) + SharedNames(MAX_INPUT, maxInput) + SharedNames(MODULAR, modular)
  }

  /** The variables of the modular sums come last, as they do where the sums are merged. */
  lemma ModularNamesComeLast(bitwidth: Type, maxInput: Type, modular: Type)
    ensures var simple := |Leaves(bitwidth)| + |Leaves(maxInput)|;
            var all := AllSharedNames(bitwidth, maxInput, modular);
            && |all| == simple + |Leaves(modular)|
            && all[simple..] == SharedNames("federated_secure_modular_sum", modular)
            && all[..|Leaves(bitwidth)|] == SharedNames("federated_secure_sum_bitwidth", bitwidth)
            && all[|Leaves(bitwidth)|..simple] == SharedNames("federated_secure_sum", maxInput)
  {
    FlattenedAlike(bitwidth, UpdateName(BITWIDTH));
    FlattenedAlike(maxInput, UpdateName(MAX_INPUT));
    FlattenedAlike(modular, UpdateName(MODULAR));
  }

  /** The shared name of leaf `i`, written out. */
  lemma SharedNameOfLeaf(intrinsic: string, t: Type, i: nat)
    requires i < |Leaves(t)|
    ensures |SharedNames(intrinsic, t)| == |Leaves(t)|
    ensures SharedNames(intrinsic, t)[i] ==
            "sidechannel_" + ("secagg_" + intrinsic + "_update" + Slashed(Leaves(t)[i].path)) + ":0"
  {
    FlattenedAlike(t, UpdateName(intrinsic));
  }

  ghost predicate AllDifferent(s: seq<string>) { forall i, j | 0 <= i < j < |s| :: s[i] != s[j] }

  ghost predicate NoneShared(s: seq<string>, t: seq<string>) {
    forall i, j | 0 <= i < |s| && 0 <= j < |t| :: s[i] != t[j]
  }

  lemma OneIntrinsic(a: string, t: Type)
    requires WellNamed(t) && SlashFree(a)
    ensures AllDifferent(SharedNames(a, t))
  {
    forall i: nat, j: nat | i < j < |SharedNames(a, t)| { SharedNamesDiffer(a, t, i, a, t, j); }
  }

  lemma TwoIntrinsics(a: string, t: Type, b: string, u: Type)
    requires WellNamed(t) && WellNamed(u) && SlashFree(a) && SlashFree(b) && a != b
    ensures NoneShared(SharedNames(a, t), SharedNames(b, u))
  {
    forall i: nat, j: nat | i < |SharedNames(a, t)| && j < |SharedNames(b, u)| { SharedNamesDiffer(a, t, i, b, u, j); }
  }

  /** The names key a map, so each variable needs its own. */
  lemma AllSharedNamesDiffer(bitwidth: Type, maxInput: Type, modular: Type)
    requires WellNamed(bitwidth) && WellNamed(maxInput) && WellNamed(modular)
    ensures AllDifferent(AllSharedNames(bitwidth, maxInput, modular))
  {
    assert |BITWIDTH| != |MAX_INPUT| && |MAX_INPUT| != |MODULAR| && |BITWIDTH| != |MODULAR|;
    OneIntrinsic(BITWIDTH, bitwidth);
    OneIntrinsic(MAX_INPUT, maxInput);
    OneIntrinsic(MODULAR, modular);
    TwoIntrinsics(BITWIDTH, bitwidth, MAX_INPUT, maxInput);
    TwoIntrinsics(BITWIDTH, bitwidth, MODULAR, modular);
    TwoIntrinsics(MAX_INPUT, maxInput, MODULAR, modular);
  }
}
